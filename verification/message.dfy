/**
 Messages and events as the library sees them: a header map, a body and a
 content type (the fs.IEvent interface and goesl's Message). Go maps are
 sequences of header pairs here; `DistinctKeys` is the map's key uniqueness.
 */
module Message {
  import opened Base

  /** Keys of a header sequence are pairwise different, as in a Go map. */
  predicate DistinctKeys(h: seq<Header>) {
    forall i, j :: 0 <= i < j < |h| ==> h[i].0 != h[j].0
  }

  /** Go's `m[key]` on a map of strings: the value, or "" when the key is absent. */
  function Lookup(h: seq<Header>, key: string): (v: string)
    ensures (forall i :: 0 <= i < |h| ==> h[i].0 != key) ==> v == ""
    ensures v != "" ==> exists i :: 0 <= i < |h| && h[i] == (key, v)
    decreases |h|
  {
    if |h| == 0 then ""
    else if h[0].0 == key then h[0].1
    else Lookup(h[1..], key)
  }

  /** With unique keys, looking up a present key gives its value. */
  lemma {:induction false} LookupFinds(h: seq<Header>, i: nat)
    requires DistinctKeys(h) && i < |h|
    ensures Lookup(h, h[i].0) == h[i].1
    decreases |h|
  {
    if i > 0 {
      assert DistinctKeys(h[1..]) by {
        forall a, b | 0 <= a < b < |h| - 1 ensures h[1..][a].0 != h[1..][b].0 {
          assert h[1..][a] == h[a + 1] && h[1..][b] == h[b + 1];
        }
      }
      assert h[0].0 != h[i].0;
      assert h[1..][i - 1] == h[i];
      LookupFinds(h[1..], i - 1);
    }
  }

  /** Lookup in a Go map does not depend on the order its entries are listed in. */
  lemma LookupOrderIndependent(h1: seq<Header>, h2: seq<Header>, key: string)
    requires DistinctKeys(h1) && DistinctKeys(h2) && multiset(h1) == multiset(h2)
    ensures Lookup(h1, key) == Lookup(h2, key)
  {
    var v1 := Lookup(h1, key);
    var v2 := Lookup(h2, key);
    if v1 != "" {
      var i :| 0 <= i < |h1| && h1[i] == (key, v1);
      assert h1[i] in multiset(h2);
      var j :| 0 <= j < |h2| && h2[j] == h1[i];
      LookupFinds(h2, j);
    } else if v2 != "" {
      var j :| 0 <= j < |h2| && h2[j] == (key, v2);
      assert h2[j] in multiset(h1);
      var i :| 0 <= i < |h1| && h1[i] == h2[j];
      LookupFinds(h1, i);
    }
  }

  /** A parsed message or event: headers, raw body and content type. */
  datatype Message = Message(headers: seq<Header>, body: string, contentType: string) {
    /** GetHeader: the header's value, or "" when absent. */
    function Get(name: string): string {
      Lookup(headers, name)
    }
  }

  const EventName := "Event-Name"
  const UniqueId := "Unique-ID"
  const ApplicationUuid := "Application-UUID"

  const ChannelPark := "CHANNEL_PARK"
  const ChannelExecuteComplete := "CHANNEL_EXECUTE_COMPLETE"
  const ChannelDestroy := "CHANNEL_DESTROY"
  const ChannelHangupName := "CHANNEL_HANGUP"
  const ChannelHangupComplete := "CHANNEL_HANGUP_COMPLETE"
}
