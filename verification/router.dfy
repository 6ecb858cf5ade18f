/**
 The connection-level router of the earlier revision
 (EslConnectionHandler in eslsession/eslsession.go) and the per-session
 handler that forwards a session's commands (eslSessionHandler, in that
 file and in the top-level session.go).

 The router keeps a registry from channel Unique-ID to session. Sessions
 are named by the order in which they were started; the non-blocking
 forward of an event succeeds exactly when the session is receiving, which
 each step is told.
 */
module Router {
  import opened Base
  import opened Text
  import opened Message
  import opened Wire

  /** A session, by the order it was started in. */
  type SessionId = nat

  /** The registry of sessions by channel uuid, and the id the next session will get. */
  datatype Registry = Registry(sessions: map<string, SessionId>, next: SessionId)

  /** What one read of the connection gave: a message, or an error by its text. */
  datatype ReadOutcome = Got(msg: Message) | ReadError(text: string)

  /** What the router did with one read. */
  datatype Action =
    | Started(uuid: string, session: SessionId)       // CHANNEL_PARK: a session handler was started for the channel
    | Removed(uuid: string)                           // CHANNEL_DESTROY of a registered channel: unregistered, not forwarded
    | Forwarded(session: SessionId, msg: Message)     // handed to a session that was receiving
    | Dropped(session: SessionId, msg: Message)       // a registered session that was not receiving
    | Ignored                                         // no channel uuid, or one nobody registered
    | Skipped(text: string)                           // a read error the loop passes over
    | Broadcast(text: string, targets: set<SessionId>) // a read error sent to every session, ending the loop

  /** The read errors that end the loop: any mentioning EOF, and the JSON decoder's truncated-input error. */
  predicate Fatal(text: string) {
    Contains(text, "EOF") || text == "unexpected end of JSON input"
  }

  lemma FatalExamples()
    ensures Fatal("EOF") && Fatal("unexpected EOF") && Fatal("unexpected end of JSON input")
    ensures !Fatal("connection reset by peer")
  {
    assert OccursAt("EOF", "EOF", 0);
    assert OccursAt("unexpected EOF", "EOF", 11);
    AbsentChar("connection reset by peer", "EOF", 0);
  }

  /** Ids below `next` are taken: every registered session has one. */
  predicate Fresh(r: Registry) {
    forall u :: u in r.sessions ==> r.sessions[u] < r.next
  }

  /** One turn of the router loop; the flag says whether the loop ends. */
  function Step(r: Registry, input: ReadOutcome, receiving: bool): (o: (Registry, Action, bool))
    ensures Fresh(r) ==> Fresh(o.0)
    ensures o.2 <==> input.ReadError? && Fatal(input.text)
    ensures o.2 ==> o.0 == r && o.1 == Broadcast(input.text, r.sessions.Values)
    ensures input.ReadError? && !Fatal(input.text) ==> o == (r, Skipped(input.text), false)
    ensures input.Got? && input.msg.Get(EventName) == ChannelPark ==>
      o.0 == Registry(r.sessions[input.msg.Get(UniqueId) := r.next], r.next + 1) &&
      o.1 == Started(input.msg.Get(UniqueId), r.next)
    ensures input.Got? && input.msg.Get(EventName) != ChannelPark ==>
      var uuid := input.msg.Get(UniqueId);
      if uuid == "" || uuid !in r.sessions then o == (r, Ignored, false)
      else if input.msg.Get(EventName) == ChannelDestroy then o == (r.(sessions := r.sessions - {uuid}), Removed(uuid), false)
      else o == (r, if receiving then Forwarded(r.sessions[uuid], input.msg) else Dropped(r.sessions[uuid], input.msg), false)
  {
    match input
    case ReadError(text) =>
      if !Fatal(text) then (r, Skipped(text), false)
      else (r, Broadcast(text, r.sessions.Values), true)
    case Got(msg) =>
      var name := msg.Get(EventName);
      var uuid := msg.Get(UniqueId);
      if name == ChannelPark then
        (Registry(r.sessions[uuid := r.next], r.next + 1), Started(uuid, r.next), false)
      else if uuid != "" && uuid in r.sessions then
        if name == ChannelDestroy then (r.(sessions := r.sessions - {uuid}), Removed(uuid), false)
        else if receiving then (r, Forwarded(r.sessions[uuid], msg), false)
        else (r, Dropped(r.sessions[uuid], msg), false)
      else (r, Ignored, false)
  }

  /** A second park of the same channel replaces the first session, which nothing can reach any more. */
  lemma ParkTwiceOrphans(r: Registry, m1: Message, m2: Message, b1: bool, b2: bool)
    requires Fresh(r)
    requires m1.Get(EventName) == ChannelPark && m2.Get(EventName) == ChannelPark
    requires m1.Get(UniqueId) == m2.Get(UniqueId)
    ensures var r2 := Step(Step(r, Got(m1), b1).0, Got(m2), b2).0;
            r2.sessions[m1.Get(UniqueId)] == r.next + 1 && r.next !in r2.sessions.Values
  {
    var u := m1.Get(UniqueId);
    var r2 := Step(Step(r, Got(m1), b1).0, Got(m2), b2).0;
    assert r2.sessions == r.sessions[u := r.next + 1];
    forall v | v in r2.sessions ensures r2.sessions[v] != r.next {
      if v != u {
        assert r2.sessions[v] == r.sessions[v] < r.next;
      }
    }
  }

  /** The registry after stepping through all of `inputs`, fatal or not. */
  function Reached(r: Registry, inputs: seq<(ReadOutcome, bool)>): Registry
    decreases |inputs|
  {
    if |inputs| == 0 then r else Reached(Step(r, inputs[0].0, inputs[0].1).0, inputs[1..])
  }

  /** `k` is the first read that ends the loop. */
  predicate FatalAt(inputs: seq<(ReadOutcome, bool)>, k: nat) {
    k < |inputs| && inputs[k].0.ReadError? && Fatal(inputs[k].0.text)
    && forall j :: 0 <= j < k ==> !(inputs[j].0.ReadError? && Fatal(inputs[j].0.text))
  }

  /**
   The router loop over reads and, for each, whether its session is
   receiving. Action i is what Step does on read i from the registry the
   reads before it left; the loop stops right after the first fatal error.
   */
  function Run(r: Registry, inputs: seq<(ReadOutcome, bool)>): (o: (Registry, seq<Action>))
    ensures |o.1| <= |inputs|
    ensures forall i :: 0 <= i < |o.1| ==> o.1[i] == Step(Reached(r, inputs[..i]), inputs[i].0, inputs[i].1).1
    ensures o.0 == Reached(r, inputs[..|o.1|])
    ensures forall k: nat :: FatalAt(inputs, k) ==> |o.1| == k + 1
    ensures (forall j :: 0 <= j < |inputs| ==> !(inputs[j].0.ReadError? && Fatal(inputs[j].0.text))) ==> |o.1| == |inputs|
    ensures Fresh(r) ==> Fresh(o.0)
    ensures forall i :: 0 <= i < |o.1| - 1 ==> !o.1[i].Broadcast?
    decreases |inputs|
  {
    if |inputs| == 0 then (r, [])
    else
      var s := Step(r, inputs[0].0, inputs[0].1);
      ReachedShift(r, inputs);
      if s.2 then
        assert forall k: nat :: FatalAt(inputs, k) ==> k == 0;
        (s.0, [s.1])
      else
        var rest := Run(s.0, inputs[1..]);
        FatalShift(inputs);
        ActionsShift(r, inputs, rest.1);
        (rest.0, [s.1] + rest.1)
  }

  /** The actions of the rest of the reads, after the first read's action, are the actions of all of them. */
  lemma ActionsShift(r: Registry, inputs: seq<(ReadOutcome, bool)>, acts: seq<Action>)
    requires |inputs| > 0 && |acts| < |inputs|
    requires forall i :: 0 <= i < |acts| ==>
      acts[i] == Step(Reached(Step(r, inputs[0].0, inputs[0].1).0, inputs[1..][..i]), inputs[1..][i].0, inputs[1..][i].1).1
    ensures forall i :: 0 <= i < |acts| + 1 ==>
      ([Step(r, inputs[0].0, inputs[0].1).1] + acts)[i] == Step(Reached(r, inputs[..i]), inputs[i].0, inputs[i].1).1
  {
    ReachedShift(r, inputs);
    forall i | 0 <= i < |acts| + 1
      ensures ([Step(r, inputs[0].0, inputs[0].1).1] + acts)[i] == Step(Reached(r, inputs[..i]), inputs[i].0, inputs[i].1).1
    {
      if i > 0 {
        assert inputs[1..][i - 1] == inputs[i];
      }
    }
  }

  /** Reaching through a non-empty prefix is stepping once, then reaching through the rest of it. */
  lemma ReachedShift(r: Registry, inputs: seq<(ReadOutcome, bool)>)
    requires |inputs| > 0
    ensures Reached(r, inputs[..0]) == r
    ensures forall i :: 0 < i <= |inputs| ==>
      Reached(r, inputs[..i]) == Reached(Step(r, inputs[0].0, inputs[0].1).0, inputs[1..][..i - 1])
  {
    assert inputs[..0] == [];
    forall i | 0 < i <= |inputs|
      ensures Reached(r, inputs[..i]) == Reached(Step(r, inputs[0].0, inputs[0].1).0, inputs[1..][..i - 1])
    {
      assert inputs[..i][1..] == inputs[1..][..i - 1];
    }
  }

  /** When the first read is not fatal, the first fatal read is one further on than in the rest. */
  lemma FatalShift(inputs: seq<(ReadOutcome, bool)>)
    requires |inputs| > 0 && !(inputs[0].0.ReadError? && Fatal(inputs[0].0.text))
    ensures forall k: nat :: FatalAt(inputs, k) ==> k > 0 && FatalAt(inputs[1..], k - 1)
  {
  }

  /**
   Whether uuid `u` is registered after `inputs`, from its own events only:
   a park registers it, a destroy (of a non-empty uuid) unregisters it, and
   a fatal error freezes the answer.
   */
  function Registered(u: string, before: bool, inputs: seq<(ReadOutcome, bool)>): bool
    decreases |inputs|
  {
    if |inputs| == 0 then before
    else match inputs[0].0
      case ReadError(text) => if Fatal(text) then before else Registered(u, before, inputs[1..])
      case Got(m) =>
        var now :=
          if m.Get(EventName) == ChannelPark && m.Get(UniqueId) == u then true
          else if m.Get(EventName) == ChannelDestroy && m.Get(UniqueId) == u && u != "" then false
          else before;
        Registered(u, now, inputs[1..])
  }

  /** The registry after a run holds exactly the uuids whose own park/destroy history leaves them registered. */
  lemma {:induction false} RunRegistry(r: Registry, inputs: seq<(ReadOutcome, bool)>, u: string)
    ensures u in Run(r, inputs).0.sessions <==> Registered(u, u in r.sessions, inputs)
    decreases |inputs|
  {
    if |inputs| > 0 {
      var s := Step(r, inputs[0].0, inputs[0].1);
      if !s.2 {
        if inputs[0].0.Got? {
          StepRegisters(r, inputs[0].0, inputs[0].1, u);
        }
        RunRegistry(s.0, inputs[1..], u);
      }
    }
  }

  /** One event changes whether `u` is registered only when it is a park or destroy of `u` itself. */
  lemma StepRegisters(r: Registry, input: ReadOutcome, receiving: bool, u: string)
    requires input.Got?
    ensures u in Step(r, input, receiving).0.sessions <==>
      if input.msg.Get(EventName) == ChannelPark && input.msg.Get(UniqueId) == u then true
      else if input.msg.Get(EventName) == ChannelDestroy && input.msg.Get(UniqueId) == u && u != "" then false
      else u in r.sessions
  {
    assert ChannelPark != ChannelDestroy by {
      assert ChannelPark[8] != ChannelDestroy[8];
    }
  }

  // ---- the session handler ----

  /**
   The commands a session handler forwards, in the order they were queued,
   each through SendMsg for the session's uuid without a body; the result of
   each send is ignored, so a refused or failed command does not stop the
   ones after it. `links` gives the socket's behaviour for each send.
   */
  function Forward(uuid: string, cmds: seq<seq<Header>>, links: seq<Link>): (w: string)
    requires |links| == |cmds|
    ensures w == Concat(SentTexts(uuid, cmds, links))
    decreases |cmds|
  {
    if |cmds| == 0 then ""
    else
      assert SentTexts(uuid, cmds, links) == [SendMsg(cmds[0], uuid, "", links[0]).written] + SentTexts(uuid, cmds[1..], links[1..]);
      SendMsg(cmds[0], uuid, "", links[0]).written + Forward(uuid, cmds[1..], links[1..])
  }

  /** What each command's sendmsg writes on its own link, command by command. */
  function SentTexts(uuid: string, cmds: seq<seq<Header>>, links: seq<Link>): (ts: seq<string>)
    requires |links| == |cmds|
    ensures |ts| == |cmds|
    ensures forall i :: 0 <= i < |cmds| ==> ts[i] == SendMsg(cmds[i], uuid, "", links[i]).written
  {
    seq(|cmds|, i requires 0 <= i < |cmds| => SendMsg(cmds[i], uuid, "", links[i]).written)
  }

  /** Forwarding two batches writes the first batch's text, then the second's. */
  lemma {:induction false} ForwardAppend(uuid: string, a: seq<seq<Header>>, b: seq<seq<Header>>, la: seq<Link>, lb: seq<Link>)
    requires |la| == |a| && |lb| == |b|
    ensures Forward(uuid, a + b, la + lb) == Forward(uuid, a, la) + Forward(uuid, b, lb)
    decreases |a|
  {
    if |a| == 0 {
      assert a + b == b && la + lb == lb;
    } else {
      assert (a + b)[1..] == a[1..] + b;
      assert (la + lb)[1..] == la[1..] + lb;
      ForwardAppend(uuid, a[1..], b, la[1..], lb);
    }
  }

  /** A command sendmsg refuses writes nothing, and forwarding goes on with the next. */
  lemma ForwardPastRefused(uuid: string, bad: seq<Header>, rest: seq<seq<Header>>, l: Link, ls: seq<Link>)
    requires |ls| == |rest|
    requires SendMsgFrame(bad, uuid, "").Err?
    ensures Forward(uuid, [bad] + rest, [l] + ls) == Forward(uuid, rest, ls)
  {
    assert ([bad] + rest)[1..] == rest && ([l] + ls)[1..] == ls;
  }

  /** The frames of the commands, in order. */
  function Frames(uuid: string, cmds: seq<seq<Header>>): string
    requires forall i :: 0 <= i < |cmds| ==> SendMsgFrame(cmds[i], uuid, "").Ok?
    decreases |cmds|
  {
    if |cmds| == 0 then "" else SendMsgFrame(cmds[0], uuid, "").value + Frames(uuid, cmds[1..])
  }

  /** When every command is valid and every write goes through, the socket sees exactly the frames in order. */
  lemma {:induction false} ForwardWritesFrames(uuid: string, cmds: seq<seq<Header>>, links: seq<Link>)
    requires |links| == |cmds|
    requires forall i :: 0 <= i < |cmds| ==> SendMsgFrame(cmds[i], uuid, "").Ok?
    requires forall i :: 0 <= i < |links| ==> links[i].accepted >= 1
    ensures Forward(uuid, cmds, links) == Frames(uuid, cmds)
    decreases |cmds|
  {
    if |cmds| > 0 {
      ForwardWritesFrames(uuid, cmds[1..], links[1..]);
    }
  }
}
