/**
 Go's strconv.ParseUint(s, 10, 32), which the session facade uses to read a
 collected digit back from an event header.
 */
module Numbers {
  import opened Base
  import opened Text

  const MaxUint32: nat := 0xFFFF_FFFF

  /** What ParseUint returns: a value, and an error that may accompany it. */
  datatype Parsed = Parsed(value: nat, err: Option<Error>)

  /** The two error shapes ParseUint produces, each with the value it returns beside it. */
  predicate WellFormedFailure(input: string, r: Parsed) {
    || (r.err == Some(NumSyntax(input)) && r.value == 0)
    || (r.err == Some(NumRange(input)) && r.value == MaxUint32)
  }

  /**
   Some all-digit prefix of `s`, read on from `acc`, exceeds 2^32 - 1: the
   scan meets a digit that overflows before it meets a non-digit.
   */
  predicate OverflowsFrom(acc: nat, s: string) {
    exists k :: 0 < k <= |s| && AllDigits(s[..k]) && DecimalFrom(acc, s[..k]) > MaxUint32
  }

  /**
   Go's strconv.ParseUint(s, 10, 32). The empty string is a syntax error.
   Digits are consumed left to right, and the scan stops at the first
   character that is not a digit (syntax error, value 0) or at the first
   digit that takes the value past 2^32 - 1 (range error, value 2^32 - 1),
   whichever comes first.
   */
  function ParseUint32(s: string): (r: Parsed)
    ensures r.err.None? <==> |s| > 0 && AllDigits(s) && DecimalFrom(0, s) <= MaxUint32
    ensures r.err.None? ==> r.value == DecimalFrom(0, s)
    ensures r.err.Some? ==> WellFormedFailure(s, r)
    ensures |s| == 0 ==> r == Parsed(0, Some(NumSyntax(s)))
    ensures r.err == Some(NumRange(s)) <==> OverflowsFrom(0, s)
    ensures r.value <= MaxUint32
  {
    if |s| == 0 then Parsed(0, Some(NumSyntax(s))) else Scan(s, s, 0)
  }

  /** The digit loop of ParseUint, over the unread rest `s` of `input`. */
  function Scan(input: string, s: string, acc: nat): (r: Parsed)
    requires acc <= MaxUint32
    ensures r.err.None? <==> AllDigits(s) && DecimalFrom(acc, s) <= MaxUint32
    ensures r.err.None? ==> r.value == DecimalFrom(acc, s)
    ensures r.err.Some? ==> WellFormedFailure(input, r)
    ensures r.err == Some(NumRange(input)) <==> OverflowsFrom(acc, s)
    ensures r.value <= MaxUint32
    decreases |s|
  {
    if |s| == 0 then Parsed(acc, None)
    else if !IsDigit(s[0]) then
      assert forall k :: 0 < k <= |s| ==> s[..k][0] == s[0];
      Parsed(0, Some(NumSyntax(input)))
    else
      var n := acc * 10 + DigitValue(s[0]);
      assert AllDigits(s) <==> AllDigits(s[1..]) by {
        assert forall i :: 0 <= i < |s| - 1 ==> s[1..][i] == s[i + 1];
      }
      if n > MaxUint32 then
        assert AllDigits(s) ==> DecimalFrom(n, s[1..]) >= n by {
          if AllDigits(s) {
            DecimalFromGrows(n, s[1..]);
          }
        }
        assert s[..1][1..] == [] && AllDigits(s[..1]) && DecimalFrom(acc, s[..1]) == n;
        Parsed(MaxUint32, Some(NumRange(input)))
      else
        OverflowsShift(acc, s);
        Scan(input, s[1..], n)
  }

  /** Past a digit that does not overflow, overflowing is decided by the rest. */
  lemma OverflowsShift(acc: nat, s: string)
    requires |s| > 0 && IsDigit(s[0]) && acc * 10 + DigitValue(s[0]) <= MaxUint32
    ensures OverflowsFrom(acc, s) <==> OverflowsFrom(acc * 10 + DigitValue(s[0]), s[1..])
  {
    var n := acc * 10 + DigitValue(s[0]);
    forall k | 1 < k <= |s|
      ensures AllDigits(s[..k]) <==> AllDigits(s[1..][..k - 1])
      ensures AllDigits(s[..k]) ==> DecimalFrom(acc, s[..k]) == DecimalFrom(n, s[1..][..k - 1])
    {
      assert s[..k][1..] == s[1..][..k - 1];
      assert forall i :: 0 < i < k ==> s[..k][i] == s[1..][..k - 1][i - 1];
    }
    assert s[..1][1..] == [] && s[..1][0] == s[0];
    assert DecimalFrom(acc, s[..1]) == DecimalFrom(n, []) == n;
    if OverflowsFrom(acc, s) {
      var k :| 0 < k <= |s| && AllDigits(s[..k]) && DecimalFrom(acc, s[..k]) > MaxUint32;
      assert k > 1;
      assert 0 < k - 1 <= |s[1..]| && AllDigits(s[1..][..k - 1]) && DecimalFrom(n, s[1..][..k - 1]) > MaxUint32;
    }
    if OverflowsFrom(n, s[1..]) {
      var j :| 0 < j <= |s[1..]| && AllDigits(s[1..][..j]) && DecimalFrom(n, s[1..][..j]) > MaxUint32;
      assert 1 < j + 1 <= |s| && AllDigits(s[..j + 1]) && DecimalFrom(acc, s[..j + 1]) > MaxUint32;
    }
  }

  /** Every 32-bit value survives formatting and parsing back. */
  lemma ParseFormatted(n: nat)
    requires n <= MaxUint32
    ensures ParseUint32(NatToDecimal(n)) == Parsed(n, None)
  {
    DecimalRoundTrip(n);
  }
}
