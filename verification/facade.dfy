/**
 The session facade of eslsession/session.go: each method builds the
 application name and argument text it hands to the connector's exec (or
 bgapi), and PlayAndGetOneDigit reads the collected digit back from the
 completion event. The clock is a parameter.
 */
module Facade {
  import opened Base
  import opened Text
  import opened Numbers
  import opened Message
  import opened Connector

  /** An application run on the session's channel: the two arguments of exec. */
  datatype AppCall = AppCall(app: string, arg: string)

  /** "name=value": one assignment as the set-style applications take it. */
  function Assignment(h: Header): string {
    h.0 + "=" + h.1
  }

  function Assignments(vars: seq<Header>): (r: seq<string>)
    ensures |r| == |vars|
    ensures forall i :: 0 <= i < |vars| ==> r[i] == Assignment(vars[i])
  {
    seq(|vars|, i requires 0 <= i < |vars| => Assignment(vars[i]))
  }

  lemma AssignmentFree(h: Header, c: char)
    requires c != '=' && c !in h.0 && c !in h.1
    ensures !Contains(Assignment(h), [c])
  {
    ContainsChar(Assignment(h), c);
  }

  /** Set: the set application with "name=value"; a name without '=' is cut back out of the argument. */
  function Set(name: string, value: string): (r: AppCall)
    ensures r.app == "set"
    ensures |r.arg| == |name| + 1 + |value| && name <= r.arg && r.arg[|name|] == '=' && r.arg[|name| + 1..] == value
    ensures '=' !in name ==> Cut(r.arg, "=") == Some((name, value))
  {
    assert '=' !in name ==> Cut(name + "=" + value, "=") == Some((name, value)) by {
      if '=' !in name {
        ContainsChar(name, '=');
        CutJoined(name, "=", value);
      }
    }
    AppCall("set", name + "=" + value)
  }

  /**
   Unset: the application name is spelled "unseset" in the code, and its
   argument is the bare name, so unlike Set there is no '=' to cut at.
   */
  function Unset(name: string): (r: AppCall)
    ensures r.app == "unseset" && r.app != "unset"
    ensures r.arg == name
    ensures '=' !in name ==> Cut(r.arg, "=").None?
  {
    ContainsChar(name, '=');
    AppCall("unseset", name)
  }

  /** The "k=v:" items of a multiset argument, one per entry, in the map's iteration order. */
  function Terminated(vars: seq<Header>): string
    decreases |vars|
  {
    if |vars| == 0 then "" else Assignment(vars[0]) + ":" + Terminated(vars[1..])
  }

  /** The argument of multiset and multiunset: "^^:" (':' becomes the separator), then "k=v:" per entry. */
  function MultiArg(vars: seq<Header>): (r: string)
    ensures |r| >= 3 && r[..3] == "^^:"
    ensures r[|r| - 1] == ':'
    ensures |vars| == 0 ==> r == "^^:"
  {
    var items := Terminated(vars);
    assert |items| > 0 ==> items[|items| - 1] == ':' by {
      if |vars| > 0 {
        TerminatedLast(vars);
      }
    }
    "^^:" + items
  }

  lemma {:induction false} TerminatedLast(vars: seq<Header>)
    requires |vars| > 0
    ensures |Terminated(vars)| > 0 && Terminated(vars)[|Terminated(vars)| - 1] == ':'
    decreases |vars|
  {
    if |vars| > 1 {
      TerminatedLast(vars[1..]);
    }
  }

  /** The items are the assignments joined by ':' with an empty last piece: each is followed by a ':'. */
  lemma {:induction false} TerminatedJoin(vars: seq<Header>)
    ensures Terminated(vars) == Join(Assignments(vars) + [""], ":")
    decreases |vars|
  {
    if |vars| > 0 {
      TerminatedJoin(vars[1..]);
      var xs := Assignments(vars) + [""];
      assert xs[1..] == Assignments(vars[1..]) + [""];
      assert |xs| >= 2;
    }
  }

  /**
   A multiset argument whose names and values hold no ':' splits, after its
   "^^:" head, into the assignments in order followed by one empty piece.
   */
  lemma MultiArgSplit(vars: seq<Header>)
    requires forall i :: 0 <= i < |vars| ==> ':' !in vars[i].0 && ':' !in vars[i].1
    ensures Split(MultiArg(vars)[3..], ":") == Assignments(vars) + [""]
  {
    var xs := Assignments(vars) + [""];
    TerminatedJoin(vars);
    assert MultiArg(vars)[3..] == Join(xs, ":");
    forall i | 0 <= i < |xs| ensures !Contains(xs[i], ":") {
      if i < |vars| {
        AssignmentFree(vars[i], ':');
      } else {
        AbsentChar(xs[i], ":", 0);
      }
    }
    JoinSplit(xs, ":");
  }

  /** MultiSet: the multiset application over all entries. */
  function MultiSet(vars: seq<Header>): (r: AppCall)
    ensures r.app == "multiset" && |r.arg| >= 3 && r.arg[..3] == "^^:"
    ensures (forall i :: 0 <= i < |vars| ==> ':' !in vars[i].0 && ':' !in vars[i].1) ==>
      Split(r.arg[3..], ":") == Assignments(vars) + [""]
  {
    assert (forall i :: 0 <= i < |vars| ==> ':' !in vars[i].0 && ':' !in vars[i].1) ==>
      Split(MultiArg(vars)[3..], ":") == Assignments(vars) + [""] by {
      if forall i :: 0 <= i < |vars| ==> ':' !in vars[i].0 && ':' !in vars[i].1 {
        MultiArgSplit(vars);
      }
    }
    AppCall("multiset", MultiArg(vars))
  }

  /** MultiUnset: the multiunset application with the same "k=v:" argument as MultiSet, values included. */
  function MultiUnset(vars: seq<Header>): (r: AppCall)
    ensures r.app == "multiunset" && r.arg == MultiSet(vars).arg
  {
    AppCall("multiunset", MultiArg(vars))
  }

  const NormalClearing := "NORMAL_CLEARING"

  /** Hangup: the hangup application with the first cause given, or NORMAL_CLEARING when none is. */
  function Hangup(causes: seq<string>): (r: AppCall)
    ensures r.app == "hangup"
    ensures |causes| > 0 ==> r.arg == causes[0]
    ensures |causes| == 0 ==> r.arg == NormalClearing
  {
    AppCall("hangup", if |causes| == 0 then NormalClearing else causes[0])
  }

  /** Causes after the first are ignored, and giving none is giving NORMAL_CLEARING. */
  lemma HangupDefault(cause: string, more: seq<string>)
    ensures Hangup([cause] + more) == Hangup([cause])
    ensures Hangup([]) == Hangup([NormalClearing])
  {
  }

  function Answer(): AppCall { AppCall("answer", "") }
  function PreAnswer(): AppCall { AppCall("pre_answer", "") }
  function Playback(path: string): AppCall { AppCall("playback", path) }
  function Bridge(dial: string): AppCall { AppCall("bridge", dial) }
  function Voicemail(profile: string, domain: string, user: string): AppCall {
    AppCall("voicemail", Join([profile, domain, user], " "))
  }

  /** The eleven fields of play_and_get_digits, the unsigned ones in decimal. */
  function DigitsFields(minDigits: nat, maxDigits: nat, tries: nat, timeout: nat, terminators: string,
                        file: string, invalidFile: string, varName: string, regexp: string,
                        digitTimeout: nat, transferOnFailure: string): seq<string>
  {
    [NatToDecimal(minDigits), NatToDecimal(maxDigits), NatToDecimal(tries), NatToDecimal(timeout), terminators,
     file, invalidFile, varName, regexp, NatToDecimal(digitTimeout), transferOnFailure]
  }

  /** PlayAndGetDigits: the fields separated by single spaces, with white space trimmed from both ends. */
  function PlayAndGetDigits(minDigits: nat, maxDigits: nat, tries: nat, timeout: nat, terminators: string,
                            file: string, invalidFile: string, varName: string, regexp: string,
                            digitTimeout: nat, transferOnFailure: string): (r: AppCall)
    ensures r.app == "play_and_get_digits"
    ensures |r.arg| == 0 || (!IsSpace(r.arg[0]) && !IsSpace(r.arg[|r.arg| - 1]))
  {
    AppCall("play_and_get_digits", TrimSpace(Join(DigitsFields(minDigits, maxDigits, tries, timeout, terminators,
      file, invalidFile, varName, regexp, digitTimeout, transferOnFailure), " ")))
  }

  lemma NoSpaceInDecimal(n: nat)
    ensures ' ' !in NatToDecimal(n)
    ensures !IsSpace(NatToDecimal(n)[0]) && !IsSpace(NatToDecimal(n)[|NatToDecimal(n)| - 1])
  {
    var d := NatToDecimal(n);
    assert IsDigit(d[0]) && IsDigit(d[|d| - 1]);
    forall i | 0 <= i < |d| ensures d[i] != ' ' {
      assert IsDigit(d[i]);
    }
  }

  /**
   When no text field holds a space and the last one is non-empty and does
   not end in white space, trimming changes nothing and the argument splits
   at spaces back into the eleven fields.
   */
  lemma PlayAndGetDigitsFields(minDigits: nat, maxDigits: nat, tries: nat, timeout: nat, terminators: string,
                               file: string, invalidFile: string, varName: string, regexp: string,
                               digitTimeout: nat, transferOnFailure: string)
    requires ' ' !in terminators && ' ' !in file && ' ' !in invalidFile && ' ' !in varName && ' ' !in regexp
    requires ' ' !in transferOnFailure && |transferOnFailure| > 0 && !IsSpace(transferOnFailure[|transferOnFailure| - 1])
    ensures Split(PlayAndGetDigits(minDigits, maxDigits, tries, timeout, terminators, file, invalidFile, varName,
                                   regexp, digitTimeout, transferOnFailure).arg, " ")
         == DigitsFields(minDigits, maxDigits, tries, timeout, terminators, file, invalidFile, varName,
                         regexp, digitTimeout, transferOnFailure)
  {
    var xs := DigitsFields(minDigits, maxDigits, tries, timeout, terminators, file, invalidFile, varName,
                           regexp, digitTimeout, transferOnFailure);
    NoSpaceInDecimal(minDigits);
    NoSpaceInDecimal(maxDigits);
    NoSpaceInDecimal(tries);
    NoSpaceInDecimal(timeout);
    NoSpaceInDecimal(digitTimeout);
    forall i | 0 <= i < |xs| ensures !Contains(xs[i], " ") {
      ContainsChar(xs[i], ' ');
    }
    var j := Join(xs, " ");
    JoinEnds(xs, " ");
    assert j[0] == xs[0][0];
    assert j[|j| - 1] == transferOnFailure[|transferOnFailure| - 1] by {
      assert j[|j| - |xs[10]|..][|xs[10]| - 1] == xs[10][|xs[10]| - 1];
    }
    TrimSpaceKeeps(j);
    JoinSplit(xs, " ");
  }

  /** An empty last field leaves a trailing space, which trimming removes: the argument is the first ten fields. */
  lemma PlayAndGetDigitsNoTransfer(minDigits: nat, maxDigits: nat, tries: nat, timeout: nat, terminators: string,
                                   file: string, invalidFile: string, varName: string, regexp: string,
                                   digitTimeout: nat)
    ensures PlayAndGetDigits(minDigits, maxDigits, tries, timeout, terminators, file, invalidFile, varName,
                             regexp, digitTimeout, "").arg
         == Join(DigitsFields(minDigits, maxDigits, tries, timeout, terminators, file, invalidFile, varName,
                              regexp, digitTimeout, "")[..10], " ")
  {
    var xs := DigitsFields(minDigits, maxDigits, tries, timeout, terminators, file, invalidFile, varName,
                           regexp, digitTimeout, "");
    var head := xs[..10];
    assert xs == head + [""];
    JoinSnoc(head, "", " ");
    NoSpaceInDecimal(minDigits);
    NoSpaceInDecimal(digitTimeout);
    var j := Join(head, " ");
    JoinEnds(head, " ");
    assert j[0] == head[0][0];
    assert j[|j| - 1] == head[9][|head[9]| - 1] by {
      assert j[|j| - |head[9]|..][|head[9]| - 1] == head[9][|head[9]| - 1];
    }
    assert j + " " + "" == j + [' '];
    TrimSpaceDropsTail(j, ' ');
  }

  /** The channel variable PlayAndGetOneDigit collects into, named after the Unix time `now`. */
  function DigitVar(now: int): string {
    "pagd-" + IntToDecimal(now)
  }

  /** The play_and_get_digits call of PlayAndGetOneDigit: one digit, three tries, 5000 ms timeouts, '#' to end. */
  function OneDigitCall(path: string, now: int): AppCall {
    PlayAndGetDigits(1, 1, 3, 5000, "#", path, "''", DigitVar(now), "\\d", 5000, "''")
  }

  /** With the conditions of PlayAndGetDigitsFields, the variable name is the eighth field of the argument. */
  lemma VariableField(minDigits: nat, maxDigits: nat, tries: nat, timeout: nat, terminators: string,
                      file: string, invalidFile: string, varName: string, regexp: string,
                      digitTimeout: nat, transferOnFailure: string)
    requires ' ' !in terminators && ' ' !in file && ' ' !in invalidFile && ' ' !in varName && ' ' !in regexp
    requires ' ' !in transferOnFailure && |transferOnFailure| > 0 && !IsSpace(transferOnFailure[|transferOnFailure| - 1])
    ensures var fields := Split(PlayAndGetDigits(minDigits, maxDigits, tries, timeout, terminators, file, invalidFile,
                                                 varName, regexp, digitTimeout, transferOnFailure).arg, " ");
            |fields| == 11 && fields[7] == varName
  {
    PlayAndGetDigitsFields(minDigits, maxDigits, tries, timeout, terminators, file, invalidFile, varName,
                           regexp, digitTimeout, transferOnFailure);
  }

  /** The call names its variable as the eighth space-separated field, whatever the time. */
  lemma OneDigitNamesVariable(path: string, now: int)
    requires ' ' !in path
    ensures |Split(OneDigitCall(path, now).arg, " ")| == 11
    ensures Split(OneDigitCall(path, now).arg, " ")[7] == DigitVar(now)
  {
    NoSpaceInDecimal(if now < 0 then -now else now);
    assert ' ' !in DigitVar(now);
    VariableField(1, 1, 3, 5000, "#", path, "''", DigitVar(now), "\\d", 5000, "''");
  }

  /**
   PlayAndGetOneDigit: runs the call through exec and, once exec returns,
   parses the collected variable from the completion event as a 32-bit
   unsigned number; an exec error gives 0 and that error. None means exec
   is still waiting.
   */
  function PlayAndGetOneDigit(c: Connector, path: string, now: int, newId: string, inbound: seq<Inbound>): (p: Option<Parsed>)
    ensures c.closed ==> p == Some(Parsed(0, Some(ChannelClosed)))
    ensures p.None? <==> Exec(c, OneDigitCall(path, now).app, OneDigitCall(path, now).arg, newId, inbound).result.None?
    ensures forall err :: Exec(c, OneDigitCall(path, now).app, OneDigitCall(path, now).arg, newId, inbound).result == Some(Err(err))
              ==> p == Some(Parsed(0, Some(err)))
    ensures forall e: Message :: Exec(c, OneDigitCall(path, now).app, OneDigitCall(path, now).arg, newId, inbound).result == Some(Ok(e))
              ==> p == Some(ParseUint32(e.Get("variable_" + DigitVar(now))))
    ensures p.Some? ==> p.value.value <= MaxUint32
  {
    var call := OneDigitCall(path, now);
    match Exec(c, call.app, call.arg, newId, inbound).result
    case None => None
    case Some(Err(err)) => Some(Parsed(0, Some(err)))
    case Some(Ok(e)) => Some(ParseUint32(e.Get("variable_" + DigitVar(now))))
  }

  /**
   When the first item that settles the exec is its own completion and that
   event carries a 32-bit number in the collected variable, that number is
   the result, without error.
   */
  lemma OneDigitReadsBack(c: Connector, path: string, now: int, newId: string, inbound: seq<Inbound>, k: nat, digit: nat)
    requires !c.closed && digit <= MaxUint32
    requires k < |inbound| && inbound[k].EventIn? && Completes(inbound[k].event, newId)
    requires inbound[k].event.Get("variable_" + DigitVar(now)) == NatToDecimal(digit)
    requires forall j :: 0 <= j < k ==> ExecSettles(inbound[j], newId).None?
    ensures PlayAndGetOneDigit(c, path, now, newId, inbound) == Some(Parsed(digit, None))
  {
    ExecFirstSettling(c, newId, inbound, k);
    ParseFormatted(digit);
  }

  // ---- SendEvent ----

  /** The data of the event application: the assignments joined by ','. */
  function EventData(headers: seq<Header>): (r: string)
    ensures |headers| == 0 ==> r == ""
    ensures |headers| > 0 && (forall i :: 0 <= i < |headers| ==> ',' !in headers[i].0 && ',' !in headers[i].1) ==>
      Split(r, ",") == Assignments(headers) && Count(r, ',') == |headers| - 1
  {
    var xs := Assignments(headers);
    assert |headers| > 0 && (forall i :: 0 <= i < |headers| ==> ',' !in headers[i].0 && ',' !in headers[i].1) ==>
      Split(Join(xs, ","), ",") == xs && Count(Join(xs, ","), ',') == |xs| - 1 by {
      if |headers| > 0 && forall i :: 0 <= i < |headers| ==> ',' !in headers[i].0 && ',' !in headers[i].1 {
        forall i | 0 <= i < |xs| ensures !Contains(xs[i], ",") && ',' !in xs[i] {
          AssignmentFree(headers[i], ',');
          ContainsChar(xs[i], ',');
        }
        JoinSplit(xs, ",");
        JoinCount(xs, ',');
      }
    }
    Join(xs, ",")
  }

  /**
   The loop of SendEvent as written: each assignment is appended, and a ','
   after it while entries remain. It builds EventData.
   */
  method BuildEventData(headers: seq<Header>) returns (data: string)
    ensures data == EventData(headers)
  {
    data := "";
    var i := 0;
    while i < |headers|
      invariant 0 <= i <= |headers|
      invariant data == Join(Assignments(headers)[..i], ",") + (if 0 < i < |headers| then "," else "")
    {
      var xs := Assignments(headers);
      if i > 0 {
        JoinSnoc(xs[..i], xs[i], ",");
      }
      assert xs[..i + 1] == xs[..i] + [xs[i]];
      data := data + Assignment(headers[i]);
      i := i + 1;
      if i < |headers| {
        data := data + ",";
      }
    }
    assert Assignments(headers)[..i] == Assignments(headers);
  }

  /** SendEvent: the event application with EventData. */
  function SendEvent(headers: seq<Header>): (r: AppCall)
    ensures r.app == "event" && r.arg == EventData(headers)
  {
    AppCall("event", EventData(headers))
  }

  // ---- handlers ----

  /** AddEventHandler: registers `h` for events named `name`, replacing any earlier one; nothing else changes. */
  function AddEventHandler(c: Connector, name: string, h: HandlerId): (r: Connector)
    ensures name in r.handlers && r.handlers[name] == h
    ensures forall n :: n != name ==> (n in r.handlers <==> n in c.handlers)
    ensures forall n :: n != name && n in c.handlers ==> r.handlers[n] == c.handlers[n]
    ensures r.uuid == c.uuid && r.closed == c.closed
    ensures r.currentAppUuid == c.currentAppUuid && r.currentJobUuid == c.currentJobUuid
  {
    c.(handlers := c.handlers[name := h])
  }

  /** After registering, the dispatcher starts that handler on the next event of the name (other than CHANNEL_DESTROY). */
  lemma AddedHandlerRuns(c: Connector, name: string, h: HandlerId, e: Message, w: Waiters)
    requires e.Get(EventName) == name && name != ChannelDestroy
    ensures Dispatch(AddEventHandler(c, name, h), EventIn(e), w).invoked == Some((h, e))
  {
  }
}
