/**
 The receiving side of the frames goesl writes, as the server reads them:
 a command line ended by CRLF, sendevent's CRLF-separated header lines, and
 sendmsg's "name: value" block ended by a blank line. Each reader is paired
 with the writer in Wire by a round-trip lemma.
 */
module WireParse {
  import opened Base
  import opened Text
  import opened Message
  import opened Wire

  /** The first line of a raw command frame and what follows it. */
  lemma SendFrameRoundTrip(cmd: string)
    requires !Contains(cmd, CRLF)
    ensures Cut(Frame(cmd), CRLF) == Some((cmd, CRLF))
  {
    assert Frame(cmd) == cmd + CRLF + CRLF;
    CutJoined(cmd, CRLF, CRLF);
  }

  /** Appending a CRLF-free text to one that does not end in CR creates no CRLF. */
  lemma ConcatNoCrlf(a: string, b: string)
    requires !Contains(a, CRLF) && !Contains(b, CRLF)
    requires |a| == 0 || a[|a| - 1] != '\r'
    ensures !Contains(a + b, CRLF)
  {
    var s := a + b;
    forall i: nat | i <= |s| ensures !OccursAt(s, CRLF, i) {
      if OccursAt(s, CRLF, i) {
        assert s[i] == '\r' && s[i + 1] == '\n' by {
          assert s[i..i + 2][0] == s[i] && s[i..i + 2][1] == s[i + 1];
        }
        if i + 2 <= |a| {
          assert a[i..i + 2] == s[i..i + 2];
          assert OccursAt(a, CRLF, i);
        } else if i >= |a| {
          assert b[i - |a|..i - |a| + 2] == s[i..i + 2];
          assert OccursAt(b, CRLF, i - |a|);
        }
      }
    }
  }

  lemma JoinWithPrefix(p: string, xs: seq<string>, sep: string)
    requires |xs| > 0
    ensures p + Join(xs, sep) == Join([p + xs[0]] + xs[1..], sep)
  {
    if |xs| > 1 {
      assert ([p + xs[0]] + xs[1..])[1..] == xs[1..];
    }
  }

  /**
   A sendevent frame whose headers hold no CRLF reads back, line by line,
   as the command with the first header, each further header, and the two
   empty lines of the terminating blank line.
   */
  lemma SendEventLines(headers: seq<string>, link: Link)
    requires |headers| > 0
    requires forall i :: 0 <= i < |headers| ==> !Contains(headers[i], CRLF)
    requires SendEvent(headers, link).result.Ok?
    ensures Split(SendEvent(headers, link).written, CRLF) == ["sendevent " + headers[0]] + headers[1..] + ["", ""]
  {
    EventTextLines(headers);
  }

  /** The text of a sendevent frame, split at CRLF. */
  lemma EventTextLines(headers: seq<string>)
    requires |headers| > 0
    requires forall i :: 0 <= i < |headers| ==> !Contains(headers[i], CRLF)
    ensures Split("sendevent " + Join(headers + ["", ""], CRLF), CRLF) == ["sendevent " + headers[0]] + headers[1..] + ["", ""]
  {
    EventHeadFree(headers[0]);
    PrefixedLines("sendevent ", headers);
  }

  /** The first line of a sendevent frame holds no CRLF when its event name does not. */
  lemma EventHeadFree(h: string)
    requires !Contains(h, CRLF)
    ensures !Contains("sendevent " + h, CRLF)
  {
    AbsentChar("sendevent ", CRLF, 0);
    ConcatNoCrlf("sendevent ", h);
  }

  /** A prefix glued to the first of CRLF-free lines, joined and ended by a blank line, splits back into those lines. */
  lemma PrefixedLines(p: string, headers: seq<string>)
    requires |headers| > 0 && !Contains(p + headers[0], CRLF)
    requires forall i :: 0 <= i < |headers| ==> !Contains(headers[i], CRLF)
    ensures Split(p + Join(headers + ["", ""], CRLF), CRLF) == [p + headers[0]] + headers[1..] + ["", ""]
  {
    var xs := headers + ["", ""];
    var lines := [p + headers[0]] + headers[1..] + ["", ""];
    assert lines == [p + xs[0]] + xs[1..];
    JoinWithPrefix(p, xs, CRLF);
    AbsentChar("", CRLF, 0);
    forall i | 0 <= i < |lines| ensures !Contains(lines[i], CRLF) {
      if 0 < i < |headers| {
        assert lines[i] == headers[i];
      } else if i >= |headers| {
        assert lines[i] == "";
      }
    }
    assert HeadUnique(CRLF);
    JoinSplit(lines, CRLF);
  }

  // ---- sendmsg ----

  /** What a reader takes out of a sendmsg frame. */
  datatype ParsedMsg = ParsedMsg(uuid: string, headers: seq<Header>, body: string)

  /** The command line of a sendmsg frame, without its newline: the uuid it names, if it is one. */
  function ParseCommandLine(line: string): Option<string> {
    if line == "sendmsg" then Some("")
    else if |line| > 8 && line[..8] == "sendmsg " then Some(line[8..])
    else None
  }

  /** Header lines "name: value" up to the blank line, then the body. */
  function ParseHeaderBlock(s: string): Option<(seq<Header>, string)>
    decreases |s|
  {
    match Cut(s, "\n")
    case None => None
    case Some((line, rest)) =>
      if line == "" then Some(([], rest))
      else
        match Cut(line, ": ")
        case None => None
        case Some((name, value)) =>
          match ParseHeaderBlock(rest)
          case None => None
          case Some((hs, body)) => Some(([(name, value)] + hs, body))
  }

  function ParseSendMsg(s: string): Option<ParsedMsg> {
    match Cut(s, "\n")
    case None => None
    case Some((line, rest)) =>
      match ParseCommandLine(line)
      case None => None
      case Some(uuid) =>
        match ParseHeaderBlock(rest)
        case None => None
        case Some((hs, body)) => Some(ParsedMsg(uuid, hs, body))
  }

  /** A header that survives the line format: no newline anywhere and no ": " in its name. */
  predicate Transportable(h: Header) {
    '\n' !in h.0 && '\n' !in h.1 && !Contains(h.0, ": ")
  }

  lemma NoNewline(s: string)
    requires '\n' !in s
    ensures !Contains(s, "\n") && !Contains(s, CRLF)
  {
    ContainsChar(s, '\n');
    AbsentChar(s, CRLF, 1);
  }

  lemma {:induction false} HeaderBlockRoundTrip(hs: seq<Header>, body: string)
    requires forall i :: 0 <= i < |hs| ==> Transportable(hs[i])
    ensures ParseHeaderBlock(HeaderLines(hs) + "\n" + body) == Some((hs, body))
    decreases |hs|
  {
    if |hs| == 0 {
      HeaderBlockEnd(hs, body);
    } else {
      HeaderBlockRoundTrip(hs[1..], body);
      HeaderLineStep(hs, body, hs[1..]);
      assert [hs[0]] + hs[1..] == hs;
    }
  }

  /** The blank line ends the header block. */
  lemma HeaderBlockEnd(hs: seq<Header>, body: string)
    requires |hs| == 0
    ensures ParseHeaderBlock(HeaderLines(hs) + "\n" + body) == Some(([], body))
  {
    assert HeaderLines(hs) + "\n" + body == "" + "\n" + body;
    NoNewline("");
    CutJoined("", "\n", body);
  }

  /** The parser takes the first header line off and carries on with the rest. */
  lemma HeaderLineStep(hs: seq<Header>, body: string, tail: seq<Header>)
    requires |hs| > 0 && Transportable(hs[0])
    requires ParseHeaderBlock(HeaderLines(hs[1..]) + "\n" + body) == Some((tail, body))
    ensures ParseHeaderBlock(HeaderLines(hs) + "\n" + body) == Some(([hs[0]] + tail, body))
  {
    var name, value := hs[0].0, hs[0].1;
    var line := name + ": " + value;
    var rest := HeaderLines(hs[1..]) + "\n" + body;
    assert HeaderLines(hs) + "\n" + body == line + "\n" + rest;
    assert '\n' !in line;
    NoNewline(line);
    CutJoined(line, "\n", rest);
    CutJoined(name, ": ", value);
    assert line != "";
  }

  lemma CommandLineRoundTrip(uuid: string, rest: string)
    requires '\n' !in uuid
    ensures ParseSendMsg(CommandLine(uuid) + rest) ==
      match ParseHeaderBlock(rest)
      case None => None
      case Some((hs, body)) => Some(ParsedMsg(uuid, hs, body))
  {
    var head := "sendmsg" + (if uuid != "" then " " + uuid else "");
    assert CommandLine(uuid) + rest == head + "\n" + rest;
    assert '\n' !in head;
    NoNewline(head);
    CutJoined(head, "\n", rest);
    if uuid != "" {
      assert head[..8] == "sendmsg ";
      assert head[8..] == uuid;
    }
    assert ParseCommandLine(head) == Some(uuid);
  }

  lemma TransportableAccepted(h: seq<Header>)
    requires forall i :: 0 <= i < |h| ==> Transportable(h[i])
    ensures AllAccepted(h)
  {
    forall i | 0 <= i < |h| ensures HeaderAccepted(h[i]) {
      NoNewline(h[i].0);
      NoNewline(h[i].1);
    }
  }

  lemma Regroup(a: string, b: string, c: string, d: string)
    ensures a + b + c + d == a + (b + c + d)
  {
  }

  lemma KeptTransportable(h: seq<Header>)
    requires forall i :: 0 <= i < |h| ==> Transportable(h[i])
    ensures forall i :: 0 <= i < |Kept(h)| ==> Transportable(Kept(h)[i])
  {
    var kept := Kept(h);
    forall i | 0 <= i < |kept| ensures Transportable(kept[i]) {
      var j :| 0 <= j < |h| && h[j] == kept[i];
    }
  }

  lemma SendMsgFrameAccepted(h: seq<Header>, uuid: string, data: string)
    requires '\n' !in uuid
    requires forall i :: 0 <= i < |h| ==> Transportable(h[i])
    ensures SendMsgFrame(h, uuid, data) == Ok(CommandLine(uuid) + HeaderLines(Kept(h)) + "\n" + Body(h, data))
  {
    NoNewline(uuid);
    TransportableAccepted(h);
  }

  /**
   A frame built from headers and a uuid that carry no newline (and names
   without ": ") is accepted, and reading it back gives the uuid, the headers
   with non-empty values in the order given, and the body sendmsg appended.
   */
  lemma SendMsgRoundTrip(h: seq<Header>, uuid: string, data: string)
    requires '\n' !in uuid
    requires forall i :: 0 <= i < |h| ==> Transportable(h[i])
    ensures SendMsgFrame(h, uuid, data).Ok?
    ensures ParseSendMsg(SendMsgFrame(h, uuid, data).value) == Some(ParsedMsg(uuid, Kept(h), Body(h, data)))
  {
    SendMsgFrameAccepted(h, uuid, data);
    KeptTransportable(h);
    var rest := HeaderLines(Kept(h)) + "\n" + Body(h, data);
    Regroup(CommandLine(uuid), HeaderLines(Kept(h)), "\n", Body(h, data));
    CommandLineRoundTrip(uuid, rest);
    HeaderBlockRoundTrip(Kept(h), Body(h, data));
  }
}
