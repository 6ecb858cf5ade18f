/**
 The outbound side of goesl's SocketConnection: how Send, SendMany,
 SendEvent, SendMsg, Execute and ExecuteUUID frame a request and validate it
 before anything reaches the socket, and the Handle loop that sorts parsed
 messages into the event and reply streams.

 The socket is a parameter (`Link`): how many write calls it accepts and
 which reply the reader hands back afterwards.
 */
module Wire {
  import opened Base
  import opened Text
  import opened Message

  /** What the reader delivers after a write: the next reply, or the reply channel's error. */
  datatype Reply = Reply(msg: Message) | ReplyError(err: Error)

  /**
   The socket as one request sees it: the first `accepted` write calls
   succeed, the next one fails (what it may have put on the socket before
   failing is not modelled), and `reply` is what arrives on the reply
   channels once every write succeeded.
   */
  datatype Link = Link(accepted: nat, reply: Reply)

  /** The text a request put on the socket, and what it returned to its caller. */
  datatype Transmission<T> = Transmission(written: string, result: Result<T>)

  function ReplyResult(r: Reply): Result<Message> {
    match r
    case Reply(m) => Ok(m)
    case ReplyError(e) => Err(e)
  }

  /** Performs the write calls `chunks` in order, stopping at the first that fails, then awaits the reply. */
  function Deliver(chunks: seq<string>, link: Link): (t: Transmission<Message>)
    ensures t.written <= Concat(chunks)
    ensures t.result.Ok? <==> link.accepted >= |chunks| && link.reply.Reply?
    ensures link.accepted >= |chunks| ==> t == Transmission(Concat(chunks), ReplyResult(link.reply))
    ensures link.accepted < |chunks| ==> t.result == Err(WriteFailed)
  {
    if link.accepted < |chunks| then
      ConcatPrefix(chunks, link.accepted);
      Transmission(Concat(chunks[..link.accepted]), Err(WriteFailed))
    else
      Transmission(Concat(chunks), ReplyResult(link.reply))
  }

  /** The blank line that ends a raw command. */
  const Terminator: string := "\r\n\r\n"

  /** What Send puts on the wire for a command that passes validation. */
  function Frame(cmd: string): string {
    cmd + Terminator
  }

  /**
   Send: a command holding CRLF is refused before anything is written;
   otherwise the command and the terminator are written (two write calls)
   and the next reply is returned.
   */
  function Send(cmd: string, link: Link): (t: Transmission<Message>)
    ensures Contains(cmd, CRLF) ==> t == Transmission("", Err(InvalidCommand(cmd)))
    ensures t.written <= Frame(cmd)
    ensures t.result.Ok? <==> !Contains(cmd, CRLF) && link.accepted >= 2 && link.reply.Reply?
    ensures t.result.Ok? ==> t.written == Frame(cmd) && t.result.value == link.reply.msg
    ensures !Contains(cmd, CRLF) && link.accepted < 2 ==> t.result == Err(WriteFailed)
    ensures !Contains(cmd, CRLF) && link.accepted >= 2 && link.reply.ReplyError?
        ==> t == Transmission(Frame(cmd), Err(link.reply.err))
  {
    if Contains(cmd, CRLF) then Transmission("", Err(InvalidCommand(cmd)))
    else
      ConcatPair(cmd, Terminator);
      Deliver([cmd, Terminator], link)
  }

  /** The frames of a run of commands, in order. */
  function Frames(cmds: seq<string>): seq<string>
    decreases |cmds|
  {
    if |cmds| == 0 then [] else [Frame(cmds[0])] + Frames(cmds[1..])
  }

  /**
   SendMany as written: sends each command in turn and returns the first
   failure. On success it returns no message at all, because the reply of
   each Send lands in a variable local to the loop body.
   */
  function SendMany(cmds: seq<string>, links: seq<Link>): (t: Transmission<Option<Message>>)
    requires |links| == |cmds|
    ensures t.result.Ok? <==> forall i :: 0 <= i < |cmds| ==> Send(cmds[i], links[i]).result.Ok?
    ensures t.result.Ok? ==> t.result.value == None && t.written == Concat(Frames(cmds))
    decreases |cmds|
  {
    if |cmds| == 0 then Transmission("", Ok(None))
    else
      var first := Send(cmds[0], links[0]);
      if first.result.Err? then Transmission(first.written, Err(first.result.error))
      else
        var rest := SendMany(cmds[1..], links[1..]);
        assert forall i :: 1 <= i < |cmds| ==> cmds[1..][i - 1] == cmds[i] && links[1..][i - 1] == links[i];
        Transmission(first.written + rest.written, rest.result)
  }

  /** SendMany writes every frame before the first failing command, then whatever that one wrote, and stops. */
  lemma {:induction false} SendManyStopsAtFirstFailure(cmds: seq<string>, links: seq<Link>, k: nat)
    requires |links| == |cmds| && k < |cmds|
    requires forall i :: 0 <= i < k ==> Send(cmds[i], links[i]).result.Ok?
    requires Send(cmds[k], links[k]).result.Err?
    ensures SendMany(cmds, links)
         == Transmission(Concat(Frames(cmds[..k])) + Send(cmds[k], links[k]).written,
                         Err(Send(cmds[k], links[k]).result.error))
    decreases k
  {
    if k == 0 {
      assert cmds[..0] == [];
      assert Frames([]) == [];
    } else {
      var tail, tailLinks := cmds[1..], links[1..];
      forall i | 0 <= i < k - 1 ensures Send(tail[i], tailLinks[i]).result.Ok? {
        assert tail[i] == cmds[i + 1] && tailLinks[i] == links[i + 1];
      }
      assert tail[k - 1] == cmds[k] && tailLinks[k - 1] == links[k];
      SendManyStopsAtFirstFailure(tail, tailLinks, k - 1);
      SendManyFirst(cmds, links);
      FramesFirst(cmds, k);
    }
  }

  /** After a first command that succeeds, SendMany writes its frame and carries on with the rest. */
  lemma SendManyFirst(cmds: seq<string>, links: seq<Link>)
    requires |links| == |cmds| && |cmds| > 0
    requires Send(cmds[0], links[0]).result.Ok?
    ensures SendMany(cmds, links)
         == Transmission(Frame(cmds[0]) + SendMany(cmds[1..], links[1..]).written, SendMany(cmds[1..], links[1..]).result)
  {
  }

  /** The frames of the first k commands are the first one's frame, then those of the next k - 1. */
  lemma FramesFirst(cmds: seq<string>, k: nat)
    requires 0 < k <= |cmds|
    ensures Concat(Frames(cmds[..k])) == Frame(cmds[0]) + Concat(Frames(cmds[1..][..k - 1]))
  {
    var head := cmds[..k];
    assert head[1..] == cmds[1..][..k - 1];
    assert Frames(head) == [Frame(cmds[0])] + Frames(cmds[1..][..k - 1]);
  }

  /**
   SendMany as its declared result suggests it was meant: on success it
   returns the reply to the last command (nothing for an empty run).
   */
  function SendManyLastReply(cmds: seq<string>, links: seq<Link>): (t: Transmission<Option<Message>>)
    requires |links| == |cmds|
    ensures t.written == SendMany(cmds, links).written
    ensures t.result.Ok? <==> SendMany(cmds, links).result.Ok?
    ensures t.result.Err? ==> t.result == SendMany(cmds, links).result
    ensures t.result.Ok? && |cmds| > 0
         ==> t.result.value == Some(Send(cmds[|cmds| - 1], links[|cmds| - 1]).result.value)
    decreases |cmds|
  {
    if |cmds| == 0 then Transmission("", Ok(None))
    else
      var first := Send(cmds[0], links[0]);
      if first.result.Err? then Transmission(first.written, Err(first.result.error))
      else if |cmds| == 1 then Transmission(first.written, Ok(Some(first.result.value)))
      else
        var rest := SendManyLastReply(cmds[1..], links[1..]);
        Transmission(first.written + rest.written, rest.result)
  }

  /** The discrepancy: a successful run of commands returns no reply, where the last reply was due. */
  lemma SendManyDropsLastReply(cmds: seq<string>, links: seq<Link>)
    requires |links| == |cmds| && |cmds| > 0
    requires forall i :: 0 <= i < |cmds| ==> Send(cmds[i], links[i]).result.Ok?
    ensures SendMany(cmds, links).result == Ok(None)
    ensures SendManyLastReply(cmds, links).result.Ok?
    ensures SendManyLastReply(cmds, links).result.value != None
  {
  }

  /** One header and its CRLF per header, as SendEvent's loop writes them. */
  function EventChunks(headers: seq<string>): (r: seq<string>)
    ensures |r| == 2 * |headers|
    decreases |headers|
  {
    if |headers| == 0 then [] else [headers[0], CRLF] + EventChunks(headers[1..])
  }

  lemma {:induction false} EventBlock(headers: seq<string>)
    ensures Concat(EventChunks(headers)) + CRLF == Join(headers + ["", ""], CRLF)
    decreases |headers|
  {
    if |headers| > 0 {
      EventBlock(headers[1..]);
      ConcatAppend([headers[0], CRLF], EventChunks(headers[1..]));
      assert (headers + ["", ""])[1..] == headers[1..] + ["", ""];
    }
  }

  /**
   SendEvent: an empty header list is refused before anything is written.
   Otherwise "sendevent ", each header followed by CRLF, and a final CRLF are
   written, and the next reply is returned. Headers are not checked for CRLF.
   */
  function SendEvent(headers: seq<string>, link: Link): (t: Transmission<Message>)
    ensures |headers| == 0 ==> t == Transmission("", Err(CouldNotSendEvent(0)))
    ensures |headers| > 0 ==> (t.result.Ok? <==> link.accepted >= 2 * |headers| + 2 && link.reply.Reply?)
    ensures |headers| > 0 && link.accepted < 2 * |headers| + 2 ==> t.result == Err(WriteFailed)
    ensures t.written <= "sendevent " + Join(headers + ["", ""], CRLF)
    ensures t.result.Ok? ==> t.written == "sendevent " + Join(headers + ["", ""], CRLF)
    ensures |headers| > 0 && link.accepted >= 2 * |headers| + 2 && link.reply.ReplyError?
        ==> t == Transmission("sendevent " + Join(headers + ["", ""], CRLF), Err(link.reply.err))
  {
    if |headers| == 0 then Transmission("", Err(CouldNotSendEvent(|headers|)))
    else
      var chunks := ["sendevent "] + EventChunks(headers) + [CRLF];
      ConcatAppend(["sendevent "] + EventChunks(headers), [CRLF]);
      ConcatAppend(["sendevent "], EventChunks(headers));
      EventBlock(headers);
      Deliver(chunks, link)
  }

  // ---- sendmsg ----

  /** A header the sendmsg loop accepts: CRLF neither in its name nor in a non-empty value. */
  predicate HeaderAccepted(h: Header) {
    !Contains(h.0, CRLF) && (h.1 != "" ==> !Contains(h.1, CRLF))
  }

  /** Every header of the map passes the sendmsg check. */
  predicate AllAccepted(h: seq<Header>) {
    forall i :: 0 <= i < |h| ==> HeaderAccepted(h[i])
  }

  /** The headers sendmsg writes: those with a non-empty value, in order. */
  function Kept(h: seq<Header>): (r: seq<Header>)
    ensures forall i :: 0 <= i < |r| ==> r[i].1 != "" && r[i] in h
    decreases |h|
  {
    if |h| == 0 then []
    else if h[0].1 == "" then Kept(h[1..])
    else [h[0]] + Kept(h[1..])
  }

  function HeaderLine(h: Header): string {
    h.0 + ": " + h.1 + "\n"
  }

  function HeaderLines(h: seq<Header>): string
    decreases |h|
  {
    if |h| == 0 then "" else HeaderLine(h[0]) + HeaderLines(h[1..])
  }

  const ContentLength := "content-length"

  /** The body sendmsg appends: `data`, only when both it and the content-length header are non-empty. */
  function Body(h: seq<Header>, data: string): string {
    if Lookup(h, ContentLength) != "" && data != "" then data else ""
  }

  /** The command line of sendmsg: the verb, then the uuid when there is one. */
  function CommandLine(uuid: string): string {
    "sendmsg" + (if uuid != "" then " " + uuid else "") + "\n"
  }

  /**
   The text SendMsg would write, or the error it returns instead. The whole
   frame is built in memory before the socket is touched, so a refused
   frame writes nothing.
   */
  function SendMsgFrame(h: seq<Header>, uuid: string, data: string): (r: Result<string>)
    ensures r.Err? <==> Contains(uuid, CRLF) || !AllAccepted(h)
    ensures r.Err? ==> r.error == InvalidMessage(h)
    ensures r.Ok? ==> r.value == CommandLine(uuid) + HeaderLines(Kept(h)) + "\n" + Body(h, data)
  {
    if uuid != "" && Contains(uuid, CRLF) then Err(InvalidMessage(h))
    else if !AllAccepted(h) then Err(InvalidMessage(h))
    else Ok(CommandLine(uuid) + HeaderLines(Kept(h)) + "\n" + Body(h, data))
  }

  /** SendMsg: writes the frame in one call and returns the next reply; a refused frame writes nothing. */
  function SendMsg(h: seq<Header>, uuid: string, data: string, link: Link): (t: Transmission<Message>)
    ensures SendMsgFrame(h, uuid, data).Err? ==> t == Transmission("", Err(InvalidMessage(h)))
    ensures SendMsgFrame(h, uuid, data).Ok? ==> t.written <= SendMsgFrame(h, uuid, data).value
    ensures t.result.Ok? <==> SendMsgFrame(h, uuid, data).Ok? && link.accepted >= 1 && link.reply.Reply?
    ensures SendMsgFrame(h, uuid, data).Ok? && link.accepted == 0 ==> t == Transmission("", Err(WriteFailed))
    ensures t.result.Ok? ==> t.written == SendMsgFrame(h, uuid, data).value
    ensures SendMsgFrame(h, uuid, data).Ok? && link.accepted >= 1 && link.reply.ReplyError?
        ==> t == Transmission(SendMsgFrame(h, uuid, data).value, Err(link.reply.err))
  {
    match SendMsgFrame(h, uuid, data)
    case Err(e) => Transmission("", Err(e))
    case Ok(f) =>
      ConcatPair(f, "");
      Deliver([f], link)
  }

  lemma {:induction false} KeptCount(h: seq<Header>, p: Header)
    ensures multiset(Kept(h))[p] == if p.1 != "" then multiset(h)[p] else 0
    decreases |h|
  {
    if |h| > 0 {
      KeptCount(h[1..], p);
      assert h == [h[0]] + h[1..];
    }
  }

  /** Two listings of the same entries keep the same entries. */
  lemma KeptPermutation(h1: seq<Header>, h2: seq<Header>)
    requires multiset(h1) == multiset(h2)
    ensures multiset(Kept(h1)) == multiset(Kept(h2))
  {
    forall p ensures multiset(Kept(h1))[p] == multiset(Kept(h2))[p] {
      KeptCount(h1, p);
      KeptCount(h2, p);
    }
  }

  lemma AllAcceptedPermutation(h1: seq<Header>, h2: seq<Header>)
    requires multiset(h1) == multiset(h2) && AllAccepted(h1)
    ensures AllAccepted(h2)
  {
    forall i | 0 <= i < |h2| ensures HeaderAccepted(h2[i]) {
      assert h2[i] in multiset(h1);
      var j :| 0 <= j < |h1| && h1[j] == h2[i];
    }
  }

  /**
   The outcome of sendmsg does not depend on the order the Go map hands its
   entries out: acceptance, the header lines as a multiset and the body agree
   for any two listings of the same map.
   */
  lemma SendMsgOrderIndependent(h1: seq<Header>, h2: seq<Header>, uuid: string, data: string)
    requires DistinctKeys(h1) && DistinctKeys(h2) && multiset(h1) == multiset(h2)
    ensures SendMsgFrame(h1, uuid, data).Ok? <==> SendMsgFrame(h2, uuid, data).Ok?
    ensures multiset(Kept(h1)) == multiset(Kept(h2))
    ensures Body(h1, data) == Body(h2, data)
  {
    KeptPermutation(h1, h2);
    LookupOrderIndependent(h1, h2, ContentLength);
    if AllAccepted(h1) {
      AllAcceptedPermutation(h1, h2);
    }
    if AllAccepted(h2) {
      AllAcceptedPermutation(h2, h1);
    }
  }

  /** strconv.FormatBool. */
  function BoolText(b: bool): string {
    if b then "true" else "false"
  }

  /** The header map Execute and ExecuteUUID pass to SendMsg. */
  function ExecuteHeaders(command: string, args: string, sync: bool): seq<Header> {
    [("call-command", "execute"), ("execute-app-name", command),
     ("execute-app-arg", args), ("event-lock", BoolText(sync))]
  }

  /** The fixed names and values of the execute map never hold CRLF, so only the caller's text can. */
  lemma ExecuteHeadersAccepted(command: string, args: string, sync: bool)
    ensures AllAccepted(ExecuteHeaders(command, args, sync)) <==> !Contains(command, CRLF) && !Contains(args, CRLF)
    ensures Lookup(ExecuteHeaders(command, args, sync), ContentLength) == ""
  {
    var h := ExecuteHeaders(command, args, sync);
    assert HeaderAccepted(h[0]) by {
      AbsentChar("call-command", CRLF, 0);
      AbsentChar("execute", CRLF, 0);
    }
    assert HeaderAccepted(h[3]) by {
      AbsentChar("event-lock", CRLF, 0);
      AbsentChar(BoolText(sync), CRLF, 0);
    }
    assert HeaderAccepted(h[1]) <==> !Contains(command, CRLF) by {
      AbsentChar("execute-app-name", CRLF, 0);
    }
    assert HeaderAccepted(h[2]) <==> !Contains(args, CRLF) by {
      AbsentChar("execute-app-arg", CRLF, 0);
    }
    assert forall i :: 0 <= i < |h| ==> h[i].0 != ContentLength by {
      assert |ContentLength| == 14;
    }
  }

  /**
   Any listing of the execute map, in whatever order the Go map literal
   hands its entries out, is accepted exactly when the application and its
   argument hold no CRLF, and carries no content-length.
   */
  lemma ExecuteListingAccepted(command: string, args: string, sync: bool, listing: seq<Header>)
    requires multiset(listing) == multiset(ExecuteHeaders(command, args, sync))
    ensures AllAccepted(listing) <==> !Contains(command, CRLF) && !Contains(args, CRLF)
    ensures Lookup(listing, ContentLength) == ""
  {
    var h := ExecuteHeaders(command, args, sync);
    ExecuteHeadersAccepted(command, args, sync);
    if AllAccepted(h) {
      AllAcceptedPermutation(h, listing);
    }
    if AllAccepted(listing) {
      AllAcceptedPermutation(listing, h);
    }
    forall i | 0 <= i < |listing| ensures listing[i].0 != ContentLength {
      assert listing[i] in multiset(h);
      var j :| 0 <= j < |h| && h[j] == listing[i];
    }
  }

  /**
   ExecuteUUID: runs an application on the channel `uuid` through sendmsg,
   without a body. `listing` is the order the map literal's entries come
   out in, which Go leaves unspecified: any permutation of the four entries.
   */
  function ExecuteUuid(uuid: string, command: string, args: string, sync: bool, listing: seq<Header>, link: Link): (t: Transmission<Message>)
    requires multiset(listing) == multiset(ExecuteHeaders(command, args, sync))
    ensures Contains(uuid, CRLF) || Contains(command, CRLF) || Contains(args, CRLF)
        ==> t == Transmission("", Err(InvalidMessage(listing)))
    ensures t.result.Ok? <==> !Contains(uuid, CRLF) && !Contains(command, CRLF) && !Contains(args, CRLF)
                              && link.accepted >= 1 && link.reply.Reply?
    ensures t.result.Ok? ==> t.written == CommandLine(uuid) + HeaderLines(Kept(listing)) + "\n"
    ensures !Contains(uuid, CRLF) && !Contains(command, CRLF) && !Contains(args, CRLF) && link.accepted >= 1
            && link.reply.ReplyError?
        ==> t == Transmission(CommandLine(uuid) + HeaderLines(Kept(listing)) + "\n", Err(link.reply.err))
    ensures !Contains(uuid, CRLF) && !Contains(command, CRLF) && !Contains(args, CRLF) && link.accepted == 0
        ==> t == Transmission("", Err(WriteFailed))
    ensures multiset(Kept(listing)) == multiset(Kept(ExecuteHeaders(command, args, sync)))
  {
    ExecuteListingAccepted(command, args, sync, listing);
    KeptPermutation(listing, ExecuteHeaders(command, args, sync));
    SendMsg(listing, uuid, "", link)
  }

  /** Execute: the ExecuteUUID request without a channel uuid, so the frame starts with the bare verb. */
  function Execute(command: string, args: string, sync: bool, listing: seq<Header>, link: Link): (t: Transmission<Message>)
    requires multiset(listing) == multiset(ExecuteHeaders(command, args, sync))
    ensures Contains(command, CRLF) || Contains(args, CRLF)
        ==> t == Transmission("", Err(InvalidMessage(listing)))
    ensures t.result.Ok? <==> !Contains(command, CRLF) && !Contains(args, CRLF) && link.accepted >= 1 && link.reply.Reply?
    ensures t.result.Ok? ==> t.written == "sendmsg\n" + HeaderLines(Kept(listing)) + "\n"
    ensures !Contains(command, CRLF) && !Contains(args, CRLF) && link.accepted >= 1 && link.reply.ReplyError?
        ==> t == Transmission("sendmsg\n" + HeaderLines(Kept(listing)) + "\n", Err(link.reply.err))
    ensures !Contains(command, CRLF) && !Contains(args, CRLF) && link.accepted == 0 ==> t == Transmission("", Err(WriteFailed))
  {
    ExecuteListingAccepted(command, args, sync, listing);
    assert CommandLine("") == "sendmsg\n";
    SendMsg(listing, "", "", link)
  }

  // ---- the reader loop of Handle ----

  /** The two content types Handle treats as events. */
  predicate IsEventType(t: string) {
    t == "text/event-plain" || t == "text/event-json"
  }

  /** One call of the message parser: a message and possibly an error. */
  datatype Read = Read(msg: Message, err: Option<Error>)

  /** What Handle has pushed onto its four channels when it stops. */
  datatype Queues = Queues(events: seq<Message>, replies: seq<Message>, eventError: Option<Error>, replyError: Option<Error>)

  /** The messages read before the first error, in order. */
  function Accepted(parsed: seq<Read>): seq<Message>
    decreases |parsed|
  {
    if |parsed| == 0 || parsed[0].err.Some? then [] else [parsed[0].msg] + Accepted(parsed[1..])
  }

  /** The messages of `ms` whose content type is (or is not) an event type, in order. */
  function OfKind(ms: seq<Message>, event: bool): (r: seq<Message>)
    ensures forall i :: 0 <= i < |r| ==> IsEventType(r[i].contentType) == event && r[i] in ms
    decreases |ms|
  {
    if |ms| == 0 then []
    else if IsEventType(ms[0].contentType) == event then [ms[0]] + OfKind(ms[1..], event)
    else OfKind(ms[1..], event)
  }

  /** The first read that carries an error, if any. */
  predicate FailsAt(parsed: seq<Read>, k: nat) {
    k < |parsed| && parsed[k].err.Some? && forall j :: 0 <= j < k ==> parsed[j].err.None?
  }

  /**
   Handle's loop over the parser's results: each message goes to the event
   stream or the reply stream by its content type; the first error goes to
   the error channel of the stream its message's type selects, and the loop
   ends there.
   */
  function Handle(parsed: seq<Read>): (q: Queues)
    ensures q.events == OfKind(Accepted(parsed), true)
    ensures q.replies == OfKind(Accepted(parsed), false)
    ensures q.eventError.None? || q.replyError.None?
    ensures (forall j :: 0 <= j < |parsed| ==> parsed[j].err.None?) ==> q.eventError.None? && q.replyError.None?
    ensures forall k: nat :: FailsAt(parsed, k) ==>
      if IsEventType(parsed[k].msg.contentType) then q.eventError == parsed[k].err
      else q.replyError == parsed[k].err
    decreases |parsed|
  {
    if |parsed| == 0 then Queues([], [], None, None)
    else
      var r := parsed[0];
      if r.err.Some? then
        assert forall k: nat :: FailsAt(parsed, k) ==> k == 0;
        if IsEventType(r.msg.contentType) then Queues([], [], r.err, None)
        else Queues([], [], None, r.err)
      else
        var rest := Handle(parsed[1..]);
        assert forall k: nat :: FailsAt(parsed, k) ==> k > 0 && FailsAt(parsed[1..], k - 1);
        assert forall j :: 1 <= j < |parsed| ==> parsed[1..][j - 1] == parsed[j];
        if IsEventType(r.msg.contentType) then Queues([r.msg] + rest.events, rest.replies, rest.eventError, rest.replyError)
        else Queues(rest.events, [r.msg] + rest.replies, rest.eventError, rest.replyError)
  }

  /** Every message read before the first error lands on exactly one of the two streams. */
  lemma {:induction false} HandleLosesNothing(ms: seq<Message>)
    ensures |OfKind(ms, true)| + |OfKind(ms, false)| == |ms|
    decreases |ms|
  {
    if |ms| > 0 {
      HandleLosesNothing(ms[1..]);
    }
  }
}
