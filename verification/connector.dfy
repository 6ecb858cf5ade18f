/**
 The per-session connector of eslsession/connector.go: the dispatcher that
 sits between the connection's event stream and the session, and the
 `exec` and `bgapi` calls that wait on it.

 Goroutines and channels are replaced by data. An inbound item is either an
 event or a connection error; a non-blocking send reaches its receiver
 exactly when that receiver is waiting, which `Waiters` says; and a blocked
 call is fed the sequence of items the dispatcher handles while it waits.
 Handlers are Go closures and are named here by an identifier.
 */
module Connector {
  import opened Base
  import opened Message

  /** The identity of a registered event handler (a Go func value in the source). */
  type HandlerId = nat

  /** The connector's state: its channel uuid, whether it was closed, the outstanding exec and job ids, and the handlers by event name. */
  datatype Connector = Connector(
    uuid: string,
    closed: bool,
    currentAppUuid: string,
    currentJobUuid: string,
    handlers: map<string, HandlerId>)

  /** What the dispatcher receives next: an event of the channel, or an error of the connection. */
  datatype Inbound = EventIn(event: Message) | ErrorIn(err: Error)

  /** Which blocked callers are waiting at the moment of a dispatch step. */
  datatype Waiters = Waiters(exec: bool, job: bool)

  /**
   What one dispatch step does: the state afterwards, what reached the exec
   waiter (its event, or an error), what reached the job waiter, which
   handler was started on which event, and whether the loop returned (it
   always calls `close` just before).
   */
  datatype Step = Step(
    next: Connector,
    toExec: Option<Result<Message>>,
    toJob: Option<Error>,
    invoked: Option<(HandlerId, Message)>,
    done: bool)

  /** close: marks the connector closed (and closes its command channel, which the model has no need to hold). */
  function Close(c: Connector): (r: Connector)
    ensures r.closed
    ensures r.uuid == c.uuid && r.handlers == c.handlers
    ensures r.currentAppUuid == c.currentAppUuid && r.currentJobUuid == c.currentJobUuid
  {
    c.(closed := true)
  }

  /** The inputs that end the dispatcher: any connection error, and a CHANNEL_DESTROY event. */
  predicate Terminates(input: Inbound) {
    input.ErrorIn? || input.event.Get(EventName) == ChannelDestroy
  }

  /** A completion event of the application run with uuid `app`. */
  predicate Completes(e: Message, app: string) {
    e.Get(EventName) == ChannelExecuteComplete && e.Get(ApplicationUuid) == app
  }

  /** One turn of the dispatch loop on one inbound item. */
  function Dispatch(c: Connector, input: Inbound, w: Waiters): (s: Step)
    ensures s.done <==> Terminates(input)
    ensures s.next == (if s.done then Close(c) else c)
    ensures s.toExec.Some? ==> w.exec
    ensures s.toExec.Some? && s.toExec.value.Ok? <==>
      w.exec && input.EventIn? && Completes(input.event, c.currentAppUuid)
    ensures s.toExec.Some? && s.toExec.value.Ok? ==> s.toExec.value.value == input.event
    ensures s.toExec.Some? && s.toExec.value.Err? <==> w.exec && Terminates(input)
    ensures s.toExec.Some? && s.toExec.value.Err? ==>
      s.toExec.value.error == (if input.ErrorIn? then input.err else ChannelClosed)
    ensures s.toJob.Some? <==> w.job && input.ErrorIn?
    ensures s.toJob.Some? ==> s.toJob.value == input.err
    ensures s.invoked.Some? <==> !s.done && input.event.Get(EventName) in c.handlers
    ensures s.invoked.Some? ==> s.invoked.value == (c.handlers[input.event.Get(EventName)], input.event)
  {
    match input
    case EventIn(e) =>
      var name := e.Get(EventName);
      var offered := if name == ChannelExecuteComplete && e.Get(ApplicationUuid) == c.currentAppUuid && w.exec
                     then Some(Ok(e)) else None;
      if name == ChannelDestroy then
        Step(Close(c), if w.exec then Some(Err(ChannelClosed)) else None, None, None, true)
      else
        Step(c, offered, None, if name in c.handlers then Some((c.handlers[name], e)) else None, false)
    case ErrorIn(err) =>
      Step(Close(c), if w.exec then Some(Err(err)) else None, if w.job then Some(err) else None, None, true)
  }

  // ---- the dispatcher on its own ----

  /** `k` is the first terminating item of `inputs`. */
  predicate StopsAt(inputs: seq<(Inbound, Waiters)>, k: nat) {
    k < |inputs| && Terminates(inputs[k].0) && forall j :: 0 <= j < k ==> !Terminates(inputs[j].0)
  }

  /**
   The dispatch loop over a sequence of items with the waiters present at
   each: the steps it takes until it returns. The state is left alone by
   every step but the last, so each item is dispatched against the
   starting state; the loop stops right after the first terminating item,
   and `close` is called by that step and no other.
   */
  function Run(c: Connector, inputs: seq<(Inbound, Waiters)>): (steps: seq<Step>)
    ensures |steps| <= |inputs|
    ensures forall i :: 0 <= i < |steps| ==> steps[i] == Dispatch(c, inputs[i].0, inputs[i].1)
    ensures forall i :: 0 <= i < |steps| - 1 ==> !steps[i].done
    ensures !c.closed ==> forall i :: 0 <= i < |steps| - 1 ==> !steps[i].next.closed
    ensures forall k: nat :: StopsAt(inputs, k) ==> |steps| == k + 1 && steps[k].done
    ensures (forall j :: 0 <= j < |inputs| ==> !Terminates(inputs[j].0)) ==> |steps| == |inputs|
    decreases |inputs|
  {
    if |inputs| == 0 then []
    else
      var s := Dispatch(c, inputs[0].0, inputs[0].1);
      if s.done then [s]
      else
        var rest := Run(s.next, inputs[1..]);
        StopsShift(inputs);
        DispatchShift(c, inputs, rest);
        [s] + rest
  }

  /** When the first item does not terminate, the first terminating item is one further on than in the rest. */
  lemma StopsShift(inputs: seq<(Inbound, Waiters)>)
    requires |inputs| > 0 && !Terminates(inputs[0].0)
    ensures forall k: nat :: StopsAt(inputs, k) ==> k > 0 && StopsAt(inputs[1..], k - 1)
  {
  }

  /** The steps of the rest of the items, after the first item's step, are the steps of all of them. */
  lemma DispatchShift(c: Connector, inputs: seq<(Inbound, Waiters)>, rest: seq<Step>)
    requires |inputs| > 0 && |rest| < |inputs|
    requires forall i :: 0 <= i < |rest| ==> rest[i] == Dispatch(c, inputs[1..][i].0, inputs[1..][i].1)
    ensures forall i :: 0 <= i < |rest| + 1 ==>
      ([Dispatch(c, inputs[0].0, inputs[0].1)] + rest)[i] == Dispatch(c, inputs[i].0, inputs[i].1)
  {
    forall i | 0 <= i < |rest| + 1
      ensures ([Dispatch(c, inputs[0].0, inputs[0].1)] + rest)[i] == Dispatch(c, inputs[i].0, inputs[i].1)
    {
      if i > 0 {
        assert inputs[1..][i - 1] == inputs[i];
      }
    }
  }

  // ---- exec ----

  /** The header map exec sends: the execute command for `app` with `args`, tagged with a fresh uuid. */
  function ExecHeaders(app: string, args: string, newId: string): seq<Header> {
    [("call-command", "execute"), ("execute-app-name", app), ("execute-app-arg", args), ("Event-UUID", newId)]
  }

  lemma ExecHeadersFields(app: string, args: string, newId: string)
    ensures DistinctKeys(ExecHeaders(app, args, newId))
    ensures Lookup(ExecHeaders(app, args, newId), "call-command") == "execute"
    ensures Lookup(ExecHeaders(app, args, newId), "execute-app-name") == app
    ensures Lookup(ExecHeaders(app, args, newId), "execute-app-arg") == args
    ensures Lookup(ExecHeaders(app, args, newId), "Event-UUID") == newId
  {
    var h := ExecHeaders(app, args, newId);
    assert |h[0].0| == 12 && |h[1].0| == 16 && |h[2].0| == 15 && |h[3].0| == 10;
    assert h[1].0 != h[2].0 by { assert h[1].0[12] != h[2].0[12]; }
    assert DistinctKeys(h);
    LookupFinds(h, 0);
    LookupFinds(h, 1);
    LookupFinds(h, 2);
    LookupFinds(h, 3);
  }

  /**
   How an item settles an exec waiting for the completion of application
   `app`, independently of the dispatcher: its own completion event, the
   closed-channel error on a destroy, or a connection error as it came.
   */
  function ExecSettles(input: Inbound, app: string): Option<Result<Message>> {
    match input
    case ErrorIn(err) => Some(Err(err))
    case EventIn(e) =>
      if Completes(e, app) then Some(Ok(e))
      else if e.Get(EventName) == ChannelDestroy then Some(Err(ChannelClosed))
      else None
  }

  /** The handler calls the dispatcher makes for a sequence of items (none on a terminating one). */
  function Invocations(handlers: map<string, HandlerId>, inbound: seq<Inbound>): seq<(HandlerId, Message)>
    decreases |inbound|
  {
    if |inbound| == 0 then []
    else
      var x := inbound[0];
      var here := if !Terminates(x) && x.event.Get(EventName) in handlers
                  then [(handlers[x.event.Get(EventName)], x.event)] else [];
      here + Invocations(handlers, inbound[1..])
  }

  /** A blocked call after the dispatcher handled `consumed` items: the state, the value it returned if it did, and the handlers run meanwhile. */
  datatype Wait = Wait(next: Connector, result: Option<Result<Message>>, invoked: seq<(HandlerId, Message)>, consumed: nat)

  /**
   An exec blocked on its result while the dispatcher handles `inbound`,
   with no job waiting. It returns on the first item that settles it, as
   ExecSettles describes, and the handlers of the items before (and of a
   matched completion itself) have been started by then.
   */
  function ExecWait(c: Connector, inbound: seq<Inbound>): (w: Wait)
    ensures w.consumed <= |inbound|
    ensures w.result.Some? ==> 0 < w.consumed && ExecSettles(inbound[w.consumed - 1], c.currentAppUuid) == w.result
    ensures forall j :: 0 <= j < |inbound| && (w.result.Some? ==> j < w.consumed - 1) ==> ExecSettles(inbound[j], c.currentAppUuid).None?
    ensures w.result.None? ==> w.consumed == |inbound|
    ensures w.next == if 0 < w.consumed && Terminates(inbound[w.consumed - 1]) then Close(c) else c
    ensures w.invoked == Invocations(c.handlers, inbound[..w.consumed])
    decreases |inbound|
  {
    if |inbound| == 0 then Wait(c, None, [], 0)
    else
      var s := Dispatch(c, inbound[0], Waiters(true, false));
      var calls := if s.invoked.Some? then [s.invoked.value] else [];
      assert Invocations(c.handlers, inbound[..1]) == calls + Invocations(c.handlers, []) by {
        assert inbound[..1][1..] == [];
      }
      if s.toExec.Some? then Wait(s.next, s.toExec, calls, 1)
      else
        var rest := ExecWait(s.next, inbound[1..]);
        assert inbound[..rest.consumed + 1][1..] == inbound[1..][..rest.consumed];
        Wait(rest.next, rest.result, calls + rest.invoked, rest.consumed + 1)
  }

  /** A whole exec call: what it sent, the state it leaves, and its result once it returns. */
  datatype ExecRun = ExecRun(next: Connector, sent: Option<seq<Header>>, result: Option<Result<Message>>, invoked: seq<(HandlerId, Message)>)

  /**
   exec: refuses a closed connector; otherwise sends the execute headers,
   records the newId uuid as the outstanding application while it waits,
   and clears it again when it returns, whatever it returns.
   */
  function Exec(c: Connector, app: string, args: string, newId: string, inbound: seq<Inbound>): (x: ExecRun)
    ensures c.closed ==> x == ExecRun(c, None, Some(Err(ChannelClosed)), [])
    ensures !c.closed ==> x.sent == Some(ExecHeaders(app, args, newId))
    ensures !c.closed ==> x.result == ExecWait(c.(currentAppUuid := newId), inbound).result
    ensures !c.closed && x.result.Some? ==> x.next.currentAppUuid == ""
    ensures !c.closed && x.result.None? ==> x.next.currentAppUuid == newId
    ensures !c.closed ==> x.next.closed == ExecWait(c.(currentAppUuid := newId), inbound).next.closed
    ensures !c.closed ==> x.invoked == ExecWait(c.(currentAppUuid := newId), inbound).invoked
    ensures forall e :: x.result == Some(Ok(e)) ==> Completes(e, newId)
    ensures x.next.uuid == c.uuid && x.next.handlers == c.handlers && x.next.currentJobUuid == c.currentJobUuid
  {
    if c.closed then ExecRun(c, None, Some(Err(ChannelClosed)), [])
    else
      var w := ExecWait(c.(currentAppUuid := newId), inbound);
      var after := if w.result.Some? then w.next.(currentAppUuid := "") else w.next;
      ExecRun(after, Some(ExecHeaders(app, args, newId)), w.result, w.invoked)
  }

  /**
   exec returns exactly what the first settling item says: the completion
   carrying its own uuid, or the error of a destroy or of the connection,
   whichever comes first; later items do not matter.
   */
  lemma {:induction false} ExecFirstSettling(c: Connector, newId: string, inbound: seq<Inbound>, k: nat)
    requires k < |inbound| && ExecSettles(inbound[k], newId).Some?
    requires forall j :: 0 <= j < k ==> ExecSettles(inbound[j], newId).None?
    ensures ExecWait(c.(currentAppUuid := newId), inbound).result == ExecSettles(inbound[k], newId)
    ensures ExecWait(c.(currentAppUuid := newId), inbound).consumed == k + 1
  {
    var w := ExecWait(c.(currentAppUuid := newId), inbound);
    assert w.result.Some? && k >= w.consumed - 1 by {
      assert ExecSettles(inbound[k], newId).Some?;
    }
    assert w.consumed - 1 >= k by {
      assert ExecSettles(inbound[w.consumed - 1], newId).Some?;
    }
  }

  /** A completion of some other application and any unrelated event are passed over: only the handler runs. */
  lemma ExecIgnoresStale(c: Connector, newId: string, e: Message, rest: seq<Inbound>)
    requires !Terminates(EventIn(e)) && !Completes(e, newId)
    ensures ExecWait(c.(currentAppUuid := newId), [EventIn(e)] + rest).result ==
            ExecWait(c.(currentAppUuid := newId), rest).result
  {
    assert ([EventIn(e)] + rest)[1..] == rest;
  }

  /** A destroy while exec waits wakes it with the closed-channel error and leaves the connector closed. */
  lemma ExecDestroyed(c: Connector, app: string, args: string, newId: string, e: Message, rest: seq<Inbound>)
    requires !c.closed && e.Get(EventName) == ChannelDestroy
    ensures Exec(c, app, args, newId, [EventIn(e)] + rest).result == Some(Err(ChannelClosed))
    ensures Exec(c, app, args, newId, [EventIn(e)] + rest).next.closed
    ensures Exec(c, app, args, newId, [EventIn(e)] + rest).invoked == []
  {
    var inbound := [EventIn(e)] + rest;
    assert ExecSettles(inbound[0], newId) == Some(Err(ChannelClosed)) by {
      assert e.Get(EventName) != ChannelExecuteComplete by {
        assert ChannelDestroy[8] != ChannelExecuteComplete[8];
      }
    }
    ExecFirstSettling(c, newId, inbound, 0);
    assert inbound[..1] == [EventIn(e)];
  }

  // ---- bgapi ----

  /** The header map bgapi sends: the command and a newId job uuid. */
  function BgapiHeaders(cmd: string, newId: string): seq<Header> {
    [("bgapi", cmd), ("Job-UUID", newId)]
  }

  /**
   A bgapi blocked on its job while the dispatcher handles `inbound`, with
   no exec waiting. Nothing sends on the job-event channel, so only an
   error reaches it; a destroy ends the dispatcher without telling it.
   */
  function BgapiWait(c: Connector, inbound: seq<Inbound>): (w: Wait)
    ensures w.consumed <= |inbound|
    ensures w.result.Some? ==> 0 < w.consumed && inbound[w.consumed - 1].ErrorIn? &&
                               w.result == Some(Err(inbound[w.consumed - 1].err))
    ensures 0 < w.consumed && inbound[w.consumed - 1].ErrorIn? ==> w.result == Some(Err(inbound[w.consumed - 1].err))
    ensures forall j :: 0 <= j < w.consumed - 1 ==> !Terminates(inbound[j])
    ensures w.consumed < |inbound| ==> 0 < w.consumed && Terminates(inbound[w.consumed - 1])
    ensures w.next == if 0 < w.consumed && Terminates(inbound[w.consumed - 1]) then Close(c) else c
    ensures w.invoked == Invocations(c.handlers, inbound[..w.consumed])
    decreases |inbound|
  {
    if |inbound| == 0 then Wait(c, None, [], 0)
    else
      var s := Dispatch(c, inbound[0], Waiters(false, true));
      var calls := if s.invoked.Some? then [s.invoked.value] else [];
      assert Invocations(c.handlers, inbound[..1]) == calls + Invocations(c.handlers, []) by {
        assert inbound[..1][1..] == [];
      }
      if s.done then Wait(s.next, if s.toJob.Some? then Some(Err(s.toJob.value)) else None, calls, 1)
      else
        var rest := BgapiWait(s.next, inbound[1..]);
        assert inbound[..rest.consumed + 1][1..] == inbound[1..][..rest.consumed];
        Wait(rest.next, rest.result, calls + rest.invoked, rest.consumed + 1)
  }

  /** A whole bgapi call: what it sent, the state it leaves, and its result once it returns. */
  function Bgapi(c: Connector, cmd: string, newId: string, inbound: seq<Inbound>): (x: ExecRun)
    ensures c.closed ==> x == ExecRun(c, None, Some(Err(ChannelClosed)), [])
    ensures !c.closed ==> x.sent == Some(BgapiHeaders(cmd, newId))
    ensures !c.closed ==> x.result == BgapiWait(c.(currentJobUuid := newId), inbound).result
    ensures x.result.Some? ==> x.result.value.Err?
    ensures !c.closed && x.result.Some? ==> x.next.currentJobUuid == ""
    ensures !c.closed && x.result.None? ==> x.next.currentJobUuid == newId
    ensures !c.closed ==> x.next.closed == BgapiWait(c.(currentJobUuid := newId), inbound).next.closed
    ensures !c.closed ==> x.invoked == BgapiWait(c.(currentJobUuid := newId), inbound).invoked
    ensures x.next.uuid == c.uuid && x.next.handlers == c.handlers && x.next.currentAppUuid == c.currentAppUuid
  {
    if c.closed then ExecRun(c, None, Some(Err(ChannelClosed)), [])
    else
      var w := BgapiWait(c.(currentJobUuid := newId), inbound);
      var after := if w.result.Some? then w.next.(currentJobUuid := "") else w.next;
      ExecRun(after, Some(BgapiHeaders(cmd, newId)), w.result, w.invoked)
  }

  /** A destroy before any error ends the dispatcher and leaves a waiting bgapi blocked for good. */
  lemma {:induction false} BgapiStrandedByDestroy(c: Connector, inbound: seq<Inbound>, k: nat)
    requires k < |inbound| && inbound[k].EventIn? && Terminates(inbound[k])
    requires forall j :: 0 <= j < k ==> !Terminates(inbound[j])
    ensures BgapiWait(c, inbound).result.None?
    ensures BgapiWait(c, inbound).next.closed
    ensures BgapiWait(c, inbound).consumed == k + 1
  {
    var w := BgapiWait(c, inbound);
    assert w.consumed - 1 <= k by {
      assert Terminates(inbound[k]);
    }
    assert w.consumed - 1 >= k by {
      assert 0 < w.consumed;
      assert Terminates(inbound[w.consumed - 1]);
    }
  }
}
