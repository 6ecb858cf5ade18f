/**
 The exec of the earlier revision, written out identically in
 eslsession/eslsession.go and in the top-level session.go. It does not go
 through a dispatcher: it reads the session's own event and error channels
 until an event settles it. The blocking receives are the sequence of
 items it is handed.
 */
module EarlyExec {
  import opened Base
  import opened Text
  import opened Message
  import opened Connector
  import Facade

  /** How a received item ends the wait of an exec whose Event-UUID is `id`, if it does. */
  function Settles(x: Inbound, id: string): Option<Result<Message>> {
    match x
    case ErrorIn(err) => Some(Err(err))
    case EventIn(e) =>
      if Completes(e, id) then Some(Ok(e))
      else if e.Get(EventName) == ChannelHangupName || e.Get(EventName) == ChannelHangupComplete then Some(Err(ChannelHangup))
      else None
  }

  /** The receive loop of exec over the items `xs`: its result and the position of the item that gave it. */
  function Await(id: string, xs: seq<Inbound>): (r: Option<(Result<Message>, nat)>)
    ensures r.Some? ==> r.value.1 < |xs| && Settles(xs[r.value.1], id) == Some(r.value.0)
    ensures r.Some? ==> forall j :: 0 <= j < r.value.1 ==> Settles(xs[j], id).None?
    ensures r.None? ==> forall j :: 0 <= j < |xs| ==> Settles(xs[j], id).None?
    decreases |xs|
  {
    if |xs| == 0 then None
    else match Settles(xs[0], id)
      case Some(res) => Some((res, 0))
      case None =>
        match Await(id, xs[1..])
        case None => None
        case Some((res, k)) => Some((res, k + 1))
  }

  /** The same loop as exec writes it: receive, test, and go round again until something settles it. */
  method AwaitLoop(id: string, xs: seq<Inbound>) returns (result: Option<Result<Message>>, used: nat)
    ensures used <= |xs|
    ensures result.Some? ==> 0 < used && Settles(xs[used - 1], id) == result
    ensures forall j :: 0 <= j < |xs| && (result.Some? ==> j < used - 1) ==> Settles(xs[j], id).None?
    ensures result.Some? ==> Await(id, xs) == Some((result.value, used - 1))
    ensures result.None? <==> Await(id, xs).None?
  {
    result := None;
    used := 0;
    while used < |xs|
      invariant 0 <= used <= |xs|
      invariant forall j :: 0 <= j < used ==> Settles(xs[j], id).None?
    {
      var x := xs[used];
      used := used + 1;
      match x {
        case EventIn(e) =>
          var ename := e.Get(EventName);
          var euuid := e.Get(ApplicationUuid);
          if ename == ChannelExecuteComplete && euuid == id {
            AwaitFirst(id, xs, used - 1);
            return Some(Ok(e)), used;
          } else if ename == ChannelHangupName || ename == ChannelHangupComplete {
            AwaitFirst(id, xs, used - 1);
            return Some(Err(ChannelHangup)), used;
          }
        case ErrorIn(err) =>
          AwaitFirst(id, xs, used - 1);
          return Some(Err(err)), used;
      }
    }
  }

  /** The first settling item decides, whatever follows it. */
  lemma {:induction false} AwaitFirst(id: string, xs: seq<Inbound>, k: nat)
    requires k < |xs| && Settles(xs[k], id).Some?
    requires forall j :: 0 <= j < k ==> Settles(xs[j], id).None?
    ensures Await(id, xs) == Some((Settles(xs[k], id).value, k))
  {
    var r := Await(id, xs);
    assert r.Some? && r.value.1 <= k by {
      assert Settles(xs[k], id).Some?;
    }
    assert r.value.1 >= k by {
      assert Settles(xs[r.value.1], id).Some?;
    }
  }

  /** What one exec call does: the header map it sends, if any, and its result once it returns. */
  datatype EarlyRun = EarlyRun(sent: Option<seq<Header>>, result: Option<Result<Message>>)

  /**
   exec of the earlier revision: a closed session fails with the hangup
   error and sends nothing; otherwise the execute headers go out with the
   fresh uuid and the receive loop runs over `xs`.
   */
  function Exec(closed: bool, app: string, args: string, newId: string, xs: seq<Inbound>): (r: EarlyRun)
    ensures closed ==> r == EarlyRun(None, Some(Err(ChannelHangup)))
    ensures !closed ==> r.sent == Some(ExecHeaders(app, args, newId))
    ensures !closed ==> (r.result.None? <==> forall j :: 0 <= j < |xs| ==> Settles(xs[j], newId).None?)
    ensures !closed ==> r.result == (if Await(newId, xs).Some? then Some(Await(newId, xs).value.0) else None)
    ensures forall e :: r.result == Some(Ok(e)) ==> Completes(e, newId)
  {
    if closed then EarlyRun(None, Some(Err(ChannelHangup)))
    else
      match Await(newId, xs)
      case None => EarlyRun(Some(ExecHeaders(app, args, newId)), None)
      case Some((res, _)) => EarlyRun(Some(ExecHeaders(app, args, newId)), Some(res))
  }

  /** A hangup before the own completion fails the exec, even when the completion follows. */
  lemma HangupBeforeCompletion(app: string, args: string, newId: string, h: Message, c: Message)
    requires h.Get(EventName) == ChannelHangupName || h.Get(EventName) == ChannelHangupComplete
    requires Completes(c, newId)
    ensures Exec(false, app, args, newId, [EventIn(h), EventIn(c)]).result == Some(Err(ChannelHangup))
  {
    var xs := [EventIn(h), EventIn(c)];
    assert !Completes(h, newId) by {
      assert h.Get(EventName) != ChannelExecuteComplete by {
        assert ChannelExecuteComplete[8] != ChannelHangupName[8];
        assert |ChannelHangupComplete| == 23 && |ChannelExecuteComplete| == 24;
      }
    }
    AwaitFirst(newId, xs, 0);
  }

  /** Completions of other applications and unrelated events are skipped until the own completion arrives. */
  lemma SkipsOthers(app: string, args: string, newId: string, others: seq<Message>, c: Message)
    requires forall i :: 0 <= i < |others| ==> Settles(EventIn(others[i]), newId).None?
    requires Completes(c, newId)
    ensures Exec(false, app, args, newId, seq(|others|, i requires 0 <= i < |others| => EventIn(others[i])) + [EventIn(c)]).result
         == Some(Ok(c))
  {
    var xs := seq(|others|, i requires 0 <= i < |others| => EventIn(others[i])) + [EventIn(c)];
    assert forall j :: 0 <= j < |others| ==> Settles(xs[j], newId).None? by {
      forall j | 0 <= j < |others| ensures Settles(xs[j], newId).None? {
        assert xs[j] == EventIn(others[j]);
      }
    }
    AwaitFirst(newId, xs, |others|);
  }

  /**
   The two revisions end a wait on different events: the earlier exec fails
   on CHANNEL_HANGUP and passes over CHANNEL_DESTROY, while the connector's
   exec ignores the hangup and is woken with the closed-channel error by the
   destroy.
   */
  lemma RevisionsDiffer(id: string, h: Message, d: Message)
    requires h.Get(EventName) == ChannelHangupName && d.Get(EventName) == ChannelDestroy
    ensures Settles(EventIn(h), id) == Some(Err(ChannelHangup)) && ExecSettles(EventIn(h), id).None?
    ensures Settles(EventIn(d), id).None? && ExecSettles(EventIn(d), id) == Some(Err(ChannelClosed))
  {
    assert ChannelHangupName != ChannelExecuteComplete && ChannelHangupName != ChannelDestroy by {
      assert ChannelHangupName[8] != ChannelExecuteComplete[8];
      assert ChannelHangupName[8] != ChannelDestroy[8];
    }
    assert ChannelDestroy != ChannelExecuteComplete && ChannelDestroy != ChannelHangupName
        && ChannelDestroy != ChannelHangupComplete by {
      assert ChannelDestroy[8] != ChannelExecuteComplete[8];
      assert ChannelDestroy[8] != ChannelHangupComplete[8];
    }
  }

  /**
   set of the earlier revision: runs the application named by the variable
   with the value as its argument. The later Set carries the same pair in
   the argument of the set application.
   */
  function Set(name: string, value: string): (r: Facade.AppCall)
    ensures r.app == name && r.arg == value
    ensures '=' !in name ==> Cut(Facade.Set(name, value).arg, "=") == Some((r.app, r.arg))
  {
    Facade.AppCall(name, value)
  }
}
