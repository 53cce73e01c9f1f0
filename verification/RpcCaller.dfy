/** The client object: calls in flight and the acknowledgement window, updated in place by the
    threads that call and by the thread that receives replies. */
module RpcCaller {
  import opened Options
  import opened RpcClient
  import opened RpcProtocol

  class Rpcc {
    var xid: nat
    var bindDone: bool
    var calls: map<nat, Option<Msg>>
    const reps: XidWindow
    ghost var done: set<nat>

    constructor ()
      ensures Shows(Start) && fresh(reps)
    {
      xid, bindDone, calls, done := 1, false, map[], {};
      reps := new XidWindow();
    }

    /** The object is the client part of s; the window stands for the set of finished xids. */
    ghost predicate Shows(s: Sys)
      reads this, reps
    {
      && xid == s.next && bindDone == s.bound && calls == s.calls && done == s.done
      && WindowOf(reps.window, done)
    }

    /** The first section of `call1`; it fails for a call before bind and for a second bind. */
    method Begin(isBind: bool, ghost s: Sys) returns (ok: bool, x: nat, rep: nat)
      requires Shows(s)
      modifies this
      ensures ok <==> isBind != s.bound
      ensures if ok then Shows(Apply(s, Call)) && (x, rep) in Apply(s, Call).requests else Shows(s)
    {
      if (!isBind && !bindDone) || (isBind && bindDone) { return false, 0, 0; }
      x := xid;
      xid := xid + 1;
      calls := calls[x := None];
      rep := reps.window[0];
      ok := true;
    }

    /** `got_pdu`: the first reply to a call is kept, a later one is dropped. */
    method GotPdu(x: nat, m: Msg, ghost s: Sys)
      requires Shows(s) && Base(s) && (x, m) in s.replies
      modifies this, reps
      ensures Shows(Apply(s, DeliverReply(x, m)))
    {
      assert RepliedOk(s, x, m);
      reps.UpdateXidRep(x, done);
      done := done + {x};
      if x in calls && calls[x].None? { calls := calls[x := Some(m)]; }
    }

    /** The last section of `call1`: the xid is reported again and the caller gets the reply, or a
        timeout when there is none. */
    method End(x: nat, ghost s: Sys) returns (r: Option<Msg>)
      requires Shows(s) && Base(s) && x in s.calls
      modifies this, reps
      ensures r == s.calls[x]
      ensures Shows(Apply(s, if r.Some? then Return(x) else TimeOut(x)))
    {
      assert XidOk(s, x);
      r := calls[x];
      calls := calls - {x};
      reps.UpdateXidRep(x, done);
      done := done + {x};
      if r.Some? && r.value.Ok? { bindDone := true; }
    }
  }
}
