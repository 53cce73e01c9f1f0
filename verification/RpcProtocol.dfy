/** One rpcc bound to one rpcs over a network that loses, repeats and reorders packets:
    every packet ever sent may be delivered at any later time, any number of times.
    Until a bind has returned every call is a bind, and any number of them may be in flight. */
module RpcProtocol {
  import opened RpcClient
  import opened RpcServer
  import opened Options

  datatype Msg = Ok(buf: Bytes) | AtMostOnceFailure

  datatype Sys = Sys(
    next: nat, bound: bool, calls: map<nat, Option<Msg>>, done: set<nat>,   // rpcc
    requests: set<(nat, nat)>, replies: set<(nat, Msg)>,                    // sent so far
    window: seq<Reply>, running: set<nat>,                                  // rpcs
    executed: seq<nat>, ack: nat,                                           // what happened: ack is the
    results: map<nat, Bytes>, returned: map<nat, Msg>)                      // largest xid_rep answered NEW

  const Start := Sys(1, false, map[], {}, {}, {}, [], {}, [], 0, map[], map[])

  datatype Step =
    | Call                                  // call1 takes an xid and packs the header
    | DeliverRequest(xid: nat, rep: nat)    // dispatch
    | Finish(xid: nat, buf: Bytes)          // the handler returns; add_reply, send
    | DeliverReply(xid: nat, msg: Msg)      // got_pdu
    | Return(xid: nat)                      // call1 sees the reply
    | TimeOut(xid: nat)                     // call1 gives up

  predicate Enabled(s: Sys, e: Step) {
    match e
    case Call => true
    case DeliverRequest(x, r) => (x, r) in s.requests
    case Finish(x, _) => x in s.running
    case DeliverReply(x, m) => (x, m) in s.replies
    case Return(x) => x in s.calls && s.calls[x].Some?
    case TimeOut(x) => x in s.calls && s.calls[x].None?
  }

  function Dispatch(s: Sys, x: nat, r: nat): Sys {
    var t := s.(window := Checked(s.window, x, r));
    match Judge(s.window, x)
    case NEW => t.(running := s.running + {x}, executed := s.executed + [x], ack := if s.ack < r then r else s.ack)
    case INPROGRESS => t
    case DONE(b) => t.(replies := s.replies + {(x, Ok(b))})
    case FORGOTTEN => t.(replies := s.replies + {(x, AtMostOnceFailure)})
  }

  function Apply(s: Sys, e: Step): Sys
    requires Enabled(s, e)
  {
    match e
    case Call =>
      s.(next := s.next + 1, calls := s.calls[s.next := None], requests := s.requests + {(s.next, Prefix(s.done))})
    case DeliverRequest(x, r) => Dispatch(s, x, r)
    case Finish(x, b) =>
      s.(running := s.running - {x}, results := s.results[x := b], window := Stored(s.window, x, b),
         replies := s.replies + {(x, Ok(b))})
    case DeliverReply(x, m) =>
      s.(done := s.done + {x}, calls := if x in s.calls && s.calls[x].None? then s.calls[x := Some(m)] else s.calls)
    case Return(x) =>
      s.(done := s.done + {x}, calls := s.calls - {x}, returned := s.returned[x := s.calls[x].value],
         bound := s.bound || s.calls[x].value.Ok?)
    case TimeOut(x) => s.(done := s.done + {x}, calls := s.calls - {x})
  }

  predicate Runs(s: Sys, es: seq<Step>)
    decreases |es|
  {
    es == [] || (Enabled(s, es[0]) && Runs(Apply(s, es[0]), es[1..]))
  }

  function After(s: Sys, es: seq<Step>): Sys
    requires Runs(s, es)
    decreases |es|
  {
    if es == [] then s else After(Apply(s, es[0]), es[1..])
  }

  // ----------------------------------------------------- at most once, with timeouts

  predicate SentOk(s: Sys, x: nat, r: nat) { (x, r) in s.requests ==> 1 <= x < s.next && r < x }
  predicate RepliedOk(s: Sys, x: nat, m: Msg) { (x, m) in s.replies ==> 1 <= x < s.next }

  predicate XidOk(s: Sys, x: nat) {
    && (x in s.done || x in s.calls || x in s.running || x in s.executed ==> 1 <= x < s.next)
    && (x in s.executed ==> Known(s.window, x))
  }

  ghost predicate Base(s: Sys) {
    && s.next >= 1 && Ascending(s.window)
    && (forall x {:trigger XidOk(s, x)} :: XidOk(s, x))
    && (forall x, r {:trigger SentOk(s, x, r)} :: SentOk(s, x, r))
    && (forall x, m {:trigger RepliedOk(s, x, m)} :: RepliedOk(s, x, m))
    && (forall i, j :: 0 <= i < j < |s.executed| ==> s.executed[i] != s.executed[j])
  }

  /** The acknowledgement a client sends is below the xid it sends it with. */
  lemma PrefixBelow(s: Sys)
    requires Base(s)
    ensures Prefix(s.done) < s.next
  {
    assert XidOk(s, s.next);
    assert Prefix(s.done) >= s.next ==> s.next in s.done;
  }

  lemma XidDispatch(s: Sys, y: nat, r: nat, x: nat)
    requires Base(s) && (y, r) in s.requests
    ensures XidOk(Dispatch(s, y, r), x)
  {
    assert XidOk(s, x) && SentOk(s, y, r);
    if x in s.executed { KnownStays(s.window, Request(y, r), x); }
    if Judge(s.window, y) == NEW { RememberedExactly(s.window, y, r); }
  }

  lemma BaseXid(s: Sys, e: Step, x: nat)
    requires Base(s) && Enabled(s, e)
    ensures XidOk(Apply(s, e), x)
  {
    assert XidOk(s, x);
    match e {
      case DeliverRequest(y, r) => XidDispatch(s, y, r, x);
      case Finish(y, b) => if x in s.executed { KnownStays(s.window, Answer(y, b), x); }
      case DeliverReply(y, m) => assert RepliedOk(s, y, m);
      case Return(y) => assert XidOk(s, y);
      case TimeOut(y) => assert XidOk(s, y);
      case Call =>
    }
  }

  lemma BaseReplied(s: Sys, e: Step, x: nat, m: Msg)
    requires Base(s) && Enabled(s, e)
    ensures RepliedOk(Apply(s, e), x, m)
  {
    assert RepliedOk(s, x, m) && XidOk(s, x);
    if e.DeliverRequest? { assert SentOk(s, e.xid, e.rep); }
  }

  lemma BaseExecuted(s: Sys, e: Step)
    requires Base(s) && Enabled(s, e)
    ensures var s' := Apply(s, e);
            Ascending(s'.window) && forall i, j :: 0 <= i < j < |s'.executed| ==> s'.executed[i] != s'.executed[j]
  {
    if e.DeliverRequest? && Judge(s.window, e.xid) == NEW {
      assert XidOk(s, e.xid);
      CheckedNew(s.window, e.xid, e.rep, e.xid);
      assert e.xid !in s.executed;
    }
    if e.Finish? { StoredSame(s.window, e.xid, e.buf, e.xid); }
  }

  lemma BaseStep(s: Sys, e: Step)
    requires Base(s) && Enabled(s, e)
    ensures Base(Apply(s, e))
  {
    var s' := Apply(s, e);
    forall x ensures XidOk(s', x) { BaseXid(s, e, x); }
    PrefixBelow(s);
    forall x, r ensures SentOk(s', x, r) { assert SentOk(s, x, r); }
    forall x, m ensures RepliedOk(s', x, m) { BaseReplied(s, e, x, m); }
    BaseExecuted(s, e);
  }

  lemma {:induction false} BaseRun(s: Sys, es: seq<Step>)
    requires Base(s) && Runs(s, es)
    ensures Base(After(s, es))
    decreases |es|
  {
    if es != [] {
      BaseStep(s, es[0]);
      BaseRun(Apply(s, es[0]), es[1..]);
    }
  }

  lemma StartBase()
    ensures Base(Start)
  {
    forall x ensures XidOk(Start, x) {}
    forall x, r ensures SentOk(Start, x, r) {}
    forall x, m ensures RepliedOk(Start, x, m) {}
  }

  /** In every run, timeouts and retransmissions included, no call is executed twice. */
  lemma ExecutedAtMostOnce(es: seq<Step>, i: nat, j: nat)
    requires Runs(Start, es) && i < j < |After(Start, es).executed|
    ensures After(Start, es).executed[i] != After(Start, es).executed[j]
  {
    StartBase();
    BaseRun(Start, es);
  }

  // ------------------------------------------------ what the server says, in every run

  /** The window lists exactly the executed requests that are not acknowledged, with their results. */
  predicate ListedAt(s: Sys, x: nat) {
    && (Has(s.window, x) <==> x in s.executed && s.ack <= x)
    && (Has(s.window, x) ==> Entry(s.window, x).present == (x in s.results)
                             && (x in s.results ==> Entry(s.window, x).buf == s.results[x]))
    && (x in s.running ==> x in s.executed && x !in s.results)
    && (x in s.results ==> x in s.executed)
  }

  ghost predicate Listed(s: Sys) {
    && Base(s)
    && (forall x {:trigger ListedAt(s, x)} :: ListedAt(s, x))
    && (if s.executed == [] then s.ack == 0 else exists y :: y in s.executed && s.ack <= y)
  }

  /** The verdict on every xid, from what was executed and acknowledged. */
  ghost function Decided(s: Sys, x: nat): Verdict {
    if x in s.executed && s.ack <= x then (if x in s.results then DONE(s.results[x]) else INPROGRESS)
    else if x !in s.executed && (s.executed == [] || exists y :: y in s.executed && s.ack <= y < x) then NEW
    else FORGOTTEN
  }

  lemma ListedMeans(s: Sys, x: nat)
    requires Listed(s)
    ensures Judge(s.window, x) == Decided(s, x)
  {
    assert ListedAt(s, x);
    if s.executed != [] {
      var y :| y in s.executed && s.ack <= y;
      assert ListedAt(s, y);
      HasMember(s.window, 0);
      var f := s.window[0].xid;
      assert ListedAt(s, f);
      forall z | z in s.executed && s.ack <= z ensures f <= z { assert ListedAt(s, z); AscendingHas(s.window, z); }
    } else {
      assert s.window != [] ==> Has(s.window, s.window[0].xid) && ListedAt(s, s.window[0].xid);
    }
  }

  /** A new request is above the acknowledgements. */
  lemma NewIsAbove(s: Sys, x: nat)
    requires Listed(s) && Judge(s.window, x) == NEW
    ensures x !in s.executed && s.ack <= x
  {
    ListedMeans(s, x);
  }

  lemma ListedDispatch(s: Sys, y: nat, r: nat, x: nat)
    requires Listed(s) && (y, r) in s.requests
    ensures ListedAt(Dispatch(s, y, r), x)
  {
    assert ListedAt(s, x) && ListedAt(s, y) && XidOk(s, y) && SentOk(s, y, r);
    if Judge(s.window, y) == NEW {
      CheckedNew(s.window, y, r, x);
      NewIsAbove(s, y);
    }
  }

  lemma ListedFinish(s: Sys, y: nat, b: Bytes, x: nat)
    requires Listed(s) && y in s.running
    ensures ListedAt(Apply(s, Finish(y, b)), x)
  {
    assert ListedAt(s, x) && ListedAt(s, y);
    StoredSame(s.window, y, b, x);
  }

  lemma ListedStep(s: Sys, e: Step)
    requires Listed(s) && Enabled(s, e)
    ensures Listed(Apply(s, e))
  {
    var s' := Apply(s, e);
    BaseStep(s, e);
    forall x ensures ListedAt(s', x) {
      assert ListedAt(s, x);
      if e.DeliverRequest? { ListedDispatch(s, e.xid, e.rep, x); }
      if e.Finish? { ListedFinish(s, e.xid, e.buf, x); }
    }
    if e.DeliverRequest? && Judge(s.window, e.xid) == NEW {
      assert SentOk(s, e.xid, e.rep);
      NewIsAbove(s, e.xid);
      assert e.xid in s'.executed && s'.ack <= e.xid;
    }
  }

  // ------------------------------------------------ what the callers get, in every run

  /** What a reply says about its call: the result of its one execution, or that there is none. */
  predicate Tells(s: Sys, x: nat, m: Msg) {
    if m.Ok? then x in s.results && s.results[x] == m.buf else x !in s.executed && Known(s.window, x)
  }

  predicate CallerAt(s: Sys, x: nat) {
    && (x in s.calls && s.calls[x].None? ==> x !in s.done)
    && (x in s.calls && s.calls[x].Some? ==> x in s.done && Tells(s, x, s.calls[x].value))
    && (x in s.returned ==> Tells(s, x, s.returned[x]))
  }

  predicate SentDone(s: Sys, x: nat, r: nat) { (x, r) in s.requests ==> r <= Prefix(s.done) }

  predicate ReplyTells(s: Sys, x: nat, m: Msg) { (x, m) in s.replies ==> (x in s.done && !m.Ok?) || Tells(s, x, m) }

  ghost predicate Inv(s: Sys) {
    && Listed(s) && s.ack <= Prefix(s.done)
    && (forall x {:trigger CallerAt(s, x)} :: CallerAt(s, x))
    && (forall x, r {:trigger SentDone(s, x, r)} :: SentDone(s, x, r))
    && (forall x, m {:trigger ReplyTells(s, x, m)} :: ReplyTells(s, x, m))
  }

  lemma PrefixGrows(a: set<nat>, b: set<nat>)
    requires a <= b
    ensures Prefix(a) <= Prefix(b)
  {
    assert Prefix(b) < Prefix(a) ==> Prefix(b) + 1 in a;
  }

  /** What a reply tells stays true: results are never replaced and a refused call is never executed. */
  lemma TellsStays(s: Sys, e: Step, x: nat, m: Msg)
    requires Listed(s) && Enabled(s, e) && Tells(s, x, m)
    ensures Tells(Apply(s, e), x, m)
  {
    assert ListedAt(s, x) && XidOk(s, x);
    if e.Finish? {
      assert ListedAt(s, e.xid);
      if !m.Ok? { KnownStays(s.window, Answer(e.xid, e.buf), x); }
    }
    if e.DeliverRequest? {
      assert SentOk(s, e.xid, e.rep);
      if !m.Ok? {
        KnownStays(s.window, Request(e.xid, e.rep), x);
        KnownIsNotNew(s.window, x);
      }
    }
  }

  /** A refusal is sent for a finished call or for one that was never executed and never will be. */
  lemma RefusalTells(s: Sys, x: nat, r: nat)
    requires Inv(s) && (x, r) in s.requests && Judge(s.window, x) == FORGOTTEN
    ensures x in s.done || Tells(s, x, AtMostOnceFailure)
  {
    ListedMeans(s, x);
    assert SentOk(s, x, r) && ListedAt(s, x);
    KnownIsNotNew(s.window, x);
  }

  lemma RepliesTell(s: Sys, e: Step, x: nat, m: Msg)
    requires Inv(s) && Enabled(s, e)
    ensures ReplyTells(Apply(s, e), x, m)
  {
    assert ReplyTells(s, x, m) && ListedAt(s, x);
    if (x, m) in s.replies {
      if Tells(s, x, m) { TellsStays(s, e, x, m); }
    } else if e.DeliverRequest? && e.xid == x {
      if Judge(s.window, x) == FORGOTTEN { RefusalTells(s, x, e.rep); }
      ListedMeans(s, x);
    }
  }

  lemma CallersTold(s: Sys, e: Step, x: nat)
    requires Inv(s) && Enabled(s, e)
    ensures CallerAt(Apply(s, e), x)
  {
    assert CallerAt(s, x) && XidOk(s, x);
    if x in s.calls && s.calls[x].Some? { TellsStays(s, e, x, s.calls[x].value); }
    if x in s.returned { TellsStays(s, e, x, s.returned[x]); }
    if e.DeliverReply? && e.xid == x {
      assert ReplyTells(s, x, e.msg);
      if Tells(s, x, e.msg) { TellsStays(s, e, x, e.msg); }
    }
  }

  lemma InvStep(s: Sys, e: Step)
    requires Inv(s) && Enabled(s, e)
    ensures Inv(Apply(s, e))
  {
    var s' := Apply(s, e);
    ListedStep(s, e);
    PrefixGrows(s.done, s'.done);
    if e.DeliverRequest? { assert SentDone(s, e.xid, e.rep); }
    forall x ensures CallerAt(s', x) { CallersTold(s, e, x); }
    forall x, r ensures SentDone(s', x, r) { assert SentDone(s, x, r); }
    forall x, m ensures ReplyTells(s', x, m) { RepliesTell(s, e, x, m); }
  }

  lemma {:induction false} InvRun(s: Sys, es: seq<Step>)
    requires Inv(s) && Runs(s, es)
    ensures Inv(After(s, es))
    decreases |es|
  {
    if es != [] {
      InvStep(s, es[0]);
      InvRun(Apply(s, es[0]), es[1..]);
    }
  }

  lemma StartInv()
    ensures Inv(Start)
  {
    StartBase();
    forall x ensures ListedAt(Start, x) && CallerAt(Start, x) {}
    forall x, r ensures SentDone(Start, x, r) {}
    forall x, m ensures ReplyTells(Start, x, m) {}
  }

  /** In every run, timeouts included, the server's verdict on every xid is decided by what was
      executed and by the largest acknowledgement of an executed request. */
  lemma VerdictExactly(es: seq<Step>, x: nat)
    requires Runs(Start, es)
    ensures Judge(After(Start, es).window, x) == Decided(After(Start, es), x)
  {
    StartInv();
    InvRun(Start, es);
    ListedMeans(After(Start, es), x);
  }

  /** In every run a call whose caller still waits is never forgotten once it was executed: a
      repeated request for it is answered with exactly the stored bytes, or it is still running. */
  lemma WaiterIsServed(es: seq<Step>, x: nat)
    requires Runs(Start, es) && x in After(Start, es).calls && After(Start, es).calls[x].None?
    ensures var s := After(Start, es);
      x in s.executed ==> Judge(s.window, x) == if x in s.results then DONE(s.results[x]) else INPROGRESS
  {
    StartInv();
    InvRun(Start, es);
    var s := After(Start, es);
    assert CallerAt(s, x) && XidOk(s, x);
    ListedMeans(s, x);
  }

  /** In every run, timeouts included, a call that returns was executed exactly once and returns the
      bytes of that execution, or it is refused and was not executed at all. */
  lemma ReturnsTellTheTruth(es: seq<Step>, x: nat)
    requires Runs(Start, es) && x in After(Start, es).returned
    ensures var s := After(Start, es);
      if s.returned[x] == AtMostOnceFailure then x !in s.executed
      else && x in s.results && s.returned[x] == Ok(s.results[x])
           && exists i :: 0 <= i < |s.executed| && s.executed[i] == x
                          && forall j :: 0 <= j < |s.executed| && j != i ==> s.executed[j] != x
  {
    StartInv();
    InvRun(Start, es);
    var s := After(Start, es);
    assert CallerAt(s, x) && ListedAt(s, x);
    if s.returned[x].Ok? { var i :| 0 <= i < |s.executed| && s.executed[i] == x; }
  }

  // ------------------------------------- nobody is refused without timeouts and rival binds

  predicate NoTimeOut(es: seq<Step>) { forall i :: 0 <= i < |es| ==> !es[i].TimeOut? }

  // ------------------------------------------------------------ what is acknowledged

  /** A call is under way as long as its caller waits and has no reply. */
  predicate Waits(s: Sys, x: nat) { x in s.calls && s.calls[x].None? }

  predicate FinishedAt(s: Sys, x: nat) { x in s.done <==> 1 <= x < s.next && !Waits(s, x) }

  lemma {:induction false} FinishedRun(s: Sys, es: seq<Step>, x: nat)
    requires Base(s) && Runs(s, es) && FinishedAt(s, x)
    ensures Base(After(s, es)) && FinishedAt(After(s, es), x)
    decreases |es|
  {
    hide Base, Enabled, Apply;
    if es != [] {
      BaseStep(s, es[0]);
      FinishedStep(s, es[0], x);
      FinishedRun(Apply(s, es[0]), es[1..], x);
    }
  }

  lemma FinishedStep(s: Sys, e: Step, x: nat)
    requires Base(s) && Enabled(s, e) && FinishedAt(s, x)
    ensures FinishedAt(Apply(s, e), x)
  {
    assert XidOk(s, x) && XidOk(s, s.next);
    if e.DeliverReply? { assert RepliedOk(s, e.xid, e.msg); }
    else if e.Return? || e.TimeOut? { assert XidOk(s, e.xid); }
  }

  /** In every run a new call acknowledges exactly the calls before the oldest one that still waits: the
      acknowledged ones are answered or given up, and the next one is not, unless it is the new call. */
  lemma AcknowledgesUpToTheOldest(es: seq<Step>, x: nat) returns (r: nat)
    requires Runs(Start, es)
    ensures var s := After(Start, es);
            && Apply(s, Call).requests == s.requests + {(s.next, r)} && r < s.next
            && (1 <= x <= r ==> !Waits(s, x)) && (r + 1 == s.next || Waits(s, r + 1))
  {
    hide Runs, After, Base;
    StartBase();
    BaseRun(Start, es);
    var s := After(Start, es);
    r := Prefix(s.done);
    PrefixBelow(s);
    FinishedRun(Start, es, x);
    FinishedRun(Start, es, r + 1);
  }


  /** Binds are made one at a time. */
  predicate BindsAlone(s: Sys, es: seq<Step>)
    requires Runs(s, es)
    decreases |es|
  {
    es == [] || ((es[0].Call? ==> s.bound || s.calls == map[]) && BindsAlone(Apply(s, es[0]), es[1..]))
  }

  predicate CalmAt(s: Sys, x: nat) {
    && (x in s.done ==> x in s.executed)
    && (1 <= x < s.next && x !in s.calls ==> x in s.done)
    && ((x, AtMostOnceFailure) in s.replies ==> x in s.done)
    && (x in s.calls && s.calls[x].Some? ==> s.calls[x].value.Ok?)
    && (x in s.returned ==> s.returned[x].Ok?)
  }

  ghost predicate Calm(s: Sys) {
    && Inv(s)
    && (forall x {:trigger CalmAt(s, x)} :: CalmAt(s, x))
    && (s.executed != [] ==> 1 in s.executed)
    && (if s.bound then 1 in s.done else s.next == 1 || (s.next == 2 && 1 in s.calls))
  }

  /** A request that was never executed is not acknowledged, and everything acknowledged was executed. */
  lemma UnseenIsNew(s: Sys, x: nat, r: nat)
    requires Calm(s) && (x, r) in s.requests && x !in s.executed
    ensures Judge(s.window, x) == NEW
  {
    ListedMeans(s, x);
    var p := Prefix(s.done);
    assert CalmAt(s, x) && CalmAt(s, p) && SentOk(s, x, r);
    if s.executed != [] {
      var y := if p == 0 then 1 else p;
      assert p < x && y in s.executed && s.ack <= y < x;
    }
  }

  lemma CalmDispatch(s: Sys, y: nat, r: nat, x: nat)
    requires Calm(s) && (y, r) in s.requests
    ensures CalmAt(Dispatch(s, y, r), x)
  {
    assert CalmAt(s, x);
    if Judge(s.window, y) == FORGOTTEN {
      if y !in s.executed { UnseenIsNew(s, y, r); }
      RefusalTells(s, y, r);
    }
  }

  lemma CalmStepAt(s: Sys, e: Step, x: nat)
    requires Calm(s) && Enabled(s, e) && !e.TimeOut?
    ensures CalmAt(Apply(s, e), x)
  {
    assert CalmAt(s, x) && CallerAt(s, x) && ListedAt(s, x);
    if e.DeliverRequest? { CalmDispatch(s, e.xid, e.rep, x); }
    if e.DeliverReply? { assert ReplyTells(s, e.xid, e.msg) && CalmAt(s, e.xid) && ListedAt(s, e.xid) && CallerAt(s, e.xid); }
    if e.Return? { assert CallerAt(s, e.xid); }
  }

  lemma CalmStep(s: Sys, e: Step)
    requires Calm(s) && Enabled(s, e) && !e.TimeOut? && (e.Call? ==> s.bound || s.calls == map[])
    ensures Calm(Apply(s, e))
  {
    InvStep(s, e);
    forall x ensures CalmAt(Apply(s, e), x) { CalmStepAt(s, e, x); }
    assert CalmAt(s, 1);
    if e.DeliverRequest? { assert SentOk(s, e.xid, e.rep); }
    if e.Return? { assert CallerAt(s, e.xid) && XidOk(s, e.xid); }
  }

  lemma {:induction false} CalmRun(s: Sys, es: seq<Step>)
    requires Calm(s) && Runs(s, es) && NoTimeOut(es) && BindsAlone(s, es)
    ensures Calm(After(s, es))
    decreases |es|
  {
    if es != [] {
      CalmStep(s, es[0]);
      CalmRun(Apply(s, es[0]), es[1..]);
    }
  }

  lemma StartCalm()
    ensures Calm(Start)
  {
    StartInv();
    forall x ensures CalmAt(Start, x) {}
  }

  /** When no call times out and binds are made one at a time, a request that reaches the server for
      the first time is NEW. */
  lemma FirstArrivalIsNew(es: seq<Step>, x: nat, r: nat)
    requires Runs(Start, es) && NoTimeOut(es) && BindsAlone(Start, es)
    requires (x, r) in After(Start, es).requests && x !in After(Start, es).executed
    ensures Judge(After(Start, es).window, x) == NEW
  {
    StartCalm();
    CalmRun(Start, es);
    UnseenIsNew(After(Start, es), x, r);
  }

  /** Then every call that returns was executed exactly once, and returns the bytes of that execution. */
  lemma ExactlyOnce(es: seq<Step>, x: nat)
    requires Runs(Start, es) && NoTimeOut(es) && BindsAlone(Start, es) && x in After(Start, es).returned
    ensures var s := After(Start, es);
      && x in s.results && s.returned[x] == Ok(s.results[x])
      && exists i :: 0 <= i < |s.executed| && s.executed[i] == x
                     && forall j :: 0 <= j < |s.executed| && j != i ==> s.executed[j] != x
  {
    StartCalm();
    CalmRun(Start, es);
    assert CalmAt(After(Start, es), x);
    ReturnsTellTheTruth(es, x);
  }

  // -------------------------------------------------------------- refused while waiting

  lemma {:induction false} RunsSnoc(s: Sys, es: seq<Step>, e: Step)
    requires Runs(s, es) && Enabled(After(s, es), e)
    ensures Runs(s, es + [e]) && After(s, es + [e]) == Apply(After(s, es), e)
    decreases |es|
  {
    if es == [] {
      assert (es + [e])[1..] == [];
    } else {
      assert (es + [e])[1..] == es[1..] + [e];
      RunsSnoc(Apply(s, es[0]), es[1..], e);
    }
  }

  /** The first call is made, executed and returned. */
  lemma FirstCall(b: Bytes) returns (es: seq<Step>)
    ensures es == [Call, DeliverRequest(1, 0), Finish(1, b), DeliverReply(1, Ok(b)), Return(1)] && Runs(Start, es)
    ensures After(Start, es) == Sys(2, true, map[], {1}, {(1, 0)}, {(1, Ok(b))}, [Reply(1, true, b)], {}, [1], 0,
                                    map[1 := b], map[1 := Ok(b)])
  {
    PrefixUnique({}, 0);
    es := [Call];
    RunsSnoc(Start, [], Call);
    RunsSnoc(Start, es, DeliverRequest(1, 0)); es := es + [DeliverRequest(1, 0)];
    assert After(Start, es).window == [Reply(1, false, [])];
    RunsSnoc(Start, es, Finish(1, b)); es := es + [Finish(1, b)];
    assert After(Start, es).window == [Reply(1, true, b)];
    RunsSnoc(Start, es, DeliverReply(1, Ok(b))); es := es + [DeliverReply(1, Ok(b))];
    RunsSnoc(Start, es, Return(1)); es := es + [Return(1)];
  }

  /** Call 2 times out, calls 3 and 4 acknowledge it, and 4 overtakes 3: call 3 still waits, was
      never executed, and is refused. */
  lemma WaiterRefused(b: Bytes) returns (es: seq<Step>)
    ensures Runs(Start, es) && es == [Call, DeliverRequest(1, 0), Finish(1, b), DeliverReply(1, Ok(b)), Return(1),
                                      Call, TimeOut(2), Call, Call, DeliverRequest(4, 2)]
    ensures var s := After(Start, es);
            3 in s.calls && s.calls[3] == None && (3, 2) in s.requests && 3 !in s.executed && Judge(s.window, 3) == FORGOTTEN
  {
    hide Runs, After, Prefix;
    es := FirstCall(b);
    PrefixUnique({1}, 1); PrefixUnique({1, 2}, 2);
    RunsSnoc(Start, es, Call); es := es + [Call];
    RunsSnoc(Start, es, TimeOut(2)); es := es + [TimeOut(2)];
    assert After(Start, es).done == {1, 2};
    RunsSnoc(Start, es, Call); es := es + [Call];
    RunsSnoc(Start, es, Call); es := es + [Call];
    RunsSnoc(Start, es, DeliverRequest(4, 2)); es := es + [DeliverRequest(4, 2)];
    var s := After(Start, es);
    assert s.executed == [1, 4] && s.ack == 2;
    VerdictExactly(es, 3);
  }

  /** No timeout is needed: of two binds in flight the later one may arrive first. */
  lemma RivalBindRefused() returns (es: seq<Step>)
    ensures Runs(Start, es) && es == [Call, Call, DeliverRequest(2, 0)] && NoTimeOut(es)
    ensures var s := After(Start, es); 1 in s.calls && s.calls[1] == None && Judge(s.window, 1) == FORGOTTEN
  {
    PrefixUnique({}, 0);
    es := [Call];
    RunsSnoc(Start, [], Call);
    RunsSnoc(Start, es, Call); es := es + [Call];
    RunsSnoc(Start, es, DeliverRequest(2, 0)); es := es + [DeliverRequest(2, 0)];
    assert After(Start, es).executed == [2];
    VerdictExactly(es, 1);
  }
}
