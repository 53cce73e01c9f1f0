/** What the recorded waits mean: every recorded wait is a real one, so no transaction is aborted
    without a deadlock; and a real wait is missing from the record exactly after a slot was handed over
    to one of several waiters, which lets a deadlock go unnoticed. */
module TwoPhaseWaits {
  import opened Transactions
  import opened WaitGraph
  import opened TwoPhase

  /** a waits for the lock of a slot that b has. */
  predicate WaitsOn(s: Sys, a: Id, b: Id) {
    && a in s.txs && s.txs[a].phase.Waiting?
    && s.txs[a].phase.op.slot in s.handlers && s.handlers[s.txs[a].phase.op.slot] == b
  }

  ghost function RealWaits(s: Sys): Graph {
    set a, b | a in s.txs && b in s.txs && WaitsOn(s, a, b) :: (a, b)
  }

  predicate Ending(s: Sys, b: Id) { s.fin.Finishing? && s.fin.id == b }

  // ------------------------------------------------------------ recorded waits are real

  predicate RealEdge(s: Sys, a: Id, b: Id) { (a, b) in s.waits ==> WaitsOn(s, a, b) || Ending(s, b) }

  /** Who handles a slot holds its lock. */
  lemma Handler(s: Sys, k: Slot)
    requires Tidy(s) && k in s.handlers
    ensures k in s.held && s.held[k] == s.handlers[k] && s.held[k] in s.txs
    ensures !(s.txs[s.held[k]].phase.Granted? && s.txs[s.held[k]].phase.op.slot == k)
  {
    assert SlotOk(s, k) && TxOk(s, s.handlers[k]) && LockOk(s, s.handlers[k], k);
  }

  /** A slot that is being taken has no handler. */
  lemma NoHandler(s: Sys, k: Slot)
    requires Tidy(s) && (k !in s.held || (s.held[k] in s.txs && s.txs[s.held[k]].phase.Granted? && s.txs[s.held[k]].phase.op.slot == k))
    ensures k !in s.handlers
  {
    hide Tidy;
    if k in s.handlers { Handler(s, k); }
  }

  lemma RealEdgeStep(s: Sys, e: Step, a: Id, b: Id)
    requires Tidy(s) && Enabled(s, e) && RealEdge(s, a, b)
    ensures RealEdge(Apply(s, e), a, b)
  {
    if e.Grant? { NoHandler(s, s.txs[e.id].phase.op.slot); }
    else if e.Record? {
      assert LockOk(s, e.id, s.txs[e.id].phase.op.slot);
      NoHandler(s, s.txs[e.id].phase.op.slot);
    }
    else if e.Release? { assert LockOk(s, s.fin.id, e.slot); }
    else if e.Begin? { assert TxOk(s, s.next); }
    else if e.CommitBegin? || e.AbortBegin? {}
    else if e.Request? { assert TxOk(s, e.id); }
  }

  ghost predicate Real(s: Sys) { forall a, b {:trigger RealEdge(s, a, b)} :: RealEdge(s, a, b) }

  lemma {:induction false} RealRun(s: Sys, es: seq<Step>)
    requires Tidy(s) && Real(s) && Runs(s, es)
    ensures Tidy(After(s, es)) && Real(After(s, es))
    decreases |es|
  {
    hide Tidy, Enabled, Apply;
    if es != [] {
      TidyStep(s, es[0]);
      forall a, b ensures RealEdge(Apply(s, es[0]), a, b) { assert RealEdge(s, a, b); RealEdgeStep(s, es[0], a, b); }
      RealRun(Apply(s, es[0]), es[1..]);
    }
  }

  lemma Reached(s0: Store, es: seq<Step>)
    requires Runs(Start(s0), es)
    ensures Tidy(After(Start(s0), es)) && Real(After(Start(s0), es))
  {
    hide Tidy;
    StartInv(s0);
    forall a, b ensures RealEdge(Start(s0), a, b) {}
    RealRun(Start(s0), es);
  }

  /** In every reachable state outside a commit or abort, who is recorded as waiting for b does wait
      for a slot that b has locked. */
  lemma RecordedWaitsAreReal(s0: Store, es: seq<Step>, a: Id, b: Id)
    requires Runs(Start(s0), es) && After(Start(s0), es).fin.Idle?
    ensures var s := After(Start(s0), es); (a, b) in s.waits ==> WaitsOn(s, a, b) && b in s.txs
  {
    hide Runs, After;
    Reached(s0, es);
    assert RealEdge(After(Start(s0), es), a, b) && EdgeOk(After(Start(s0), es), a, b);
  }

  lemma WaitsWithin(s: Sys)
    requires Tidy(s) && Real(s) && s.fin.Idle?
    ensures s.waits <= RealWaits(s)
  {
    forall e | e in s.waits ensures e in RealWaits(s) { assert RealEdge(s, e.0, e.1) && EdgeOk(s, e.0, e.1); }
  }

  /** Who is told to abort would have closed a circle of transactions that wait for each other. */
  lemma NoAbortWithoutDeadlock(s0: Store, es: seq<Step>, id: Id, op: Op)
    requires Runs(Start(s0), es) && Enabled(After(Start(s0), es), Request(id, op))
    ensures var s := After(Start(s0), es);
            Apply(s, Request(id, op)).txs[id].phase == Doomed ==>
              op.slot in s.handlers && Reaches(RealWaits(s), s.handlers[op.slot], id)
  {
    hide Runs, After, Tidy, Real, RealWaits, Reaches;
    var s := After(Start(s0), es);
    Reached(s0, es);
    if Apply(s, Request(id, op)).txs[id].phase == Doomed {
      WaitsWithin(s);
      ReachesMonotone(s.waits, RealWaits(s), s.handlers[op.slot], id);
    }
  }

  // ----------------------------------------------------------- when all waits are recorded

  predicate WaitRecorded(s: Sys, a: Id, b: Id) { WaitsOn(s, a, b) && !Ending(s, b) ==> (a, b) in s.waits }

  ghost predicate AllRecorded(s: Sys) { forall a, b {:trigger WaitRecorded(s, a, b)} :: WaitRecorded(s, a, b) }

  /** A slot is handed over to one transaction while another one waits for it too. */
  predicate HandsOver(s: Sys, e: Step) {
    && e.Record? && e.id in s.txs && s.txs[e.id].phase.Granted?
    && exists a :: a in s.txs && a != e.id && s.txs[a].phase.Waiting? && s.txs[a].phase.op.slot == s.txs[e.id].phase.op.slot
  }

  lemma RecordedStep(s: Sys, e: Step, a: Id, b: Id)
    requires Tidy(s) && Enabled(s, e) && WaitRecorded(s, a, b) && !HandsOver(s, e)
    ensures WaitRecorded(Apply(s, e), a, b)
  {
    if e.Begin? { assert TxOk(s, s.next); }
    else if e.FinishEnd? && a in s.txs && s.txs[a].phase.Waiting? { assert SlotOk(s, s.txs[a].phase.op.slot) && TxOk(s, s.fin.id); }
    else if e.AbortBegin? { assert TxOk(s, e.id); }
  }

  lemma HandOverUnrecords(s: Sys, e: Step)
    requires Tidy(s) && Real(s) && Enabled(s, e) && HandsOver(s, e)
    ensures !AllRecorded(Apply(s, e))
  {
    var k := s.txs[e.id].phase.op.slot;
    var a :| a in s.txs && a != e.id && s.txs[a].phase.Waiting? && s.txs[a].phase.op.slot == k;
    assert LockOk(s, e.id, k);
    NoHandler(s, k);
    assert RealEdge(s, a, e.id);
    assert !WaitRecorded(Apply(s, e), a, e.id);
  }

  lemma StepRecordedExactly(s: Sys, e: Step)
    requires Tidy(s) && Real(s) && Enabled(s, e) && AllRecorded(s)
    ensures AllRecorded(Apply(s, e)) <==> !HandsOver(s, e)
  {
    hide Tidy, Real, Apply, Enabled, HandsOver, WaitRecorded;
    if HandsOver(s, e) {
      HandOverUnrecords(s, e);
    } else {
      forall a, b ensures WaitRecorded(Apply(s, e), a, b) { assert WaitRecorded(s, a, b); RecordedStep(s, e, a, b); }
    }
  }

  ghost predicate AlwaysRecorded(s: Sys, es: seq<Step>)
    requires Runs(s, es)
    decreases |es|
  {
    AllRecorded(s) && (es == [] || AlwaysRecorded(Apply(s, es[0]), es[1..]))
  }

  ghost predicate NeverHandsOver(s: Sys, es: seq<Step>)
    requires Runs(s, es)
    decreases |es|
  {
    es == [] || (!HandsOver(s, es[0]) && NeverHandsOver(Apply(s, es[0]), es[1..]))
  }

  lemma {:induction false} RunRecordedExactly(s: Sys, es: seq<Step>)
    requires Tidy(s) && Real(s) && AllRecorded(s) && Runs(s, es)
    ensures AlwaysRecorded(s, es) <==> NeverHandsOver(s, es)
    decreases |es|
  {
    hide Tidy, Enabled, Apply, AllRecorded, HandsOver, Real;
    if es != [] {
      StepRecordedExactly(s, es[0]);
      TidyStep(s, es[0]);
      RealOne(s, es[0]);
      if AllRecorded(Apply(s, es[0])) { RunRecordedExactly(Apply(s, es[0]), es[1..]); }
    }
  }

  lemma RealOne(s: Sys, e: Step)
    requires Tidy(s) && Real(s) && Enabled(s, e)
    ensures Real(Apply(s, e))
  {
    hide Tidy, Enabled, Apply, RealEdge;
    forall a, b ensures RealEdge(Apply(s, e), a, b) { assert RealEdge(s, a, b); RealEdgeStep(s, e, a, b); }
  }

  /** All along a run every real wait is recorded, if and only if no slot was ever handed over to one of
      several waiters. */
  lemma WaitsAreRecordedExactly(s0: Store, es: seq<Step>)
    requires Runs(Start(s0), es)
    ensures AlwaysRecorded(Start(s0), es) <==> NeverHandsOver(Start(s0), es)
  {
    hide Tidy, Runs, AlwaysRecorded, NeverHandsOver;
    StartInv(s0);
    forall a, b ensures RealEdge(Start(s0), a, b) && WaitRecorded(Start(s0), a, b) {}
    RunRecordedExactly(Start(s0), es);
  }

  /** While all waits are recorded, a request is told to abort if and only if its wait would close a
      circle of transactions that wait for each other. */
  lemma AbortsExactlyOnDeadlock(s0: Store, es: seq<Step>, id: Id, op: Op)
    requires Runs(Start(s0), es) && Enabled(After(Start(s0), es), Request(id, op)) && AllRecorded(After(Start(s0), es))
    requires op.slot !in After(Start(s0), es).txs[id].locks
    ensures var s := After(Start(s0), es);
            Apply(s, Request(id, op)).txs[id].phase == Doomed <==>
              op.slot in s.handlers && Reaches(RealWaits(s), s.handlers[op.slot], id)
  {
    hide Runs, After, Tidy, Real, Reaches;
    var s := After(Start(s0), es);
    Reached(s0, es);
    WaitsWithin(s);
    forall e | e in RealWaits(s) ensures e in s.waits { assert WaitRecorded(s, e.0, e.1); }
    assert s.waits == RealWaits(s);
  }

  // ---------------------------------------------------------------- a deadlock unnoticed

  /** Two transactions that wait for each other, neither of them ending. */
  predicate Deadlock(s: Sys, a: Id, b: Id) { WaitsOn(s, a, b) && WaitsOn(s, b, a) && !Ending(s, a) && !Ending(s, b) }

  lemma DeadlockStep(s: Sys, e: Step, a: Id, b: Id)
    requires Tidy(s) && Enabled(s, e) && Deadlock(s, a, b)
    ensures Deadlock(Apply(s, e), a, b)
  {
    var k, l := s.txs[a].phase.op.slot, s.txs[b].phase.op.slot;
    assert SlotOk(s, k) && SlotOk(s, l) && LockOk(s, b, k) && LockOk(s, a, l);
    if e.Release? { assert LockOk(s, s.fin.id, e.slot); }
    else if e.Record? { assert LockOk(s, e.id, s.txs[e.id].phase.op.slot) && TxOk(s, a) && TxOk(s, b); }
    else if e.Begin? { assert TxOk(s, s.next); }
  }

  /** A deadlock is for ever: no step of anyone ends it. */
  lemma {:induction false} DeadlockStays(s: Sys, es: seq<Step>, a: Id, b: Id)
    requires Tidy(s) && Deadlock(s, a, b) && Runs(s, es)
    ensures Deadlock(After(s, es), a, b)
    decreases |es|
  {
    hide Tidy, Enabled, Apply, Deadlock;
    if es != [] {
      TidyStep(s, es[0]);
      DeadlockStep(s, es[0], a, b);
      DeadlockStays(Apply(s, es[0]), es[1..], a, b);
    }
  }

  lemma {:induction false} RunsBoth(s: Sys, es: seq<Step>, more: seq<Step>)
    requires Runs(s, es) && Runs(After(s, es), more)
    ensures Runs(s, es + more) && After(s, es + more) == After(After(s, es), more)
    decreases |es|
  {
    hide Enabled, Apply;
    if es == [] {
      assert es + more == more;
    } else {
      assert (es + more)[1..] == es[1..] + more && (es + more)[0] == es[0];
      RunsBoth(Apply(s, es[0]), es[1..], more);
    }
  }

  lemma OneStep(s: Sys, e: Step)
    requires Enabled(s, e)
    ensures Runs(s, [e]) && After(s, [e]) == Apply(s, e)
  {
    hide Enabled, Apply;
    assert [e][1..] == [];
    assert Runs(Apply(s, e), []);
  }

  lemma NoWayOut(g: Graph, a: nat, b: nat)
    requires a != b && forall c :: (a, c) !in g
    ensures !Reaches(g, a, b)
  {
    if Reaches(g, a, b) { FirstStep(g, a, b); }
  }

  /** The grant of a slot nobody has and what follows it. */
  lemma Taken(s: Sys, id: Id) returns (t: Sys)
    requires s.fin.Idle? && id in s.txs && s.txs[id].phase.Waiting? && s.txs[id].phase.op.slot !in s.held
    ensures var op := s.txs[id].phase.op;
            && t == s.(held := s.held[op.slot := id], handlers := s.handlers[op.slot := id], txs := s.txs[id := OnFresh(s.txs[id], op, s.store)])
            && Runs(s, [Grant(id)] + [Record(id)]) && After(s, [Grant(id)] + [Record(id)]) == t
  {
    hide OnFresh, Runs, After;
    var u := Apply(s, Grant(id));
    OneStep(s, Grant(id));
    OneStep(u, Record(id));
    RunsBoth(s, [Grant(id)], [Record(id)]);
    t := Apply(u, Record(id));
    assert u.txs[id := t.txs[id]] == s.txs[id := t.txs[id]];
    FreshPhase(s.txs[id], s.txs[id].phase.op, s.store);
  }

  lemma FreshPhase(t: Tx, op: Op, s: Store)
    ensures OnFresh(t.(phase := Granted(op)), op, s) == OnFresh(t, op, s)
  {}

  /** A request for a slot nobody has, up to its end. */
  lemma Takes(s: Sys, id: Id, op: Op) returns (t: Sys)
    requires s.fin.Idle? && id in s.txs && s.txs[id].phase == Ready && op.slot !in s.txs[id].locks && op.slot !in s.held && op.slot !in s.handlers
    ensures t == s.(held := s.held[op.slot := id], handlers := s.handlers[op.slot := id], txs := s.txs[id := OnFresh(s.txs[id], op, s.store)])
    ensures var es := [Request(id, op)] + ([Grant(id)] + [Record(id)]); Runs(s, es) && After(s, es) == t
  {
    hide OnFresh, Runs, After;
    var u := Apply(s, Request(id, op));
    OneStep(s, Request(id, op));
    t := Taken(u, id);
    RunsBoth(s, [Request(id, op)], [Grant(id)] + [Record(id)]);
    WaitingPhase(s.txs[id], op, s.store);
    assert u.txs[id := t.txs[id]] == s.txs[id := t.txs[id]];
  }

  lemma WaitingPhase(t: Tx, op: Op, s: Store)
    ensures OnFresh(t.(phase := Waiting(op)), op, s) == OnFresh(t, op, s)
  {}

  function Fresh(): Tx { Tx({}, map[], Ready, []) }
  function Set1(k: Slot, v: string, phase: Phase): Tx { Tx({k}, map[k := v], phase, [Put(k, v)]) }

  lemma ThreeBegin(s0: Store)
    ensures var es := [Begin] + ([Begin] + [Begin]);
            && Runs(Start(s0), es)
            && After(Start(s0), es) == Start(s0).(txs := map[0 := Fresh(), 1 := Fresh(), 2 := Fresh()], next := 3)
  {
    hide Runs, After;
    var s := Start(s0);
    var s1 := Apply(s, Begin);
    var s2 := Apply(s1, Begin);
    OneStep(s, Begin);
    OneStep(s1, Begin);
    OneStep(s2, Begin);
    RunsBoth(s1, [Begin], [Begin]);
    RunsBoth(s, [Begin], [Begin] + [Begin]);
    assert Apply(s2, Begin).txs == map[0 := Fresh(), 1 := Fresh(), 2 := Fresh()];
  }

  lemma Alone(k: Slot, v: string, s: Store)
    ensures OnFresh(Fresh(), Set(k, v), s) == Set1(k, v, Ready)
  {
    assert {} + {k} == {k} && [] + [Put(k, v)] == [Put(k, v)];
  }

  /** Transaction 0 locks x and transaction 2 locks y. */
  lemma TwoTake(s0: Store, x: Slot, y: Slot, v: string)
    requires x != y
    ensures var es := ([Request(0, Set(x, v))] + ([Grant(0)] + [Record(0)])) + ([Request(2, Set(y, v))] + ([Grant(2)] + [Record(2)]));
            var s := Start(s0).(txs := map[0 := Fresh(), 1 := Fresh(), 2 := Fresh()], next := 3);
            && Runs(s, es)
            && After(s, es) == s.(held := map[x := 0, y := 2], handlers := map[x := 0, y := 2],
                                  txs := map[0 := Set1(x, v, Ready), 1 := Fresh(), 2 := Set1(y, v, Ready)])
  {
    hide Runs, After;
    var s := Start(s0).(txs := map[0 := Fresh(), 1 := Fresh(), 2 := Fresh()], next := 3);
    var s1 := Takes(s, 0, Set(x, v));
    var s2 := Takes(s1, 2, Set(y, v));
    RunsBoth(s, [Request(0, Set(x, v))] + ([Grant(0)] + [Record(0)]), [Request(2, Set(y, v))] + ([Grant(2)] + [Record(2)]));
    Alone(x, v, s0);
    Alone(y, v, s0);
    assert s2.txs == map[0 := Set1(x, v, Ready), 1 := Fresh(), 2 := Set1(y, v, Ready)];
  }

  /** Both others ask for x. */
  lemma Queue(s: Sys, x: Slot, y: Slot, v: string) returns (t: Sys)
    requires x != y && s.fin.Idle? && s.waits == {}
    requires s.held == s.handlers == map[x := 0, y := 2] && s.txs == map[0 := Set1(x, v, Ready), 1 := Fresh(), 2 := Set1(y, v, Ready)]
    ensures var es := [Request(1, Set(x, v))] + [Request(2, Set(x, v))]; Runs(s, es) && After(s, es) == t
    ensures t == s.(waits := {(1, 0), (2, 0)}, txs := map[0 := Set1(x, v, Ready), 1 := Asking(x, v), 2 := Set1(y, v, Waiting(Set(x, v)))])
  {
    hide Runs, After, Reaches;
    NoWayOut({}, 0, 1);
    var s1 := Apply(s, Request(1, Set(x, v)));
    OneStep(s, Request(1, Set(x, v)));
    NoWayOut(s1.waits, 0, 2);
    t := Apply(s1, Request(2, Set(x, v)));
    OneStep(s1, Request(2, Set(x, v)));
    RunsBoth(s, [Request(1, Set(x, v))], [Request(2, Set(x, v))]);
    assert t.waits == {(1, 0), (2, 0)};
  }

  function Asking(k: Slot, v: string): Tx { Fresh().(phase := Waiting(Set(k, v))) }

  /** And 0 commits. */
  lemma Commit(s: Sys, x: Slot, y: Slot, v: string) returns (t: Sys)
    requires x != y && s.fin.Idle? && s.waits == {(1, 0), (2, 0)} && s.held == s.handlers == map[x := 0, y := 2]
    requires s.txs == map[0 := Set1(x, v, Ready), 1 := Asking(x, v), 2 := Set1(y, v, Waiting(Set(x, v)))]
    ensures var es := [CommitBegin(0)] + ([Release(x)] + [FinishEnd]); Runs(s, es) && After(s, es) == t
    ensures t.fin.Idle? && t.waits == {} && t.held == t.handlers == map[y := 2]
    ensures t.txs == map[1 := Asking(x, v), 2 := Set1(y, v, Waiting(Set(x, v)))]
  {
    hide Runs, After, ApplyLog;
    var s1 := Apply(s, CommitBegin(0));
    OneStep(s, CommitBegin(0));
    var s2 := Apply(s1, Release(x));
    OneStep(s1, Release(x));
    assert s2.fin.left == {};
    t := Apply(s2, FinishEnd);
    OneStep(s2, FinishEnd);
    assert t.waits == {};
    assert t.held == map[y := 2];
    RunsBoth(s1, [Release(x)], [FinishEnd]);
    RunsBoth(s, [CommitBegin(0)], [Release(x)] + [FinishEnd]);
  }

  /** 1 is handed x, for which 2 goes on waiting, and asks for y, which 2 has. */
  lemma HandOver(s: Sys, x: Slot, y: Slot, v: string) returns (t: Sys)
    requires x != y && s.fin.Idle? && s.waits == {} && s.held == s.handlers == map[y := 2]
    requires s.txs == map[1 := Asking(x, v), 2 := Set1(y, v, Waiting(Set(x, v)))]
    ensures var es := ([Grant(1)] + [Record(1)]) + [Request(1, Set(y, v))];
            Runs(s, es) && After(s, es) == t && t.fin.Idle? && Deadlock(t, 1, 2)
  {
    hide Runs, After, Reaches;
    var u := Taken(s, 1);
    NoWayOut({}, 2, 1);
    OneStep(u, Request(1, Set(y, v)));
    t := Apply(u, Request(1, Set(y, v)));
    RunsBoth(s, [Grant(1)] + [Record(1)], [Request(1, Set(y, v))]);
  }

  function DeadlockRun(x: Slot, y: Slot, v: string): seq<Step> {
    ([Begin] + ([Begin] + [Begin]))
    + ((([Request(0, Set(x, v))] + ([Grant(0)] + [Record(0)])) + ([Request(2, Set(y, v))] + ([Grant(2)] + [Record(2)])))
    + ((([Request(1, Set(x, v))] + [Request(2, Set(x, v))]) + ([CommitBegin(0)] + ([Release(x)] + [FinishEnd])))
    + (([Grant(1)] + [Record(1)]) + [Request(1, Set(y, v))])))
  }

  /** Two transactions wait for a slot of a third one, which commits. The one that is handed the slot then asks for
      a slot of the other one, which still waits: nobody is told to abort, and both wait for ever, whatever anyone does. */
  lemma DeadlockUnnoticed(s0: Store, x: Slot, y: Slot, v: string, more: seq<Step>)
    requires x != y
    ensures Runs(Start(s0), DeadlockRun(x, y, v)) && Deadlock(After(Start(s0), DeadlockRun(x, y, v)), 1, 2)
    ensures Runs(After(Start(s0), DeadlockRun(x, y, v)), more) ==> Deadlock(After(After(Start(s0), DeadlockRun(x, y, v)), more), 1, 2)
  {
    hide Runs, After, Tidy, Deadlock;
    var a, b := [Begin] + ([Begin] + [Begin]), ([Request(0, Set(x, v))] + ([Grant(0)] + [Record(0)])) + ([Request(2, Set(y, v))] + ([Grant(2)] + [Record(2)]));
    var q, f := [Request(1, Set(x, v))] + [Request(2, Set(x, v))], [CommitBegin(0)] + ([Release(x)] + [FinishEnd]);
    var c := q + f;
    var d := ([Grant(1)] + [Record(1)]) + [Request(1, Set(y, v))];
    ThreeBegin(s0);
    TwoTake(s0, x, y, v);
    var s1 := After(Start(s0), a);
    var s2 := After(s1, b);
    var w := Queue(s2, x, y, v);
    var s3 := Commit(w, x, y, v);
    RunsBoth(s2, q, f);
    var s4 := HandOver(s3, x, y, v);
    RunsBoth(s2, c, d);
    RunsBoth(s1, b, c + d);
    RunsBoth(Start(s0), a, b + (c + d));
    Reached(s0, DeadlockRun(x, y, v));
    if Runs(s4, more) { DeadlockStays(s4, more, 1, 2); }
  }
}
