/** From the requests to the store: in every run the trace of a transaction is what its client asked
    for, so a commit leaves exactly the last values set and nothing in the slots deleted. */
module TwoPhaseRequests {
  import opened Transactions
  import opened TwoPhase
  import opened TwoPhaseMeaning
  import opened Options
  import W = TwoPhaseWaits

  /** What was asked for transaction id, in order, read off the schedule alone. */
  function Asked(es: seq<Step>, id: Id): seq<Op> {
    if es == [] then []
    else
      var e := es[|es| - 1];
      Asked(es[..|es| - 1], id) + if e.Request? && e.id == id then [e.op] else []
  }

  /** The transactions in the order their commits began. */
  function Committers(es: seq<Step>): seq<Id> {
    if es == [] then []
    else
      var e := es[|es| - 1];
      Committers(es[..|es| - 1]) + if e.CommitBegin? then [e.id] else []
  }

  lemma AskedOne(es: seq<Step>, e: Step, id: Id)
    ensures Asked(es + [e], id) == Asked(es, id) + if e.Request? && e.id == id then [e.op] else []
    ensures Committers(es + [e]) == Committers(es) + if e.CommitBegin? then [e.id] else []
  {
    assert (es + [e])[..|es|] == es;
  }

  /** A transaction between requests has done all that was asked, any other one all but the last. */
  predicate AskedOk(s: Sys, es: seq<Step>, id: Id) {
    var a := Asked(es, id);
    && (id >= s.next ==> a == [])
    && (id in s.txs ==>
          var t := s.txs[id];
          if t.phase == Ready then Follows(t.trace, a)
          else
            && a != [] && Follows(t.trace, a[..|a| - 1])
            && (t.phase.Waiting? || t.phase.Granted? ==> t.phase.op == a[|a| - 1]))
  }

  predicate CommitOk(s: Sys, es: seq<Step>, i: nat) {
    i < |s.committed| && i < |Committers(es)| ==>
      var id := Committers(es)[i];
      && id < s.next && (id in s.txs ==> s.fin.Finishing? && s.fin.id == id)
      && Follows(s.committed[i], Asked(es, id))
  }

  ghost predicate Told(s: Sys, es: seq<Step>) {
    && |s.committed| == |Committers(es)|
    && (forall id {:trigger AskedOk(s, es, id)} :: AskedOk(s, es, id))
    && (forall i {:trigger CommitOk(s, es, i)} :: CommitOk(s, es, i))
  }

  /** One step performs at most one request: its event, and no other, is added to the trace of the
      transaction that asked, and no other trace changes. */
  lemma OneEvent(s: Sys, e: Step, id: Id)
    requires Tidy(s) && Enabled(s, e) && id in s.txs && id in Apply(s, e).txs
    ensures var t, u := s.txs[id], Apply(s, e).txs[id];
            if e.Request? && e.id == id && e.op.slot in t.locks then |u.trace| == |t.trace| + 1 && u.trace[..|t.trace|] == t.trace && Records(u.trace[|t.trace|], e.op)
            else if e.Record? && e.id == id then |u.trace| == |t.trace| + 1 && u.trace[..|t.trace|] == t.trace && Records(u.trace[|t.trace|], t.phase.op)
            else u.trace == t.trace
  {
    hide CheckCycle;
    assert TxOk(s, id);
    if e.Begin? { assert TxOk(s, s.next); }
    if e.Request? { CheckPhase(s, e.id, e.op); }
  }

  lemma CheckPhase(s: Sys, id: Id, op: Op)
    requires id in s.txs
    ensures var t := CheckCycle(s, id, op);
            && t.txs.Keys == s.txs.Keys && t.next == s.next && t.committed == s.committed && t.fin == s.fin
            && (forall j :: j in s.txs && j != id ==> t.txs[j] == s.txs[j])
            && t.txs[id].trace == s.txs[id].trace && (t.txs[id].phase == Doomed || t.txs[id].phase == Waiting(op))
  {}

  lemma AskedStep(s: Sys, es: seq<Step>, e: Step, id: Id)
    requires Tidy(s) && Enabled(s, e) && AskedOk(s, es, id)
    ensures AskedOk(Apply(s, e), es + [e], id)
  {
    hide Apply, Enabled, AskedOk;
    if e.Request? && e.id == id { AskedByRequest(s, es, e, id); }
    else if e.Record? && e.id == id { AskedByRecord(s, es, e, id); }
    else { AskedByOthers(s, es, e, id); }
  }

  lemma AskedByRequest(s: Sys, es: seq<Step>, e: Step, id: Id)
    requires Tidy(s) && Enabled(s, e) && AskedOk(s, es, id) && e.Request? && e.id == id
    ensures AskedOk(Apply(s, e), es + [e], id)
  {
    RequestPhase(s, e, id);
    OneEvent(s, e, id);
    hide Apply, Enabled, Tidy, Follows, Records;
    AskedOne(es, e, id);
    var a := Asked(es, id);
    assert (a + [e.op])[..|a|] == a;
    if e.op.slot in s.txs[id].locks { Grown(s.txs[id].trace, Apply(s, e).txs[id].trace, a, e.op); }
  }

  lemma RequestPhase(s: Sys, e: Step, id: Id)
    requires Tidy(s) && Enabled(s, e) && e.Request? && e.id == id
    ensures var s' := Apply(s, e);
            && id in s.txs && id in s'.txs && id < s.next && s'.next == s.next && s.txs[id].phase == Ready
            && (if e.op.slot in s.txs[id].locks then s'.txs[id].phase == Ready
                else s'.txs[id].phase == Doomed || s'.txs[id].phase == Waiting(e.op))
  {
    hide CheckCycle;
    assert TxOk(s, id);
    CheckPhase(s, id, e.op);
  }

  lemma AskedByRecord(s: Sys, es: seq<Step>, e: Step, id: Id)
    requires Tidy(s) && Enabled(s, e) && AskedOk(s, es, id) && e.Record? && e.id == id
    ensures AskedOk(Apply(s, e), es + [e], id)
  {
    RecordPhase(s, e, id);
    OneEvent(s, e, id);
    hide Apply, Enabled, Tidy, Follows, Records;
    AskedOne(es, e, id);
    var a := Asked(es, id);
    assert a == a[..|a| - 1] + [a[|a| - 1]] && a + [] == a;
    Grown(s.txs[id].trace, Apply(s, e).txs[id].trace, a[..|a| - 1], a[|a| - 1]);
  }

  lemma RecordPhase(s: Sys, e: Step, id: Id)
    requires Tidy(s) && Enabled(s, e) && e.Record? && e.id == id
    ensures var s' := Apply(s, e);
            && id in s.txs && id in s'.txs && id < s.next && s'.next == s.next
            && s.txs[id].phase.Granted? && s'.txs[id].phase == Ready
  {
    assert TxOk(s, id);
  }

  lemma AskedByOthers(s: Sys, es: seq<Step>, e: Step, id: Id)
    requires Tidy(s) && Enabled(s, e) && AskedOk(s, es, id) && !(e.Request? && e.id == id) && !(e.Record? && e.id == id)
    ensures AskedOk(Apply(s, e), es + [e], id)
  {
    OthersPhase(s, e, id);
    hide Apply, Enabled, Tidy, Follows;
    AskedOne(es, e, id);
    var a := Asked(es, id);
    assert a + [] == a;
    NothingYet([]);
  }

  lemma OthersPhase(s: Sys, e: Step, id: Id)
    requires Tidy(s) && Enabled(s, e) && !(e.Request? && e.id == id) && !(e.Record? && e.id == id)
    ensures var s' := Apply(s, e);
            && s.next <= s'.next
            && (id in s'.txs && id !in s.txs ==> id == s.next && s'.txs[id].trace == [] && s'.txs[id].phase == Ready)
            && (id in s'.txs && id in s.txs ==>
                  var t, u := s.txs[id], s'.txs[id];
                  u.trace == t.trace && (u.phase == t.phase || (t.phase.Waiting? && u.phase == Granted(t.phase.op))))
  {
    hide CheckCycle;
    assert TxOk(s, id);
    if e.Request? { CheckPhase(s, e.id, e.op); }
  }

  lemma NothingYet(t: Trace)
    requires t == []
    ensures Follows(t, [])
  {}

  lemma CommitStep(s: Sys, es: seq<Step>, e: Step, i: nat)
    requires Tidy(s) && Enabled(s, e) && Told(s, es)
    ensures CommitOk(Apply(s, e), es + [e], i)
  {
    hide CheckCycle;
    assert CommitOk(s, es, i);
    if e.Begin? { assert TxOk(s, s.next); }
    if e.Request? { CheckPhase(s, e.id, e.op); }
    AskedOne(es, e, 0);
    if i < |Committers(es)| {
      AskedOne(es, e, Committers(es)[i]);
    } else if e.CommitBegin? {
      assert AskedOk(s, es, e.id) && TxOk(s, e.id);
      AskedOne(es, e, e.id);
    }
  }

  lemma ToldStep(s: Sys, es: seq<Step>, e: Step)
    requires Tidy(s) && Enabled(s, e) && Told(s, es)
    ensures Told(Apply(s, e), es + [e])
  {
    var s' := Apply(s, e);
    forall id ensures AskedOk(s', es + [e], id) { assert AskedOk(s, es, id); AskedStep(s, es, e, id); }
    forall i ensures CommitOk(s', es + [e], i) { CommitStep(s, es, e, i); }
    AskedOne(es, e, 0);
    if e.Request? { CheckPhase(s, e.id, e.op); }
  }

  lemma {:induction false} ToldRun(s: Sys, past: seq<Step>, es: seq<Step>)
    requires Tidy(s) && Told(s, past) && Runs(s, es)
    ensures Told(After(s, es), past + es)
    decreases |es|
  {
    hide Tidy, Enabled, Apply, Told;
    if es == [] {
      assert past + es == past;
    } else {
      TidyStep(s, es[0]);
      ToldStep(s, past, es[0]);
      ToldRun(Apply(s, es[0]), past + [es[0]], es[1..]);
      assert past + [es[0]] + es[1..] == past + es;
    }
  }

  lemma AllTold(s0: Store, es: seq<Step>)
    requires Runs(Start(s0), es)
    ensures Told(After(Start(s0), es), es)
  {
    hide Tidy, Runs, After;
    StartInv(s0);
    forall id ensures AskedOk(Start(s0), [], id) {}
    forall i ensures CommitOk(Start(s0), [], i) {}
    ToldRun(Start(s0), [], es);
    assert [] + es == es;
  }

  /** In every reachable state the trace of a running transaction is what was asked for it so far, in
      order, but for a request that still waits for its lock or is refused. */
  lemma TraceIsAsked(s0: Store, es: seq<Step>, id: Id)
    requires Runs(Start(s0), es) && id in After(Start(s0), es).txs
    ensures var t, a := After(Start(s0), es).txs[id], Asked(es, id);
            if t.phase == Ready then Follows(t.trace, a) else a != [] && Follows(t.trace, a[..|a| - 1])
  {
    hide Runs, After;
    AllTold(s0, es);
    assert AskedOk(After(Start(s0), es), es, id);
  }

  /** The i-th commit of every run is of the transaction whose commit was i-th to begin, and leaves, on
      the store of its predecessors: nothing in a slot whose last request was a del, the value in one
      whose last request was a set, unless it is the marker, and any other slot as it was, unless it
      held the marker. */
  lemma CommitDoesWhatWasAsked(s0: Store, es: seq<Step>, i: nat, k: Slot)
    requires Runs(Start(s0), es) && i < |After(Start(s0), es).committed|
    ensures var ts := After(Start(s0), es).committed;
            && |ts| == |Committers(es)| && Serial(s0, ts[..i]).Some? && Serial(s0, ts[..i + 1]).Some?
            && var before, after, n := Serial(s0, ts[..i]).value, Serial(s0, ts[..i + 1]).value, Wanted(Asked(es, Committers(es)[i]));
               && (k in n && n[k] == Removed ==> Read(after, k) == "")
               && (k in n && n[k].Wrote? && n[k].value != REMOVE ==> Read(after, k) == n[k].value)
               && (k !in n && Read(before, k) != REMOVE ==> Read(after, k) == Read(before, k))
  {
    hide Runs, After;
    AllTold(s0, es);
    Serializable(s0, es);
    var s := After(Start(s0), es);
    assert CommitOk(s, es, i);
    SerialPrefix(s0, s.committed, i);
    NetIsWanted(s.committed[i], Asked(es, Committers(es)[i]));
    LeftIn(s.committed[i], Serial(s0, s.committed[..i]).value, k);
  }

  /** And its j-th request, if a get, returned what that store and its earlier requests make it, but for a
      slot it had deleted itself, which reads as the marker. */
  lemma GetsSeeWhatWasAsked(s0: Store, es: seq<Step>, i: nat, j: nat)
    requires Runs(Start(s0), es) && i < |After(Start(s0), es).committed|
    ensures var ts := After(Start(s0), es).committed;
            && |ts| == |Committers(es)| && Serial(s0, ts[..i]).Some?
            && var before, ops := Serial(s0, ts[..i]).value, Asked(es, Committers(es)[i]);
               && |ts[i]| == |ops|
               && (j < |ops| && ops[j].Get? ==>
                     var k, n := ops[j].slot, Wanted(ops[..j]);
                     ts[i][j] == Got(k, if k in n && n[k] == Removed then REMOVE else See(before, n, k)))
  {
    hide Runs, After;
    AllTold(s0, es);
    Serializable(s0, es);
    var s := After(Start(s0), es);
    var ts, ops := s.committed, Asked(es, Committers(es)[i]);
    assert CommitOk(s, es, i);
    SerialPrefix(s0, ts, i);
    if j < |ops| && ops[j].Get? {
      assert Records(ts[i][j], ops[j]);
      NetIsWanted(ts[i][..j], ops[..j]);
      GotValue(ts[i], Serial(s0, ts[..i]).value, j);
    }
  }

  /** When the last commit asked last for a del of slot k, the store has nothing there. */
  lemma DeletedIsGone(s0: Store, es: seq<Step>, k: Slot)
    requires Runs(Start(s0), es) && After(Start(s0), es).fin.Idle? && Committers(es) != []
    requires var n := Wanted(Asked(es, Committers(es)[|Committers(es)| - 1])); k in n && n[k] == Removed
    ensures Read(After(Start(s0), es).store, k) == ""
  {
    hide Runs, After;
    AllTold(s0, es);
    Serializable(s0, es);
    var ts := After(Start(s0), es).committed;
    CommitDoesWhatWasAsked(s0, es, |ts| - 1, k);
    assert ts[..|ts| - 1 + 1] == ts;
  }

  function DeleteRun(k: Slot): seq<Step> {
    [Begin] + ([Request(0, Del(k))] + ([Grant(0)] + [Record(0)])) + ([CommitBegin(0)] + ([Release(k)] + [FinishEnd]))
  }

  /** Begin, del and commit on any store, whatever the slot held. */
  lemma DeleteDeletes(s0: Store, k: Slot)
    ensures Runs(Start(s0), DeleteRun(k)) && Read(After(Start(s0), DeleteRun(k)).store, k) == ""
  {
    hide Runs, After;
    var s1 := Apply(Start(s0), Begin);
    W.OneStep(Start(s0), Begin);
    var s2 := W.Takes(s1, 0, Del(k));
    var s3 := Apply(s2, CommitBegin(0));
    W.OneStep(s2, CommitBegin(0));
    var s4 := Apply(s3, Release(k));
    W.OneStep(s3, Release(k));
    W.OneStep(s4, FinishEnd);
    W.RunsBoth(s3, [Release(k)], [FinishEnd]);
    W.RunsBoth(s2, [CommitBegin(0)], [Release(k)] + [FinishEnd]);
    var take := [Request(0, Del(k))] + ([Grant(0)] + [Record(0)]);
    W.RunsBoth(Start(s0), [Begin], take);
    W.RunsBoth(Start(s0), [Begin] + take, [CommitBegin(0)] + ([Release(k)] + [FinishEnd]));
    ReadApplied(s0, s2.txs[0].log, {k}, k);
  }
}
