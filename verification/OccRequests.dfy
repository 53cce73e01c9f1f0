/** From the requests to the store: in every run of the optimistic server the trace of a transaction
    is what its client asked for, so a commit leaves exactly the values last set and nothing in the slots
    deleted, and its gets saw the store of its predecessors under its own writes. */
module OccRequests {
  import opened Transactions
  import opened Occ

  function OpOf(e: Step): seq<Op> {
    match e
    case Get(_, k) => [Op.Get(k)]
    case Set(_, k, v) => [Op.Set(k, v)]
    case Del(_, k) => [Op.Del(k)]
    case _ => []
  }

  predicate By(e: Step, id: Id) { (e.Get? || e.Set? || e.Del?) && e.id == id }

  /** What was asked for transaction id, in order, read off the schedule alone. */
  function Asked(es: seq<Step>, id: Id): seq<Op> {
    if es == [] then []
    else
      var e := es[|es| - 1];
      Asked(es[..|es| - 1], id) + if By(e, id) then OpOf(e) else []
  }

  /** Who began the last commit. */
  function Holder(es: seq<Step>): Id {
    if es == [] then 0
    else
      var e := es[|es| - 1];
      if e.CommitBegin? then e.id else Holder(es[..|es| - 1])
  }

  /** The transactions in the order their validations succeeded. */
  function Committers(es: seq<Step>): seq<Id> {
    if es == [] then []
    else
      var e, front := es[|es| - 1], es[..|es| - 1];
      Committers(front) + if e.ValidateEnd? then [Holder(front)] else []
  }

  lemma AskedOne(es: seq<Step>, e: Step, id: Id)
    ensures Asked(es + [e], id) == Asked(es, id) + if By(e, id) then OpOf(e) else []
    ensures Holder(es + [e]) == if e.CommitBegin? then e.id else Holder(es)
    ensures Committers(es + [e]) == Committers(es) + if e.ValidateEnd? then [Holder(es)] else []
  {
    assert (es + [e])[..|es|] == es;
  }

  predicate AskedOk(s: Sys, es: seq<Step>, id: Id) {
    && (id >= s.next ==> Asked(es, id) == [])
    && (id in s.txs ==> id < s.next && Follows(s.txs[id].trace, Asked(es, id)))
  }

  predicate CommitOk(s: Sys, es: seq<Step>, i: nat) {
    i < |s.committed| && i < |Committers(es)| ==>
      var id := Committers(es)[i];
      && id < s.next && (id in s.txs ==> s.commit.Writing? && s.commit.id == id)
      && Follows(s.committed[i], Asked(es, id))
  }

  ghost predicate Told(s: Sys, es: seq<Step>) {
    && |s.committed| == |Committers(es)| && (!s.commit.Idle? ==> s.commit.id == Holder(es))
    && (forall id {:trigger AskedOk(s, es, id)} :: AskedOk(s, es, id))
    && (forall i {:trigger CommitOk(s, es, i)} :: CommitOk(s, es, i))
  }

  /** A request adds its event, and no other, to the trace of the transaction that asked; no other step
      changes a trace. */
  lemma OneEvent(s: Sys, e: Step, id: Id)
    requires Enabled(s, e) && id in s.txs && id in Apply(s, e).txs && id < s.next
    ensures var t, u := s.txs[id].trace, Apply(s, e).txs[id].trace;
            if By(e, id) then |u| == |t| + 1 && u[..|t|] == t && Records(u[|t|], OpOf(e)[0]) else u == t
  {}

  lemma AskedStep(s: Sys, es: seq<Step>, e: Step, id: Id)
    requires Enabled(s, e) && AskedOk(s, es, id)
    ensures AskedOk(Apply(s, e), es + [e], id)
  {
    hide Apply, Enabled, AskedOk;
    if By(e, id) { AskedByOwn(s, es, e, id); } else { AskedByOthers(s, es, e, id); }
  }

  lemma AskedByOwn(s: Sys, es: seq<Step>, e: Step, id: Id)
    requires Enabled(s, e) && AskedOk(s, es, id) && By(e, id)
    ensures AskedOk(Apply(s, e), es + [e], id)
  {
    Begun(s, e, id);
    hide Apply, Enabled, Follows, Records, By;
    AskedOne(es, e, id);
    if id in Apply(s, e).txs {
      OneEvent(s, e, id);
      Grown(s.txs[id].trace, Apply(s, e).txs[id].trace, Asked(es, id), OpOf(e)[0]);
      assert [OpOf(e)[0]] == OpOf(e);
    }
  }

  lemma Begun(s: Sys, e: Step, id: Id)
    requires Enabled(s, e) && By(e, id)
    ensures id in s.txs && Apply(s, e).next == s.next && |OpOf(e)| == 1
  {}

  lemma AskedByOthers(s: Sys, es: seq<Step>, e: Step, id: Id)
    requires Enabled(s, e) && AskedOk(s, es, id) && !By(e, id)
    ensures AskedOk(Apply(s, e), es + [e], id)
  {
    hide Follows, DoGet;
    AskedOne(es, e, id);
    var a := Asked(es, id);
    assert a + [] == a;
    if e.Begin? { NothingYet([]); }
    if e.Get? { GetOthers(s, e.id, e.slot, id); }
  }

  lemma GetOthers(s: Sys, id: Id, k: Slot, other: Id)
    requires id in s.txs && other != id
    ensures var t := DoGet(s, id, k); t.next == s.next && (other in t.txs <==> other in s.txs) && (other in s.txs ==> t.txs[other] == s.txs[other])
  {}

  lemma NothingYet(t: Trace)
    requires t == []
    ensures Follows(t, [])
  {}

  lemma CommitStep(s: Sys, es: seq<Step>, e: Step, i: nat)
    requires Enabled(s, e) && Told(s, es)
    ensures CommitOk(Apply(s, e), es + [e], i)
  {
    hide Follows;
    assert CommitOk(s, es, i);
    AskedOne(es, e, 0);
    if i < |Committers(es)| {
      AskedOne(es, e, Committers(es)[i]);
      assert Asked(es, Committers(es)[i]) + [] == Asked(es, Committers(es)[i]);
    } else if e.ValidateEnd? {
      assert AskedOk(s, es, s.commit.id);
      AskedOne(es, e, s.commit.id);
      assert Asked(es, s.commit.id) + [] == Asked(es, s.commit.id);
    }
  }

  lemma ToldStep(s: Sys, es: seq<Step>, e: Step)
    requires Enabled(s, e) && Told(s, es)
    ensures Told(Apply(s, e), es + [e])
  {
    hide AskedOk, CommitOk;
    var s' := Apply(s, e);
    forall id ensures AskedOk(s', es + [e], id) { assert AskedOk(s, es, id); AskedStep(s, es, e, id); }
    forall i ensures CommitOk(s', es + [e], i) { CommitStep(s, es, e, i); }
    AskedOne(es, e, 0);
  }

  lemma {:induction false} ToldRun(s: Sys, past: seq<Step>, es: seq<Step>)
    requires Told(s, past) && Runs(s, es)
    ensures Told(After(s, es), past + es)
    decreases |es|
  {
    hide Enabled, Apply, Told;
    if es == [] {
      assert past + es == past;
    } else {
      ToldStep(s, past, es[0]);
      ToldRun(Apply(s, es[0]), past + [es[0]], es[1..]);
      assert past + [es[0]] + es[1..] == past + es;
    }
  }

  lemma AllTold(s0: Store, es: seq<Step>)
    requires Runs(Start(s0), es)
    ensures Told(After(Start(s0), es), es)
  {
    hide Runs, After;
    forall id ensures AskedOk(Start(s0), [], id) {}
    forall i ensures CommitOk(Start(s0), [], i) {}
    ToldRun(Start(s0), [], es);
    assert [] + es == es;
  }

  /** In every reachable state the trace of a running transaction is what was asked for it, in order. */
  lemma TraceIsAsked(s0: Store, es: seq<Step>, id: Id)
    requires Runs(Start(s0), es) && id in After(Start(s0), es).txs
    ensures Follows(After(Start(s0), es).txs[id].trace, Asked(es, id))
  {
    hide Runs, After;
    AllTold(s0, es);
    assert AskedOk(After(Start(s0), es), es, id);
  }

  lemma {:induction false} PrefixFollows(t: Trace, ops: seq<Op>, j: nat)
    requires Follows(t, ops) && j <= |t|
    ensures Follows(t[..j], ops[..j]) && Net(t[..j]) == Wanted(ops[..j])
  {
    NetIsWanted(t[..j], ops[..j]);
  }

  lemma SerialLast(s0: Store, ts: seq<Trace>, i: nat)
    requires i < |ts|
    ensures Serial(s0, ts[..i + 1]) == Update(Serial(s0, ts[..i]), Net(ts[i]))
  {
    assert ts[..i + 1][..i] == ts[..i];
  }

  /** The i-th commit of every run leaves, on the store of its predecessors, exactly what its requests
      ask for: the value last set, nothing where the last request was a del, and every other slot as it
      was. Its j-th request, if a get, returned what its earlier requests and that store make it. */
  lemma CommitDoesWhatWasAsked(s0: Store, es: seq<Step>, i: nat, j: nat, k: Slot)
    requires Runs(Start(s0), es) && i < |After(Start(s0), es).committed|
    ensures var ts := After(Start(s0), es).committed;
            && |ts| == |Committers(es)|
            && var before, after, ops := Serial(s0, ts[..i]), Serial(s0, ts[..i + 1]), Asked(es, Committers(es)[i]);
               && Read(after, k) == See(before, Wanted(ops), k) && |ts[i]| == |ops|
               && (j < |ops| && ops[j].Get? ==> ts[i][j] == Got(ops[j].slot, See(before, Wanted(ops[..j]), ops[j].slot)))
    ensures After(Start(s0), es).commit.Idle? ==> After(Start(s0), es).store == Serial(s0, After(Start(s0), es).committed)
  {
    hide Runs, After, Serial;
    AllTold(s0, es);
    Occ.Serializable(s0, es, i);
    var s := After(Start(s0), es);
    var ts, ops := s.committed, Asked(es, Committers(es)[i]);
    assert CommitOk(s, es, i);
    NetIsWanted(ts[i], ops);
    SerialLast(s0, ts, i);
    if j < |ops| && ops[j].Get? {
      PrefixFollows(ts[i], ops, j);
      assert Records(ts[i][j], ops[j]);
    }
  }
}
