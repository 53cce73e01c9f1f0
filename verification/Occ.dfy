/** The optimistic transaction server as atomic sections: gets read the store at any time,
    commits validate by value and write slot by slot while they hold the WRITESET lock. */
module Occ {
  import opened Transactions

  type Id = nat

  datatype Tx = Tx(readLog: map<Slot, string>, writeLog: map<Slot, string>, trace: Trace)

  /** The holder of WRITESET: comparing its reads, or writing, with the slots still to do. */
  datatype Commit = Idle | Validating(id: Id, left: set<Slot>) | Writing(id: Id, left: set<Slot>)

  datatype End = Committed | Conflict | GivenUp

  datatype Sys = Sys(store: Store, txs: map<Id, Tx>, next: Id, commit: Commit,
                     committed: seq<Trace>, ended: map<Id, End>)

  function Start(store: Store): Sys { Sys(store, map[], 0, Idle, [], map[]) }

  datatype Step =
    | Begin
    | Get(id: Id, slot: Slot)
    | Set(id: Id, slot: Slot, value: string)
    | Del(id: Id, slot: Slot)
    | Abort(id: Id)
    | CommitBegin(id: Id)
    | Validate(slot: Slot)
    | ValidateEnd
    | WriteSlot(slot: Slot)
    | CommitEnd

  predicate Active(s: Sys, id: Id) { id in s.txs && !(!s.commit.Idle? && s.commit.id == id) }

  predicate Enabled(s: Sys, e: Step) {
    match e
    case Begin => true
    case Get(id, _) => Active(s, id)
    case Set(id, _, _) => Active(s, id)
    case Del(id, _) => Active(s, id)
    case Abort(id) => Active(s, id)
    case CommitBegin(id) => s.commit.Idle? && id in s.txs
    case Validate(k) => s.commit.Validating? && s.commit.id in s.txs && k in s.commit.left && k in s.txs[s.commit.id].readLog
    case ValidateEnd => s.commit.Validating? && s.commit.left == {} && s.commit.id in s.txs
    case WriteSlot(k) => s.commit.Writing? && s.commit.id in s.txs && k in s.commit.left && k in s.txs[s.commit.id].writeLog
    case CommitEnd => s.commit.Writing? && s.commit.left == {}
  }

  function Dropped(s: Sys, id: Id, why: End): Sys { s.(txs := s.txs - {id}, ended := s.ended[id := why]) }

  function DoGet(s: Sys, id: Id, k: Slot): Sys
    requires id in s.txs
  {
    var t, v := s.txs[id], Read(s.store, k);
    if k in t.writeLog then s.(txs := s.txs[id := t.(trace := t.trace + [Got(k, t.writeLog[k])])])
    else if k in t.readLog && v != t.readLog[k] then Dropped(s, id, Conflict)
    else s.(txs := s.txs[id := t.(readLog := t.readLog[k := v], trace := t.trace + [Got(k, v)])])
  }

  function Apply(s: Sys, e: Step): Sys
    requires Enabled(s, e)
  {
    match e
    case Begin => s.(txs := s.txs[s.next := Tx(map[], map[], [])], next := s.next + 1)
    case Get(id, k) => DoGet(s, id, k)
    case Set(id, k, v) =>
      var t := s.txs[id];
      s.(txs := s.txs[id := t.(writeLog := t.writeLog[k := v], trace := t.trace + [Put(k, v)])])
    case Del(id, k) =>
      var t := s.txs[id];
      s.(txs := s.txs[id := t.(writeLog := t.writeLog[k := ""], trace := t.trace + [Deleted(k)])])
    case Abort(id) => Dropped(s, id, GivenUp)
    case CommitBegin(id) => s.(commit := Validating(id, s.txs[id].readLog.Keys))
    case Validate(k) =>
      if Read(s.store, k) != s.txs[s.commit.id].readLog[k] then Dropped(s, s.commit.id, Conflict).(commit := Idle)
      else s.(commit := Validating(s.commit.id, s.commit.left - {k}))
    case ValidateEnd =>
      s.(commit := Writing(s.commit.id, s.txs[s.commit.id].writeLog.Keys),
         committed := s.committed + [s.txs[s.commit.id].trace])
    case WriteSlot(k) =>
      s.(store := s.store[k := s.txs[s.commit.id].writeLog[k]], commit := Writing(s.commit.id, s.commit.left - {k}))
    case CommitEnd => Dropped(s, s.commit.id, Committed).(commit := Idle)
  }

  predicate Runs(s: Sys, es: seq<Step>)
    decreases |es|
  {
    es == [] || (Enabled(s, es[0]) && Runs(Apply(s, es[0]), es[1..]))
  }

  function After(s: Sys, es: seq<Step>): Sys
    requires Runs(s, es)
    decreases |es|
  {
    if es == [] then s else After(Apply(s, es[0]), es[1..])
  }

  // ----------------------------------------------------------------- serial running

  function Text(w: Slot, n: map<Slot, Write>): string
    requires w in n
  {
    match n[w] case Wrote(v) => v case Removed => ""
  }

  /** The store a transaction with own writeLog n leaves behind. */
  function Update(s: Store, n: map<Slot, Write>): Store {
    map k | k in s.Keys + n.Keys :: if k in n then Text(k, n) else s[k]
  }

  function Serial(s: Store, ts: seq<Trace>): Store {
    if ts == [] then s else Update(Serial(s, ts[..|ts| - 1]), Net(ts[|ts| - 1]))
  }

  // -------------------------------------------------------------------- invariant

  predicate GotOk(t: Tx, i: nat) {
    i < |t.trace| && t.trace[i].Got? ==>
      var k, n := t.trace[i].slot, Net(t.trace[..i]);
      if k in n then t.trace[i].value == Text(k, n)
      else k in t.readLog && t.readLog[k] == t.trace[i].value
  }

  /** The two logs say what the transaction read first and wrote last. */
  ghost predicate LogsOk(t: Tx) {
    && (forall i {:trigger GotOk(t, i)} :: GotOk(t, i))
    && t.writeLog.Keys == Net(t.trace).Keys
    && (forall k :: k in t.writeLog ==> t.writeLog[k] == Text(k, Net(t.trace)))
  }

  ghost predicate TxOk(s: Sys, id: Id) {
    id in s.txs ==> id < s.next && LogsOk(s.txs[id])
  }

  /** The store once the logged slots in left are written too. */
  function Pending(s: Store, m: map<Slot, string>, left: set<Slot>): Store {
    map k | k in s.Keys + m.Keys && (k in s || k in left) :: if k in left && k in m then m[k] else Read(s, k)
  }

  lemma PendingOne(s: Store, m: map<Slot, string>, left: set<Slot>, k: Slot)
    requires k in left && k in m
    ensures Pending(s[k := m[k]], m, left - {k}) == Pending(s, m, left)
  {}

  lemma PendingNone(s: Store, m: map<Slot, string>)
    ensures Pending(s, m, {}) == s
  {}

  lemma PendingAll(s: Store, m: map<Slot, string>, n: map<Slot, Write>)
    requires m.Keys == n.Keys && forall k :: k in m ==> m[k] == Text(k, n)
    ensures Pending(s, m, m.Keys) == Update(s, n)
  {}

  ghost predicate CommitOk(s: Sys, ser: Store) {
    match s.commit
    case Idle => s.store == ser
    case Validating(id, left) =>
      && s.store == ser && id in s.txs && left <= s.txs[id].readLog.Keys
      && (forall k :: k in s.txs[id].readLog && k !in left ==> Read(s.store, k) == s.txs[id].readLog[k])
    case Writing(id, left) => id in s.txs && left <= s.txs[id].writeLog.Keys && Pending(s.store, s.txs[id].writeLog, left) == ser
  }

  predicate HistoryAt(s0: Store, ts: seq<Trace>, i: nat) {
    i < |ts| ==> forall j :: 0 <= j < |ts[i]| && ts[i][j].Got? ==>
      ts[i][j].value == See(Serial(s0, ts[..i]), Net(ts[i][..j]), ts[i][j].slot)
  }

  ghost predicate Inv(s0: Store, s: Sys) {
    && (forall id {:trigger TxOk(s, id)} :: TxOk(s, id))
    && CommitOk(s, Serial(s0, s.committed))
    && (forall i {:trigger HistoryAt(s0, s.committed, i)} :: HistoryAt(s0, s.committed, i))
  }

  lemma GotKept(t: Tx, u: Tx, e: Event, i: nat)
    requires LogsOk(t) && u.trace == t.trace + [e] && i < |t.trace|
    requires forall k :: k in t.readLog ==> k in u.readLog && u.readLog[k] == t.readLog[k]
    ensures GotOk(u, i)
  {
    assert GotOk(t, i);
    assert u.trace[..i] == t.trace[..i];
  }

  lemma LogsExtend(t: Tx, u: Tx, e: Event)
    requires LogsOk(t) && u.trace == t.trace + [e]
    requires forall k :: k in t.readLog ==> k in u.readLog && u.readLog[k] == t.readLog[k]
    requires e.Got? ==> u.writeLog == t.writeLog
    requires e.Got? && e.slot in t.writeLog ==> e.value == t.writeLog[e.slot]
    requires e.Got? && e.slot !in t.writeLog ==> e.slot in u.readLog && u.readLog[e.slot] == e.value
    requires e.Put? ==> u.writeLog == t.writeLog[e.slot := e.value]
    requires e.Deleted? ==> u.writeLog == t.writeLog[e.slot := ""]
    ensures LogsOk(u)
  {
    assert u.trace[..|t.trace|] == t.trace;
    forall i: nat ensures GotOk(u, i) {
      if i < |t.trace| { GotKept(t, u, e, i); }
    }
  }

  lemma TxStep(s: Sys, e: Step, id: Id)
    requires TxOk(s, id) && Enabled(s, e)
    ensures TxOk(Apply(s, e), id)
  {
    var s' := Apply(s, e);
    if id in s.txs && id in s'.txs && s'.txs[id] != s.txs[id] && !e.Begin? {
      LogsExtend(s.txs[id], s'.txs[id], s'.txs[id].trace[|s.txs[id].trace|]);
    } else if e.Begin? && id == s.next {
      assert LogsOk(Tx(map[], map[], [])) by { forall i ensures GotOk(Tx(map[], map[], []), i) {} }
    }
  }

  lemma SerialPrefix(s0: Store, ts: seq<Trace>, t: Trace)
    ensures Serial(s0, ts + [t]) == Update(Serial(s0, ts), Net(t))
  {
    assert (ts + [t])[..|ts|] == ts;
  }

  predicate OfCommit(e: Step) {
    e.CommitBegin? || e.Validate? || e.ValidateEnd? || e.WriteSlot? || e.CommitEnd?
  }

  lemma CommitMoves(s0: Store, s: Sys, e: Step)
    requires Inv(s0, s) && Enabled(s, e) && OfCommit(e)
    ensures CommitOk(Apply(s, e), Serial(s0, Apply(s, e).committed))
  {
    match e {
      case ValidateEnd =>
        var t := s.txs[s.commit.id];
        assert TxOk(s, s.commit.id);
        SerialPrefix(s0, s.committed, t.trace);
        PendingAll(s.store, t.writeLog, Net(t.trace));
      case WriteSlot(k) => PendingOne(s.store, s.txs[s.commit.id].writeLog, s.commit.left, k);
      case CommitEnd => PendingNone(s.store, s.txs[s.commit.id].writeLog);
      case _ =>
    }
  }

  lemma CommitStays(s0: Store, s: Sys, e: Step)
    requires Inv(s0, s) && Enabled(s, e) && !OfCommit(e)
    ensures CommitOk(Apply(s, e), Serial(s0, Apply(s, e).committed))
  {
    if e.Begin? { assert TxOk(s, s.next); }
    if !s.commit.Idle? { assert Apply(s, e).txs[s.commit.id] == s.txs[s.commit.id]; }
  }

  lemma HistoryStep(s0: Store, s: Sys, e: Step, i: nat)
    requires Inv(s0, s) && Enabled(s, e)
    ensures HistoryAt(s0, Apply(s, e).committed, i)
  {
    assert HistoryAt(s0, s.committed, i);
    if e.ValidateEnd? {
      var ts := Apply(s, e).committed;
      if i < |s.committed| {
        assert ts[i] == s.committed[i] && ts[..i] == s.committed[..i];
      } else if i == |s.committed| {
        ValidatedMatches(s0, s);
        assert ts[..i] == s.committed;
      }
    }
  }

  /** A validated transaction read what it would read running alone on the current store. */
  lemma ValidatedMatches(s0: Store, s: Sys)
    requires Inv(s0, s) && Enabled(s, ValidateEnd)
    ensures GetsMatch(s.txs[s.commit.id].trace, Serial(s0, s.committed))
  {
    var t := s.txs[s.commit.id];
    assert TxOk(s, s.commit.id);
    forall j | 0 <= j < |t.trace| && t.trace[j].Got?
      ensures t.trace[j].value == See(Serial(s0, s.committed), Net(t.trace[..j]), t.trace[j].slot)
    {
      assert GotOk(t, j);
    }
  }

  lemma InvStep(s0: Store, s: Sys, e: Step)
    requires Inv(s0, s) && Enabled(s, e)
    ensures Inv(s0, Apply(s, e))
  {
    var s' := Apply(s, e);
    forall id ensures TxOk(s', id) { assert TxOk(s, id); TxStep(s, e, id); }
    if OfCommit(e) { CommitMoves(s0, s, e); } else { CommitStays(s0, s, e); }
    forall i ensures HistoryAt(s0, s'.committed, i) { HistoryStep(s0, s, e, i); }
  }

  lemma {:induction false} InvRun(s0: Store, s: Sys, es: seq<Step>)
    requires Inv(s0, s) && Runs(s, es)
    ensures Inv(s0, After(s, es))
    decreases |es|
  {
    if es != [] {
      InvStep(s0, s, es[0]);
      InvRun(s0, Apply(s, es[0]), es[1..]);
    }
  }

  lemma StartInv(s0: Store)
    ensures Inv(s0, Start(s0))
  {
    forall id ensures TxOk(Start(s0), id) {}
    forall i ensures HistoryAt(s0, [], i) {}
  }

  /** For every interleaving, gets in the middle of another commit included: run one after
      another in commit order, the committed transactions read exactly what they did read, and
      leave exactly the store that is there once no commit is writing. */
  lemma Serializable(s0: Store, es: seq<Step>, i: nat)
    requires Runs(Start(s0), es)
    ensures var s := After(Start(s0), es);
      && (i < |s.committed| ==>
            && GetsMatch(s.committed[i], Serial(s0, s.committed[..i]))
            && Leaves(s.committed[i], Serial(s0, s.committed[..i]), Serial(s0, s.committed[..i + 1])))
      && (!s.commit.Writing? ==> s.store == Serial(s0, s.committed))
  {
    StartInv(s0);
    InvRun(s0, Start(s0), es);
    var s := After(Start(s0), es);
    assert HistoryAt(s0, s.committed, i);
    if i < |s.committed| {
      assert s.committed[..i + 1] == s.committed[..i] + [s.committed[i]];
      SerialPrefix(s0, s.committed[..i], s.committed[i]);
    }
  }

  // ---------------------------------------------------- aborting only on a conflict

  /** Everything the transaction has read still has the value it read. */
  ghost predicate Current(s: Sys, id: Id) {
    id in s.txs ==> forall k :: k in s.txs[id].readLog ==> Read(s.store, k) == s.txs[id].readLog[k]
  }

  /** e does not change a slot that id has read. */
  ghost predicate Harmless(s: Sys, e: Step, id: Id)
    requires Enabled(s, e)
  {
    && e != Abort(id)
    && (e.WriteSlot? && s.commit.id != id && id in s.txs && e.slot in s.txs[id].readLog ==>
          Read(Apply(s, e).store, e.slot) == Read(s.store, e.slot))
  }

  ghost predicate AllHarmless(s: Sys, es: seq<Step>, id: Id)
    requires Runs(s, es)
    decreases |es|
  {
    es == [] || (Harmless(s, es[0], id) && AllHarmless(Apply(s, es[0]), es[1..], id))
  }

  /** The transaction is still running or committing, or it has committed. */
  ghost predicate Spared(s: Sys, id: Id) {
    && (id in s.txs || (id in s.ended && s.ended[id] == Committed))
    && (id in s.txs && !(s.commit.Writing? && s.commit.id == id) ==> Current(s, id))
  }

  lemma SparedStep(s0: Store, s: Sys, e: Step, id: Id)
    requires Inv(s0, s) && Enabled(s, e) && Spared(s, id) && Harmless(s, e, id) && id < s.next
    ensures Spared(Apply(s, e), id)
  {
    if e.Begin? || e.Get? || e.Set? || e.Del? || e.Abort? { SparedByOthers(s, e, id); } else { SparedByCommit(s0, s, e, id); }
  }

  lemma SparedByOthers(s: Sys, e: Step, id: Id)
    requires Enabled(s, e) && Spared(s, id) && Harmless(s, e, id) && id < s.next
    requires e.Begin? || e.Get? || e.Set? || e.Del? || e.Abort?
    ensures Spared(Apply(s, e), id)
  {}

  lemma SparedByCommit(s0: Store, s: Sys, e: Step, id: Id)
    requires Inv(s0, s) && Enabled(s, e) && Spared(s, id) && Harmless(s, e, id) && OfCommit(e)
    ensures Spared(Apply(s, e), id)
  {}

  lemma {:induction false} SparedRun(s0: Store, s: Sys, es: seq<Step>, id: Id)
    requires Inv(s0, s) && Runs(s, es) && AllHarmless(s, es, id) && Spared(s, id) && id < s.next
    ensures Spared(After(s, es), id)
    decreases |es|
  {
    if es != [] {
      SparedStep(s0, s, es[0], id);
      InvStep(s0, s, es[0]);
      SparedRun(s0, Apply(s, es[0]), es[1..], id);
    }
  }

  /** In every run, a transaction whose read slots nobody else changes while it runs is never
      refused a get and never fails to commit. */
  lemma UndisturbedNeverAborts(s0: Store, before: seq<Step>, es: seq<Step>)
    requires Runs(Start(s0), before)
    requires var s := Apply(After(Start(s0), before), Begin);
             Runs(s, es) && AllHarmless(s, es, After(Start(s0), before).next)
    ensures var b := After(Start(s0), before);
            var e := After(Apply(b, Begin), es);
            b.next in e.txs || (b.next in e.ended && e.ended[b.next] == Committed)
  {
    StartInv(s0);
    InvRun(s0, Start(s0), before);
    var b := After(Start(s0), before);
    InvStep(s0, b, Begin);
    SparedRun(s0, Apply(b, Begin), es, b.next);
  }

  /** In every run, two gets of one slot by one transaction with no own write to it before the
      second return the same value. */
  lemma RepeatableReads(s0: Store, es: seq<Step>, id: Id, i: nat, j: nat)
    requires Runs(Start(s0), es)
    requires var s := After(Start(s0), es);
             && id in s.txs && i < j < |s.txs[id].trace| && s.txs[id].trace[i].Got? && s.txs[id].trace[j].Got?
             && s.txs[id].trace[i].slot == s.txs[id].trace[j].slot
             && s.txs[id].trace[j].slot !in Net(s.txs[id].trace[..j]) && s.txs[id].trace[i].slot !in Net(s.txs[id].trace[..i])
    ensures var t := After(Start(s0), es).txs[id].trace; t[i].value == t[j].value
  {
    StartInv(s0);
    InvRun(s0, Start(s0), es);
    var s := After(Start(s0), es);
    assert TxOk(s, id) && GotOk(s.txs[id], i) && GotOk(s.txs[id], j);
  }

  // -------------------------------------------------- a conflict, from the store alone

  /** Step e reads slot k of the store for transaction id: a get of a slot it has not written, or
      a comparison at commit. */
  predicate Reads(s: Sys, e: Step, id: Id, k: Slot) {
    && id in s.txs
    && ((e == Step.Get(id, k) && k !in s.txs[id].writeLog) || (e == Validate(k) && s.commit.Validating? && s.commit.id == id))
  }

  function At(s: Sys, es: seq<Step>, i: nat): Sys
    requires Runs(s, es) && i <= |es|
  {
    RunsPrefix(s, es, i);
    After(s, es[..i])
  }

  lemma {:induction false} RunsPrefix(s: Sys, es: seq<Step>, i: nat)
    requires Runs(s, es) && i <= |es|
    ensures Runs(s, es[..i])
    ensures i < |es| ==> Runs(s, es[..i + 1]) && Enabled(After(s, es[..i]), es[i])
                         && After(s, es[..i + 1]) == Apply(After(s, es[..i]), es[i])
    decreases i
  {
    if i == 0 {
      assert es != [] ==> es[..1][1..] == [];
    } else {
      RunsPrefix(Apply(s, es[0]), es[1..], i - 1);
      assert es[..i][1..] == es[1..][..i - 1];
      assert i < |es| ==> es[..i + 1][1..] == es[1..][..i];
    }
  }

  /** Step i of the run reads slot k for id, and finds v. */
  predicate Found(s: Sys, es: seq<Step>, id: Id, k: Slot, i: nat, v: string)
    requires Runs(s, es)
  {
    i < |es| && Reads(At(s, es, i), es[i], id, k) && Read(At(s, es, i).store, k) == v
  }

  /** Two reads of one slot by id among the first n steps found different values. */
  ghost predicate Torn(s: Sys, es: seq<Step>, id: Id, n: nat)
    requires Runs(s, es)
  {
    exists i: nat, j: nat, k: Slot, v: string, w: string ::
      i < j < n && Found(s, es, id, k, i, v) && Found(s, es, id, k, j, w) && v != w
  }

  /** The read log is what the reads found. */
  ghost predicate LogIsHistory(s: Sys, es: seq<Step>, id: Id, n: nat)
    requires Runs(s, es) && n <= |es| && id in At(s, es, n).txs
  {
    var log := At(s, es, n).txs[id].readLog;
    && (forall i: nat, k: Slot, v: string {:trigger Found(s, es, id, k, i, v)} ::
          i < n && Found(s, es, id, k, i, v) ==> k in log && log[k] == v)
    && (forall k :: k in log ==> exists i: nat :: i < n && Found(s, es, id, k, i, log[k]))
  }

  ghost predicate Explained(s: Sys, es: seq<Step>, id: Id, n: nat)
    requires Runs(s, es) && n <= |es|
  {
    var p := At(s, es, n);
    && id < p.next && (id in p.txs ==> id !in p.ended && LogIsHistory(s, es, id, n))
    && ((id in p.ended && p.ended[id] == Conflict) <==> Torn(s, es, id, n))
  }

  /** A read that finds another value than the logged one. */
  predicate Stale(s: Sys, e: Step, id: Id, k: Slot) {
    Reads(s, e, id, k) && k in s.txs[id].readLog && s.txs[id].readLog[k] != Read(s.store, k)
  }

  /** What one step does to a transaction: only a stale read ends it in a conflict. */
  lemma StepEnds(s0: Store, s: Sys, e: Step, id: Id)
    requires Inv(s0, s) && Enabled(s, e) && id < s.next && (id in s.txs ==> id !in s.ended)
    ensures var q := Apply(s, e);
            && id < q.next && (id in q.txs ==> id in s.txs && id !in q.ended)
            && (id !in s.txs ==> (id in q.ended <==> id in s.ended) && (id in s.ended ==> q.ended[id] == s.ended[id]))
            && (id in s.txs ==> ((id in q.ended && q.ended[id] == Conflict) <==> exists k: Slot :: Stale(s, e, id, k)))
  {
    hide LogsOk, HistoryAt, Pending, Serial;
    if id in s.txs && (e.Get? || e.Validate?) { assert Stale(s, e, id, e.slot) ==> exists k: Slot :: Stale(s, e, id, k); }
  }

  /** The read log after a step that leaves the transaction running. */
  lemma StepLogs(s: Sys, e: Step, id: Id, k: Slot)
    requires Enabled(s, e) && id in s.txs && id < s.next && id in Apply(s, e).txs
    ensures var log, more := s.txs[id].readLog, Apply(s, e).txs[id].readLog;
            && (k in log ==> k in more && more[k] == log[k])
            && (k in more && k !in log ==> Reads(s, e, id, k) && more[k] == Read(s.store, k))
            && (Reads(s, e, id, k) ==> k in more && more[k] == Read(s.store, k))
  {}

  /** While the transaction runs, one more step is torn exactly when it reads another value than the log. */
  lemma TornStep(s: Sys, es: seq<Step>, id: Id, n: nat)
    requires Runs(s, es) && n < |es| && Explained(s, es, id, n) && id in At(s, es, n).txs
    ensures var p := At(s, es, n);
            Torn(s, es, id, n + 1) <==>
              exists k: Slot :: Stale(p, es[n], id, k)
  {
    hide Apply, Runs, After;
    var p := At(s, es, n);
    if k: Slot :| Stale(p, es[n], id, k) { StaleTears(s, es, id, n, k); }
    if Torn(s, es, id, n + 1) {
      var i: nat, j: nat, k: Slot, v: string, w: string :|
        i < j < n + 1 && Found(s, es, id, k, i, v) && Found(s, es, id, k, j, w) && v != w;
      assert j == n;
      assert Stale(p, es[n], id, k);
    }
  }

  lemma StaleTears(s: Sys, es: seq<Step>, id: Id, n: nat, k: Slot)
    requires Runs(s, es) && n < |es| && id in At(s, es, n).txs && LogIsHistory(s, es, id, n)
    requires Stale(At(s, es, n), es[n], id, k)
    ensures Torn(s, es, id, n + 1)
  {
    hide Apply, Runs, After;
    var p := At(s, es, n);
    var v := p.txs[id].readLog[k];
    var i: nat :| i < n && Found(s, es, id, k, i, v);
    assert Found(s, es, id, k, n, Read(p.store, k));
  }

  /** The log after one more step of a transaction that survives it. */
  lemma LogGrows(s: Sys, es: seq<Step>, id: Id, n: nat)
    requires Runs(s, es) && n < |es| && Explained(s, es, id, n) && id in At(s, es, n).txs && id in At(s, es, n + 1).txs
    ensures LogIsHistory(s, es, id, n + 1)
  {
    var p, q := At(s, es, n), At(s, es, n + 1);
    RunsPrefix(s, es, n);
    hide Apply, Runs, After, Enabled;
    var log, more := p.txs[id].readLog, q.txs[id].readLog;
    forall i: nat, k: Slot, v: string | i < n + 1 && Found(s, es, id, k, i, v) ensures k in more && more[k] == v {
      StepLogs(p, es[n], id, k);
      if i < n { assert k in log && log[k] == v; }
    }
    forall k | k in more ensures exists i: nat :: i < n + 1 && Found(s, es, id, k, i, more[k]) {
      StepLogs(p, es[n], id, k);
      if k in log {
        var i: nat :| i < n && Found(s, es, id, k, i, log[k]);
      } else {
        assert Found(s, es, id, k, n, more[k]);
      }
    }
  }

  lemma TornStays(s: Sys, es: seq<Step>, id: Id, n: nat)
    requires Runs(s, es) && n < |es| && id !in At(s, es, n).txs
    ensures Torn(s, es, id, n + 1) <==> Torn(s, es, id, n)
  {
    if Torn(s, es, id, n + 1) {
      var i: nat, j: nat, k: Slot, v: string, w: string :|
        i < j < n + 1 && Found(s, es, id, k, i, v) && Found(s, es, id, k, j, w) && v != w;
      assert j < n;
    }
  }

  lemma ExplainedNext(s0: Store, s: Sys, es: seq<Step>, id: Id, n: nat)
    requires Runs(s, es) && n < |es| && Inv(s0, At(s, es, n)) && Explained(s, es, id, n)
    ensures Explained(s, es, id, n + 1)
  {
    var p, q := At(s, es, n), At(s, es, n + 1);
    RunsPrefix(s, es, n);
    hide Apply, Runs, After, Torn, LogIsHistory, Inv;
    StepEnds(s0, p, es[n], id);
    if id in p.txs {
      TornStep(s, es, id, n);
      if id in q.txs { LogGrows(s, es, id, n); }
    } else {
      TornStays(s, es, id, n);
    }
  }

  lemma {:induction false} ExplainedRun(s0: Store, s: Sys, es: seq<Step>, id: Id, n: nat)
    requires Runs(s, es) && n <= |es| && Inv(s0, s) && Explained(s, es, id, 0)
    ensures Inv(s0, At(s, es, n)) && Explained(s, es, id, n)
  {
    if n == 0 {
      assert es[..0] == [];
    } else {
      ExplainedRun(s0, s, es, id, n - 1);
      RunsPrefix(s, es, n - 1);
      InvStep(s0, At(s, es, n - 1), es[n - 1]);
      ExplainedNext(s0, s, es, id, n - 1);
    }
  }

  lemma {:induction false} EndedBelow(s0: Store, s: Sys, es: seq<Step>, id: Id)
    requires Inv(s0, s) && Runs(s, es) && (id in s.ended ==> id < s.next)
    ensures id in After(s, es).ended ==> id < After(s, es).next
    decreases |es|
  {
    if es != [] {
      assert TxOk(s, id);
      InvStep(s0, s, es[0]);
      EndedBelow(s0, Apply(s, es[0]), es[1..], id);
    }
  }

  /** In every run a transaction is refused if and only if two of its reads of one slot, the
      comparisons at commit included, found different values in the store. */
  lemma AbortsExactly(s0: Store, before: seq<Step>, es: seq<Step>)
    requires Runs(Start(s0), before) && Runs(Apply(After(Start(s0), before), Begin), es)
    ensures var id := After(Start(s0), before).next;
            var s := Apply(After(Start(s0), before), Begin);
            (id in After(s, es).ended && After(s, es).ended[id] == Conflict) <==> Torn(s, es, id, |es|)
  {
    StartInv(s0);
    InvRun(s0, Start(s0), before);
    var b := After(Start(s0), before);
    var s := Apply(b, Begin);
    EndedBelow(s0, Start(s0), before, b.next);
    InvStep(s0, b, Begin);
    assert es[..0] == [] && es[..|es|] == es;
    ExplainedRun(s0, s, es, b.next, |es|);
  }

  predicate Accounted(s: Sys, id: Id) { id < s.next && (id in s.txs || (id in s.ended && s.ended[id] != GivenUp)) }

  lemma {:induction false} AccountedRun(s0: Store, s: Sys, es: seq<Step>, id: Id)
    requires Inv(s0, s) && Runs(s, es) && Accounted(s, id) && Abort(id) !in es
    ensures Accounted(After(s, es), id)
    decreases |es|
  {
    if es != [] {
      InvStep(s0, s, es[0]);
      AccountedRun(s0, Apply(s, es[0]), es[1..], id);
    }
  }

  /** A transaction that is not given up and never finds two values in one slot is still running, or
      it has committed. Changes it does not see, or that are undone before it looks again, do not matter. */
  lemma NoFalseAbort(s0: Store, before: seq<Step>, es: seq<Step>)
    requires Runs(Start(s0), before) && Runs(Apply(After(Start(s0), before), Begin), es)
    requires var id := After(Start(s0), before).next;
             Abort(id) !in es && !Torn(Apply(After(Start(s0), before), Begin), es, id, |es|)
    ensures var id := After(Start(s0), before).next;
            var e := After(Apply(After(Start(s0), before), Begin), es);
            id in e.txs || (id in e.ended && e.ended[id] == Committed)
  {
    StartInv(s0);
    InvRun(s0, Start(s0), before);
    var b := After(Start(s0), before);
    InvStep(s0, b, Begin);
    AccountedRun(s0, Apply(b, Begin), es, b.next);
    AbortsExactly(s0, before, es);
  }
}
