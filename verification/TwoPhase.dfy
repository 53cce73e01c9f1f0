/** The two-phase-locking transaction server as atomic sections: slot locks taken one by one,
    waits recorded in a graph, and a commit or abort that releases slot by slot while it
    holds the DEPENDENCY lock. */
module TwoPhase {
  import opened Transactions
  import opened WaitGraph
  import opened Options

  type Id = nat

  const REMOVE := "to->Remove"

  /** Between requests; waiting for a slot lock; holding it but not recorded yet; told to abort. */
  datatype Phase = Ready | Waiting(op: Op) | Granted(op: Op) | Doomed

  datatype Tx = Tx(locks: set<Slot>, log: map<Slot, string>, phase: Phase, trace: Trace)

  /** The holder of the DEPENDENCY lock that is committing or aborting, with the slots it
      still has to release. */
  datatype Finish = Idle | Finishing(id: Id, commit: bool, left: set<Slot>)

  datatype Sys = Sys(
    store: Store,
    held: map<Slot, Id>,          // slot locks at the lock server
    handlers: map<Slot, Id>,      // lock_handlers
    waits: Graph,                 // dependency
    txs: map<Id, Tx>, next: Id,   // transactionInfos, trans_id
    fin: Finish,
    committed: seq<Trace>)        // in the order DEPENDENCY was taken

  function Start(store: Store): Sys { Sys(store, map[], map[], {}, map[], 0, Idle, []) }

  // --------------------------------------------------------- sequential behaviour

  /** The code's log after one operation of a transaction running alone on store s; None when
      a get did not return what the code would return. */
  function LogStep(log: map<Slot, string>, s: Store, e: Event): Option<map<Slot, string>> {
    match e
    case Got(k, v) =>
      if k in log then (if v == log[k] then Some(log) else None)
      else if v == Read(s, k) then Some(log[k := v]) else None
    case Put(k, v) => Some(log[k := v])
    case Deleted(k) => Some(log[k := REMOVE])
  }

  function Replay(t: Trace, s: Store): Option<map<Slot, string>> {
    if t == [] then Some(map[])
    else match Replay(t[..|t| - 1], s)
      case None => None
      case Some(log) => LogStep(log, s, t[|t| - 1])
  }

  /** What the commit loop makes of the store, for the logged slots in ks. */
  function ApplyLog(s: Store, log: map<Slot, string>, ks: set<Slot>): Store {
    map k | k in s.Keys + log.Keys && !(k in ks && k in log && log[k] == REMOVE) && (k in s || k in ks)
      :: if k in ks && k in log then log[k] else Read(s, k)
  }

  /** The store after running the traces one after another, if all their gets agree. */
  function Serial(s: Store, ts: seq<Trace>): Option<Store> {
    if ts == [] then Some(s)
    else match Serial(s, ts[..|ts| - 1])
      case None => None
      case Some(s1) =>
        match Replay(ts[|ts| - 1], s1)
        case None => None
        case Some(log) => Some(ApplyLog(s1, log, log.Keys))
  }

  // ------------------------------------------------------------------ transitions

  datatype Step =
    | Begin
    | Request(id: Id, op: Op)        // get, set or del up to its RPC or return
    | Grant(id: Id)                  // the lock server grants the awaited slot lock
    | Record(id: Id)                 // the rest of get, set or del
    | CommitBegin(id: Id)            // commit has DEPENDENCY
    | AbortBegin(id: Id)             // release_locks has DEPENDENCY and clears the edges
    | Release(slot: Slot)            // the finishing transaction's loop body
    | FinishEnd                      // the loop is over

  function Without(g: Graph, id: Id): Graph { set e | e in g && e.0 != id && e.1 != id }

  predicate Active(s: Sys, id: Id) { id in s.txs && !(s.fin.Finishing? && s.fin.id == id) }

  ghost predicate Enabled(s: Sys, e: Step) {
    match e
    case Begin => true
    case Request(id, op) =>
      Active(s, id) && s.txs[id].phase == Ready && (op.slot in s.txs[id].locks || s.fin.Idle?)
    case Grant(id) => Active(s, id) && s.txs[id].phase.Waiting? && s.txs[id].phase.op.slot !in s.held
    case Record(id) => Active(s, id) && s.txs[id].phase.Granted?
    case CommitBegin(id) => s.fin.Idle? && id in s.txs && s.txs[id].phase == Ready
    case AbortBegin(id) => s.fin.Idle? && id in s.txs && s.txs[id].phase in {Ready, Doomed}
    case Release(k) => s.fin.Finishing? && k in s.fin.left
    case FinishEnd => s.fin.Finishing? && s.fin.left == {}
  }

  /** The operation on a slot the transaction has locked. */
  function OnLocked(t: Tx, op: Op): Tx
    requires op.slot in t.log
  {
    match op
    case Get(k) => t.(trace := t.trace + [Got(k, t.log[k])])
    case Set(k, v) => t.(log := t.log[k := v], trace := t.trace + [Put(k, v)])
    case Del(k) => t.(log := t.log[k := REMOVE], trace := t.trace + [Deleted(k)])
  }

  /** The operation on a slot just locked: a get fetches the stored value. */
  function OnFresh(t: Tx, op: Op, s: Store): Tx {
    var u := t.(locks := t.locks + {op.slot}, phase := Ready);
    match op
    case Get(k) => u.(log := t.log[k := Read(s, k)], trace := t.trace + [Got(k, Read(s, k))])
    case Set(k, v) => u.(log := t.log[k := v], trace := t.trace + [Put(k, v)])
    case Del(k) => u.(log := t.log[k := REMOVE], trace := t.trace + [Deleted(k)])
  }

  /** checkCycle: record the wait, unless it would close a cycle. */
  ghost function CheckCycle(s: Sys, id: Id, op: Op): Sys
    requires id in s.txs
  {
    if op.slot in s.handlers && Reaches(s.waits, s.handlers[op.slot], id) then
      s.(txs := s.txs[id := s.txs[id].(phase := Doomed)])
    else
      s.(waits := if op.slot in s.handlers then s.waits + {(id, s.handlers[op.slot])} else s.waits,
         txs := s.txs[id := s.txs[id].(phase := Waiting(op))])
  }

  ghost function Apply(s: Sys, e: Step): Sys
    requires Enabled(s, e)
  {
    match e
    case Begin => s.(txs := s.txs[s.next := Tx({}, map[], Ready, [])], next := s.next + 1)
    case Request(id, op) =>
      if op.slot !in s.txs[id].locks then CheckCycle(s, id, op)
      else if op.slot !in s.txs[id].log then s        // the assert of get, set and del
      else s.(txs := s.txs[id := OnLocked(s.txs[id], op)])
    case Grant(id) =>
      var op := s.txs[id].phase.op;
      s.(held := s.held[op.slot := id], txs := s.txs[id := s.txs[id].(phase := Granted(op))])
    case Record(id) =>
      var op := s.txs[id].phase.op;
      s.(handlers := s.handlers[op.slot := id], txs := s.txs[id := OnFresh(s.txs[id], op, s.store)])
    case CommitBegin(id) =>
      s.(fin := Finishing(id, true, s.txs[id].log.Keys), committed := s.committed + [s.txs[id].trace])
    case AbortBegin(id) =>
      s.(fin := Finishing(id, false, s.txs[id].locks), waits := Without(s.waits, id))
    case Release(k) =>
      s.(store := if s.fin.commit && s.fin.id in s.txs then ApplyLog(s.store, s.txs[s.fin.id].log, {k}) else s.store,
         handlers := s.handlers - {k}, held := s.held - {k}, fin := s.fin.(left := s.fin.left - {k}))
    case FinishEnd =>
      s.(waits := Without(s.waits, s.fin.id), txs := s.txs - {s.fin.id}, fin := Idle)
  }

  ghost predicate Runs(s: Sys, es: seq<Step>)
    decreases |es|
  {
    es == [] || (Enabled(s, es[0]) && Runs(Apply(s, es[0]), es[1..]))
  }

  ghost function After(s: Sys, es: seq<Step>): Sys
    requires Runs(s, es)
    decreases |es|
  {
    if es == [] then s else After(Apply(s, es[0]), es[1..])
  }

  // ---------------------------------------------------------- facts about the store

  lemma ReadApplied(s: Store, log: map<Slot, string>, ks: set<Slot>, k: Slot)
    ensures Read(ApplyLog(s, log, ks), k)
         == if k in ks && k in log then (if log[k] == REMOVE then "" else log[k]) else Read(s, k)
  {}

  lemma ApplyOneByOne(s: Store, log: map<Slot, string>, ks: set<Slot>, k: Slot)
    requires k in ks
    ensures ApplyLog(ApplyLog(s, log, {k}), log, ks - {k}) == ApplyLog(s, log, ks)
  {}

  lemma ApplyNothing(s: Store, log: map<Slot, string>)
    ensures ApplyLog(s, log, {}) == s
  {}

  lemma {:induction false} ReplayGrows(t: Trace, s: Store)
    requires t != [] && Replay(t, s).Some?
    ensures Replay(t[..|t| - 1], s).Some? && Replay(t[..|t| - 1], s).value.Keys <= Replay(t, s).value.Keys
  {}

  /** A transaction run alone depends only on the slots it locks. */
  lemma {:induction false} ReplayLocal(t: Trace, s: Store, s2: Store)
    requires Replay(t, s).Some?
    requires forall k :: k in Replay(t, s).value ==> Read(s2, k) == Read(s, k)
    ensures Replay(t, s2) == Replay(t, s)
  {
    if t != [] {
      ReplayGrows(t, s);
      ReplayLocal(t[..|t| - 1], s, s2);
    }
  }

  lemma ReplayOne(t: Trace, e: Event, s: Store)
    ensures Replay(t + [e], s) == if Replay(t, s).None? then None else LogStep(Replay(t, s).value, s, e)
  {
    assert (t + [e])[..|t|] == t;
  }

  lemma SerialOne(s: Store, ts: seq<Trace>, t: Trace, s1: Store, log: map<Slot, string>)
    requires Serial(s, ts) == Some(s1) && Replay(t, s1) == Some(log)
    ensures Serial(s, ts + [t]) == Some(ApplyLog(s1, log, log.Keys))
  {
    assert (ts + [t])[..|ts|] == ts;
  }

  // ------------------------------------------------------------------- invariant

  /** The slots a transaction has locked and recorded, and not released yet. */
  function Owned(s: Sys, id: Id): set<Slot>
    requires id in s.txs
  {
    if s.fin.Finishing? && s.fin.id == id then s.fin.left else s.txs[id].locks
  }

  predicate SlotOk(s: Sys, k: Slot) {
    && (k in s.handlers ==> s.handlers[k] in s.txs && k in Owned(s, s.handlers[k]))
    && (k in s.held ==>
          && s.held[k] in s.txs
          && (k in Owned(s, s.held[k]) || (s.txs[s.held[k]].phase.Granted? && s.txs[s.held[k]].phase.op.slot == k)))
  }

  predicate LockOk(s: Sys, id: Id, k: Slot) {
    id in s.txs ==>
      && (k in Owned(s, id) ==> k in s.held && s.held[k] == id && k in s.handlers && s.handlers[k] == id)
      && (s.txs[id].phase.Granted? && s.txs[id].phase.op.slot == k ==> k in s.held && s.held[k] == id)
  }

  predicate TxOk(s: Sys, id: Id) {
    id in s.txs ==>
      var t := s.txs[id];
      && id < s.next && t.log.Keys == t.locks
      && (t.phase.Waiting? || t.phase.Granted? ==> t.phase.op.slot !in t.locks)
      && (s.fin.Finishing? && s.fin.id == id ==>
            s.fin.left <= t.locks && t.phase in {Ready, Doomed} && (s.fin.commit ==> t.phase == Ready))
  }

  predicate EdgeOk(s: Sys, a: Id, b: Id) { (a, b) in s.waits ==> a in s.txs && b in s.txs }

  /** Locks, handlers, logs and edges fit together. */
  ghost predicate Tidy(s: Sys) {
    && (forall k {:trigger SlotOk(s, k)} :: SlotOk(s, k))
    && (forall id, k {:trigger LockOk(s, id, k)} :: LockOk(s, id, k))
    && (forall id {:trigger TxOk(s, id)} :: TxOk(s, id))
    && (forall a, b {:trigger EdgeOk(s, a, b)} :: EdgeOk(s, a, b))
    && Acyclic(s.waits)
    && (s.fin.Finishing? ==> s.fin.id in s.txs)
  }

  lemma TidySlot(s: Sys, e: Step, k: Slot)
    requires Tidy(s) && Enabled(s, e)
    ensures SlotOk(Apply(s, e), k)
  {
    assert SlotOk(s, k);
    match e {
      case Begin => assert TxOk(s, s.next);
      case Request(id, op) => assert TxOk(s, id);
      case Grant(id) =>
      case Record(id) => assert LockOk(s, id, k);
      case CommitBegin(id) => assert TxOk(s, id);
      case AbortBegin(id) =>
      case Release(j) =>
      case FinishEnd => assert TxOk(s, s.fin.id);
    }
  }

  lemma TidyLock(s: Sys, e: Step, id: Id, k: Slot)
    requires Tidy(s) && Enabled(s, e)
    ensures LockOk(Apply(s, e), id, k)
  {
    assert LockOk(s, id, k);
    match e {
      case Begin =>
      case Request(_, op) =>
      case Grant(j) =>
      case Record(j) => assert LockOk(s, j, k) && SlotOk(s, k) && TxOk(s, j);
      case CommitBegin(j) => assert TxOk(s, j);
      case AbortBegin(j) =>
      case Release(j) => assert LockOk(s, s.fin.id, j) && TxOk(s, s.fin.id);
      case FinishEnd =>
    }
  }

  lemma TidyTx(s: Sys, e: Step, id: Id)
    requires Tidy(s) && Enabled(s, e)
    ensures TxOk(Apply(s, e), id)
  {
    assert TxOk(s, id);
  }

  lemma TidyEdge(s: Sys, e: Step, a: Id, b: Id)
    requires Tidy(s) && Enabled(s, e)
    ensures EdgeOk(Apply(s, e), a, b)
  {
    assert EdgeOk(s, a, b);
    if e.Request? { assert SlotOk(s, e.op.slot); }
  }

  lemma TidyAcyclic(s: Sys, e: Step)
    requires Tidy(s) && Enabled(s, e)
    ensures Acyclic(Apply(s, e).waits)
  {
    if e.Request? && e.op.slot in s.handlers {
      AddEdgeAcyclic(s.waits, e.id, s.handlers[e.op.slot]);
    } else {
      SubgraphAcyclic(Apply(s, e).waits, s.waits);
    }
  }

  lemma TidyStep(s: Sys, e: Step)
    requires Tidy(s) && Enabled(s, e)
    ensures Tidy(Apply(s, e))
  {
    var s' := Apply(s, e);
    forall k ensures SlotOk(s', k) { TidySlot(s, e, k); }
    forall id, k ensures LockOk(s', id, k) { TidyLock(s, e, id, k); }
    forall id ensures TxOk(s', id) { TidyTx(s, e, id); }
    forall a, b ensures EdgeOk(s', a, b) { TidyEdge(s, e, a, b); }
    TidyAcyclic(s, e);
  }

  // --------------------------------------------------------------- serializability

  /** Running the transaction alone on the serial store gives the same gets and the same log. */
  predicate Explained(s: Sys, ser: Store, id: Id) {
    Active(s, id) ==> Replay(s.txs[id].trace, ser) == Some(s.txs[id].log)
  }

  /** The store is the serial store, except for what a committing transaction still has to write. */
  ghost predicate StoreOk(s: Sys, ser: Store) {
    if s.fin.Finishing? && s.fin.commit && s.fin.id in s.txs
    then ApplyLog(s.store, s.txs[s.fin.id].log, s.fin.left) == ser
    else s.store == ser
  }

  ghost predicate Inv(s0: Store, s: Sys) {
    && Tidy(s)
    && Serial(s0, s.committed).Some?
    && StoreOk(s, Serial(s0, s.committed).value)
    && (forall id {:trigger Explained(s, Serial(s0, s.committed).value, id)} ::
          Explained(s, Serial(s0, s.committed).value, id))
  }

  /** Two transactions never own the same slot. */
  lemma Disjoint(s: Sys, a: Id, b: Id, k: Slot)
    requires Tidy(s) && a in s.txs && b in s.txs && a != b && k in Owned(s, a)
    ensures k !in Owned(s, b) && !(s.txs[b].phase.Granted? && s.txs[b].phase.op.slot == k)
  {
    assert LockOk(s, a, k) && LockOk(s, b, k);
  }

  lemma StoreStep(s0: Store, s: Sys, e: Step)
    requires Inv(s0, s) && Enabled(s, e)
    ensures var s' := Apply(s, e);
            Serial(s0, s'.committed).Some? && StoreOk(s', Serial(s0, s'.committed).value)
  {
    var ser := Serial(s0, s.committed).value;
    match e {
      case CommitBegin(id) =>
        assert Explained(s, ser, id);
        SerialOne(s0, s.committed, s.txs[id].trace, ser, s.txs[id].log);
      case Release(k) =>
        if s.fin.commit { ApplyOneByOne(s.store, s.txs[s.fin.id].log, s.fin.left, k); }
      case FinishEnd =>
        if s.fin.commit { ApplyNothing(s.store, s.txs[s.fin.id].log); }
      case Begin => assert TxOk(s, s.next);
      case _ =>
    }
  }

  /** Outside what is still to be written, the store is the serial store. */
  lemma StoreAt(s0: Store, s: Sys, k: Slot)
    requires Inv(s0, s) && (s.fin.Finishing? ==> k !in s.fin.left)
    ensures Read(s.store, k) == Read(Serial(s0, s.committed).value, k)
  {
    if s.fin.Finishing? && s.fin.commit {
      ReadApplied(s.store, s.txs[s.fin.id].log, s.fin.left, k);
    }
  }

  lemma ExplainedRequest(s0: Store, s: Sys, id: Id, op: Op)
    requires Inv(s0, s) && Enabled(s, Request(id, op))
    ensures Explained(Apply(s, Request(id, op)), Serial(s0, s.committed).value, id)
  {
    var ser, t := Serial(s0, s.committed).value, s.txs[id];
    assert Explained(s, ser, id) && TxOk(s, id);
    if op.slot in t.locks {
      var u := OnLocked(t, op);
      ReplayOne(t.trace, u.trace[|t.trace|], ser);
    }
  }

  lemma ExplainedRecord(s0: Store, s: Sys, id: Id)
    requires Inv(s0, s) && Enabled(s, Record(id))
    ensures Explained(Apply(s, Record(id)), Serial(s0, s.committed).value, id)
  {
    var ser, t := Serial(s0, s.committed).value, s.txs[id];
    var op := t.phase.op;
    assert Explained(s, ser, id) && TxOk(s, id);
    if s.fin.Finishing? && op.slot in s.fin.left { Disjoint(s, s.fin.id, id, op.slot); }
    StoreAt(s0, s, op.slot);
    ReplayOne(t.trace, OnFresh(t, op, s.store).trace[|t.trace|], ser);
  }

  lemma ExplainedCommit(s0: Store, s: Sys, id: Id, other: Id)
    requires Inv(s0, s) && Enabled(s, CommitBegin(id)) && other != id
    ensures var s' := Apply(s, CommitBegin(id));
            Serial(s0, s'.committed).Some? && Explained(s', Serial(s0, s'.committed).value, other)
  {
    StoreStep(s0, s, CommitBegin(id));
    var ser, log := Serial(s0, s.committed).value, s.txs[id].log;
    assert Explained(s, ser, id);
    SerialOne(s0, s.committed, s.txs[id].trace, ser, log);
    if other in s.txs {
      assert Explained(s, ser, other) && TxOk(s, id) && TxOk(s, other);
      forall k | k in s.txs[other].log ensures Read(ApplyLog(ser, log, log.Keys), k) == Read(ser, k) {
        if k in log { Disjoint(s, id, other, k); }
        ReadApplied(ser, log, log.Keys, k);
      }
      ReplayLocal(s.txs[other].trace, ser, ApplyLog(ser, log, log.Keys));
    }
  }

  lemma ExplainedStep(s0: Store, s: Sys, e: Step, id: Id)
    requires Inv(s0, s) && Enabled(s, e)
    ensures var s' := Apply(s, e);
            Serial(s0, s'.committed).Some? && Explained(s', Serial(s0, s'.committed).value, id)
  {
    StoreStep(s0, s, e);
    assert Explained(s, Serial(s0, s.committed).value, id);
    if e.Request? && e.id == id { ExplainedRequest(s0, s, id, e.op); }
    else if e.Record? && e.id == id { ExplainedRecord(s0, s, id); }
    else if e.CommitBegin? && e.id != id { ExplainedCommit(s0, s, e.id, id); }
  }

  lemma InvStep(s0: Store, s: Sys, e: Step)
    requires Inv(s0, s) && Enabled(s, e)
    ensures Inv(s0, Apply(s, e))
  {
    var s' := Apply(s, e);
    TidyStep(s, e);
    StoreStep(s0, s, e);
    var ser := Serial(s0, s'.committed).value;
    forall id ensures Explained(s', ser, id) { ExplainedStep(s0, s, e, id); }
  }

  lemma {:induction false} InvRun(s0: Store, s: Sys, es: seq<Step>)
    requires Inv(s0, s) && Runs(s, es)
    ensures Inv(s0, After(s, es))
    decreases |es|
  {
    if es != [] {
      InvStep(s0, s, es[0]);
      InvRun(s0, Apply(s, es[0]), es[1..]);
    }
  }

  lemma StartInv(s0: Store)
    ensures Inv(s0, Start(s0))
  {
    var s := Start(s0);
    forall k ensures SlotOk(s, k) {}
    forall id, k ensures LockOk(s, id, k) {}
    forall id ensures TxOk(s, id) {}
    forall a, b ensures EdgeOk(s, a, b) {}
    forall id ensures Explained(s, s0, id) {}
  }

  /** For every interleaving: running the committed transactions one after another, in the
      order they took DEPENDENCY, makes every get return what it returned, and ends in the
      same store once no commit is half done. */
  lemma Serializable(s0: Store, es: seq<Step>)
    requires Runs(Start(s0), es)
    ensures var s := After(Start(s0), es);
            && Serial(s0, s.committed).Some?
            && (s.fin.Idle? ==> s.store == Serial(s0, s.committed).value)
  {
    StartInv(s0);
    InvRun(s0, Start(s0), es);
  }

  /** The recorded waits-for graph never has a cycle, and only mentions live transactions. */
  lemma WaitsStayAcyclic(s0: Store, es: seq<Step>, a: Id, b: Id)
    requires Runs(Start(s0), es)
    ensures var s := After(Start(s0), es);
            Acyclic(s.waits) && ((a, b) in s.waits ==> a in s.txs && b in s.txs && a != b)
  {
    StartInv(s0);
    InvRun(s0, Start(s0), es);
    var s := After(Start(s0), es);
    assert EdgeOk(s, a, b);
    ReachesSelf(s.waits, a);
  }

  /** In every reachable state a live transaction has logged exactly the slots it has locked,
      so the lookups of get, set and del succeed and commit releases exactly what was locked;
      and a finished transaction holds no lock, no handler entry and no edge. */
  lemma LocksMatchLogs(s0: Store, es: seq<Step>, id: Id, k: Slot)
    requires Runs(Start(s0), es)
    ensures var s := After(Start(s0), es);
      && (id in s.txs ==> s.txs[id].log.Keys == s.txs[id].locks)
      && (Active(s, id) && k in s.txs[id].locks ==> k in s.held && s.held[k] == id && k in s.handlers && s.handlers[k] == id)
      && (id !in s.txs ==> (k in s.held ==> s.held[k] != id) && (k in s.handlers ==> s.handlers[k] != id)
                           && forall a :: (a, id) !in s.waits && (id, a) !in s.waits)
  {
    StartInv(s0);
    InvRun(s0, Start(s0), es);
    var s := After(Start(s0), es);
    assert TxOk(s, id) && LockOk(s, id, k) && SlotOk(s, k);
    forall a: Id | id !in s.txs ensures (a, id) !in s.waits && (id, a) !in s.waits {
      assert EdgeOk(s, a, id) && EdgeOk(s, id, a);
    }
  }
}
