/** The two-phase-locking server's tables and the code that updates them in place: the
    dependency matrix, the depth-first search without a visited set, and the commit and
    abort loops. What a request does to the tables is a run of the interleaved model. */
module TwoPhaseServer {
  import opened Transactions
  import opened WaitGraph
  import opened TwoPhase

  const INODE_NUM: nat := 1024

  datatype Info = Info(locks: set<Slot>, log: map<Slot, string>)

  datatype Status =
    | TRANSIDINV            // unknown transaction
    | ABORT                 // the wait would close a cycle: caller runs ReleaseLocks
    | OK(value: string)     // done on a slot already locked; a get's value
    | MustLock              // wait recorded: take the slot lock, then run Granted

  /** What an operation writes to the log and a get returns, given the value seen. */
  function Outcome(op: Op, seen: string): string {
    match op case Get(_) => seen case Set(_, v) => v case Del(_) => REMOVE
  }

  lemma LockedLog(t: Tx, op: Op)
    requires op.slot in t.log
    ensures OnLocked(t, op).locks == t.locks && OnLocked(t, op).log == t.log[op.slot := Outcome(op, t.log[op.slot])]
  {
    assert t.log[op.slot := t.log[op.slot]] == t.log;
  }

  lemma FreshLog(t: Tx, op: Op, s: Store)
    ensures OnFresh(t, op, s).locks == t.locks + {op.slot} && OnFresh(t, op, s).log == t.log[op.slot := Outcome(op, Read(s, op.slot))]
  {}

  /** One write of the commit loop. */
  function Written(s: Store, k: Slot, v: string): Store {
    if v == REMOVE then s - {k} else s[k := v]
  }

  lemma WrittenIsApplied(s: Store, log: map<Slot, string>, k: Slot)
    requires k in log
    ensures Written(s, k, log[k]) == ApplyLog(s, log, {k})
  {
    assert Written(s, k, log[k]).Keys == ApplyLog(s, log, {k}).Keys;
  }

  lemma Shrink(m: map<Slot, Id>, h: set<Slot>, left: set<Slot>, k: Slot)
    requires k in left
    ensures (m - {k}) - (left - {k}) == m - left && (h - {k}) - (left - {k}) == h - left
  {}

  datatype Tables = Tables(
    transId: nat, handlers: map<Slot, Id>, transactions: map<Id, Info>, store: Store, held: set<Slot>, edges: Graph)

  /** The tables are those of s, and nobody is committing or aborting. */
  ghost predicate Shown(v: Tables, s: Sys) {
    && s.fin.Idle? && v.store == s.store && v.transId == s.next && v.handlers == s.handlers && v.held == s.held.Keys
    && v.edges == s.waits && v.transactions.Keys == s.txs.Keys
    && forall id :: id in v.transactions ==> v.transactions[id] == Info(s.txs[id].locks, s.txs[id].log)
  }

  // What the requests do to the tables.

  function Begun(v: Tables): Tables { v.(transId := v.transId + 1, transactions := v.transactions[v.transId := Info({}, map[])]) }

  ghost function Requested(v: Tables, id: Id, op: Op): Tables {
    if id !in v.transactions then v
    else
      var t := v.transactions[id];
      if op.slot in t.locks && op.slot in t.log then
        v.(transactions := v.transactions[id := t.(log := t.log[op.slot := Outcome(op, t.log[op.slot])])])
      else if op.slot in v.handlers && !Reaches(v.edges, v.handlers[op.slot], id) then
        v.(edges := v.edges + {(id, v.handlers[op.slot])})
      else v
  }

  function GrantedTo(v: Tables, id: Id, op: Op): Tables
    requires id in v.transactions
  {
    var t := v.transactions[id];
    v.(held := v.held + {op.slot}, handlers := v.handlers[op.slot := id],
       transactions := v.transactions[id := Info(t.locks + {op.slot}, t.log[op.slot := Outcome(op, Read(v.store, op.slot))])])
  }

  function Aborted(v: Tables, id: Id): Tables
    requires id in v.transactions
  {
    var locks := v.transactions[id].locks;
    v.(edges := Without(v.edges, id), handlers := v.handlers - locks, held := v.held - locks, transactions := v.transactions - {id})
  }

  function Committed(v: Tables, id: Id): Tables
    requires id in v.transactions
  {
    var t := v.transactions[id];
    v.(store := ApplyLog(v.store, t.log, t.log.Keys), edges := Without(v.edges, id), handlers := v.handlers - t.locks,
       held := v.held - t.locks, transactions := v.transactions - {id})
  }

  // The same, as runs of the interleaved model.

  lemma BegunShown(v: Tables, s: Sys)
    requires Shown(v, s)
    ensures Shown(Begun(v), Apply(s, Step.Begin))
  {}

  lemma RequestedShown(v: Tables, s: Sys, id: Id, op: Op)
    requires Shown(v, s) && id in v.transactions && id in s.txs && s.fin.Idle?
    requires v.transactions[id].log.Keys == v.transactions[id].locks && s.txs[id].phase == Ready
    ensures Shown(Requested(v, id, op), Apply(s, Step.Request(id, op)))
  {
    hide Shown, Requested, Apply;
    if op.slot in v.transactions[id].locks { LockedShown(v, s, id, op); } else { WaitShown(v, s, id, op); }
  }

  lemma LockedShown(v: Tables, s: Sys, id: Id, op: Op)
    requires Shown(v, s) && id in v.transactions && v.transactions[id].log.Keys == v.transactions[id].locks
    requires s.txs[id].phase == Ready && op.slot in v.transactions[id].locks
    ensures Shown(Requested(v, id, op), Apply(s, Step.Request(id, op)))
  {
    hide Reaches, OnLocked, TwoPhase.CheckCycle;
    LockedLog(s.txs[id], op);
    var u := OnLocked(s.txs[id], op);
    assert Apply(s, Step.Request(id, op)) == s.(txs := s.txs[id := u]);
  }

  lemma WaitShown(v: Tables, s: Sys, id: Id, op: Op)
    requires Shown(v, s) && id in v.transactions && s.txs[id].phase == Ready && op.slot !in v.transactions[id].locks
    ensures Shown(Requested(v, id, op), Apply(s, Step.Request(id, op)))
  {
    hide Reaches, OnLocked;
    assert Apply(s, Step.Request(id, op)) == TwoPhase.CheckCycle(s, id, op);
  }

  lemma GrantedShown(v: Tables, s: Sys, id: Id, op: Op)
    requires Shown(v, s) && id in v.transactions && s.txs[id].phase == Waiting(op) && op.slot !in v.held
    ensures Runs(s, [Grant(id), Record(id)]) && Shown(GrantedTo(v, id, op), After(s, [Grant(id), Record(id)]))
  {
    hide Runs, After, OnFresh;
    GrantRun(s, id, op);
    FreshLog(s.txs[id], op, s.store);
  }

  lemma AbortedShown(v: Tables, s: Sys, id: Id) returns (es: seq<Step>)
    requires Shown(v, s) && id in v.transactions && s.txs[id].phase in {Ready, Doomed}
    ensures Runs(s, es) && Shown(Aborted(v, id), After(s, es))
  {
    hide Runs, After;
    es := AbortRun(s, id);
  }

  lemma CommittedShown(v: Tables, s: Sys, id: Id) returns (es: seq<Step>)
    requires Shown(v, s) && id in v.transactions && v.transactions[id].log.Keys == v.transactions[id].locks
    requires s.txs[id].phase == Ready
    ensures Runs(s, es) && Shown(Committed(v, id), After(s, es))
  {
    hide Runs, After;
    es := CommitRun(s, id);
  }

  lemma {:induction false} RunsSnoc(s: Sys, es: seq<Step>, e: Step)
    requires Runs(s, es) && Enabled(After(s, es), e)
    ensures Runs(s, es + [e]) && After(s, es + [e]) == Apply(After(s, es), e)
    decreases |es|
  {
    hide Apply, Enabled;
    if es == [] {
      assert (es + [e])[1..] == [] && (es + [e])[0] == e;
    } else {
      assert (es + [e])[1..] == es[1..] + [e] && (es + [e])[0] == es[0];
      RunsSnoc(Apply(s, es[0]), es[1..], e);
    }
  }

  lemma Released(s: Sys, es: seq<Step>, k: Slot)
    requires Runs(s, es) && After(s, es).fin.Finishing? && k in After(s, es).fin.left && After(s, es).fin.id in After(s, es).txs
    ensures Runs(s, es + [Release(k)])
    ensures var c := After(s, es);
            After(s, es + [Release(k)]) ==
              c.(store := if c.fin.commit then ApplyLog(c.store, c.txs[c.fin.id].log, {k}) else c.store,
                 handlers := c.handlers - {k}, held := c.held - {k}, fin := c.fin.(left := c.fin.left - {k}))
  {
    RunsSnoc(s, es, Release(k));
  }

  /** The loop of a commit or abort as steps of the model. */
  lemma {:induction false} ReleaseRun(s: Sys, es: seq<Step>) returns (all: seq<Step>)
    requires Runs(s, es) && After(s, es).fin.Finishing? && After(s, es).fin.id in After(s, es).txs
    ensures Runs(s, all)
    ensures var c := After(s, es);
            After(s, all) == c.(store := if c.fin.commit then ApplyLog(c.store, c.txs[c.fin.id].log, c.fin.left) else c.store,
                                handlers := c.handlers - c.fin.left, held := c.held - c.fin.left, fin := c.fin.(left := {}))
    decreases |After(s, es).fin.left|
  {
    hide Runs, After, ApplyLog;
    var c := After(s, es);
    var left, log := c.fin.left, c.txs[c.fin.id].log;
    if left == {} {
      ApplyNothing(c.store, log);
      assert c.handlers - left == c.handlers && c.held - left == c.held;
      all := es;
    } else {
      var k :| k in left;
      Released(s, es, k);
      all := ReleaseRun(s, es + [Release(k)]);
      ApplyOneByOne(c.store, log, left, k);
      assert c.handlers - {k} - (left - {k}) == c.handlers - left && c.held - {k} - (left - {k}) == c.held - left;
    }
  }

  lemma GrantRun(s: Sys, id: Id, op: Op)
    requires s.fin.Idle? && id in s.txs && s.txs[id].phase == Waiting(op) && op.slot !in s.held
    ensures Runs(s, [Grant(id), Record(id)])
    ensures After(s, [Grant(id), Record(id)]) ==
      s.(held := s.held[op.slot := id], handlers := s.handlers[op.slot := id], txs := s.txs[id := OnFresh(s.txs[id], op, s.store)])
  {
    RunsSnoc(s, [], Grant(id));
    RunsSnoc(s, [Grant(id)], Record(id));
    assert [] + [Grant(id)] == [Grant(id)] && [Grant(id)] + [Record(id)] == [Grant(id), Record(id)];
    var u := After(s, [Grant(id)]);
    assert u.txs[id := OnFresh(u.txs[id], op, s.store)] == s.txs[id := OnFresh(s.txs[id], op, s.store)];
  }

  lemma AbortRun(s: Sys, id: Id) returns (es: seq<Step>)
    requires s.fin.Idle? && id in s.txs && s.txs[id].phase in {Ready, Doomed}
    ensures Runs(s, es)
    ensures After(s, es) == s.(waits := Without(s.waits, id), handlers := s.handlers - s.txs[id].locks,
                               held := s.held - s.txs[id].locks, txs := s.txs - {id})
  {
    RunsSnoc(s, [], AbortBegin(id));
    es := ReleaseRun(s, [] + [AbortBegin(id)]);
    RunsSnoc(s, es, FinishEnd);
    assert Without(Without(s.waits, id), id) == Without(s.waits, id);
    es := es + [FinishEnd];
  }

  lemma CommitRun(s: Sys, id: Id) returns (es: seq<Step>)
    requires s.fin.Idle? && id in s.txs && s.txs[id].phase == Ready
    ensures Runs(s, es)
    ensures var log := s.txs[id].log;
            After(s, es) == s.(store := ApplyLog(s.store, log, log.Keys), waits := Without(s.waits, id),
                               handlers := s.handlers - log.Keys, held := s.held - log.Keys, txs := s.txs - {id},
                               committed := s.committed + [s.txs[id].trace])
  {
    RunsSnoc(s, [], CommitBegin(id));
    es := ReleaseRun(s, [] + [CommitBegin(id)]);
    RunsSnoc(s, es, FinishEnd);
    es := es + [FinishEnd];
  }

  class Server {
    const dependency: array2<bool>
    var transId: nat
    var lockHandlers: map<Slot, Id>
    var transactions: map<Id, Info>
    var store: Store              // through the extent client
    var held: set<Slot>           // slot locks taken through the lock client

    /** dependency[x][y] says that x waits for y. */
    ghost function Edges(): Graph
      reads dependency
    {
      set i, j | 0 <= i < dependency.Length0 && 0 <= j < dependency.Length1 && dependency[i, j] :: (i, j)
    }

    ghost predicate Valid()
      reads this, dependency
    {
      && dependency.Length0 == dependency.Length1 == INODE_NUM && transId <= INODE_NUM
      && (forall i, j :: 0 <= i < INODE_NUM && 0 <= j < INODE_NUM && dependency[i, j] ==> i < transId && j < transId)
      && Acyclic(Edges())
      && (forall k :: k in lockHandlers ==> lockHandlers[k] < transId)
      && (forall id :: id in transactions ==> id < transId && transactions[id].log.Keys == transactions[id].locks)
    }

    ghost function View(): Tables
      reads this, dependency
    {
      Tables(transId, lockHandlers, transactions, store, held, Edges())
    }

    constructor (st: Store)
      ensures Valid() && fresh(dependency) && View() == Tables(0, map[], map[], st, {}, {})
    {
      dependency := new bool[INODE_NUM, INODE_NUM]((i, j) => false);
      transId := 0;
      lockHandlers, transactions, store, held := map[], map[], st, {};
      new;
      assert Edges() == {};
    }

    method Begin() returns (id: Id)
      requires Valid() && transId < INODE_NUM
      modifies this
      ensures Valid() && id == old(transId) && id !in old(transactions) && View() == Begun(old(View()))
    {
      id := transId;
      transId := transId + 1;
      transactions := transactions[id := Info({}, map[])];
    }

    /** `dfs`: true exactly when a path exists.  It keeps no visited set; it ends because the
        graph is acyclic. */
    method Dfs(a: Id, b: Id) returns (found: bool)
      requires Valid() && a < transId
      ensures found <==> Reaches(Edges(), a, b)
      decreases |Below(Edges(), a)|
    {
      if a == b {
        ReachesSelf(Edges(), a);
        return true;
      }
      var i := 0;
      while i < transId
        invariant 0 <= i <= transId
        invariant forall j :: 0 <= j < i && (a, j) in Edges() ==> !Reaches(Edges(), j, b)
      {
        if dependency[a, i] && i != a {
          assert (a, i) in Edges();
          BelowShrinks(Edges(), a, i);
          var flag := Dfs(i, b);
          if flag {
            assert ReachesOver(Edges(), a, i, b);
            ReachesStep(Edges(), a, i, b);
            return true;
          }
        } else if (a, i) in Edges() {
          ReachesSelf(Edges(), a);
        }
        i := i + 1;
      }
      if Reaches(Edges(), a, b) {
        FirstStep(Edges(), a, b);
      }
      return false;
    }

    /** `checkCycle`: refuse a wait that would close a cycle, record any other. */
    method CheckCycle(id: Id, k: Slot) returns (cycle: bool)
      requires Valid() && id < transId
      modifies dependency
      ensures Valid()
      ensures cycle <==> k in lockHandlers && Reaches(old(Edges()), lockHandlers[k], id)
      ensures Edges() == if k in lockHandlers && !cycle then old(Edges()) + {(id, lockHandlers[k])} else old(Edges())
    {
      if k in lockHandlers {
        var id2 := lockHandlers[k];
        cycle := Dfs(id2, id);
        if cycle {
          return;
        }
        ghost var g := Edges();
        AddEdgeAcyclic(g, id, id2);
        dependency[id, id2] := true;
        assert Edges() == g + {(id, id2)};
      }
      return false;
    }

    /** get, set and del up to the slot lock. */
    method Request(id: Id, op: Op) returns (r: Status)
      requires Valid()
      modifies this, dependency
      ensures Valid() && View() == Requested(old(View()), id, op)
      ensures r.TRANSIDINV? <==> id !in old(transactions)
      ensures id in old(transactions) && op.slot in old(transactions)[id].locks ==>
                op.slot in old(transactions)[id].log && r == OK(Outcome(op, old(transactions)[id].log[op.slot]))
      ensures id in old(transactions) && op.slot !in old(transactions)[id].locks ==>
                && (r.ABORT? <==> op.slot in lockHandlers && Reaches(old(Edges()), lockHandlers[op.slot], id))
                && (!r.ABORT? ==> r.MustLock?)
    {
      hide Acyclic, Reaches;
      if id !in transactions {
        return TRANSIDINV;
      }
      var t := transactions[id];
      if op.slot in t.locks {
        var v := Outcome(op, t.log[op.slot]);
        transactions := transactions[id := t.(log := t.log[op.slot := v])];
        return OK(v);
      }
      var cycle := CheckCycle(id, op.slot);
      return if cycle then ABORT else MustLock;
    }

    /** The rest of get, set and del, once the slot lock is held. */
    method Granted(id: Id, op: Op) returns (v: string)
      requires Valid() && id in transactions && op.slot !in transactions[id].locks && op.slot !in held
      modifies this
      ensures Valid() && v == Outcome(op, Read(store, op.slot)) && View() == GrantedTo(old(View()), id, op)
    {
      hide Acyclic;
      held := held + {op.slot};
      lockHandlers := lockHandlers[op.slot := id];
      var t := transactions[id];
      v := Outcome(op, Read(store, op.slot));
      transactions := transactions[id := Info(t.locks + {op.slot}, t.log[op.slot := v])];
    }

    method ClearEdges(id: Id)
      requires Valid() && id < transId
      modifies dependency
      ensures Valid() && Edges() == Without(old(Edges()), id)
    {
      ghost var g := Edges();
      var i := 0;
      while i < transId
        invariant 0 <= i <= transId
        invariant forall a, b :: 0 <= a < INODE_NUM && 0 <= b < INODE_NUM ==>
                    dependency[a, b] == (old(dependency[a, b]) && !(a == id && b < i) && !(b == id && a < i))
      {
        dependency[id, i] := false;
        dependency[i, id] := false;
        i := i + 1;
      }
      assert Edges() == Without(g, id);
      SubgraphAcyclic(Edges(), g);
    }

    /** `release_locks`: what abort does. */
    method ReleaseLocks(id: Id)
      requires Valid() && id in transactions
      modifies this, dependency
      ensures Valid() && View() == Aborted(old(View()), id)
    {
      ClearEdges(id);
      FreeSlots(transactions[id].locks);
      transactions := transactions - {id};
    }

    method FreeSlots(locks: set<Slot>)
      requires Valid()
      modifies this`lockHandlers, this`held
      ensures Valid() && lockHandlers == old(lockHandlers) - locks && held == old(held) - locks
    {
      var left := locks;
      while left != {}
        invariant left <= locks
        invariant lockHandlers - left == old(lockHandlers) - locks && held - left == old(held) - locks
        invariant forall k :: k in lockHandlers ==> lockHandlers[k] < transId
        decreases |left|
      {
        var k :| k in left;
        Shrink(lockHandlers, held, left, k);
        lockHandlers := lockHandlers - {k};
        held := held - {k};
        left := left - {k};
      }
      assert lockHandlers - {} == lockHandlers && held - {} == held;
    }

    /** `transaction_commit`: write and release the logged slots one by one, then forget the
        transaction.  Because the log covers exactly the locked slots, nothing stays locked. */
    method Commit(id: Id) returns (r: Status)
      requires Valid()
      modifies this, dependency
      ensures Valid() && r == if id in old(transactions) then OK("") else TRANSIDINV
      ensures View() == if id in old(transactions) then Committed(old(View()), id) else old(View())
    {
      if id !in transactions {
        return TRANSIDINV;
      }
      WriteBack(id);
      ClearEdges(id);
      transactions := transactions - {id};
      r := OK("");
    }

    method WriteBack(id: Id)
      requires Valid() && id in transactions
      modifies this`store, this`lockHandlers, this`held
      ensures Valid() && Edges() == old(Edges())
      ensures var log := transactions[id].log;
              && store == ApplyLog(old(store), log, log.Keys)
              && lockHandlers == old(lockHandlers) - log.Keys && held == old(held) - log.Keys
    {
      var log := transactions[id].log;
      var left := log.Keys;
      while left != {}
        invariant left <= log.Keys
        invariant ApplyLog(store, log, left) == ApplyLog(old(store), log, log.Keys)
        invariant lockHandlers - left == old(lockHandlers) - log.Keys && held - left == old(held) - log.Keys
        decreases |left|
      {
        var k :| k in left;
        ApplyOneByOne(store, log, left, k);
        WrittenIsApplied(store, log, k);
        store := Written(store, k, log[k]);
        Shrink(lockHandlers, held, left, k);
        lockHandlers := lockHandlers - {k};
        held := held - {k};
        left := left - {k};
      }
      ApplyNothing(store, log);
      assert lockHandlers - {} == lockHandlers && held - {} == held;
    }
  }
}
