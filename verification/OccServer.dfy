/** The optimistic server's tables and the code that updates them, one request at a time. Every
    request is a run of the interleaved model: `Shows` ties the tables to its states. */
module OccServer {
  import opened Transactions
  import opened Occ

  datatype Info = Info(readLog: map<Slot, string>, writeLog: map<Slot, string>)
  datatype Status = TRANSIDINV | ABORT | OK

  lemma {:induction false} RunsSnoc(s: Sys, es: seq<Step>, e: Step)
    requires Runs(s, es) && Enabled(After(s, es), e)
    ensures Runs(s, es + [e]) && After(s, es + [e]) == Apply(After(s, es), e)
    decreases |es|
  {
    if es == [] {
      assert (es + [e])[1..] == [];
    } else {
      assert (es + [e])[1..] == es[1..] + [e];
      RunsSnoc(Apply(s, es[0]), es[1..], e);
    }
  }

  class Server {
    var transId: nat
    var transactions: map<Id, Info>
    var store: Store              // through the extent client

    ghost predicate Valid()
      reads this
    {
      forall id :: id in transactions ==> id < transId
    }

    /** The tables are those of s. */
    ghost predicate Tables(s: Sys)
      reads this
    {
      && store == s.store && transId == s.next && transactions.Keys == s.txs.Keys
      && forall id :: id in transactions ==> transactions[id] == Info(s.txs[id].readLog, s.txs[id].writeLog)
    }

    /** And nobody is committing. */
    ghost predicate Shows(s: Sys)
      reads this
    {
      Tables(s) && s.commit.Idle?
    }

    constructor (st: Store)
      ensures Valid() && Shows(Start(st))
    {
      transId, transactions, store := 0, map[], st;
    }

    method Begin(ghost s: Sys) returns (id: Id)
      requires Valid() && Shows(s)
      modifies this
      ensures Valid() && id !in old(transactions) && store == old(store)
      ensures transactions == old(transactions)[id := Info(map[], map[])]
      ensures Shows(Apply(s, Step.Begin)) && id == s.next
    {
      id := transId;
      transId := transId + 1;
      transactions := transactions[id := Info(map[], map[])];
    }

    /** A get is refused exactly when the slot was read before, not written, and has changed. */
    method Get(id: Id, k: Slot, ghost s: Sys) returns (r: Status, v: string)
      requires Valid() && Shows(s)
      modifies this
      ensures Valid() && store == old(store)
      ensures r == TRANSIDINV <==> id !in old(transactions)
      ensures r == TRANSIDINV ==> transactions == old(transactions)
      ensures id in old(transactions) ==>
                var t := old(transactions)[id];
                && (r == ABORT <==> k !in t.writeLog && k in t.readLog && t.readLog[k] != Read(store, k))
                && (r == ABORT ==> transactions == old(transactions) - {id})
                && (r == OK ==> v == if k in t.writeLog then t.writeLog[k] else Read(store, k))
                && (r == OK ==> transactions == old(transactions)[id :=
                      if k in t.writeLog then t else t.(readLog := t.readLog[k := Read(store, k)])])
      ensures id in s.txs ==> Shows(Apply(s, Step.Get(id, k)))
    {
      v := "";
      if id !in transactions {
        return TRANSIDINV, v;
      }
      var t := transactions[id];
      if k in t.writeLog {
        v := t.writeLog[k];
        assert transactions[id := t] == transactions;
      } else if k in t.readLog {
        v := Read(store, k);
        if v != t.readLog[k] {
          transactions := transactions - {id};
          return ABORT, v;
        }
        assert t.readLog[k := v] == t.readLog && transactions[id := t] == transactions;
      } else {
        v := Read(store, k);
        transactions := transactions[id := t.(readLog := t.readLog[k := v])];
      }
      r := OK;
    }

    /** set, and del with the empty string. */
    method Set(id: Id, k: Slot, v: string, ghost s: Sys) returns (r: Status)
      requires Valid() && Shows(s)
      modifies this
      ensures Valid() && store == old(store)
      ensures r == if id in old(transactions) then OK else TRANSIDINV
      ensures transactions == if id in old(transactions)
                then old(transactions)[id := old(transactions)[id].(writeLog := old(transactions)[id].writeLog[k := v])]
                else old(transactions)
      ensures id in s.txs ==> Shows(Apply(s, Step.Set(id, k, v))) && (v == "" ==> Shows(Apply(s, Step.Del(id, k))))
    {
      if id !in transactions {
        return TRANSIDINV;
      }
      var t := transactions[id];
      transactions := transactions[id := t.(writeLog := t.writeLog[k := v])];
      r := OK;
    }

    method Abort(id: Id, ghost s: Sys) returns (r: Status)
      requires Valid() && Shows(s)
      modifies this
      ensures Valid() && store == old(store) && transactions == old(transactions) - {id}
      ensures r == if id in old(transactions) then OK else TRANSIDINV
      ensures id in s.txs ==> Shows(Apply(s, Step.Abort(id)))
    {
      if id !in transactions {
        assert transactions - {id} == transactions;
        return TRANSIDINV;
      }
      transactions := transactions - {id};
      r := OK;
    }

    /** Whether every logged read still has its value: the validation loop, a run of comparisons. */
    method Validate(id: Id, log: map<Slot, string>, ghost s: Sys, ghost before: seq<Step>) returns (same: bool, ghost es: seq<Step>)
      requires Runs(s, before) && After(s, before).commit == Validating(id, log.Keys) && store == After(s, before).store
      requires id in After(s, before).txs && After(s, before).txs[id].readLog == log
      ensures same <==> forall k :: k in log ==> Read(store, k) == log[k]
      ensures Runs(s, es)
      ensures After(s, es) == if same then After(s, before).(commit := Validating(id, {}))
                              else Dropped(After(s, before), id, Conflict).(commit := Idle)
    {
      var left := log.Keys;
      es := before;
      while left != {}
        invariant left <= log.Keys
        invariant forall k :: k in log && k !in left ==> Read(store, k) == log[k]
        invariant Runs(s, es) && After(s, es) == After(s, before).(commit := Validating(id, left))
        decreases |left|
      {
        var k :| k in left;
        RunsSnoc(s, es, Step.Validate(k));
        es := es + [Step.Validate(k)];
        if Read(store, k) != log[k] {
          return false, es;
        }
        left := left - {k};
      }
      return true, es;
    }

    /** Commits exactly when all reads are still current; an abort leaves the store alone. Either way
        it is a run of the commit steps of the model. */
    method Commit(id: Id, ghost s: Sys) returns (r: Status, ghost es: seq<Step>)
      requires Valid() && Shows(s)
      modifies this
      ensures Valid() && transactions == old(transactions) - {id}
      ensures r == TRANSIDINV <==> id !in old(transactions)
      ensures r != OK ==> store == old(store)
      ensures id in old(transactions) ==>
                var t := old(transactions)[id];
                && (r == OK <==> forall k :: k in t.readLog ==> Read(old(store), k) == t.readLog[k])
                && (r == OK ==> store == Pending(old(store), t.writeLog, t.writeLog.Keys))
      ensures Runs(s, es) && Shows(After(s, es))
      ensures id in s.txs ==> id in After(s, es).ended && After(s, es).ended[id] == if r == OK then Committed else Conflict
    {
      es := [];
      if id !in transactions {
        assert transactions - {id} == transactions;
        return TRANSIDINV, es;
      }
      var t := transactions[id];
      RunsSnoc(s, es, CommitBegin(id));
      es := es + [CommitBegin(id)];
      var same;
      same, es := Validate(id, t.readLog, s, es);
      transactions := transactions - {id};
      if !same {
        return ABORT, es;
      }
      RunsSnoc(s, es, ValidateEnd);
      es := WriteBack(id, t.writeLog, s, es + [ValidateEnd]);
      RunsSnoc(s, es, CommitEnd);
      es := es + [CommitEnd];
      r := OK;
    }

    method WriteBack(id: Id, log: map<Slot, string>, ghost s: Sys, ghost before: seq<Step>) returns (ghost es: seq<Step>)
      requires Runs(s, before) && After(s, before).commit == Writing(id, log.Keys) && store == After(s, before).store
      requires id in After(s, before).txs && After(s, before).txs[id].writeLog == log
      modifies this`store
      ensures store == Pending(old(store), log, log.Keys)
      ensures Runs(s, es) && After(s, es) == After(s, before).(commit := Writing(id, {}), store := store)
    {
      var left := log.Keys;
      es := before;
      while left != {}
        invariant left <= log.Keys
        invariant Pending(store, log, left) == Pending(old(store), log, log.Keys)
        invariant Runs(s, es) && After(s, es) == After(s, before).(commit := Writing(id, left), store := store)
        decreases |left|
      {
        var k :| k in left;
        PendingOne(store, log, left, k);
        RunsSnoc(s, es, WriteSlot(k));
        es := es + [WriteSlot(k)];
        store := store[k := log[k]];
        left := left - {k};
      }
      PendingNone(store, log);
    }
  }
}
