/** When the two-phase-locking server's transactions mean what get, set and del promise.  The
    log marks a deletion with an ordinary string, so the code and the promise differ exactly
    where a transaction reads back its own deletion, stores that string or keeps it. */
module TwoPhaseMeaning {
  import opened Transactions
  import opened TwoPhase
  import opened Options

  /** No get of a slot whose last own write is a del. */
  ghost predicate NoGetAfterOwnDel(t: Trace) {
    forall i :: 0 <= i < |t| && t[i].Got? ==> !(t[i].slot in Net(t[..i]) && Net(t[..i])[t[i].slot] == Removed)
  }

  /** No slot is left with the marker as its own last value. */
  ghost predicate NoMarkerSet(t: Trace) {
    forall k :: k in Net(t) ==> Net(t)[k] != Wrote(REMOVE)
  }

  /** No slot that is only read holds the marker; commit would take it out. */
  ghost predicate NoMarkerKept(t: Trace) {
    forall i :: 0 <= i < |t| && t[i].Got? && t[i].slot !in Net(t) ==> t[i].value != REMOVE
  }

  /** The value the log holds for slot k. */
  function Logged(s: Store, n: map<Slot, Write>, k: Slot): string {
    if k in n then (match n[k] case Wrote(v) => v case Removed => REMOVE) else Read(s, k)
  }

  lemma {:induction false} LogMeaning(t: Trace, s: Store, k: Slot)
    requires Replay(t, s).Some?
    ensures k in Net(t) ==> k in Replay(t, s).value
    ensures k in Replay(t, s).value ==> Replay(t, s).value[k] == Logged(s, Net(t), k)
  {
    if t != [] {
      LogMeaning(t[..|t| - 1], s, k);
      LogMeaning(t[..|t| - 1], s, t[|t| - 1].slot);
    }
  }

  lemma {:induction false} PrefixReplays(t: Trace, s: Store, i: nat)
    requires Replay(t, s).Some? && i <= |t|
    ensures Replay(t[..i], s).Some?
    decreases |t|
  {
    if i < |t| {
      PrefixReplays(t[..|t| - 1], s, i);
      assert t[..|t| - 1][..i] == t[..i];
    } else {
      assert t[..i] == t;
    }
  }

  lemma GotValue(t: Trace, s: Store, i: nat)
    requires Replay(t, s).Some? && i < |t| && t[i].Got?
    ensures t[i].value == Logged(s, Net(t[..i]), t[i].slot)
  {
    PrefixReplays(t, s, i);
    PrefixReplays(t, s, i + 1);
    assert t[..i + 1][..i] == t[..i];
    LogMeaning(t[..i], s, t[i].slot);
  }

  /** The gets of a transaction run alone are the promised ones exactly when it never reads a
      slot it has deleted. */
  lemma GetsMatchExactly(t: Trace, s: Store)
    requires Replay(t, s).Some?
    ensures GetsMatch(t, s) <==> NoGetAfterOwnDel(t)
  {
    forall i | 0 <= i < |t| && t[i].Got? ensures t[i].value == Logged(s, Net(t[..i]), t[i].slot) {
      GotValue(t, s, i);
    }
  }

  lemma {:induction false} NetGrows(t: Trace, i: nat, k: Slot)
    requires i <= |t| && k in Net(t[..i])
    ensures k in Net(t)
    decreases |t|
  {
    if i < |t| {
      assert t[..|t| - 1][..i] == t[..i];
      NetGrows(t[..|t| - 1], i, k);
    } else {
      assert t[..i] == t;
    }
  }

  /** A slot gets into the log by being read or written. */
  lemma {:induction false} LogKeys(t: Trace, s: Store, k: Slot)
    requires Replay(t, s).Some?
    ensures k in Replay(t, s).value <==> k in Net(t) || exists i :: 0 <= i < |t| && t[i].Got? && t[i].slot == k
  {
    if t != [] {
      var front := t[..|t| - 1];
      LogKeys(front, s, k);
      if i :| 0 <= i < |front| && front[i].Got? && front[i].slot == k { assert t[i] == front[i]; }
      if i :| 0 <= i < |t| && t[i].Got? && t[i].slot == k { assert i < |front| ==> front[i] == t[i]; }
    }
  }

  /** Commit leaves the promised value in slot k unless its last own value, or the value it was read
      with, is the marker. */
  lemma LeftIn(t: Trace, s: Store, k: Slot)
    requires Replay(t, s).Some?
    ensures var log := Replay(t, s).value;
            Read(ApplyLog(s, log, log.Keys), k) == See(s, Net(t), k) <==>
              if k in Net(t) then Net(t)[k] != Wrote(REMOVE) else k in log ==> Read(s, k) != REMOVE
  {
    var log := Replay(t, s).value;
    LogMeaning(t, s, k);
    ReadApplied(s, log, log.Keys, k);
  }

  /** What a transaction commits is the promised store exactly when it neither leaves the marker in
      a slot it wrote nor read it in a slot it did not write. */
  lemma LeavesExactly(t: Trace, s: Store)
    requires Replay(t, s).Some?
    ensures var log := Replay(t, s).value;
            Leaves(t, s, ApplyLog(s, log, log.Keys)) <==> NoMarkerSet(t) && NoMarkerKept(t)
  {
    var log := Replay(t, s).value;
    var s2 := ApplyLog(s, log, log.Keys);
    forall i | 0 <= i < |t| && t[i].Got? && t[i].slot !in Net(t) ensures t[i].value == Read(s, t[i].slot) && t[i].slot in log {
      GotValue(t, s, i);
      LogKeys(t, s, t[i].slot);
      if t[i].slot in Net(t[..i]) { NetGrows(t, i, t[i].slot); }
    }
    forall k ensures Read(s2, k) == See(s, Net(t), k) <==>
      if k in Net(t) then Net(t)[k] != Wrote(REMOVE) else k in log ==> Read(s, k) != REMOVE
    {
      LeftIn(t, s, k);
    }
    forall k | k in log && k !in Net(t) ensures exists i :: 0 <= i < |t| && t[i].Got? && t[i].slot == k { LogKeys(t, s, k); }
    if Leaves(t, s, s2) {
      forall k | k in Net(t) ensures Net(t)[k] != Wrote(REMOVE) { assert Read(s2, k) == See(s, Net(t), k); }
      forall i | 0 <= i < |t| && t[i].Got? && t[i].slot !in Net(t) ensures t[i].value != REMOVE {
        assert Read(s2, t[i].slot) == See(s, Net(t), t[i].slot);
      }
    }
  }

  lemma {:induction false} SerialPrefix(s0: Store, ts: seq<Trace>, i: nat)
    requires Serial(s0, ts).Some? && i < |ts|
    ensures Serial(s0, ts[..i]).Some? && Replay(ts[i], Serial(s0, ts[..i]).value).Some?
    ensures var s := Serial(s0, ts[..i]).value;
            var log := Replay(ts[i], s).value;
            Serial(s0, ts[..i + 1]) == Some(ApplyLog(s, log, log.Keys))
    decreases |ts|
  {
    var front := ts[..|ts| - 1];
    if i < |ts| - 1 {
      SerialPrefix(s0, front, i);
      assert front[..i] == ts[..i] && front[..i + 1] == ts[..i + 1];
    } else {
      assert ts[..i + 1] == ts && ts[..i] == front;
    }
  }

  /** In every run, the i-th committed transaction behaves as get, set and del promise, on the
      store its predecessors left, if and only if it neither reads a slot after deleting it, nor
      leaves the marker string in a slot it wrote, nor read it in a slot it did not write. */
  lemma CommittedMeanWhatTheySay(s0: Store, es: seq<Step>, i: nat)
    requires Runs(Start(s0), es) && i < |After(Start(s0), es).committed|
    ensures var ts := After(Start(s0), es).committed;
            && Serial(s0, ts[..i]).Some? && Serial(s0, ts[..i + 1]).Some?
            && var before, after := Serial(s0, ts[..i]).value, Serial(s0, ts[..i + 1]).value;
               (GetsMatch(ts[i], before) && Leaves(ts[i], before, after)) <==>
                 (NoGetAfterOwnDel(ts[i]) && NoMarkerSet(ts[i]) && NoMarkerKept(ts[i]))
  {
    Serializable(s0, es);
    var ts := After(Start(s0), es).committed;
    SerialPrefix(s0, ts, i);
    var before := Serial(s0, ts[..i]).value;
    GetsMatchExactly(ts[i], before);
    LeavesExactly(ts[i], before);
  }

  /** The failing case, on any store: a get after an own del returns the marker. */
  lemma OwnDeleteReadsMarker(s: Store, k: Slot)
    ensures var t := [Deleted(k), Got(k, REMOVE)]; Replay(t, s).Some? && !GetsMatch(t, s)
  {
    var t := [Deleted(k), Got(k, REMOVE)];
    assert t[..1] == [Deleted(k)] && [Deleted(k)][..0] == [];
    assert Replay([Deleted(k)], s) == Some(map[][k := REMOVE]);
    assert Net(t[..1]) == map[][k := Removed];
    assert See(s, Net(t[..1]), k) == "" && t[1].value == REMOVE;
  }

  /** The other failing cases: a value equal to the marker is not stored, and a slot that already
      holds it is emptied by a transaction that only reads it. */
  lemma MarkerIsLost(s: Store, k: Slot)
    ensures var t := [Put(k, REMOVE)];
            && Replay(t, s).Some?
            && (var log := Replay(t, s).value; Read(ApplyLog(s, log, log.Keys), k) == "" && See(s, Net(t), k) == REMOVE)
    ensures var t := [Got(k, REMOVE)];
            Read(s, k) == REMOVE ==>
              && Replay(t, s).Some?
              && (var log := Replay(t, s).value; Read(ApplyLog(s, log, log.Keys), k) == "" && See(s, Net(t), k) == REMOVE)
  {
    var t, u := [Put(k, REMOVE)], [Got(k, REMOVE)];
    assert t[..0] == [] && u[..0] == [];
    assert Replay(t, s) == Some(map[k := REMOVE]) && Net(t) == map[k := Wrote(REMOVE)];
    assert Net(u) == map[] && (Read(s, k) == REMOVE ==> Replay(u, s) == Some(map[k := REMOVE]));
  }
}
