/** The client half of at-most-once RPC: the list of finished xids, whose front is the
    acknowledgement sent with every request. */
module RpcClient {

  function Above(done: set<nat>, n: nat): set<nat> { set x | x in done && x > n }

  /** The largest n such that n+1, n+2, ... starting after `from` are all done up to n. */
  function PrefixFrom(done: set<nat>, from: nat): (n: nat)
    ensures from <= n && n + 1 !in done
    ensures forall i :: from < i <= n ==> i in done
    decreases |Above(done, from)|
  {
    if from + 1 in done then
      assert Above(done, from) == Above(done, from + 1) + {from + 1};
      PrefixFrom(done, from + 1)
    else from
  }

  /** The largest n such that xids 1..n are all finished. */
  function Prefix(done: set<nat>): (n: nat)
    ensures n + 1 !in done
    ensures forall i :: 1 <= i <= n ==> i in done
  {
    PrefixFrom(done, 0)
  }

  lemma PrefixUnique(done: set<nat>, n: nat)
    requires n + 1 !in done && forall i :: 1 <= i <= n ==> i in done
    ensures n == Prefix(done)
  {
    var p := Prefix(done);
    assert n < p ==> n + 1 in done;
    assert p < n ==> p + 1 in done;
  }

  predicate Sorted(w: seq<nat>) { forall i, j :: 0 <= i < j < |w| ==> w[i] <= w[j] }

  /** The window after exactly the xids in `done` have been reported, each any number of times. */
  ghost predicate WindowOf(w: seq<nat>, done: set<nat>) {
    && w != [] && Sorted(w)
    && w[0] == Prefix(done)
    && (forall x :: x in w ==> x == 0 || x in done)
    && (forall x :: x in done ==> x <= w[0] || x in w)
  }

  /** What the compress loop keeps: the front is reached, perhaps not yet the furthest. */
  ghost predicate Settling(w: seq<nat>, done: set<nat>) {
    && w != [] && Sorted(w)
    && (forall i :: 1 <= i <= w[0] ==> i in done)
    && (forall x :: x in w ==> x == 0 || x in done)
    && (forall x :: x in done ==> x <= w[0] || x in w)
  }

  lemma SettledIsWindow(w: seq<nat>, done: set<nat>)
    requires Settling(w, done) && w[0] + 1 !in w
    ensures WindowOf(w, done)
  {
    PrefixUnique(done, w[0]);
  }

  function InsertAt(w: seq<nat>, it: nat, x: nat): (v: seq<nat>)
    requires it <= |w|
    ensures |v| == |w| + 1 && v[it] == x
    ensures forall i :: 0 <= i < it ==> v[i] == w[i]
    ensures forall i :: it <= i < |w| ==> v[i + 1] == w[i]
  {
    w[..it] + [x] + w[it..]
  }

  lemma InsertMembers(w: seq<nat>, it: nat, x: nat)
    requires it <= |w|
    ensures forall y :: y in InsertAt(w, it, x) <==> y == x || y in w
  {
    var v := InsertAt(w, it, x);
    forall y | y in w ensures y in v {
      var i :| 0 <= i < |w| && w[i] == y;
      assert v[if i < it then i else i + 1] == y;
    }
    forall y | y in v ensures y == x || y in w {
      var i :| 0 <= i < |v| && v[i] == y;
      if i > it { assert w[i - 1] == y; }
    }
  }

  lemma InsertSorted(w: seq<nat>, it: nat, x: nat)
    requires it <= |w| && Sorted(w)
    requires (forall i :: 0 <= i < it ==> w[i] <= x) && (it < |w| ==> x < w[it])
    ensures Sorted(InsertAt(w, it, x))
  {
    var v := InsertAt(w, it, x);
    forall i, j | 0 <= i < j < |v| ensures v[i] <= v[j] {
      var a, b := if i <= it then i else i - 1, if j <= it then j else j - 1;
      assert i != it ==> v[i] == w[a];
      assert j != it ==> v[j] == w[b];
      assert it < |w| && it <= b < |w| ==> w[it] <= w[b];
    }
  }

  lemma InsertSettles(w: seq<nat>, it: nat, xid: nat, done: set<nat>)
    requires WindowOf(w, done) && xid > w[0] && it <= |w|
    requires (forall i :: 0 <= i < it ==> w[i] <= xid) && (it < |w| ==> xid < w[it])
    ensures Settling(InsertAt(w, it, xid), done + {xid})
  {
    InsertMembers(w, it, xid);
    InsertSorted(w, it, xid);
    assert it > 0;
  }

  /** Dropping a front whose successor is still listed forgets nothing. */
  lemma PopKeeps(w: seq<nat>, done: set<nat>)
    requires Settling(w, done) && w[0] + 1 in w
    ensures |w| > 1 && Settling(w[1..], done)
  {
    var i :| 0 <= i < |w| && w[i] == w[0] + 1;
    assert w[1] <= w[i];
    forall x | x in done ensures x <= w[1] || x in w[1..] {
      if x in w {
        var j :| 0 <= j < |w| && w[j] == x;
        if j > 0 { assert w[1..][j - 1] == x; }
      }
    }
  }

  class XidWindow {
    var window: seq<nat>

    constructor ()
      ensures WindowOf(window, {})
    {
      window := [0];
    }

    /** `update_xid_rep`: whatever order and however often xids are reported, the window stays
        sorted and its front is the largest n with 1..n reported. No call has xid 0. */
    method UpdateXidRep(xid: nat, ghost done: set<nat>)
      requires WindowOf(window, done)
      modifies this
      ensures WindowOf(window, if xid == 0 then done else done + {xid})
    {
      if xid <= window[0] {
        assert xid > 0 ==> done + {xid} == done;
        return;
      }
      Insert(xid, done);
      Compress(done + {xid});
    }

    method Insert(xid: nat, ghost done: set<nat>)
      requires WindowOf(window, done) && xid > window[0]
      modifies this
      ensures Settling(window, done + {xid})
    {
      ghost var w := window;
      var it := 0;
      while it < |window| && window[it] <= xid
        invariant 0 <= it <= |window| && window == w
        invariant forall i :: 0 <= i < it ==> w[i] <= xid
      {
        it := it + 1;
      }
      InsertSettles(w, it, xid, done);
      window := InsertAt(window, it, xid);
    }

    /** Pops the front while its successor is under the iterator.  The popped element is
        never the one under the iterator, whose index only shrinks with the list. */
    method Compress(ghost done: set<nat>)
      requires Settling(window, done)
      modifies this
      ensures WindowOf(window, done)
    {
      var it := 1;
      while it < |window|
        invariant 1 <= it <= |window| && Settling(window, done)
        invariant forall i :: 0 <= i < it ==> window[i] != window[0] + 1
        decreases |window| - it, |window|
      {
        ghost var before := window;
        ghost var left := |window| - it;
        while window[0] + 1 == window[it]
          invariant 0 <= it < |window| && |window| - it == left && Settling(window, done)
          invariant window == before
            || (window[it] == before[0] + 1
                && (forall i :: 0 <= i < it ==> window[i] == before[0])
                && (it == 0 || window[0] == before[0]))
          invariant window == before ==> forall i :: 0 <= i < it ==> window[i] != window[0] + 1
          decreases |window|
        {
          assert it != 0;                       // the popped element is not the iterator's
          PopKeeps(window, done);
          window := window[1..];
          it := it - 1;
        }
        it := it + 1;
      }
      SettledIsWindow(window, done);
    }
  }
}
