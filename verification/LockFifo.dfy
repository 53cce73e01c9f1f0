/** The order in which the lock is handed round: inside a client the threads get it in the order in
    which they entered acquire, and between clients it goes to the least waiting one. */
module LockFifo {
  import opened ClientIds
  import opened LockServer
  import opened LockClient
  import opened LockProtocol
  import opened Options

  function Queue(s: Sys, c: Cid): seq<Thread> { if c in s.clients then s.clients[c].threads else [] }

  predicate Holds(s: Sys, t: Thread) { t in s.pcs && s.pcs[t] == Holding }

  // What one section of thread t adds to the records of client c.

  function Entry(s: Sys, t: Thread, c: Cid): seq<Thread> { if t.cid == c && t !in s.pcs then [t] else [] }

  function Grant(s: Sys, t: Thread, c: Cid): seq<Thread>
    requires CanRun(s, t)
  {
    if t.cid == c && !Holds(s, t) && Holds(Advance(s, t), t) then [t] else []
  }

  function Exit(s: Sys, t: Thread, c: Cid): seq<Thread>
    requires CanRun(s, t)
  {
    if t.cid == c && t in s.pcs && t !in Advance(s, t).pcs then [t] else []
  }

  /** The threads of client c in the order in which they entered acquire. */
  function Entered(s: Sys, es: seq<Thread>, c: Cid): seq<Thread>
    requires Runs(s, es)
    decreases |es|
  {
    if es == [] then [] else Entry(s, es[0], c) + Entered(Advance(s, es[0]), es[1..], c)
  }

  /** In the order in which they got the lock. */
  function Granted(s: Sys, es: seq<Thread>, c: Cid): seq<Thread>
    requires Runs(s, es)
    decreases |es|
  {
    if es == [] then [] else Grant(s, es[0], c) + Granted(Advance(s, es[0]), es[1..], c)
  }

  /** In the order in which they returned from release. */
  function Released(s: Sys, es: seq<Thread>, c: Cid): seq<Thread>
    requires Runs(s, es)
    decreases |es|
  {
    if es == [] then [] else Exit(s, es[0], c) + Released(Advance(s, es[0]), es[1..], c)
  }

  // ------------------------------------------------------------------------- one section

  /** In possession of the lock, or giving it back. */
  predicate Busy(s: Sys, t: Thread) { t in s.pcs && (s.pcs[t].Holding? || s.pcs[t].Rel?) }

  /** A signal wakes a sleeper and does nothing else. */
  lemma SignalKeeps(pcs: map<Thread, Pc>, signal: seq<Thread>, u: Thread)
    ensures var q := Signalled(pcs, signal);
            && (u in q <==> u in pcs)
            && (u in pcs ==> (q[u].Holding? <==> pcs[u].Holding?) && (q[u].Rel? <==> pcs[u].Rel?))
  {}

  /** A section moves its own thread and wakes at most another one. */
  lemma Section(s: Sys, t: Thread) returns (pcs: map<Thread, Pc>, signal: seq<Thread>)
    requires CanRun(s, t)
    ensures Advance(s, t).pcs == Signalled(pcs, signal)
    ensures forall u :: u != t ==> (u in pcs <==> u in s.pcs) && (u in pcs ==> pcs[u] == s.pcs[u])
  {
    var i := s.clients[t.cid];
    if t !in s.pcs { pcs, signal := LocalSection(s, t, Enter(i, t)); }
    else if InRelease(s.pcs[t]) { pcs, signal := ReleaseSection(s, t); }
    else if s.pcs[t].WokenFirst? { pcs, signal := LocalSection(s, t, WakeFirst(i)); }
    else if s.pcs[t].WokenQueued? { pcs, signal := LocalSection(s, t, WakeQueued(i)); }
    else if s.pcs[t].WokenRetry? { pcs, signal := LocalSection(s, t, Again(i)); }
    else if s.pcs[t].AcqReply? { pcs, signal := LocalSection(s, t, OnReply(i, s.pcs[t].granted)); }
    else if s.pcs[t].Holding? { pcs, signal := LocalSection(s, t, ReleaseEnter(i)); }
    else if s.pcs[t].AcqRevoke? && s.pcs[t].ph.RevFly? && s.pcs[t].ph.target in s.clients {
      var x := s.pcs[t].ph.target;
      var o := OnRevoke(s.clients[x]);
      pcs, signal := s.pcs[t := if o.act.CallRelease? then AcqRevoke(s.pcs[t].granted, RevRel(x, RelReq)) else AcqReply(s.pcs[t].granted)], o.signal;
    }
    else { pcs, signal := Advance(s, t).pcs, []; }
  }

  lemma LocalSection(s: Sys, t: Thread, o: Outcome) returns (pcs: map<Thread, Pc>, signal: seq<Thread>)
    ensures pcs == AfterAct(s.pcs, t, o.act) && Local(s, t, o).pcs == Signalled(pcs, signal)
    ensures forall u :: u != t ==> (u in pcs <==> u in s.pcs) && (u in pcs ==> pcs[u] == s.pcs[u])
  {
    hide Signalled;
    pcs, signal := AfterAct(s.pcs, t, o.act), o.signal;
  }

  lemma ReleaseSection(s: Sys, t: Thread) returns (pcs: map<Thread, Pc>, signal: seq<Thread>)
    requires CanRun(s, t) && t in s.pcs && InRelease(s.pcs[t])
    ensures Advance(s, t).pcs == Signalled(pcs, signal)
    ensures forall u :: u != t ==> (u in pcs <==> u in s.pcs) && (u in pcs ==> pcs[u] == s.pcs[u])
  {
    var pc := s.pcs[t];
    if PhaseOf(pc).RelRetry? && PhaseOf(pc).next in s.clients {
      var o := OnRetry(s.clients[PhaseOf(pc).next]);
      pcs, signal := s.pcs[t := WithPhase(pc, RelReply)], o.signal;
    } else if PhaseOf(pc).RelReply? && pc.Rel? {
      pcs, signal := LocalSection(s, t, ReleaseExit(s.clients[t.cid]));
    } else if PhaseOf(pc).RelReply? && pc.ph.target in s.clients {
      var o := RevokeExit(s.clients[pc.ph.target]);
      pcs, signal := s.pcs[t := AcqReply(pc.granted)], o.signal;
    } else {
      pcs, signal := Advance(s, t).pcs, [];
    }
  }

  /** Nobody gets, gives back or leaves the lock in a section of another thread. */
  lemma OnlyOwnSections(s: Sys, t: Thread, u: Thread)
    requires CanRun(s, t) && u != t
    ensures u in Advance(s, t).pcs <==> u in s.pcs
    ensures (Holds(Advance(s, t), u) <==> Holds(s, u)) && (Busy(Advance(s, t), u) <==> Busy(s, u))
  {
    hide Advance, Signalled;
    var pcs, signal := Section(s, t);
    SignalKeeps(pcs, signal, u);
  }

  /** What a thread does in its own section: it gets the lock before it gives it back, and leaves only then. */
  lemma OwnSection(s: Sys, t: Thread)
    requires Inv(s) && CanRun(s, t)
    ensures var s' := Advance(s, t);
            && (Busy(s, t) ==> (t !in s'.pcs || Busy(s', t)) && (Holds(s', t) ==> Holds(s, t)))
            && (!Busy(s, t) ==> t in s'.pcs && (Busy(s', t) <==> Holds(s', t)))
            && (t !in s.pcs && Queue(s, t.cid) != [] ==> !Busy(s', t))
  {
    hide CoreInv, Shape;
    if t in s.pcs { InQueue(s, t); }
  }

  lemma InQueue(s: Sys, t: Thread)
    requires Shape(s) && t in s.pcs && s.pcs[t] != WaitQueued
    ensures Queue(s, t.cid) != [] && Queue(s, t.cid)[0] == t
  {
    FrontOf(s, t);
  }

  /** The next section of t is the end of release. */
  predicate Returns(s: Sys, t: Thread) {
    && t in s.pcs && t.cid in s.clients
    && ((s.pcs[t].Holding? && s.clients[t.cid].msg != REVOKE) || (s.pcs[t].Rel? && s.pcs[t].rel.RelReply?))
  }

  lemma QueueAfter(s: Sys, t: Thread, c: Cid)
    requires Inv(s) && CanRun(s, t)
    ensures var q, r := Queue(s, c), Queue(Advance(s, t), c);
            if t.cid != c then r == q
            else if t !in s.pcs then r == q + [t]
            else if Returns(s, t) then q != [] && r == q[1..] else r == q
  {
    hide CoreInv, Shape, Signalled, AfterAct, ReleaseMoves;
    if t in s.pcs { InQueue(s, t); }
    if t in s.pcs && InRelease(s.pcs[t]) { QueueInRelease(s, t, c); }
  }

  lemma QueueInRelease(s: Sys, t: Thread, c: Cid)
    requires CanRun(s, t) && t in s.pcs && InRelease(s.pcs[t]) && Queue(s, t.cid) != []
    ensures Queue(ReleaseMoves(s, t, s.pcs[t]), c) == if t.cid == c && Returns(s, t) then Queue(s, c)[1..] else Queue(s, c)
  {
    hide Signalled, AfterAct;
  }

  lemma ExitIs(s: Sys, t: Thread)
    requires Inv(s) && CanRun(s, t) && t in s.pcs
    ensures t !in Advance(s, t).pcs <==> Returns(s, t)
  {
    hide CoreInv, Shape;
    InQueue(s, t);
  }

  /** The queue loses what leaves at the front and gains what enters at the back. */
  lemma QueueMoves(s: Sys, t: Thread, c: Cid)
    requires Inv(s) && CanRun(s, t)
    ensures Queue(s, c) + Entry(s, t, c) == Exit(s, t, c) + Queue(Advance(s, t), c)
    ensures Exit(s, t, c) == [] && Entry(s, t, c) == [] ==> Queue(Advance(s, t), c) == Queue(s, c)
    ensures Exit(s, t, c) != [] ==> Queue(s, c) != [] && Queue(Advance(s, t), c) == Queue(s, c)[1..]
  {
    hide Inv, Advance, Returns;
    QueueAfter(s, t, c);
    if t in s.pcs {
      ExitIs(s, t);
      InvQueue(s, t);
    }
  }

  lemma InvQueue(s: Sys, t: Thread)
    requires Inv(s) && t in s.pcs && CanRun(s, t)
    ensures Queue(s, t.cid) != [] && Queue(s, t.cid)[0] == t
  {
    InQueue(s, t);
  }

  /** The front thread of a client, once it has the lock and until it returns from release. */
  function Served(s: Sys, c: Cid): seq<Thread> {
    var q := Queue(s, c);
    if q != [] && q[0] in s.pcs && (s.pcs[q[0]].Holding? || s.pcs[q[0]].Rel?) then [q[0]] else []
  }

  lemma ServedMoves(s: Sys, t: Thread, c: Cid)
    requires Inv(s) && CanRun(s, t)
    ensures Served(s, c) + Grant(s, t, c) == Exit(s, t, c) + Served(Advance(s, t), c)
  {
    hide CoreInv, Advance;
    QueueMoves(s, t, c);
    OwnSection(s, t);
    assert QueueOk(s, c);
    var q := Queue(s, c);
    if q != [] && q[0] != t { OnlyOwnSections(s, t, q[0]); }
    if |q| > 1 && q[1] != t { OnlyOwnSections(s, t, q[1]); }
    if t in s.pcs { InQueue(s, t); }
    if Entry(s, t, c) != [] { assert Queue(Advance(s, t), c) == q + [t]; }
  }

  // --------------------------------------------------------------------------- whole runs

  lemma {:induction false} Balance(s: Sys, es: seq<Thread>, c: Cid)
    requires Inv(s) && Runs(s, es)
    ensures Queue(s, c) + Entered(s, es, c) == Released(s, es, c) + Queue(After(s, es), c)
    ensures Served(s, c) + Granted(s, es, c) == Released(s, es, c) + Served(After(s, es), c)
    decreases |es|
  {
    hide Inv, Advance, Queue, Served, Entry, Grant, Exit;
    if es != [] {
      var t, s' := es[0], Advance(s, es[0]);
      AdvanceInv(s, t);
      QueueMoves(s, t, c);
      ServedMoves(s, t, c);
      Balance(s', es[1..], c);
      Chain(Queue(s, c), Entry(s, t, c), Exit(s, t, c), Queue(s', c), Entered(s', es[1..], c), Released(s', es[1..], c), Queue(After(s, es), c));
      Chain(Served(s, c), Grant(s, t, c), Exit(s, t, c), Served(s', c), Granted(s', es[1..], c), Released(s', es[1..], c), Served(After(s, es), c));
    }
  }

  lemma Chain(q: seq<Thread>, more: seq<Thread>, less: seq<Thread>, r: seq<Thread>, more2: seq<Thread>, less2: seq<Thread>, e: seq<Thread>)
    requires q + more == less + r && r + more2 == less2 + e
    ensures q + (more + more2) == (less + less2) + e
  {
    assert q + (more + more2) == (q + more) + more2;
    assert (less + r) + more2 == less + (r + more2);
  }

  /** In every run the threads of a client get the lock in the order in which they entered acquire, and
      give it back in that order. */
  lemma FirstComeFirstServed(s: Sys, es: seq<Thread>, c: Cid)
    requires Init(s) && Runs(s, es)
    ensures Released(s, es, c) <= Granted(s, es, c) <= Entered(s, es, c)
  {
    hide Inv, Runs, After, Entered, Granted, Released;
    InitInv(s);
    Balance(s, es, c);
    assert Queue(s, c) == [] && Served(s, c) == [];
    var e := After(s, es);
    assert [] + Entered(s, es, c) == Entered(s, es, c) && [] + Granted(s, es, c) == Granted(s, es, c);
    assert Served(e, c) <= Queue(e, c);
  }

  /** A thread with k others ahead of it in its client holds the lock after exactly these have given it
      back, in their order, whoever enters behind it. */
  lemma HoldsAfterThoseAhead(s: Sys, before: seq<Thread>, es: seq<Thread>, t: Thread, k: nat)
    requires Init(s) && Runs(s, before) && Runs(After(s, before), es)
    requires k < |Queue(After(s, before), t.cid)| && Queue(After(s, before), t.cid)[k] == t
    requires t !in Released(After(s, before), es, t.cid)
    ensures Holds(After(After(s, before), es), t) ==> Released(After(s, before), es, t.cid) == Queue(After(s, before), t.cid)[..k]
  {
    hide CoreInv, Runs, After, Entered, Granted, Released;
    InitInv(s);
    RunInv(s, before);
    var u, c := After(s, before), t.cid;
    RunInv(u, es);
    Balance(u, es, c);
    var e, q := After(u, es), Queue(u, c);
    if Holds(e, t) {
      InQueue(e, t);
      var gone := Released(u, es, c);
      var all := q + Entered(u, es, c);
      assert all == gone + Queue(e, c);
      assert all[|gone|] == t && all[k] == t;
      assert QueueOk(u, c);
      if k < |gone| { GoneAt(all, gone, k); }
      assert |gone| == k;
      assert gone == all[..k];
    }
  }

  lemma GoneAt(all: seq<Thread>, gone: seq<Thread>, k: nat)
    requires k < |gone| && gone <= all
    ensures all[k] in gone
  {}

  // ----------------------------------------------------------------------- between clients

  /** Thread t is about to run the server's release handler. */
  predicate AtRelease(s: Sys, t: Thread) { t in s.pcs && InRelease(s.pcs[t]) && PhaseOf(s.pcs[t]).RelReq? }

  /** In every run a release by a client succeeds, and chooses a client that was waiting, such that no
      waiting one is smaller; it alone stops waiting and is told to retry. */
  lemma LeastWaiterIsNext(s: Sys, es: seq<Thread>, t: Thread)
    requires Init(s) && Runs(s, es) && AtRelease(After(s, es), t) && CanRun(After(s, es), t)
    ensures var e := After(s, es);
            var r := Advance(e, t);
            && !r.fault && r.server.stat == RETRYING && r.server.owner == Nobody
            && r.server.retrying in e.server.waiting && (forall v :: v in e.server.waiting ==> Le(r.server.retrying, v))
            && r.server.waiting == e.server.waiting - {r.server.retrying}
            && t in r.pcs && InRelease(r.pcs[t]) && PhaseOf(r.pcs[t]) == RelRetry(r.server.retrying)
  {
    hide Runs, After;
    InitInv(s);
    RunInv(s, es);
    var e := After(s, es);
    AdvanceInv(e, t);
    NoFault(Advance(e, t));
  }

  lemma NoFault(s: Sys)
    requires Inv(s)
    ensures !s.fault
  {}
}
