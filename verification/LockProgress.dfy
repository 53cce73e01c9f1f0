/** The caching lock protocol loses no revoke and no retry, and cannot get stuck: while
    threads wait, some step is enabled or a thread holds the lock, and only boundedly
    many steps can pass before one does. */
module LockProgress {
  import opened LockServer
  import opened LockClient
  import opened LockProtocol
  import opened ClientIds
  import opened Options

  predicate LiveAt(k: Core, c: Cid) {
    c in k.views && k.views[c].front.Some? && LiveRevoke(k.views[c].front.value)
  }

  predicate TokenAt(k: Core, c: Cid) {
    c in k.views && k.views[c].front.Some? && RetryToken(k.views[c].front.value)
  }

  predicate NestedAt(k: Core, d: Cid, c: Cid) {
    d in k.views && k.views[d].front.Some? && Nested(k.views[d].front.value) && k.views[d].front.value.ph.target == c
  }

  /** Client c is releasing, but not by one of its own threads. */
  predicate ReleasedByHandler(k: Core, c: Cid) {
    c in k.views && k.views[c].stat == RELEASING && k.views[c].front in {None, Some(WaitFirst)}
  }

  /** The owner's revoke is under way or memoised. */
  ghost predicate RevokeKept(k: Core) {
    k.server.stat == REVOKING ==>
      || (k.server.owner in k.views && k.views[k.server.owner].msg == REVOKE)
      || exists c :: LiveAt(k, c)
  }

  /** The chosen client's retry is under way, memoised, or already acted on. */
  ghost predicate RetryKept(k: Core) {
    k.server.stat == RETRYING ==>
      || (k.server.retrying in k.views && (k.views[k.server.retrying].msg == RETRY || k.views[k.server.retrying].front == Some(AcqReq)))
      || exists c :: TokenAt(k, c)
  }

  ghost predicate HandlerKept(k: Core, c: Cid) {
    ReleasedByHandler(k, c) ==> exists d :: NestedAt(k, d, c)
  }

  ghost predicate NoLoss(k: Core) {
    && RevokeKept(k) && RetryKept(k)
    && (forall c {:trigger HandlerKept(k, c)} :: HandlerKept(k, c))
  }

  predicate RevokeSeen(k: Core) {
    k.server.stat != REVOKING || (k.server.owner in k.views && k.views[k.server.owner].msg == REVOKE)
  }

  lemma RevokeCarried(k: Core, c: Cid, more: bool, w: Cid)
    requires CoreInv(k) && Runnable(k, c) && LiveAt(k, w)
    ensures var k' := CoreStep(k, c, more); LiveAt(k', w) || LiveAt(k', c) || RevokeSeen(k')
  {
    assert FitsAt(k, c) && CallsAt(k, c) && FitsAt(k, Other(k, c)) && FitsAt(k, k.server.owner);
    assert CallsAt(k, w) && ApartAt(k, w, c);
  }

  lemma RevokeMade(k: Core, c: Cid, more: bool)
    requires CoreInv(k) && Runnable(k, c) && RevokeSeen(k)
    ensures var k' := CoreStep(k, c, more); LiveAt(k', c) || RevokeSeen(k')
  {
    assert FitsAt(k, c) && CallsAt(k, c) && FitsAt(k, Other(k, c)) && FitsAt(k, k.server.owner);
  }

  lemma RevokeKeptStep(k: Core, c: Cid, more: bool)
    requires CoreInv(k) && Runnable(k, c) && RevokeKept(k)
    ensures RevokeKept(CoreStep(k, c, more))
  {
    hide CoreInv, CoreStep, Runnable, LiveAt;
    if w :| LiveAt(k, w) { RevokeCarried(k, c, more, w); } else { RevokeMade(k, c, more); }
  }

  predicate RetrySeen(k: Core) {
    k.server.stat != RETRYING || (k.server.retrying in k.views &&
      (k.views[k.server.retrying].msg == RETRY || k.views[k.server.retrying].front == Some(AcqReq)))
  }

  lemma RetryCarried(k: Core, c: Cid, more: bool, w: Cid)
    requires CoreInv(k) && Runnable(k, c) && TokenAt(k, w)
    ensures var k' := CoreStep(k, c, more); TokenAt(k', w) || TokenAt(k', c) || RetrySeen(k')
  {
    assert FitsAt(k, c) && CallsAt(k, c) && FitsAt(k, Other(k, c)) && FitsAt(k, k.server.retrying);
    assert CallsAt(k, w) && ApartAt(k, w, c);
  }

  lemma RetryMade(k: Core, c: Cid, more: bool)
    requires CoreInv(k) && Runnable(k, c) && RetrySeen(k)
    ensures var k' := CoreStep(k, c, more); TokenAt(k', c) || RetrySeen(k')
  {
    assert FitsAt(k, c) && CallsAt(k, c) && FitsAt(k, Other(k, c)) && FitsAt(k, k.server.retrying);
  }

  lemma RetryKeptStep(k: Core, c: Cid, more: bool)
    requires CoreInv(k) && Runnable(k, c) && RetryKept(k)
    ensures RetryKept(CoreStep(k, c, more))
  {
    hide CoreInv, CoreStep, Runnable, TokenAt;
    if w :| TokenAt(k, w) { RetryCarried(k, c, more, w); } else { RetryMade(k, c, more); }
  }

  /** A release made by a handler keeps its carrier until the reply is processed. */
  lemma CarrierStays(k: Core, c: Cid, more: bool, w: Cid, d: Cid)
    requires CoreInv(k) && Runnable(k, c) && NestedAt(k, w, d)
    requires ReleasedByHandler(CoreStep(k, c, more), d)
    ensures NestedAt(CoreStep(k, c, more), w, d)
  {
    assert CallsAt(k, w) && ApartAt(k, w, c);
    if w == c {
      assert FitsAt(k, c) && CallsAt(k, c);
    } else if k.views[c].front.Some? {
      assert FitsAt(k, w) && FitsAt(k, c) && CallsAt(k, c);
    }
  }

  predicate DeliversRevoke(k: Core, c: Cid) {
    c in k.views && k.views[c].front.Some? && k.views[c].front.value.AcqRevoke? && k.views[c].front.value.ph.RevFly?
  }

  lemma NewCarrier(k: Core, c: Cid, more: bool, d: Cid)
    requires CoreInv(k) && DeliversRevoke(k, c) && !ReleasedByHandler(k, d)
    ensures ReleasedByHandler(CoreStep(k, c, more), d) ==> NestedAt(CoreStep(k, c, more), c, d)
  {
    assert CallsAt(k, c) && FitsAt(k, d);
  }

  lemma NoNewRelease(k: Core, c: Cid, more: bool, d: Cid)
    requires CoreInv(k) && Runnable(k, c) && !DeliversRevoke(k, c) && !ReleasedByHandler(k, d)
    requires k.views[c].front.Some? ==> !InRelease(k.views[c].front.value)
    ensures !ReleasedByHandler(CoreStep(k, c, more), d)
  {
    assert FitsAt(k, c);
  }

  lemma NoNewReleaseByRelease(k: Core, c: Cid, more: bool, d: Cid)
    requires CoreInv(k) && Runnable(k, c) && !ReleasedByHandler(k, d)
    requires k.views[c].front.Some? && InRelease(k.views[c].front.value)
    ensures !ReleasedByHandler(CoreStep(k, c, more), d)
  {
    assert FitsAt(k, c) && CallsAt(k, c);
  }

  lemma NoLossStep(k: Core, c: Cid, more: bool)
    requires CoreInv(k) && NoLoss(k) && Runnable(k, c)
    ensures NoLoss(CoreStep(k, c, more))
  {
    var k' := CoreStep(k, c, more);
    RevokeKeptStep(k, c, more);
    RetryKeptStep(k, c, more);
    forall d ensures HandlerKept(k', d) {
      if ReleasedByHandler(k', d) {
        if ReleasedByHandler(k, d) {
          assert HandlerKept(k, d);
          var w :| NestedAt(k, w, d);
          CarrierStays(k, c, more, w, d);
        } else if DeliversRevoke(k, c) {
          NewCarrier(k, c, more, d);
        } else if k.views[c].front.Some? && InRelease(k.views[c].front.value) {
          NoNewReleaseByRelease(k, c, more, d);
        } else {
          NoNewRelease(k, c, more, d);
        }
      }
    }
  }

  ghost predicate Good(s: Sys) { Inv(s) && NoLoss(CoreOf(s)) }

  lemma AdvanceGood(s: Sys, t: Thread)
    requires Good(s) && CanRun(s, t)
    ensures Good(Advance(s, t))
  {
    AdvanceInv(s, t);
    Projection(s, t);
    if !Joins(s, t) {
      NoLossStep(CoreOf(s), t.cid, |s.clients[t.cid].threads| > 1);
    }
  }

  lemma {:induction false} RunGood(s: Sys, schedule: seq<Thread>)
    requires Good(s) && Runs(s, schedule)
    ensures Good(After(s, schedule))
    decreases |schedule|
  {
    if schedule != [] {
      AdvanceGood(s, schedule[0]);
      RunGood(Advance(s, schedule[0]), schedule[1..]);
    }
  }

  lemma InitGood(s: Sys)
    requires Init(s)
    ensures Good(s)
  {
    InitInv(s);
    forall c ensures HandlerKept(CoreOf(s), c) {}
  }

  lemma CarriedBy(s: Sys, c: Cid) returns (t: Thread)
    requires Shape(s) && c in s.clients && ViewOf(s, c).front.Some?
    ensures t in s.pcs && s.pcs[t] == ViewOf(s, c).front.value
  {
    assert QueueOk(s, c);
    t := s.clients[c].threads[0];
  }

  /** While the server revokes, the revoke is on its way to the owner, or the owner has
      memoised it, or its release is on its way; dually for retry.  A client that is
      releasing has a release RPC under way. */
  lemma NothingLost(s: Sys, schedule: seq<Thread>)
    requires Init(s) && Runs(s, schedule)
    ensures var e := After(s, schedule);
      && (e.server.stat == REVOKING ==>
            && e.server.owner in e.clients
            && (e.clients[e.server.owner].msg == REVOKE
                || exists t :: t in e.pcs && LiveRevoke(e.pcs[t]) && Target(e.pcs[t]) == e.server.owner))
      && (e.server.stat == RETRYING ==>
            && e.server.retrying in e.clients
            && (e.clients[e.server.retrying].msg == RETRY
                || (exists t :: t in e.pcs && t.cid == e.server.retrying && e.pcs[t] == AcqReq)
                || exists t :: t in e.pcs && RetryToken(e.pcs[t]) && PhaseOf(e.pcs[t]).next == e.server.retrying))
      && (forall c :: c in e.clients && e.clients[c].stat == RELEASING ==>
            exists t :: t in e.pcs && InRelease(e.pcs[t]) && Releaser(t, e.pcs[t]) == c)
  {
    InitGood(s);
    RunGood(s, schedule);
    var e := After(s, schedule);
    var k := CoreOf(e);
    if e.server.stat == REVOKING && e.clients[e.server.owner].msg != REVOKE {
      var c :| LiveAt(k, c);
      var t := CarriedBy(e, c);
      assert CallsAt(k, c);
      assert t in e.pcs && LiveRevoke(e.pcs[t]) && Target(e.pcs[t]) == e.server.owner;
    }
    if e.server.stat == RETRYING && e.clients[e.server.retrying].msg != RETRY {
      if k.views[e.server.retrying].front == Some(AcqReq) {
        var t := CarriedBy(e, e.server.retrying);
        assert QueueOk(e, e.server.retrying);
        FrontOf(e, t);
        assert e.clients[e.server.retrying].threads[0].cid == e.server.retrying;
        assert exists t :: t in e.pcs && t.cid == e.server.retrying && e.pcs[t] == AcqReq;
      } else {
        var c :| TokenAt(k, c);
        var t := CarriedBy(e, c);
        assert CallsAt(k, c);
        assert t in e.pcs && RetryToken(e.pcs[t]) && PhaseOf(e.pcs[t]).next == e.server.retrying;
      }
    }
    forall c | c in e.clients && e.clients[c].stat == RELEASING
      ensures exists t :: t in e.pcs && InRelease(e.pcs[t]) && Releaser(t, e.pcs[t]) == c
    {
      assert FitsAt(k, c) && HandlerKept(k, c) && QueueOk(e, c);
      if ReleasedByHandler(k, c) {
        var d :| NestedAt(k, d, c);
        var t := CarriedBy(e, d);
        assert t in e.pcs && InRelease(e.pcs[t]) && Releaser(t, e.pcs[t]) == c;
      } else {
        var t := e.clients[c].threads[0];
        assert t in e.pcs && InRelease(e.pcs[t]) && Releaser(t, e.pcs[t]) == c;
      }
    }
  }

  predicate AwakeAt(k: Core, c: Cid) { c in k.views && k.views[c].front.Some? && !Asleep(k.views[c].front.value) }

  lemma SomeoneAwake(k: Core, c: Cid)
    requires CoreInv(k) && NoLoss(k) && c in k.views && k.views[c].front.Some?
    ensures exists d :: AwakeAt(k, d)
  {
    assert FitsAt(k, c) && HandlerKept(k, c);
    if k.views[c].front.value == WaitFirst {
      var d :| NestedAt(k, d, c);
      assert AwakeAt(k, d);
    } else if k.views[c].front.value == WaitRetry {
      if k.server.stat == REVOKING {
        if w :| LiveAt(k, w) {
          assert AwakeAt(k, w);
        } else {
          assert FitsAt(k, k.server.owner);
          assert AwakeAt(k, k.server.owner);
        }
      } else {
        if w :| TokenAt(k, w) {
          assert AwakeAt(k, w);
        } else {
          assert FitsAt(k, k.server.retrying);
          assert AwakeAt(k, k.server.retrying);
        }
      }
    } else {
      assert AwakeAt(k, c);
    }
  }

  lemma Awake(e: Sys) returns (u: Thread)
    requires Good(e) && e.pcs != map[]
    ensures u in e.pcs && CanRun(e, u)
  {
    var t :| t in e.pcs;
    assert IsQueued(e, t) && QueueOk(e, t.cid);
    SomeoneAwake(CoreOf(e), t.cid);
    var d :| AwakeAt(CoreOf(e), d);
    u := CarriedBy(e, d);
    assert IsQueued(e, u);
  }

  /** In every run, while any thread is inside acquire or release, some thread holds the
      lock or can take the next step of the protocol. */
  lemma NeverStuck(s: Sys, schedule: seq<Thread>)
    requires Init(s) && Runs(s, schedule)
    requires After(s, schedule).pcs != map[]
    ensures exists t :: t in After(s, schedule).pcs && CanRun(After(s, schedule), t)
  {
    InitGood(s);
    RunGood(s, schedule);
    var t := Awake(After(s, schedule));
  }

  // ------------------------------------------------------------ bounded hand-over

  ghost function Total<K>(m: map<K, nat>): nat {
    if m == map[] then 0 else var x :| x in m; m[x] + Total(m - {x})
  }

  lemma {:induction false} TotalWithout<K>(m: map<K, nat>, x: K)
    requires x in m
    ensures Total(m) == m[x] + Total(m - {x})
    decreases |m|
  {
    var y :| y in m && Total(m) == m[y] + Total(m - {y});
    if y != x {
      TotalWithout(m - {y}, x);
      TotalWithout(m - {x}, y);
      assert m - {y} - {x} == m - {x} - {y};
    }
  }

  lemma TotalUpdate<K>(m: map<K, nat>, x: K, n: nat)
    requires x in m
    ensures Total(m[x := n]) + m[x] == Total(m) + n
  {
    TotalWithout(m, x);
    TotalWithout(m[x := n], x);
    assert m[x := n] - {x} == m - {x};
  }

  /** How far a thread is from holding the lock or leaving. */
  function Weight(pc: Pc): nat {
    match pc
    case WaitFirst => 5   case WokenFirst => 5
    case WaitQueued => 5  case WokenQueued => 5
    case WaitRetry => 0   case WokenRetry => 0
    case AcqReq => 4
    case AcqRevoke(_, RevSend(_)) => 3
    case AcqRevoke(_, RevFly(_)) => 2
    case AcqRevoke(_, RevRel(_, rel)) => 1 + RelWeight(rel)
    case AcqReply(_) => 1
    case Holding => 0
    case Rel(rel) => RelWeight(rel)
  }

  function RelWeight(rel: RelPhase): nat {
    match rel case RelReq => 8 case RelRetry(_) => 7 case RelReply => 1
  }

  /** A cached free lock can still be handed on, a memoised retry can still be used. */
  function ClientWeight(i: Info): nat {
    (if i.stat == FREE then 8 else 0) + (if i.msg == RETRY then 5 else 0)
  }

  ghost function ThreadWeights(pcs: map<Thread, Pc>): map<Thread, nat> { map t | t in pcs :: Weight(pcs[t]) }
  ghost function ClientWeights(cs: map<Cid, Info>): map<Cid, nat> { map c | c in cs :: ClientWeight(cs[c]) }

  ghost function Measure(s: Sys): nat {
    Total(ThreadWeights(s.pcs)) + Total(ClientWeights(s.clients))
  }

  lemma ThreadUpdate(pcs: map<Thread, Pc>, t: Thread, pc: Pc)
    requires t in pcs
    ensures Total(ThreadWeights(pcs[t := pc])) + Weight(pcs[t]) == Total(ThreadWeights(pcs)) + Weight(pc)
    ensures Total(ThreadWeights(pcs - {t})) + Weight(pcs[t]) == Total(ThreadWeights(pcs))
  {
    TotalUpdate(ThreadWeights(pcs), t, Weight(pc));
    assert ThreadWeights(pcs[t := pc]) == ThreadWeights(pcs)[t := Weight(pc)];
    TotalWithout(ThreadWeights(pcs), t);
    assert ThreadWeights(pcs - {t}) == ThreadWeights(pcs) - {t};
  }

  lemma ClientUpdate(cs: map<Cid, Info>, c: Cid, i: Info)
    requires c in cs
    ensures Total(ClientWeights(cs[c := i])) + ClientWeight(cs[c]) == Total(ClientWeights(cs)) + ClientWeight(i)
  {
    TotalUpdate(ClientWeights(cs), c, ClientWeight(i));
    assert ClientWeights(cs[c := i]) == ClientWeights(cs)[c := ClientWeight(i)];
  }

  lemma SignalCostsNothing(pcs: map<Thread, Pc>, signal: seq<Thread>)
    ensures Total(ThreadWeights(Signalled(pcs, signal))) == Total(ThreadWeights(pcs))
  {
    if signal != [] && signal[0] in pcs {
      var t := signal[0];
      var pcs' := Signalled(pcs, signal);
      ThreadUpdate(pcs, t, pcs'[t]);
      assert pcs' == pcs[t := pcs'[t]];
    }
  }

  lemma RemoteDrops(s: Sys, c: Cid, o: Outcome, t: Thread, pc: Pc)
    requires c in s.clients && t in s.pcs
    requires Weight(pc) + ClientWeight(o.info) < Weight(s.pcs[t]) + ClientWeight(s.clients[c])
    ensures Measure(Remote(s, c, o, t, pc)) < Measure(s)
  {
    ThreadUpdate(s.pcs, t, pc);
    ClientUpdate(s.clients, c, o.info);
    SignalCostsNothing(s.pcs[t := pc], o.signal);
  }

  lemma LocalDrops(s: Sys, t: Thread, o: Outcome)
    requires t.cid in s.clients && t in s.pcs && o.act != Fault
    requires var pcs := AfterAct(s.pcs, t, o.act);
             (if t in pcs then Weight(pcs[t]) else 0) + ClientWeight(o.info) < Weight(s.pcs[t]) + ClientWeight(s.clients[t.cid])
    ensures Measure(Local(s, t, o)) < Measure(s)
  {
    var pcs := AfterAct(s.pcs, t, o.act);
    ThreadUpdate(s.pcs, t, if t in pcs then pcs[t] else s.pcs[t]);
    ClientUpdate(s.clients, t.cid, o.info);
    SignalCostsNothing(pcs, o.signal);
  }

  /** A step of the protocol itself: not a new acquire, not a release by the holder. */
  predicate Internal(s: Sys, t: Thread) { t in s.pcs && CanRun(s, t) && !s.pcs[t].Holding? }

  lemma MeasureDrops(s: Sys, t: Thread)
    requires Inv(s) && Internal(s, t)
    ensures Measure(Advance(s, t)) < Measure(s)
  {
    AdvanceInv(s, t);
    FrontOf(s, t);
    assert FitsAt(CoreOf(s), t.cid);
    var pc := s.pcs[t];
    if InRelease(pc) { ReleaseDrops(s, t); }
    else if pc.AcqReq? || pc.AcqRevoke? { CallDrops(s, t); }
    else { ClientStepDrops(s, t); }
  }

  lemma ClientStepDrops(s: Sys, t: Thread)
    requires Internal(s, t) && !Advance(s, t).fault && t.cid in s.clients
    requires s.pcs[t].WokenFirst? || s.pcs[t].WokenQueued? || s.pcs[t].WokenRetry? || s.pcs[t].AcqReply?
    requires s.pcs[t].WokenRetry? ==> s.clients[t.cid].msg == RETRY
    requires s.pcs[t] == AcqReply(false) ==> s.clients[t.cid].msg != REVOKE
    ensures Measure(Advance(s, t)) < Measure(s)
  {
    var i := s.clients[t.cid];
    match s.pcs[t] {
      case WokenFirst => LocalDrops(s, t, WakeFirst(i));
      case WokenQueued => LocalDrops(s, t, WakeQueued(i));
      case WokenRetry => LocalDrops(s, t, Again(i));
      case AcqReply(g) => LocalDrops(s, t, OnReply(i, g));
    }
  }

  lemma CallDrops(s: Sys, t: Thread)
    requires Internal(s, t) && !Advance(s, t).fault
    requires s.pcs[t].AcqReq? || (s.pcs[t].AcqRevoke? && !s.pcs[t].ph.RevRel?)
    ensures Measure(Advance(s, t)) < Measure(s)
  {
    var pc := s.pcs[t];
    if pc.AcqRevoke? && pc.ph.RevFly? {
      var x := pc.ph.target;
      var o := OnRevoke(s.clients[x]);
      RemoteDrops(s, x, o, t, if o.act.CallRelease? then AcqRevoke(pc.granted, RevRel(x, RelReq)) else AcqReply(pc.granted));
    } else {
      ThreadUpdate(s.pcs, t, Advance(s, t).pcs[t]);
    }
  }

  lemma ReleaseDrops(s: Sys, t: Thread)
    requires t in s.pcs && InRelease(s.pcs[t]) && CanRun(s, t) && !Advance(s, t).fault
    ensures Measure(Advance(s, t)) < Measure(s)
  {
    var pc := s.pcs[t];
    match PhaseOf(pc) {
      case RelReq => ThreadUpdate(s.pcs, t, Advance(s, t).pcs[t]);
      case RelRetry(n) => RemoteDrops(s, n, OnRetry(s.clients[n]), t, WithPhase(pc, RelReply));
      case RelReply =>
        if pc.Rel? { LocalDrops(s, t, ReleaseExit(s.clients[t.cid])); }
        else { RemoteDrops(s, pc.ph.target, RevokeExit(s.clients[pc.ph.target]), t, AcqReply(pc.granted)); }
    }
  }

  predicate AllInternal(s: Sys, schedule: seq<Thread>)
    requires Runs(s, schedule)
    decreases |schedule|
  {
    schedule == [] || (Internal(s, schedule[0]) && AllInternal(Advance(s, schedule[0]), schedule[1..]))
  }

  lemma {:induction false} InternalRunsAreBounded(s: Sys, schedule: seq<Thread>)
    requires Inv(s) && Runs(s, schedule) && AllInternal(s, schedule)
    ensures |schedule| + Measure(After(s, schedule)) <= Measure(s)
    decreases |schedule|
  {
    if schedule != [] {
      AdvanceInv(s, schedule[0]);
      MeasureDrops(s, schedule[0]);
      InternalRunsAreBounded(Advance(s, schedule[0]), schedule[1..]);
    }
  }

  /** Without new acquires and releases the protocol takes at most Measure many steps,
      and when it can take no more, nobody waits or some thread holds the lock. */
  lemma HandOver(s: Sys, before: seq<Thread>, quiet: seq<Thread>)
    requires Init(s) && Runs(s, before)
    requires Runs(After(s, before), quiet) && AllInternal(After(s, before), quiet)
    ensures |quiet| <= Measure(After(s, before))
    ensures var e := After(After(s, before), quiet);
            (forall t :: !Internal(e, t)) && e.pcs != map[] ==> exists t :: t in e.pcs && e.pcs[t].Holding?
  {
    InitGood(s);
    RunGood(s, before);
    InternalRunsAreBounded(After(s, before), quiet);
    RunGood(After(s, before), quiet);
    var e := After(After(s, before), quiet);
    if (forall t :: !Internal(e, t)) && e.pcs != map[] {
      var t := Awake(e);
      assert !Internal(e, t);
    }
  }
}
