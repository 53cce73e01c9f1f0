/** Any number of caching lock clients and threads against one lock server, for one
    lock.  A run is a schedule: a sequence of threads, each taking its next atomic
    section.  A thread inside an RPC carries the whole nested call with it, so a
    revoke may overtake an OK reply and a retry may overtake a RETRY reply. */
module LockProtocol {
  import opened LockServer
  import opened LockClient
  import opened ClientIds
  import opened Options

  /** Where a release RPC is: request under way, server done and `retry` to be handled
      by the next client, or reply under way. */
  datatype RelPhase = RelReq | RelRetry(next: Cid) | RelReply

  /** Where a revoke made by the server's acquire handler is: `owner` not read again
      yet, call under way, or the target's handler inside its own release RPC. */
  datatype RevPhase = RevSend(intended: Cid) | RevFly(target: Cid) | RevRel(target: Cid, rel: RelPhase)

  datatype Pc =
    | WaitFirst | WaitQueued | WaitRetry            // asleep on the condition variable
    | WokenFirst | WokenQueued | WokenRetry         // signalled, wants the mutex
    | AcqReq                                        // acquire request under way
    | AcqRevoke(granted: bool, ph: RevPhase)        // acquire handler inside revoke
    | AcqReply(granted: bool)                       // acquire reply under way
    | Holding                                       // between acquire and release
    | Rel(rel: RelPhase)                            // inside release's RPC

  /** Threads outside acquire/release have no entry in `pcs`.  `fault` records a failed
      VERIFY or assert, an IOERR return, or front() of an empty list. */
  datatype Sys = Sys(server: Lock, clients: map<Cid, Info>, pcs: map<Thread, Pc>, fault: bool)

  ghost predicate Init(s: Sys) {
    && Nobody !in s.clients
    && s.server == Fresh
    && (forall c :: c in s.clients ==> s.clients[c] == Unknown)
    && s.pcs == map[] && !s.fault
  }

  // ---------------------------------------------------------------- transitions

  function Signalled(pcs: map<Thread, Pc>, signal: seq<Thread>): map<Thread, Pc> {
    if signal == [] || signal[0] !in pcs then pcs
    else match pcs[signal[0]]
      case WaitFirst => pcs[signal[0] := WokenFirst]
      case WaitQueued => pcs[signal[0] := WokenQueued]
      case WaitRetry => pcs[signal[0] := WokenRetry]
      case _ => pcs                                  // nobody waits: the signal is lost
  }

  function AfterAct(pcs: map<Thread, Pc>, t: Thread, act: Act): map<Thread, Pc> {
    match act
    case Hold => pcs[t := Holding]
    case CallAcquire => pcs[t := AcqReq]
    case CallRelease => pcs[t := Rel(RelReq)]
    case SleepFirst => pcs[t := WaitFirst]
    case SleepQueued => pcs[t := WaitQueued]
    case SleepRetry => pcs[t := WaitRetry]
    case Return => pcs - {t}
    case Fault => pcs
  }

  /** Thread t runs a section of its own client. */
  function Local(s: Sys, t: Thread, o: Outcome): Sys {
    Sys(s.server, s.clients[t.cid := o.info],
        Signalled(AfterAct(s.pcs, t, o.act), o.signal), s.fault || o.act.Fault?)
  }

  /** A handler called on behalf of thread t runs a section of client c. */
  function Remote(s: Sys, c: Cid, o: Outcome, t: Thread, pc: Pc): Sys {
    Sys(s.server, s.clients[c := o.info],
        Signalled(s.pcs[t := pc], o.signal), s.fault || o.act.Fault?)
  }

  function Faulted(s: Sys): Sys { s.(fault := true) }

  predicate InRelease(pc: Pc) { pc.Rel? || (pc.AcqRevoke? && pc.ph.RevRel?) }

  function PhaseOf(pc: Pc): RelPhase
    requires InRelease(pc)
  {
    if pc.Rel? then pc.rel else pc.ph.rel
  }

  function WithPhase(pc: Pc, rel: RelPhase): Pc
    requires InRelease(pc)
  {
    if pc.Rel? then Rel(rel) else AcqRevoke(pc.granted, RevRel(pc.ph.target, rel))
  }

  function Releaser(t: Thread, pc: Pc): Cid
    requires InRelease(pc)
  {
    if pc.Rel? then t.cid else pc.ph.target
  }

  predicate Asleep(pc: Pc) { pc.WaitFirst? || pc.WaitQueued? || pc.WaitRetry? }

  predicate CanRun(s: Sys, t: Thread) {
    t.cid in s.clients && (t in s.pcs ==> !Asleep(s.pcs[t]))
  }

  function ServerAcquires(s: Sys, t: Thread): Sys {
    match GrantStep(s.server, t.cid)
    case AcquireFault => Faulted(s)
    case Acquired(l, g, nested) =>
      s.(server := l,
         pcs := s.pcs[t := match nested
                           case NoCall => AcqReply(g)
                           case RevokeOwner => AcqRevoke(g, RevSend(s.server.owner))
                           case RevokeGranted => AcqRevoke(g, RevFly(t.cid))])
  }

  function DeliverRevoke(s: Sys, t: Thread, g: bool, x: Cid): Sys {
    if x !in s.clients then Faulted(s)
    else
      var o := OnRevoke(s.clients[x]);
      Remote(s, x, o, t, if o.act.CallRelease? then AcqRevoke(g, RevRel(x, RelReq)) else AcqReply(g))
  }

  /** The release RPC of pc moves one phase on. */
  function ReleaseMoves(s: Sys, t: Thread, pc: Pc): Sys
    requires t.cid in s.clients && InRelease(pc)
  {
    match PhaseOf(pc)
    case RelReq => (
      match ReleaseStep(s.server, Releaser(t, pc))
      case ReleaseFault => Faulted(s)
      case Released(l, next) => s.(server := l, pcs := s.pcs[t := WithPhase(pc, RelRetry(next))]))
    case RelRetry(n) =>
      if n !in s.clients then Faulted(s)
      else Remote(s, n, OnRetry(s.clients[n]), t, WithPhase(pc, RelReply))
    case RelReply =>
      if pc.Rel? then Local(s, t, ReleaseExit(s.clients[t.cid]))
      else if pc.ph.target !in s.clients then Faulted(s)
      else Remote(s, pc.ph.target, RevokeExit(s.clients[pc.ph.target]), t, AcqReply(pc.granted))
  }

  /** The next atomic section of thread t. */
  function Advance(s: Sys, t: Thread): Sys
    requires CanRun(s, t)
  {
    var i := s.clients[t.cid];
    if t !in s.pcs then Local(s, t, Enter(i, t))
    else if InRelease(s.pcs[t]) then ReleaseMoves(s, t, s.pcs[t])
    else match s.pcs[t]
      case WokenFirst => Local(s, t, WakeFirst(i))
      case WokenQueued => Local(s, t, WakeQueued(i))
      case WokenRetry => Local(s, t, Again(i))
      case AcqReq => ServerAcquires(s, t)
      case AcqRevoke(g, RevSend(_)) => s.(pcs := s.pcs[t := AcqRevoke(g, RevFly(s.server.owner))])
      case AcqRevoke(g, RevFly(x)) => DeliverRevoke(s, t, g, x)
      case AcqReply(g) => Local(s, t, OnReply(i, g))
      case Holding => Local(s, t, ReleaseEnter(i))
      case _ => s                                    // asleep: excluded by CanRun
  }

  /** A schedule runs from s when every thread in it can take its turn. */
  predicate Runs(s: Sys, schedule: seq<Thread>)
    decreases |schedule|
  {
    schedule == [] || (CanRun(s, schedule[0]) && Runs(Advance(s, schedule[0]), schedule[1..]))
  }

  function After(s: Sys, schedule: seq<Thread>): Sys
    requires Runs(s, schedule)
    decreases |schedule|
  {
    if schedule == [] then s else After(Advance(s, schedule[0]), schedule[1..])
  }

  // ------------------------------------------------------- queues and their fronts

  ghost predicate QueueOk(s: Sys, c: Cid) {
    c in s.clients ==>
    var q := s.clients[c].threads;
    && (forall i :: 0 <= i < |q| ==> q[i].cid == c && q[i] in s.pcs)
    && (forall i :: 0 < i < |q| ==> s.pcs[q[i]] == WaitQueued)
    && (forall i, j :: 0 <= i < j < |q| ==> q[i] != q[j])
  }

  ghost predicate IsQueued(s: Sys, t: Thread) {
    t in s.pcs ==> t.cid in s.clients && t in s.clients[t.cid].threads
  }

  /** Exactly the threads inside acquire/release are queued, each once, at their own
      client, and all but the front ones sleep in the queue. */
  ghost predicate Shape(s: Sys) {
    && (forall c {:trigger QueueOk(s, c)} :: QueueOk(s, c))
    && (forall t {:trigger IsQueued(s, t)} :: IsQueued(s, t))
  }

  /** A client seen through its front thread; `front` is None when no thread is queued. */
  datatype View = View(stat: State, msg: Msg, front: Option<Pc>)

  function ViewOf(s: Sys, c: Cid): View
    requires c in s.clients
  {
    var i := s.clients[c];
    View(i.stat, i.msg, if i.threads == [] || i.threads[0] !in s.pcs then None else Some(s.pcs[i.threads[0]]))
  }

  function Views(s: Sys): map<Cid, View> {
    map c | c in s.clients :: ViewOf(s, c)
  }

  lemma FrontOf(s: Sys, t: Thread)
    requires Shape(s) && t in s.pcs && s.pcs[t] != WaitQueued
    ensures t.cid in s.clients && s.clients[t.cid].threads != []
    ensures s.clients[t.cid].threads[0] == t && Views(s)[t.cid].front == Some(s.pcs[t])
  {
    assert QueueOk(s, t.cid) && IsQueued(s, t);
    var q := s.clients[t.cid].threads;
    var i :| 0 <= i < |q| && q[i] == t;
    assert i == 0;
  }

  // ------------------------------------------------- the protocol on front threads

  /** The system with only the front threads kept. */
  datatype Core = Core(server: Lock, views: map<Cid, View>, fault: bool)

  function CoreOf(s: Sys): Core { Core(s.server, Views(s), s.fault) }

  function Put(k: Core, c: Cid, stat: State, msg: Msg, front: Option<Pc>): Core {
    k.(views := k.views[c := View(stat, msg, front)])
  }

  function Move(k: Core, c: Cid, pc: Pc): Core
    requires c in k.views
  {
    k.(views := k.views[c := k.views[c].(front := Some(pc))])
  }

  function Roused(front: Option<Pc>): Option<Pc> {
    match front
    case Some(WaitFirst) => Some(WokenFirst)
    case Some(WaitQueued) => Some(WokenQueued)
    case Some(WaitRetry) => Some(WokenRetry)
    case _ => front
  }

  function NextFront(more: bool): Option<Pc> { if more then Some(WokenQueued) else None }

  function CoreAcquires(k: Core, c: Cid): Core
    requires c in k.views
  {
    match GrantStep(k.server, c)
    case AcquireFault => k.(fault := true)
    case Acquired(l, g, nested) =>
      Move(k, c, match nested
                 case NoCall => AcqReply(g)
                 case RevokeOwner => AcqRevoke(g, RevSend(k.server.owner))
                 case RevokeGranted => AcqRevoke(g, RevFly(c))).(server := l)
  }

  function CoreRevokes(k: Core, c: Cid, g: bool, x: Cid): Core
    requires c in k.views
  {
    if x !in k.views then k.(fault := true)
    else if k.views[x].stat == FREE then
      Move(Put(k, x, RELEASING, k.views[x].msg, k.views[x].front), c, AcqRevoke(g, RevRel(x, RelReq)))
    else Move(Put(k, x, k.views[x].stat, REVOKE, k.views[x].front), c, AcqReply(g))
  }

  function CoreReleases(k: Core, c: Cid, pc: Pc, more: bool): Core
    requires c in k.views && InRelease(pc)
  {
    match PhaseOf(pc)
    case RelReq => (
      match ReleaseStep(k.server, if pc.Rel? then c else pc.ph.target)
      case ReleaseFault => k.(fault := true)
      case Released(l, next) => Move(k, c, WithPhase(pc, RelRetry(next))).(server := l))
    case RelRetry(n) =>
      if n !in k.views then k.(fault := true)
      else
        var j := Move(k, c, WithPhase(pc, RelReply));
        Put(j, n, j.views[n].stat, RETRY, Roused(j.views[n].front)).(fault := k.fault || j.views[n].front.None?)
    case RelReply =>
      if pc.Rel? then Put(k, c, Absent, EMPTY, NextFront(more))
      else if pc.ph.target !in k.views then k.(fault := true)
      else
        var x, j := pc.ph.target, Move(k, c, AcqReply(pc.granted));
        Put(j, x, Absent, j.views[x].msg, Roused(j.views[x].front))
  }

  /** The step of client c's front thread; `more` when other threads queue behind it. */
  function CoreStep(k: Core, c: Cid, more: bool): Core
    requires c in k.views
  {
    var v := k.views[c];
    if v.front.None? then
      match v.stat
      case FREE => Put(k, c, HELD, v.msg, Some(Holding))
      case Absent => Put(k, c, ACQUIRING, v.msg, Some(AcqReq))
      case _ => Move(k, c, WaitFirst)
    else if InRelease(v.front.value) then CoreReleases(k, c, v.front.value, more)
    else match v.front.value
      case WokenFirst => Put(k, c, ACQUIRING, v.msg, Some(AcqReq))
      case WokenQueued => (
        match v.stat
        case FREE => Put(k, c, HELD, v.msg, Some(Holding))
        case HELD => Move(k, c, Holding)
        case Absent => Put(k, c, ACQUIRING, v.msg, Some(AcqReq))
        case _ => k.(fault := true))
      case WokenRetry =>
        if v.stat == ACQUIRING then Put(k, c, v.stat, EMPTY, Some(AcqReq)) else Put(k, c, v.stat, EMPTY, v.front).(fault := true)
      case AcqReq => CoreAcquires(k, c)
      case AcqRevoke(g, RevSend(_)) => Move(k, c, AcqRevoke(g, RevFly(k.server.owner)))
      case AcqRevoke(g, RevFly(x)) => CoreRevokes(k, c, g, x)
      case AcqReply(g) =>
        if g then Put(k, c, HELD, v.msg, Some(Holding))
        else if v.msg == EMPTY then Move(k, c, WaitRetry)
        else if v.stat == ACQUIRING then Put(k, c, v.stat, EMPTY, Some(AcqReq))
        else Put(k, c, v.stat, EMPTY, v.front).(fault := true)
      case Holding =>
        if v.msg == REVOKE then Put(k, c, RELEASING, v.msg, Some(Rel(RelReq)))
        else Put(k, c, if more then HELD else FREE, v.msg, NextFront(more))
      case _ => k
  }

  // ------------------------------------------------------------------ invariant

  ghost predicate ServerOk(k: Core) {
    var l := k.server;
    && Nobody !in k.views
    && l.waiting <= k.views.Keys
    && (l.owner != Nobody ==> l.owner in k.views)
    && (l.retrying != Nobody ==> l.retrying in k.views)
    && match l.stat
       case NONE => l.owner == Nobody && l.retrying == Nobody && l.waiting == {}
       case LOCKED => l.owner != Nobody && l.retrying == Nobody && l.waiting == {}
       case REVOKING => l.owner != Nobody && l.retrying == Nobody && l.waiting != {} && l.owner !in l.waiting
       case RETRYING => l.owner == Nobody && l.retrying != Nobody && l.retrying !in l.waiting
  }

  predicate Unrelated(l: Lock, c: Cid) { l.owner != c && l.retrying != c && c !in l.waiting }

  predicate NotServed(l: Lock, c: Cid) {
    (l.owner == c ==> l.stat == REVOKING) && l.retrying != c && c !in l.waiting
  }

  predicate Owns(l: Lock, c: Cid, msg: Msg) {
    l.owner == c && (msg == EMPTY || (msg == REVOKE && l.stat == REVOKING))
  }

  predicate Answered(l: Lock, c: Cid, msg: Msg, granted: bool) {
    if granted then Owns(l, c, msg)
    else (c in l.waiting && msg == EMPTY) || (l.retrying == c && msg != REVOKE)
  }

  /** How the state, the memo and the front thread of a client fit the server's record. */
  predicate Fits(l: Lock, c: Cid, v: View) {
    match v.front
    case None => (
      match v.stat
      case Absent => v.msg == EMPTY && Unrelated(l, c)
      case FREE => v.msg == EMPTY && l.owner == c
      case RELEASING => v.msg == EMPTY && NotServed(l, c)
      case _ => false)
    case Some(pc) =>
      match pc
      case WokenFirst => v.stat == Absent && v.msg == EMPTY && Unrelated(l, c)
      case WokenQueued => (v.stat == Absent && v.msg == EMPTY && Unrelated(l, c))
                          || (v.stat == HELD && Owns(l, c, v.msg))
      case Holding => v.stat == HELD && Owns(l, c, v.msg)
      case WaitFirst => v.stat == RELEASING && v.msg == EMPTY && NotServed(l, c)
      case WaitRetry => v.stat == ACQUIRING && v.msg == EMPTY && (c in l.waiting || l.retrying == c)
      case WokenRetry => v.stat == ACQUIRING && v.msg == RETRY && l.retrying == c
      case AcqReq => v.stat == ACQUIRING && v.msg == EMPTY && l.owner != c && c !in l.waiting
      case AcqRevoke(g, _) => v.stat == ACQUIRING && Answered(l, c, v.msg, g)
      case AcqReply(g) => v.stat == ACQUIRING && Answered(l, c, v.msg, g)
      case Rel(rel) => v.stat == RELEASING && v.msg == REVOKE
                       && if rel.RelReq? then l.stat == REVOKING && l.owner == c else Unrelated(l, c)
      case WaitQueued => false
  }

  /** The revoke of the current REVOKING period, not yet turned into a release at the server. */
  predicate LiveRevoke(pc: Pc) { pc.AcqRevoke? && (pc.ph.RevRel? ==> pc.ph.rel.RelReq?) }

  function Target(pc: Pc): Cid
    requires pc.AcqRevoke?
  {
    match pc.ph case RevSend(x) => x case RevFly(x) => x case RevRel(x, _) => x
  }

  predicate RetryToken(pc: Pc) { InRelease(pc) && PhaseOf(pc).RelRetry? }

  predicate Nested(pc: Pc) { pc.AcqRevoke? && pc.ph.RevRel? }

  /** What a call under way on behalf of a front thread says about the rest of the system. */
  predicate CallOk(k: Core, pc: Pc) {
    && (LiveRevoke(pc) ==>
          && k.server.stat == REVOKING && k.server.owner == Target(pc) && Target(pc) in k.views
          && k.views[Target(pc)].msg == EMPTY
          && (!pc.ph.RevRel? ==> k.views[Target(pc)].stat != RELEASING))
    && (Nested(pc) ==>
          var x := pc.ph.target;
          && x in k.views && k.views[x].stat == RELEASING && k.views[x].msg == EMPTY
          && k.views[x].front in {None, Some(WaitFirst)}
          && (!pc.ph.rel.RelReq? ==> Unrelated(k.server, x)))
    && (RetryToken(pc) ==>
          var n := PhaseOf(pc).next;
          && k.server.stat == RETRYING && k.server.retrying == n && n in k.views
          && k.views[n].msg == EMPTY && k.views[n].front.Some? && !k.views[n].front.value.AcqReq?)
  }

  predicate Apart(p: Pc, q: Pc) {
    && !(LiveRevoke(p) && LiveRevoke(q))
    && !(RetryToken(p) && RetryToken(q))
    && !(Nested(p) && Nested(q) && p.ph.target == q.ph.target)
  }

  predicate FitsAt(k: Core, c: Cid) {
    c in k.views ==> Fits(k.server, c, k.views[c])
  }

  predicate CallsAt(k: Core, c: Cid) {
    c in k.views && k.views[c].front.Some? ==> CallOk(k, k.views[c].front.value)
  }

  predicate ApartAt(k: Core, c: Cid, d: Cid) {
    c in k.views && d in k.views && c != d && k.views[c].front.Some? && k.views[d].front.Some? ==>
      Apart(k.views[c].front.value, k.views[d].front.value)
  }

  ghost predicate CoreInv(k: Core) {
    && !k.fault && ServerOk(k)
    && (forall c {:trigger FitsAt(k, c)} :: FitsAt(k, c))
    && (forall c {:trigger CallsAt(k, c)} :: CallsAt(k, c))
    && (forall c, d {:trigger ApartAt(k, c, d)} :: ApartAt(k, c, d))
  }

  predicate Runnable(k: Core, c: Cid) {
    c in k.views && (k.views[c].front.Some? ==> !Asleep(k.views[c].front.value))
  }

  /** The client a front thread's call is about to run a handler of, or its own. */
  function Other(k: Core, c: Cid): Cid
    requires c in k.views
  {
    match k.views[c].front
    case Some(AcqRevoke(_, RevFly(x))) => x
    case Some(AcqRevoke(_, RevRel(_, RelRetry(n)))) => n
    case Some(AcqRevoke(_, RevRel(x, _))) => x
    case Some(Rel(RelRetry(n))) => n
    case _ => k.server.owner
  }

  ghost predicate FitsStep(k: Core, k': Core, d: Cid) {
    !k'.fault && ServerOk(k') && k'.views.Keys == k.views.Keys && FitsAt(k', d)
  }

  ghost predicate StepOk(k: Core, k': Core, d: Cid) {
    FitsStep(k, k', d) && CallsAt(k', d)
  }

  lemma StepEnter(k: Core, c: Cid, more: bool, d: Cid)
    requires CoreInv(k) && c in k.views && k.views[c].front.None?
    ensures StepOk(k, CoreStep(k, c, more), d)
  {
    assert FitsAt(k, c) && CallsAt(k, c) && FitsAt(k, d) && CallsAt(k, d) && ApartAt(k, c, d);
  }

  lemma StepWoken(k: Core, c: Cid, more: bool, d: Cid)
    requires CoreInv(k) && c in k.views && k.views[c].front in {Some(WokenFirst), Some(WokenQueued), Some(WokenRetry)}
    ensures StepOk(k, CoreStep(k, c, more), d)
  {
    assert FitsAt(k, c) && CallsAt(k, c) && FitsAt(k, d) && CallsAt(k, d) && ApartAt(k, c, d);
  }

  lemma StepReply(k: Core, c: Cid, more: bool, d: Cid)
    requires CoreInv(k) && c in k.views && k.views[c].front.Some? && k.views[c].front.value.AcqReply?
    ensures StepOk(k, CoreStep(k, c, more), d)
  {
    assert FitsAt(k, c) && CallsAt(k, c) && FitsAt(k, d) && CallsAt(k, d) && ApartAt(k, c, d);
  }

  lemma StepHolding(k: Core, c: Cid, more: bool, d: Cid)
    requires CoreInv(k) && c in k.views && k.views[c].front == Some(Holding)
    ensures StepOk(k, CoreStep(k, c, more), d)
  {
    assert FitsAt(k, c) && CallsAt(k, c) && FitsAt(k, d) && CallsAt(k, d) && ApartAt(k, c, d);
  }

  lemma StepAcquireUncontended(k: Core, c: Cid, more: bool, d: Cid)
    requires CoreInv(k) && c in k.views && k.views[c].front == Some(AcqReq) && k.server.stat in {NONE, LOCKED}
    ensures StepOk(k, CoreStep(k, c, more), d)
  {
    assert FitsAt(k, c) && CallsAt(k, c) && FitsAt(k, d) && CallsAt(k, d) && ApartAt(k, c, d);
    assert FitsAt(k, k.server.owner);
  }

  lemma StepAcquireContended(k: Core, c: Cid, more: bool, d: Cid)
    requires CoreInv(k) && c in k.views && k.views[c].front == Some(AcqReq) && k.server.stat in {REVOKING, RETRYING}
    ensures FitsStep(k, CoreStep(k, c, more), d)
  {
    assert FitsAt(k, c) && CallsAt(k, c) && FitsAt(k, d);
    assert FitsAt(k, k.server.owner);
  }

  lemma CallsAcquireContended(k: Core, c: Cid, more: bool, d: Cid)
    requires CoreInv(k) && c in k.views && k.views[c].front == Some(AcqReq) && k.server.stat in {REVOKING, RETRYING}
    ensures CallsAt(CoreStep(k, c, more), d)
  {
    assert FitsAt(k, c) && CallsAt(k, c) && FitsAt(k, d) && CallsAt(k, d) && ApartAt(k, c, d);
    assert FitsAt(k, k.server.owner);
  }

  lemma StepReadOwner(k: Core, c: Cid, more: bool, d: Cid)
    requires CoreInv(k) && c in k.views && k.views[c].front.Some? && k.views[c].front.value.AcqRevoke? && k.views[c].front.value.ph.RevSend?
    ensures StepOk(k, CoreStep(k, c, more), d)
  {
    assert FitsAt(k, c) && CallsAt(k, c) && FitsAt(k, d) && CallsAt(k, d) && ApartAt(k, c, d);
  }

  lemma StepRevoke(k: Core, c: Cid, more: bool, d: Cid)
    requires CoreInv(k) && c in k.views && k.views[c].front.Some? && k.views[c].front.value.AcqRevoke? && k.views[c].front.value.ph.RevFly?
    ensures StepOk(k, CoreStep(k, c, more), d)
  {
    assert FitsAt(k, c) && CallsAt(k, c) && FitsAt(k, d) && CallsAt(k, d) && ApartAt(k, c, d);
    assert FitsAt(k, Other(k, c));
  }

  lemma StepRelReq(k: Core, c: Cid, more: bool, d: Cid)
    requires CoreInv(k) && c in k.views && k.views[c].front.Some? && k.views[c].front.value.Rel? && k.views[c].front.value.rel.RelReq?
    ensures StepOk(k, CoreStep(k, c, more), d)
  {
    assert FitsAt(k, c) && CallsAt(k, c) && FitsAt(k, d) && CallsAt(k, d) && ApartAt(k, c, d);
    if k.server.waiting != {} { assert FitsAt(k, Least(k.server.waiting)); }
  }

  lemma StepRelRetry(k: Core, c: Cid, more: bool, d: Cid)
    requires CoreInv(k) && c in k.views && k.views[c].front.Some? && k.views[c].front.value.Rel? && k.views[c].front.value.rel.RelRetry?
    ensures StepOk(k, CoreStep(k, c, more), d)
  {
    assert FitsAt(k, c) && CallsAt(k, c) && FitsAt(k, d) && CallsAt(k, d) && ApartAt(k, c, d);
    assert FitsAt(k, Other(k, c));
  }

  lemma StepRelReply(k: Core, c: Cid, more: bool, d: Cid)
    requires CoreInv(k) && c in k.views && k.views[c].front.Some? && k.views[c].front.value.Rel? && k.views[c].front.value.rel.RelReply?
    ensures StepOk(k, CoreStep(k, c, more), d)
  {
    assert FitsAt(k, c) && CallsAt(k, c) && FitsAt(k, d) && CallsAt(k, d) && ApartAt(k, c, d);
  }

  lemma StepNestedRelReq(k: Core, c: Cid, more: bool, d: Cid)
    requires CoreInv(k) && c in k.views && k.views[c].front.Some? && Nested(k.views[c].front.value) && k.views[c].front.value.ph.rel.RelReq?
    ensures FitsStep(k, CoreStep(k, c, more), d)
  {
    assert FitsAt(k, c) && CallsAt(k, c) && FitsAt(k, d);
    assert FitsAt(k, Other(k, c));
  }

  lemma CallsNestedRelReq(k: Core, c: Cid, more: bool, d: Cid)
    requires CoreInv(k) && c in k.views && k.views[c].front.Some? && Nested(k.views[c].front.value) && k.views[c].front.value.ph.rel.RelReq?
    ensures CallsAt(CoreStep(k, c, more), d)
  {
    assert FitsAt(k, c) && CallsAt(k, c) && FitsAt(k, d) && CallsAt(k, d) && ApartAt(k, c, d);
    assert FitsAt(k, Other(k, c));
    if k.server.waiting != {} { assert FitsAt(k, Least(k.server.waiting)); }
  }

  lemma StepNestedRelRetry(k: Core, c: Cid, more: bool, d: Cid)
    requires CoreInv(k) && c in k.views && k.views[c].front.Some? && Nested(k.views[c].front.value) && k.views[c].front.value.ph.rel.RelRetry?
    ensures FitsStep(k, CoreStep(k, c, more), d)
  {
    assert FitsAt(k, c) && CallsAt(k, c) && FitsAt(k, d);
    assert FitsAt(k, Other(k, c));
  }

  lemma CallsNestedRelRetry(k: Core, c: Cid, more: bool, d: Cid)
    requires CoreInv(k) && c in k.views && k.views[c].front.Some? && Nested(k.views[c].front.value) && k.views[c].front.value.ph.rel.RelRetry?
    ensures CallsAt(CoreStep(k, c, more), d)
  {
    assert FitsAt(k, c) && CallsAt(k, c) && FitsAt(k, d) && CallsAt(k, d) && ApartAt(k, c, d);
    assert FitsAt(k, Other(k, c));
  }

  lemma StepNestedRelReply(k: Core, c: Cid, more: bool, d: Cid)
    requires CoreInv(k) && c in k.views && k.views[c].front.Some? && Nested(k.views[c].front.value) && k.views[c].front.value.ph.rel.RelReply?
    ensures FitsStep(k, CoreStep(k, c, more), d)
  {
    assert FitsAt(k, c) && CallsAt(k, c) && FitsAt(k, d);
    assert FitsAt(k, Other(k, c));
  }

  lemma CallsNestedRelReply(k: Core, c: Cid, more: bool, d: Cid)
    requires CoreInv(k) && c in k.views && k.views[c].front.Some? && Nested(k.views[c].front.value) && k.views[c].front.value.ph.rel.RelReply?
    ensures CallsAt(CoreStep(k, c, more), d)
  {
    assert FitsAt(k, c) && CallsAt(k, c) && FitsAt(k, d) && CallsAt(k, d) && ApartAt(k, c, d);
    assert FitsAt(k, Other(k, c));
  }

  /** A new revoke, release or retry is started only when no other one is about. */
  lemma ApartAcquire(k: Core, c: Cid, more: bool, d: Cid, e: Cid)
    requires CoreInv(k) && c in k.views && k.views[c].front == Some(AcqReq)
    ensures ApartAt(CoreStep(k, c, more), d, e)
  {
    assert CallsAt(k, d) && CallsAt(k, e) && ApartAt(k, d, e);
  }

  lemma ApartRevoke(k: Core, c: Cid, more: bool, d: Cid, e: Cid)
    requires CoreInv(k) && c in k.views && k.views[c].front.Some?
    requires k.views[c].front.value.AcqRevoke? && !k.views[c].front.value.ph.RevRel?
    ensures ApartAt(CoreStep(k, c, more), d, e)
  {
    assert CallsAt(k, c) && CallsAt(k, d) && CallsAt(k, e) && ApartAt(k, d, e);
  }

  lemma ApartRelease(k: Core, c: Cid, more: bool, d: Cid, e: Cid)
    requires CoreInv(k) && c in k.views && k.views[c].front.Some?
    requires InRelease(k.views[c].front.value)
    ensures ApartAt(CoreStep(k, c, more), d, e)
  {
    assert CallsAt(k, c) && CallsAt(k, d) && CallsAt(k, e) && ApartAt(k, d, e);
  }

  lemma ApartLocal(k: Core, c: Cid, more: bool, d: Cid, e: Cid)
    requires CoreInv(k) && Runnable(k, c)
    requires k.views[c].front.Some? ==>
               !k.views[c].front.value.AcqRevoke? && !k.views[c].front.value.Rel? && !k.views[c].front.value.AcqReq?
    ensures ApartAt(CoreStep(k, c, more), d, e)
  {
    assert ApartAt(k, d, e);
  }

  lemma StepAt(k: Core, c: Cid, more: bool, d: Cid)
    requires CoreInv(k) && Runnable(k, c)
    ensures StepOk(k, CoreStep(k, c, more), d)
  {
    match k.views[c].front {
      case None => StepEnter(k, c, more, d);
      case Some(AcqReq) =>
        if k.server.stat in {NONE, LOCKED} { StepAcquireUncontended(k, c, more, d); }
        else { StepAcquireContended(k, c, more, d); CallsAcquireContended(k, c, more, d); }
      case Some(AcqRevoke(_, RevSend(_))) => StepReadOwner(k, c, more, d);
      case Some(AcqRevoke(_, RevFly(_))) => StepRevoke(k, c, more, d);
      case Some(AcqRevoke(_, RevRel(_, RelReq))) => StepNestedRelReq(k, c, more, d); CallsNestedRelReq(k, c, more, d);
      case Some(AcqRevoke(_, RevRel(_, RelRetry(_)))) => StepNestedRelRetry(k, c, more, d); CallsNestedRelRetry(k, c, more, d);
      case Some(AcqRevoke(_, RevRel(_, RelReply))) => StepNestedRelReply(k, c, more, d); CallsNestedRelReply(k, c, more, d);
      case Some(Rel(RelReq)) => StepRelReq(k, c, more, d);
      case Some(Rel(RelRetry(_))) => StepRelRetry(k, c, more, d);
      case Some(Rel(RelReply)) => StepRelReply(k, c, more, d);
      case Some(AcqReply(_)) => StepReply(k, c, more, d);
      case Some(Holding) => StepHolding(k, c, more, d);
      case Some(_) => StepWoken(k, c, more, d);
    }
  }

  lemma StepInv(k: Core, c: Cid, more: bool)
    requires CoreInv(k) && Runnable(k, c)
    ensures CoreInv(CoreStep(k, c, more)) && CoreStep(k, c, more).views.Keys == k.views.Keys
  {
    var k' := CoreStep(k, c, more);
    StepAt(k, c, more, c);
    forall d ensures FitsAt(k', d) { StepAt(k, c, more, d); }
    forall d ensures CallsAt(k', d) { StepAt(k, c, more, d); }
    forall d, e ensures ApartAt(k', d, e) {
      var f := k.views[c].front;
      if f == Some(AcqReq) { ApartAcquire(k, c, more, d, e); }
      else if f.Some? && InRelease(f.value) { ApartRelease(k, c, more, d, e); }
      else if f.Some? && f.value.AcqRevoke? { ApartRevoke(k, c, more, d, e); }
      else { ApartLocal(k, c, more, d, e); }
    }
  }

  // ------------------------------------------- from schedules to the front threads

  /** Queues stay as they are; only front threads change what they do. */
  lemma ShapeKept(s: Sys, s': Sys)
    requires Shape(s) && s'.clients.Keys == s.clients.Keys && s'.pcs.Keys == s.pcs.Keys
    requires forall c :: c in s.clients ==> s'.clients[c].threads == s.clients[c].threads
    requires forall t :: t in s.pcs && s'.pcs[t] != s.pcs[t] ==>
               t.cid in s.clients && s.clients[t.cid].threads != [] && s.clients[t.cid].threads[0] == t
    ensures Shape(s')
  {
    forall c ensures QueueOk(s', c) {
      assert QueueOk(s, c);
    }
    forall t ensures IsQueued(s', t) { assert IsQueued(s, t); }
  }

  lemma EnterShape(s: Sys, t: Thread)
    requires Shape(s) && CanRun(s, t) && t !in s.pcs
    ensures Shape(Advance(s, t))
  {
    var s' := Advance(s, t);
    assert QueueOk(s, t.cid);
    forall c ensures QueueOk(s', c) {
      assert QueueOk(s, c);
      assert IsQueued(s, t);
    }
    forall u ensures IsQueued(s', u) {
      assert IsQueued(s, u);
      if u == t { assert s'.clients[t.cid].threads[|s.clients[t.cid].threads|] == t; }
    }
  }

  /** The front thread of c leaves and the next one is signalled. */
  function Popped(s: Sys, c: Cid, stat: State, msg: Msg): Sys
    requires c in s.clients && s.clients[c].threads != []
  {
    var q := s.clients[c].threads;
    Sys(s.server, s.clients[c := Info(stat, msg, q[1..])], Signalled(s.pcs - {q[0]}, First(q[1..])), s.fault)
  }

  lemma PopQueue(s: Sys, c: Cid, stat: State, msg: Msg)
    requires Shape(s) && c in s.clients && s.clients[c].threads != []
    ensures QueueOk(Popped(s, c, stat, msg), c)
    ensures ViewOf(Popped(s, c, stat, msg), c) == View(stat, msg, NextFront(|s.clients[c].threads| > 1))
  {
    assert QueueOk(s, c);
    var q := s.clients[c].threads;
    var s' := Popped(s, c, stat, msg);
    assert forall i :: 0 <= i < |q[1..]| ==> q[1..][i] == q[i + 1] && q[i + 1] != q[0];
    assert forall i :: 1 < i < |q| ==> q[i] != q[1];
  }

  lemma PopOther(s: Sys, c: Cid, stat: State, msg: Msg, d: Cid)
    requires Shape(s) && c in s.clients && s.clients[c].threads != [] && d in s.clients && d != c
    ensures QueueOk(Popped(s, c, stat, msg), d) && ViewOf(Popped(s, c, stat, msg), d) == ViewOf(s, d)
  {
    assert QueueOk(s, c) && QueueOk(s, d);
  }

  lemma PopQueued(s: Sys, c: Cid, stat: State, msg: Msg, u: Thread)
    requires Shape(s) && c in s.clients && s.clients[c].threads != []
    ensures IsQueued(Popped(s, c, stat, msg), u)
  {
    assert IsQueued(s, u) && QueueOk(s, c);
    if u in s.pcs && u.cid == c {
      var q := s.clients[c].threads;
      var i :| 0 <= i < |q| && q[i] == u;
      if i > 0 { assert u == q[1..][i - 1]; }
    }
  }

  lemma PopShape(s: Sys, c: Cid, stat: State, msg: Msg)
    requires Shape(s) && c in s.clients && s.clients[c].threads != []
    ensures Shape(Popped(s, c, stat, msg))
  {
    var s' := Popped(s, c, stat, msg);
    forall d ensures QueueOk(s', d) {
      if d == c { PopQueue(s, c, stat, msg); } else if d in s.clients { PopOther(s, c, stat, msg, d); }
    }
    forall u ensures IsQueued(s', u) { PopQueued(s, c, stat, msg, u); }
  }

  lemma PopViews(s: Sys, c: Cid, stat: State, msg: Msg)
    requires Shape(s) && c in s.clients && s.clients[c].threads != []
    ensures Views(Popped(s, c, stat, msg)) == Views(s)[c := View(stat, msg, NextFront(|s.clients[c].threads| > 1))]
  {
    PopQueue(s, c, stat, msg);
    forall d | d in s.clients && d != c ensures ViewOf(Popped(s, c, stat, msg), d) == ViewOf(s, d) {
      PopOther(s, c, stat, msg, d);
    }
  }

  /** Thread t moves to pc and client x gets info i, with or without waking x's front. */
  function Changed(s: Sys, x: Cid, i: Info, t: Thread, pc: Pc, wake: bool): Sys {
    Sys(s.server, s.clients[x := i],
        if wake then Signalled(s.pcs[t := pc], First(i.threads)) else s.pcs[t := pc], s.fault)
  }

  function ChangedView(s: Sys, x: Cid, i: Info, t: Thread, pc: Pc, wake: bool, c: Cid): View
    requires c in s.clients
  {
    var v := ViewOf(s, c);
    var f := if c == t.cid then Some(pc) else v.front;
    if c == x then View(i.stat, i.msg, if wake then Roused(f) else f) else v.(front := f)
  }

  lemma ChangedShape(s: Sys, x: Cid, i: Info, t: Thread, pc: Pc, wake: bool)
    requires Shape(s) && t in s.pcs && s.pcs[t] != WaitQueued
    requires x in s.clients && i.threads == s.clients[x].threads
    ensures Shape(Changed(s, x, i, t, pc, wake))
  {
    hide Shape, Views, Signalled, First;
    FrontOf(s, t);
    OnlyFirst(s.pcs[t := pc], i.threads);
    if i.threads != [] { HeadOf(s, x); }
    ShapeKept(s, Changed(s, x, i, t, pc, wake));
  }

  /** A signal moves the front thread or nobody. */
  lemma OnlyFirst(pcs: map<Thread, Pc>, threads: seq<Thread>)
    ensures var q := Signalled(pcs, First(threads));
            q.Keys == pcs.Keys && forall u :: u in pcs && q[u] != pcs[u] ==> threads != [] && u == threads[0]
  {}

  lemma HeadOf(s: Sys, x: Cid)
    requires Shape(s) && x in s.clients && s.clients[x].threads != []
    ensures s.clients[x].threads[0].cid == x && s.clients[x].threads[0] in s.pcs
  {
    assert QueueOk(s, x);
  }

  lemma ChangedViewAt(s: Sys, x: Cid, i: Info, t: Thread, pc: Pc, wake: bool, c: Cid)
    requires Shape(s) && t in s.pcs && s.pcs[t] != WaitQueued
    requires x in s.clients && i.threads == s.clients[x].threads && c in s.clients
    ensures ViewOf(Changed(s, x, i, t, pc, wake), c) == ChangedView(s, x, i, t, pc, wake, c)
  {
    FrontOf(s, t);
    assert QueueOk(s, c) && QueueOk(s, x);
  }

  lemma ChangedViews(s: Sys, x: Cid, i: Info, t: Thread, pc: Pc, wake: bool)
    requires Shape(s) && t in s.pcs && s.pcs[t] != WaitQueued
    requires x in s.clients && i.threads == s.clients[x].threads
    ensures Views(Changed(s, x, i, t, pc, wake))
         == map c | c in s.clients :: ChangedView(s, x, i, t, pc, wake, c)
  {
    forall c | c in s.clients ensures ViewOf(Changed(s, x, i, t, pc, wake), c) == ChangedView(s, x, i, t, pc, wake, c) {
      ChangedViewAt(s, x, i, t, pc, wake, c);
    }
  }

  lemma SameViews(s: Sys, s': Sys)
    requires Shape(s) && s'.clients == s.clients && s'.pcs == s.pcs
    ensures Shape(s') && Views(s') == Views(s)
  {
    forall c ensures QueueOk(s', c) { assert QueueOk(s, c); }
    forall t ensures IsQueued(s', t) { assert IsQueued(s, t); }
    assert forall c :: c in s.clients ==> ViewOf(s', c) == ViewOf(s, c);
  }

  /** Advancing a front thread is a step of the protocol on front threads. */
  ghost predicate Projected(s: Sys, t: Thread)
    requires CanRun(s, t)
  {
    && Shape(Advance(s, t))
    && CoreOf(Advance(s, t)) == CoreStep(CoreOf(s), t.cid, |s.clients[t.cid].threads| > 1)
  }

  lemma ProjectChanged(s: Sys, s': Sys, x: Cid, i: Info, t: Thread, pc: Pc, wake: bool)
    requires Shape(s) && t in s.pcs && s.pcs[t] != WaitQueued
    requires x in s.clients && i.threads == s.clients[x].threads
    requires var c := Changed(s, x, i, t, pc, wake); s'.clients == c.clients && s'.pcs == c.pcs
    ensures Shape(s')
    ensures Views(s') == map c | c in s.clients :: ChangedView(s, x, i, t, pc, wake, c)
  {
    ChangedShape(s, x, i, t, pc, wake);
    ChangedViews(s, x, i, t, pc, wake);
    SameViews(Changed(s, x, i, t, pc, wake), s');
  }

  lemma ProjectEnter(s: Sys, t: Thread)
    requires Shape(s) && CanRun(s, t) && t !in s.pcs
    ensures s.clients[t.cid].threads == [] ==> Projected(s, t)
    ensures s.clients[t.cid].threads != [] ==> Shape(Advance(s, t)) && CoreOf(Advance(s, t)) == CoreOf(s)
  {
    var s' := Advance(s, t);
    EnterShape(s, t);
    forall c | c in s.clients && c != t.cid ensures ViewOf(s', c) == ViewOf(s, c) { assert QueueOk(s, c); }
    assert QueueOk(s, t.cid);
    if s.clients[t.cid].threads != [] {
      assert ViewOf(s', t.cid) == ViewOf(s, t.cid);
      assert Views(s') == Views(s);
    } else {
      assert Views(s') == Views(s)[t.cid := ViewOf(s', t.cid)];
    }
  }

  lemma ProjectWoken(s: Sys, t: Thread)
    requires Shape(s) && CanRun(s, t) && t in s.pcs
    requires s.pcs[t].WokenFirst? || s.pcs[t].WokenQueued? || s.pcs[t].WokenRetry?
    ensures Projected(s, t)
  {
    FrontOf(s, t);
    var s' := Advance(s, t);
    ProjectChanged(s, s', t.cid, s'.clients[t.cid], t, s'.pcs[t], false);
    assert Views(s') == Views(s)[t.cid := ChangedView(s, t.cid, s'.clients[t.cid], t, s'.pcs[t], false, t.cid)];
  }

  lemma ProjectReply(s: Sys, t: Thread)
    requires Shape(s) && CanRun(s, t) && t in s.pcs
    requires s.pcs[t].AcqReply?
    ensures Projected(s, t)
  {
    FrontOf(s, t);
    var s' := Advance(s, t);
    ProjectChanged(s, s', t.cid, s'.clients[t.cid], t, s'.pcs[t], false);
    assert Views(s') == Views(s)[t.cid := ChangedView(s, t.cid, s'.clients[t.cid], t, s'.pcs[t], false, t.cid)];
  }

  lemma ProjectHolding(s: Sys, t: Thread)
    requires Shape(s) && CanRun(s, t) && t in s.pcs && s.pcs[t].Holding?
    ensures Projected(s, t)
  {
    FrontOf(s, t);
    var s', i := Advance(s, t), s.clients[t.cid];
    if i.msg == REVOKE {
      ProjectChanged(s, s', t.cid, s'.clients[t.cid], t, s'.pcs[t], false);
      assert Views(s') == Views(s)[t.cid := ChangedView(s, t.cid, s'.clients[t.cid], t, s'.pcs[t], false, t.cid)];
    } else {
      PopShape(s, t.cid, if |i.threads| > 1 then HELD else FREE, i.msg);
      PopViews(s, t.cid, if |i.threads| > 1 then HELD else FREE, i.msg);
      assert s' == Popped(s, t.cid, if |i.threads| > 1 then HELD else FREE, i.msg);
    }
  }

  lemma ProjectServer(s: Sys, t: Thread)
    requires Shape(s) && CanRun(s, t) && t in s.pcs
    requires s.pcs[t].AcqReq? || (s.pcs[t].AcqRevoke? && s.pcs[t].ph.RevSend?)
    ensures Projected(s, t)
  {
    hide Shape;
    FrontOf(s, t);
    var s' := Advance(s, t);
    ProjectChanged(s, s', t.cid, s.clients[t.cid], t, s'.pcs[t], false);
    assert Views(s') == Views(s)[t.cid := Views(s)[t.cid].(front := Some(s'.pcs[t]))];
    assert s'.pcs[t] == s.pcs[t] ==> Views(s') == Views(s);
  }

  lemma ProjectRelReq(s: Sys, t: Thread)
    requires Shape(s) && CanRun(s, t) && t in s.pcs
    requires InRelease(s.pcs[t]) && PhaseOf(s.pcs[t]).RelReq?
    ensures Projected(s, t)
  {
    hide Shape;
    FrontOf(s, t);
    var s' := Advance(s, t);
    ProjectChanged(s, s', t.cid, s.clients[t.cid], t, s'.pcs[t], false);
    assert Views(s') == Views(s)[t.cid := Views(s)[t.cid].(front := Some(s'.pcs[t]))];
    assert s'.pcs[t] == s.pcs[t] ==> Views(s') == Views(s);
  }

  lemma ProjectRevoke(s: Sys, t: Thread)
    requires Shape(s) && CanRun(s, t) && t in s.pcs && s.pcs[t].AcqRevoke? && s.pcs[t].ph.RevFly?
    ensures Projected(s, t)
  {
    hide Shape;
    FrontOf(s, t);
    var s', x := Advance(s, t), s.pcs[t].ph.target;
    if x in s.clients {
      var i, pc := s'.clients[x], s'.pcs[t];
      ProjectChanged(s, s', x, i, t, pc, false);
      assert Views(s') == Move(Put(CoreOf(s), x, i.stat, i.msg, Views(s)[x].front), t.cid, pc).views;
    } else {
      SameViews(s, s');
    }
  }

  lemma ProjectRetry(s: Sys, t: Thread)
    requires Shape(s) && CanRun(s, t) && t in s.pcs && RetryToken(s.pcs[t])
    ensures Projected(s, t)
  {
    FrontOf(s, t);
    var s', n := Advance(s, t), PhaseOf(s.pcs[t]).next;
    if n in s.clients {
      ProjectChanged(s, s', n, s'.clients[n], t, WithPhase(s.pcs[t], RelReply), true);
      assert QueueOk(s, n);
      assert CoreOf(s').views == CoreStep(CoreOf(s), t.cid, false).views;
    } else {
      SameViews(s, s');
    }
  }

  lemma ProjectReleaseExit(s: Sys, t: Thread)
    requires Shape(s) && CanRun(s, t) && t in s.pcs && s.pcs[t] == Rel(RelReply)
    ensures Projected(s, t)
  {
    FrontOf(s, t);
    PopShape(s, t.cid, Absent, EMPTY);
    PopViews(s, t.cid, Absent, EMPTY);
    assert Advance(s, t) == Popped(s, t.cid, Absent, EMPTY);
  }

  lemma ProjectRevokeExit(s: Sys, t: Thread)
    requires Shape(s) && CanRun(s, t) && t in s.pcs && Nested(s.pcs[t]) && s.pcs[t].ph.rel.RelReply?
    ensures Projected(s, t)
  {
    hide Shape;
    FrontOf(s, t);
    if s.pcs[t].ph.target in s.clients { ProjectRevokeEnds(s, t); } else { SameViews(s, Advance(s, t)); }
  }

  lemma ProjectRevokeEnds(s: Sys, t: Thread)
    requires Shape(s) && CanRun(s, t) && t in s.pcs && Nested(s.pcs[t]) && s.pcs[t].ph.rel.RelReply?
    requires s.pcs[t].ph.target in s.clients
    ensures Projected(s, t)
  {
    hide Shape;
    FrontOf(s, t);
    var s', x := Advance(s, t), s.pcs[t].ph.target;
    ProjectChanged(s, s', x, s'.clients[x], t, AcqReply(s.pcs[t].granted), true);
    assert CoreOf(s').views == CoreStep(CoreOf(s), t.cid, false).views;
  }

  // ------------------------------------------------------------------- safety

  ghost predicate Inv(s: Sys) { Shape(s) && CoreInv(CoreOf(s)) }

  lemma InitInv(s: Sys)
    requires Init(s)
    ensures Inv(s)
  {
    forall c ensures QueueOk(s, c) {}
    forall t ensures IsQueued(s, t) {}
    forall c ensures FitsAt(CoreOf(s), c) && CallsAt(CoreOf(s), c) {}
    forall c, d ensures ApartAt(CoreOf(s), c, d) {}
  }

  /** The client's front thread is the one that moves, unless t only joins a queue. */
  predicate Joins(s: Sys, t: Thread) { t !in s.pcs && t.cid in s.clients && s.clients[t.cid].threads != [] }

  lemma Projection(s: Sys, t: Thread)
    requires Shape(s) && CanRun(s, t)
    ensures Shape(Advance(s, t))
    ensures if Joins(s, t) then CoreOf(Advance(s, t)) == CoreOf(s)
            else Runnable(CoreOf(s), t.cid) && Projected(s, t)
  {
    if t !in s.pcs {
      ProjectEnter(s, t);
    } else {
      FrontOf(s, t);
      match s.pcs[t] {
        case AcqReq => ProjectServer(s, t);
        case AcqRevoke(_, RevSend(_)) => ProjectServer(s, t);
        case AcqRevoke(_, RevFly(_)) => ProjectRevoke(s, t);
        case AcqRevoke(_, RevRel(_, RelReq)) => ProjectRelReq(s, t);
        case AcqRevoke(_, RevRel(_, RelRetry(_))) => ProjectRetry(s, t);
        case AcqRevoke(_, RevRel(_, RelReply)) => ProjectRevokeExit(s, t);
        case Rel(RelReq) => ProjectRelReq(s, t);
        case Rel(RelRetry(_)) => ProjectRetry(s, t);
        case Rel(RelReply) => ProjectReleaseExit(s, t);
        case Holding => ProjectHolding(s, t);
        case AcqReply(_) => ProjectReply(s, t);
        case _ => ProjectWoken(s, t);
      }
    }
  }

  /** Every atomic section of every thread keeps the invariant. */
  lemma AdvanceInv(s: Sys, t: Thread)
    requires Inv(s) && CanRun(s, t)
    ensures Inv(Advance(s, t))
  {
    Projection(s, t);
    if !Joins(s, t) {
      StepInv(CoreOf(s), t.cid, |s.clients[t.cid].threads| > 1);
    }
  }

  lemma {:induction false} RunInv(s: Sys, schedule: seq<Thread>)
    requires Inv(s) && Runs(s, schedule)
    ensures Inv(After(s, schedule))
    decreases |schedule|
  {
    if schedule != [] {
      AdvanceInv(s, schedule[0]);
      RunInv(Advance(s, schedule[0]), schedule[1..]);
    }
  }

  /** In every run, at most one thread of the whole system holds the lock, and its
      client is the server's owner; no VERIFY or assert fails and no acquire returns IOERR. */
  lemma MutualExclusion(s: Sys, schedule: seq<Thread>, t: Thread, u: Thread)
    requires Init(s) && Runs(s, schedule)
    ensures !After(s, schedule).fault
    ensures var e := After(s, schedule);
            t in e.pcs && e.pcs[t].Holding? ==>
              e.server.owner == t.cid && (u in e.pcs && e.pcs[u].Holding? ==> u == t)
  {
    InitInv(s);
    RunInv(s, schedule);
    var e := After(s, schedule);
    if t in e.pcs && e.pcs[t].Holding? {
      FrontOf(e, t);
      assert FitsAt(CoreOf(e), t.cid);
      if u in e.pcs && e.pcs[u].Holding? {
        FrontOf(e, u);
        assert FitsAt(CoreOf(e), u.cid);
      }
    }
  }

  /** A first acquire of a free lock gets it: entry, server, reply. */
  lemma UncontendedAcquire(s: Sys, t: Thread)
    requires Init(s) && t.cid in s.clients
    ensures Runs(s, [t, t, t]) && t in After(s, [t, t, t]).pcs && After(s, [t, t, t]).pcs[t] == Holding
  {
    var s1 := Advance(s, t);
    var s2 := Advance(s1, t);
    var s3 := Advance(s2, t);
    assert s1.pcs[t] == AcqReq && s2.pcs[t] == AcqReply(true) && s3.pcs[t] == Holding;
    assert [t, t, t][1..] == [t, t] && [t, t][1..] == [t] && [t][1..] == [];
    assert Runs(s3, []) && Runs(s2, [t]) && Runs(s1, [t, t]);
    assert After(s2, [t]) == s3 && After(s1, [t, t]) == s3;
  }

  /** The owner that the acquire handler reads after unlocking is the owner it decided to
      revoke, that client has not been told yet, and it still has the lock. */
  lemma RevokeReachesOwner(s: Sys, schedule: seq<Thread>, t: Thread)
    requires Init(s) && Runs(s, schedule)
    requires var e := After(s, schedule); t in e.pcs && e.pcs[t].AcqRevoke? && !e.pcs[t].ph.RevRel?
    ensures var e := After(s, schedule);
            && e.server.stat == REVOKING && e.server.owner == Target(e.pcs[t]) && e.server.owner in e.clients
            && e.clients[e.server.owner].msg == EMPTY
            && e.clients[e.server.owner].stat in {FREE, HELD, ACQUIRING}
  {
    InitInv(s);
    RunInv(s, schedule);
    var e := After(s, schedule);
    FrontOf(e, t);
    assert CallsAt(CoreOf(e), t.cid) && FitsAt(CoreOf(e), e.server.owner);
  }
}
