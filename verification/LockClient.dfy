/** The caching lock client: per lock a state, a one-slot message memo and a FIFO of
    threads.  Every function below is one mutex-held section; `act` says what the
    running thread does once the mutex is free again, and `signal` which waiting
    thread's condition variable was signalled. */
module LockClient {
  import opened ClientIds
  import opened LockServer

  datatype Thread = Thread(cid: Cid, n: nat)

  datatype State = Absent | FREE | HELD | ACQUIRING | RELEASING
  datatype Msg = EMPTY | RETRY | REVOKE
  datatype Info = Info(stat: State, msg: Msg, threads: seq<Thread>)

  const Unknown := Info(Absent, EMPTY, [])

  datatype Act =
    | Hold                 // acquire returns OK
    | CallAcquire          // call the server's acquire
    | CallRelease          // call the server's release
    | SleepFirst           // cond_wait, then wait_lock
    | SleepQueued          // cond_wait, then look at stat
    | SleepRetry           // cond_wait inside wait_lock
    | Return               // nothing more to do
    | Fault                // IOERR, assert(0), or front() of an empty list

  datatype Outcome = Outcome(info: Info, act: Act, signal: seq<Thread>)

  function First(threads: seq<Thread>): seq<Thread> {
    if threads == [] then [] else [threads[0]]
  }

  /** `acquire` up to its first cond_wait, RPC or return. */
  function Enter(i: Info, t: Thread): Outcome {
    var j := i.(threads := i.threads + [t]);
    if i.threads == [] then
      match i.stat
      case FREE => Outcome(j.(stat := HELD), Hold, [])
      case Absent => Outcome(j.(stat := ACQUIRING), CallAcquire, [])
      case _ => Outcome(j, SleepFirst, [])
    else Outcome(j, SleepQueued, [])
  }

  /** A thread that slept in the queue has the mutex again. */
  function WakeQueued(i: Info): Outcome {
    match i.stat
    case FREE => Outcome(i.(stat := HELD), Hold, [])
    case HELD => Outcome(i, Hold, [])
    case Absent => Outcome(i.(stat := ACQUIRING), CallAcquire, [])
    case _ => Outcome(i, Fault, [])
  }

  /** A thread that slept alone during a release has the mutex again: wait_lock. */
  function WakeFirst(i: Info): Outcome {
    Outcome(i.(stat := ACQUIRING), CallAcquire, [])
  }

  /** The tail of the wait_lock loop body, and the loop test. */
  function Again(i: Info): Outcome {
    Outcome(i.(msg := EMPTY), if i.stat == ACQUIRING then CallAcquire else Fault, [])
  }

  /** The acquire RPC has returned inside wait_lock. */
  function OnReply(i: Info, granted: bool): Outcome {
    if granted then Outcome(i.(stat := HELD), Hold, [])
    else if i.msg == EMPTY then Outcome(i, SleepRetry, [])
    else Again(i)
  }

  /** Dequeue the finished thread and pass the lock to the next one, if any. */
  function Pop(i: Info, passOn: bool): Outcome {
    if i.threads == [] then Outcome(i, Fault, [])
    else
      var rest := i.threads[1..];
      var stat := if rest != [] && passOn then HELD else i.stat;
      Outcome(i.(threads := rest, stat := stat), Return, First(rest))
  }

  /** `release` up to its RPC or return. */
  function ReleaseEnter(i: Info): Outcome {
    if i.msg == REVOKE then Outcome(i.(stat := RELEASING), CallRelease, [])
    else Pop(i.(stat := FREE), true)
  }

  /** The release RPC made by `release` has returned. */
  function ReleaseExit(i: Info): Outcome {
    Pop(i.(msg := EMPTY, stat := Absent), false)
  }

  function OnRevoke(i: Info): Outcome {
    if i.stat == FREE then Outcome(i.(stat := RELEASING), CallRelease, [])
    else Outcome(i.(msg := REVOKE), Return, [])
  }

  /** The release RPC made by `revoke_handler` has returned. */
  function RevokeExit(i: Info): Outcome {
    Outcome(i.(stat := Absent), Return, First(i.threads))
  }

  function OnRetry(i: Info): Outcome {
    Outcome(i.(msg := RETRY), if i.threads == [] then Fault else Return, First(i.threads))
  }

  class LockClientCache {
    var locksmap: map<Lid, Info>

    constructor ()
      ensures locksmap == map[]
    {
      locksmap := map[];
    }

    function Entry(lid: Lid): Info
      reads this
    {
      if lid in locksmap then locksmap[lid] else Unknown
    }

    method Acquire(lid: Lid, t: Thread) returns (act: Act)
      modifies this
      ensures var o := Enter(old(Entry(lid)), t);
              act == o.act && locksmap == old(locksmap)[lid := o.info]
    {
      var info := Entry(lid);
      if info.threads == [] {
        var s := info.stat;
        info := info.(threads := info.threads + [t]);
        if s == FREE {
          info := info.(stat := HELD);
          act := Hold;
        } else if s == Absent {
          info := info.(stat := ACQUIRING);
          act := CallAcquire;
        } else {
          act := SleepFirst;
        }
      } else {
        info := info.(threads := info.threads + [t]);
        act := SleepQueued;
      }
      locksmap := locksmap[lid := info];
    }

    method Woken(lid: Lid, first: bool) returns (act: Act)
      requires lid in locksmap
      modifies this
      ensures var o := if first then WakeFirst(old(Entry(lid))) else WakeQueued(old(Entry(lid)));
              act == o.act && locksmap == old(locksmap)[lid := o.info]
    {
      var info := locksmap[lid];
      if first {
        info := info.(stat := ACQUIRING);
        act := CallAcquire;
      } else {
        match info.stat {
          case FREE => info := info.(stat := HELD); act := Hold;
          case HELD => act := Hold;
          case Absent => info := info.(stat := ACQUIRING); act := CallAcquire;
          case _ => act := Fault;
        }
      }
      locksmap := locksmap[lid := info];
    }

    method AcquireReturned(lid: Lid, granted: bool) returns (act: Act)
      requires lid in locksmap
      modifies this
      ensures var o := OnReply(old(Entry(lid)), granted);
              act == o.act && locksmap == old(locksmap)[lid := o.info]
    {
      var info := locksmap[lid];
      if granted {
        info := info.(stat := HELD);
        act := Hold;
      } else if info.msg == EMPTY {
        act := SleepRetry;
      } else {
        info := info.(msg := EMPTY);
        act := if info.stat == ACQUIRING then CallAcquire else Fault;
      }
      locksmap := locksmap[lid := info];
    }

    /** `release`; its second half runs when the release RPC has returned. */
    method Release(lid: Lid) returns (act: Act, signal: seq<Thread>)
      requires lid in locksmap
      modifies this
      ensures var o := ReleaseEnter(old(Entry(lid)));
              act == o.act && signal == o.signal && locksmap == old(locksmap)[lid := o.info]
    {
      var info := locksmap[lid];
      signal := [];
      if info.msg == REVOKE {
        info := info.(stat := RELEASING);
        act := CallRelease;
      } else {
        info := info.(stat := FREE);
        if info.threads == [] {
          act := Fault;
        } else {
          info := info.(threads := info.threads[1..]);
          if |info.threads| >= 1 {
            info := info.(stat := HELD);
            signal := [info.threads[0]];
          }
          act := Return;
        }
      }
      locksmap := locksmap[lid := info];
    }

    method ReleaseReturned(lid: Lid) returns (act: Act, signal: seq<Thread>)
      requires lid in locksmap
      modifies this
      ensures var o := ReleaseExit(old(Entry(lid)));
              act == o.act && signal == o.signal && locksmap == old(locksmap)[lid := o.info]
    {
      var info := locksmap[lid];
      signal := [];
      info := info.(msg := EMPTY);
      info := info.(stat := Absent);
      if info.threads == [] {
        act := Fault;
      } else {
        info := info.(threads := info.threads[1..]);
        if |info.threads| >= 1 {
          signal := [info.threads[0]];
        }
        act := Return;
      }
      locksmap := locksmap[lid := info];
    }

    method RevokeHandler(lid: Lid) returns (act: Act)
      requires lid in locksmap
      modifies this
      ensures var o := OnRevoke(old(Entry(lid)));
              act == o.act && locksmap == old(locksmap)[lid := o.info]
    {
      var info := locksmap[lid];
      if info.stat == FREE {
        info := info.(stat := RELEASING);
        act := CallRelease;
      } else {
        info := info.(msg := REVOKE);
        act := Return;
      }
      locksmap := locksmap[lid := info];
    }

    method RetryHandler(lid: Lid) returns (act: Act, signal: seq<Thread>)
      requires lid in locksmap
      modifies this
      ensures var o := OnRetry(old(Entry(lid)));
              act == o.act && signal == o.signal && locksmap == old(locksmap)[lid := o.info]
    {
      var info := locksmap[lid];
      info := info.(msg := RETRY);
      if info.threads == [] {
        act, signal := Fault, [];
      } else {
        act, signal := Return, [info.threads[0]];
      }
      locksmap := locksmap[lid := info];
    }
  }
}
