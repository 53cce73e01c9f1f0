/** The caching lock server: one NONE/LOCKED/REVOKING/RETRYING record per lock.
    `GrantStep` and `ReleaseStep` are the mutex-held sections of `acquire` and
    `release` as functions of that record; the class runs them in place. */
module LockServer {
  import opened ClientIds

  type Lid = nat

  datatype Stat = NONE | LOCKED | REVOKING | RETRYING
  datatype Lock = Lock(stat: Stat, owner: Cid, retrying: Cid, waiting: set<Cid>)

  const Fresh := Lock(NONE, Nobody, Nobody, {})

  /** What the handler does after it unlocks: nothing, revoke whoever `owner` names
      when it is read again, or revoke the client it has just granted. */
  datatype FollowUp = NoCall | RevokeOwner | RevokeGranted

  datatype AcquireResult =
    | AcquireFault                                              // a VERIFY failed
    | Acquired(lock: Lock, granted: bool, nested: FollowUp)       // OK or RETRY

  datatype ReleaseResult =
    | ReleaseFault                                              // a VERIFY failed, or no waiter
    | Released(lock: Lock, next: Cid)

  function GrantStep(l: Lock, id: Cid): AcquireResult {
    match l.stat
    case NONE =>
      if l.owner != Nobody then AcquireFault
      else Acquired(l.(stat := LOCKED, owner := id), true, NoCall)
    case LOCKED =>
      if id in l.waiting || l.owner == Nobody || l.owner == id then AcquireFault
      else Acquired(l.(waiting := l.waiting + {id}, stat := REVOKING), false, RevokeOwner)
    case REVOKING =>
      if id in l.waiting then AcquireFault
      else Acquired(l.(waiting := l.waiting + {id}), false, NoCall)
    case RETRYING =>
      if id in l.waiting then AcquireFault
      else if id == l.retrying then
        if l.waiting == {} then Acquired(Lock(LOCKED, id, Nobody, {}), true, NoCall)
        else Acquired(Lock(REVOKING, id, Nobody, l.waiting), true, RevokeGranted)
      else Acquired(l.(waiting := l.waiting + {id}), false, NoCall)
  }

  function ReleaseStep(l: Lock, id: Cid): ReleaseResult {
    if l.stat != REVOKING || l.owner != id || l.waiting == {} then ReleaseFault
    else
      var next := Least(l.waiting);
      Released(Lock(RETRYING, Nobody, next, l.waiting - {next}), next)
  }

  class LockServerCache {
    var lockmap: map<Lid, Lock>

    constructor ()
      ensures lockmap == map[]
    {
      lockmap := map[];
    }

    function Entry(lid: Lid): Lock
      reads this
    {
      if lid in lockmap then lockmap[lid] else Fresh
    }

    /** The mutex-held section of `acquire`. */
    method Acquire(lid: Lid, id: Cid) returns (r: AcquireResult)
      modifies this
      ensures r == GrantStep(old(Entry(lid)), id)
      ensures lockmap == old(lockmap)[lid := if r.AcquireFault? then old(Entry(lid)) else r.lock]
    {
      if lid !in lockmap {
        lockmap := lockmap[lid := Fresh];
      }
      var info := lockmap[lid];
      match info.stat {
        case NONE =>
          if info.owner != Nobody { return AcquireFault; }
          info := info.(stat := LOCKED);
          info := info.(owner := id);
          r := Acquired(info, true, NoCall);
        case LOCKED =>
          if id in info.waiting || info.owner == Nobody || info.owner == id { return AcquireFault; }
          info := info.(waiting := info.waiting + {id});
          info := info.(stat := REVOKING);
          r := Acquired(info, false, RevokeOwner);
        case REVOKING =>
          if id in info.waiting { return AcquireFault; }
          info := info.(waiting := info.waiting + {id});
          r := Acquired(info, false, NoCall);
        case RETRYING =>
          if id in info.waiting { return AcquireFault; }
          if id == info.retrying {
            info := info.(retrying := Nobody);
            info := info.(stat := LOCKED);
            info := info.(owner := id);
            if info.waiting != {} {
              info := info.(stat := REVOKING);
              r := Acquired(info, true, RevokeGranted);
            } else {
              r := Acquired(info, true, NoCall);
            }
          } else {
            info := info.(waiting := info.waiting + {id});
            r := Acquired(info, false, NoCall);
          }
      }
      lockmap := lockmap[lid := info];
    }

    /** The mutex-held section of `release`; `next` is the client to call `retry` on. */
    method Release(lid: Lid, id: Cid) returns (r: ReleaseResult)
      modifies this
      ensures r == ReleaseStep(old(Entry(lid)), id)
      ensures r.ReleaseFault? ==> lockmap == old(lockmap)
      ensures r.Released? ==> lockmap == old(lockmap)[lid := r.lock]
    {
      var info := Entry(lid);
      if info.stat != REVOKING || info.owner != id || info.waiting == {} {
        return ReleaseFault;
      }
      var next := Least(info.waiting);
      info := info.(waiting := info.waiting - {next});
      info := info.(retrying := next);
      info := info.(owner := Nobody);
      info := info.(stat := RETRYING);
      lockmap := lockmap[lid := info];
      r := Released(info, next);
    }
  }
}
