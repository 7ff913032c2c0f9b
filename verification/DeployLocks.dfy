/** The per-component lock that serialises deploys. */
module DeployLocks {
  import opened Wrappers

  datatype Holder = Holder(source: string, startedAt: int, jobId: string)

  class DeployLockTable {
    var locked: map<string, bool>
    var info: map<string, Holder>

    /** Between calls every entry is held: acquiring creates it locked and releasing drops it. */
    ghost predicate Valid()
      reads this
    {
      locked.Keys == info.Keys && forall n :: n in locked ==> locked[n]
    }

    function Held(): set<string>
      requires Valid()
      reads this
    {
      locked.Keys
    }

    constructor ()
      ensures Valid() && Held() == {}
    {
      locked, info := map[], map[];
    }

    method TryAcquire(name: string, source: string, now: int) returns (acquired: bool)
      requires Valid()
      modifies this
      ensures Valid()
      ensures acquired <==> name !in old(Held())
      ensures Held() == old(Held()) + {name}
      ensures info == if acquired then old(info)[name := Holder(source, now, "")] else old(info)
    {
      if name !in locked {
        locked := locked[name := false];
      }
      if locked[name] {
        return false;
      }
      locked := locked[name := true];
      info := info[name := Holder(source, now, "")];
      return true;
    }

    method Info(name: string) returns (holder: Option<Holder>)
      requires Valid()
      ensures holder == if name in Held() then Some(info[name]) else None
    {
      if name in locked && locked[name] {
        return if name in info then Some(info[name]) else None;
      }
      return None;
    }

    method Release(name: string)
      requires Valid()
      modifies this
      ensures Valid()
      ensures Held() == old(Held()) - {name}
      ensures info == old(info) - {name}
    {
      if name in locked && locked[name] {
        locked := locked[name := false];
        if !locked[name] {
          locked := locked - {name};
          info := info - {name};
        }
      }
    }

    /** What other parties take and free, until exactly the components in `held` are locked. */
    method TakeAndFree(held: set<string>, source: string, now: int)
      requires Valid()
      modifies this
      ensures Valid() && Held() == held
    {
      var taken := held;
      while taken != {}
        invariant Valid() && taken <= held && held - taken <= Held()
        decreases taken
      {
        var n :| n in taken;
        var _ := TryAcquire(n, source, now);
        taken := taken - {n};
      }
      var freed := Held() - held;
      while freed != {}
        invariant Valid() && Held() == held + freed && freed !! held
        decreases freed
      {
        var n :| n in freed;
        Release(n);
        freed := freed - {n};
      }
    }
  }
}
