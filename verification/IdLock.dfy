/** The keyed mutex (control-plane/internal/idlock/idlock.go). */
module IdLock {

  class Mutex {
    var locked: bool

    constructor ()
      ensures !locked
    {
      locked := false;
    }
  }

  /** Mutexes are created on first use and never reclaimed. Seen from outside, the registry is
      the set of ids whose lock is held. */
  class Registry {
    var locks: map<string, Mutex>

    ghost predicate Valid()
      reads this
    {
      forall a, b | a in locks && b in locks :: locks[a] == locks[b] ==> a == b
    }

    ghost function Held(): set<string>
      reads this, locks.Values
    {
      set id | id in locks && locks[id].locked
    }

    constructor ()
      ensures Valid() && Held() == {}
    {
      locks := map[];
    }

    /** Filling the registry never changes which locks are held, nor an id's mutex. */
    method Get(id: string) returns (m: Mutex)
      requires Valid()
      modifies this
      ensures Valid() && Held() == old(Held())
      ensures id in locks && locks[id] == m
      ensures locks.Keys == old(locks.Keys) + {id}
      ensures forall k | k in old(locks) :: locks[k] == old(locks)[k]
      ensures id !in old(locks) ==> fresh(m)
    {
      if id in locks {
        m := locks[id];
      } else {
        m := new Mutex();
        locks := locks[id := m];
      }
    }

    /** Takes the lock of `id`, and no other, if and only if it was free. A blocking `Lock`
        is this once the lock is free. */
    method TryLock(id: string) returns (ok: bool)
      requires Valid()
      modifies this, locks.Values
      ensures Valid()
      ensures ok <==> id !in old(Held())
      ensures Held() == old(Held()) + {id}
      ensures forall k | k in old(locks) :: k in locks && locks[k] == old(locks)[k]
      ensures forall m | m in locks.Values :: m in old(locks.Values) || fresh(m)
    {
      var m := Get(id);
      ok := !m.locked;
      m.locked := true;
    }

    /** Looks the id up again and releases the mutex that was locked; releasing a free one
        panics. */
    method Unlock(id: string)
      requires Valid() && id in Held()
      modifies this, locks.Values
      ensures Valid() && locks == old(locks)
      ensures Held() == old(Held()) - {id}
    {
      var m := Get(id);
      assert locks == old(locks);
      m.locked := false;
    }
  }

  /** Two ids never share a lock, and an unlock undoes exactly one lock. */
  method LockUnlock(r: Registry, a: string, b: string)
    requires r.Valid() && a != b && a !in r.Held() && b in r.Held()
    modifies r, r.locks.Values
    ensures r.Valid() && r.Held() == old(r.Held())
  {
    var ok := r.TryLock(a);
    assert ok;
    r.Unlock(a);
    assert old(r.Held()) + {a} - {a} == old(r.Held());
  }
}
