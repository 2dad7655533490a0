/**
 The keyed mutex as the object it is: a table of entry objects, updated in place.  Every method
 is one critical section of `Acquire` or of its release closure, and is proved to be exactly one
 step of module KeyedMutex; interleaving the methods in any order gives the runs studied there.
 */
module ContentionMap {
  import opened KeyedMutex

  class LockEntry {
    var locked: bool
    var refs: int

    constructor ()
      ensures !locked && refs == 0
    {
      locked, refs := false, 0;
    }
  }

  class LockMap {
    var locks: map<string, LockEntry>
    ghost var entries: set<LockEntry>             // every entry ever allocated
    ghost var calls: map<nat, Call<LockEntry>>    // every Acquire ever issued

    ghost function View(): State<LockEntry>
      reads this, entries
    {
      State(locks, map e | e in entries :: Entry(e.locked, e.refs), calls)
    }

    // Table and calls only mention entries that were allocated.  The full invariant is Inv(View()),
    // which KeyedMutex.StepKeepsInv carries across every method.
    ghost predicate Valid()
      reads this
    {
      && (forall k :: k in locks ==> locks[k] in entries)
      && (forall c :: c in calls && calls[c].Active() ==> calls[c].entry in entries)
    }

    constructor ()
      ensures Valid() && Inv(View()) && View() == Init()
      ensures entries == {}
    {
      locks, entries, calls := map[], {}, map[];
    }

    // Acquire with an empty key: nothing to lock, nothing to release.
    ghost method AcquireEmpty(call: nat)
      requires Valid() && call !in calls
      modifies this`calls
      ensures Valid() && View() == Apply(old(View()), EnterEmpty(call))
    {
      calls := calls[call := Finished];
    }

    // The table lookup of the section below: an entry that is free to be counted.
    method FindOrCreate(key: string) returns (e: LockEntry)
      requires Valid()
      modifies this`locks, this`entries
      ensures locks == old(locks)[key := e] && entries == old(entries) + {e}
      ensures key in old(locks) ==> e == old(locks)[key] && e in old(entries)
      ensures key !in old(locks) ==> fresh(e) && !e.locked && e.refs == 0
    {
      if key in locks {
        e := locks[key];
      } else {
        e := new LockEntry();
        locks := locks[key := e];
        entries := entries + {e};
      }
    }

    // Acquire, section under the map's mutex.
    method Register(ghost call: nat, key: string) returns (e: LockEntry)
      requires Valid() && call !in calls && key != ""
      modifies this, entries
      ensures Valid() && fresh(entries - old(entries)) && e in entries
      ensures Enabled(old(View()), Enter(call, key, e))
      ensures View() == Apply(old(View()), Enter(call, key, e))
    {
      ghost var was := View();
      e := FindOrCreate(key);
      ghost var step := Enter(call, key, e);
      e.refs := e.refs + 1;
      calls := calls[call := Waiting(key, e)];
      assert View().entries == Apply(was, step).entries;
    }

    // Acquire, the entry's mutex: returns once the entry is free.
    method Take(ghost call: nat, e: LockEntry)
      requires Valid() && call in calls && calls[call].Waiting? && calls[call].entry == e && !e.locked
      modifies this`calls, e
      ensures Valid()
      ensures Enabled(old(View()), Lock(call)) && View() == Apply(old(View()), Lock(call))
    {
      ghost var was := View();
      e.locked := true;
      calls := calls[call := Holding(calls[call].key, e)];
      assert View() == Apply(was, Lock(call));
    }

    // The closure up to and including the entry's Unlock.  `released` is the closure's own flag.
    method Release(ghost call: nat, e: LockEntry, released: bool) returns (nowReleased: bool)
      requires Valid() && call in calls
      requires released ==> calls[call].Leaving? || calls[call].Finished?
      requires !released ==> calls[call].Holding? && calls[call].entry == e
      modifies this`calls, e
      ensures Valid() && nowReleased
      ensures var step := if released then ReleaseAgain(call) else Unlock(call);
        Enabled(old(View()), step) && View() == Apply(old(View()), step)
    {
      if released {
        return true;
      }
      ghost var was := View();
      nowReleased := true;
      e.locked := false;
      calls := calls[call := Leaving(calls[call].key, e)];
      assert View() == Apply(was, Unlock(call));
    }

    // The closure, section under the map's mutex.
    method Forget(ghost call: nat, key: string, e: LockEntry)
      requires Valid() && call in calls && calls[call] == Leaving(key, e)
      modifies this, e
      ensures Valid() && entries == old(entries)
      ensures Enabled(old(View()), Exit(call)) && View() == Apply(old(View()), Exit(call))
    {
      ghost var was := View();
      e.refs := e.refs - 1;
      if e.refs == 0 {
        locks := locks - {key};
      }
      calls := calls[call := Finished];
      assert View() == Apply(was, Exit(call));
    }
  }
}
