/**
 The in-process keyed mutex: `Map.Acquire` and the release closure it returns.

 A state holds the `locks` table, every entry ever allocated, and every Acquire call ever
 issued.  A call is a unit of its own (a thread that acquires twice owns two calls), so the
 model covers any number of threads holding any number of keys.  Each step is one critical
 section of the source, and a run is any interleaving of steps.
 */
module KeyedMutex {

  datatype Entry = Entry(locked: bool, refs: int)

  // Where one Acquire call, together with the closure it returns, has got to.
  datatype Call<E> =
    | Waiting(key: string, entry: E)  // counted in refs, about to lock the entry
    | Holding(key: string, entry: E)  // Acquire has returned
    | Leaving(key: string, entry: E)  // the closure unlocked the entry, its reference is still counted
    | Finished                        // nothing left to do; an empty key starts here
  {
    predicate Active() { !Finished? }
  }

  datatype State<E> = State(locks: map<string, E>, entries: map<E, Entry>, calls: map<nat, Call<E>>)

  datatype Step<E> =
    | Enter(call: nat, key: string, entry: E)  // first section on the map: find or create, refs++
    | EnterEmpty(call: nat)                    // Acquire("")
    | Lock(call: nat)                          // e.mu.Lock() succeeds
    | Unlock(call: nat)                        // closure: e.mu.Unlock()
    | Exit(call: nat)                          // closure: second section on the map, refs--, maybe delete
    | ReleaseAgain(call: nat)                  // closure called once more

  function Init<E>(): State<E> { State(map[], map[], map[]) }

  predicate Enabled<E(==)>(s: State<E>, step: Step<E>) {
    match step
    case Enter(c, k, e) => c !in s.calls && k != "" && (if k in s.locks then e == s.locks[k] else e !in s.entries)
    case EnterEmpty(c) => c !in s.calls
    case Lock(c) => c in s.calls && s.calls[c].Waiting? && s.calls[c].entry in s.entries && !s.entries[s.calls[c].entry].locked
    case Unlock(c) => c in s.calls && s.calls[c].Holding?
    case Exit(c) => c in s.calls && s.calls[c].Leaving?
    case ReleaseAgain(c) => c in s.calls && (s.calls[c].Leaving? || s.calls[c].Finished?)
  }

  function EntryAt<E(==)>(s: State<E>, e: E): Entry {
    if e in s.entries then s.entries[e] else Entry(false, 0)
  }

  function Apply<E(==)>(s: State<E>, step: Step<E>): State<E>
    requires Enabled(s, step)
  {
    match step
    case Enter(c, k, e) =>
      State(s.locks[k := e],
            s.entries[e := EntryAt(s, e).(refs := EntryAt(s, e).refs + 1)],
            s.calls[c := Waiting(k, e)])
    case EnterEmpty(c) => s.(calls := s.calls[c := Finished])
    case Lock(c) =>
      var e := s.calls[c].entry;
      State(s.locks, s.entries[e := EntryAt(s, e).(locked := true)], s.calls[c := Holding(s.calls[c].key, e)])
    case Unlock(c) =>
      var e := s.calls[c].entry;
      State(s.locks, s.entries[e := EntryAt(s, e).(locked := false)], s.calls[c := Leaving(s.calls[c].key, e)])
    case Exit(c) =>
      var e := s.calls[c].entry;
      var refs := EntryAt(s, e).refs - 1;
      State(if refs == 0 then s.locks - {s.calls[c].key} else s.locks,
            s.entries[e := EntryAt(s, e).(refs := refs)],
            s.calls[c := Finished])
    case ReleaseAgain(c) => s
  }

  // ---------------------------------------------------------------- runs

  ghost predicate IsRun<E>(s: State<E>, steps: seq<Step<E>>)
    decreases |steps|
  {
    steps == [] || (Enabled(s, steps[0]) && IsRun(Apply(s, steps[0]), steps[1..]))
  }

  ghost function After<E>(s: State<E>, steps: seq<Step<E>>): State<E>
    requires IsRun(s, steps)
    decreases |steps|
  {
    if steps == [] then s else After(Apply(s, steps[0]), steps[1..])
  }

  // ---------------------------------------------------------------- invariant

  // The calls that wait on, hold, or are leaving entry e.
  ghost function Users<E>(calls: map<nat, Call<E>>, e: E): set<nat> {
    set c | c in calls && calls[c].Active() && calls[c].entry == e
  }

  // The calls whose Acquire has returned entry e and whose closure has not run.
  ghost function Holders<E>(calls: map<nat, Call<E>>, e: E): set<nat> {
    set c | c in calls && calls[c].Holding? && calls[c].entry == e
  }

  // Every active call uses the one entry its key has in the table.
  ghost predicate CallsShareTable<E>(s: State<E>) {
    forall c :: c in s.calls && s.calls[c].Active() ==>
      && s.calls[c].key != ""
      && s.calls[c].key in s.locks
      && s.locks[s.calls[c].key] == s.calls[c].entry
  }

  // Table entries are allocated, in use, and not shared between keys.
  ghost predicate TableLive<E>(s: State<E>) {
    && (forall k :: k in s.locks ==> s.locks[k] in s.entries && s.entries[s.locks[k]].refs > 0)
    && (forall j, k :: (j in s.locks && k in s.locks && s.locks[j] == s.locks[k]) ==> j == k)
  }

  ghost predicate RefsExact<E>(s: State<E>) {
    forall e :: e in s.entries ==> s.entries[e].refs == |Users(s.calls, e)|
  }

  // A locked entry has exactly one holder, an unlocked one has none.
  ghost predicate LockedByHolder<E>(s: State<E>) {
    forall e :: e in s.entries ==> |Holders(s.calls, e)| == if s.entries[e].locked then 1 else 0
  }

  ghost predicate Inv<E>(s: State<E>) {
    CallsShareTable(s) && TableLive(s) && RefsExact(s) && LockedByHolder(s)
  }

  lemma UsersUpdate<E>(calls: map<nat, Call<E>>, c: nat, x: Call<E>, e: E)
    ensures Users(calls[c := x], e) ==
      if x.Active() && x.entry == e then Users(calls, e) + {c} else Users(calls, e) - {c}
    ensures Holders(calls[c := x], e) ==
      if x.Holding? && x.entry == e then Holders(calls, e) + {c} else Holders(calls, e) - {c}
  {
  }

  lemma FreshEntryUnused<E>(s: State<E>, e: E)
    requires CallsShareTable(s) && TableLive(s) && e !in s.entries
    ensures Users(s.calls, e) == {} && Holders(s.calls, e) == {}
  {
  }

  lemma SizeUpdate(a: set<nat>, c: nat)
    ensures |a + {c}| == if c in a then |a| else |a| + 1
    ensures |a - {c}| == if c in a then |a| - 1 else |a|
  {
    if c in a {
      assert a + {c} == a;
    } else {
      assert a - {c} == a;
    }
  }

  lemma EntryRefs<E>(s: State<E>, step: Step<E>, e: E)
    requires EntryAt(s, e).refs == |Users(s.calls, e)| && Enabled(s, step) && !step.ReleaseAgain?
    ensures EntryAt(Apply(s, step), e).refs == |Users(Apply(s, step).calls, e)|
  {
    var c := step.call;
    UsersUpdate(s.calls, c, Apply(s, step).calls[c], e);
    SizeUpdate(Users(s.calls, e), c);
    assert c in Users(s.calls, e) <==> c in s.calls && s.calls[c].Active() && s.calls[c].entry == e;
  }

  lemma EntryHolder<E>(s: State<E>, step: Step<E>, e: E)
    requires |Holders(s.calls, e)| == (if EntryAt(s, e).locked then 1 else 0) && Enabled(s, step) && !step.ReleaseAgain?
    ensures |Holders(Apply(s, step).calls, e)| == if EntryAt(Apply(s, step), e).locked then 1 else 0
  {
    var c := step.call;
    UsersUpdate(s.calls, c, Apply(s, step).calls[c], e);
    SizeUpdate(Holders(s.calls, e), c);
    assert c in Holders(s.calls, e) <==> c in s.calls && s.calls[c].Holding? && s.calls[c].entry == e;
  }

  lemma StepKeepsCounts<E>(s: State<E>, step: Step<E>)
    requires Inv(s) && Enabled(s, step) && !step.ReleaseAgain?
    ensures RefsExact(Apply(s, step)) && LockedByHolder(Apply(s, step))
  {
    var t := Apply(s, step);
    forall e | e in t.entries
      ensures t.entries[e].refs == |Users(t.calls, e)|
      ensures |Holders(t.calls, e)| == if t.entries[e].locked then 1 else 0
    {
      if e !in s.entries { FreshEntryUnused(s, e); }
      EntryRefs(s, step, e);
      EntryHolder(s, step, e);
    }
  }

  lemma StepKeepsTable<E>(s: State<E>, step: Step<E>)
    requires CallsShareTable(s) && TableLive(s) && Enabled(s, step)
    ensures TableLive(Apply(s, step))
  {
    var t := Apply(s, step);
    forall k | k in t.locks ensures t.locks[k] in t.entries && t.entries[t.locks[k]].refs > 0 {
      if k in s.locks { assert s.locks[k] in s.entries && s.entries[s.locks[k]].refs > 0; }
    }
  }

  // A key is deleted only when nobody uses its entry any more.
  lemma CallShares<E>(s: State<E>, step: Step<E>, d: nat)
    requires CallsShareTable(s) && TableLive(s) && Enabled(s, step) && !step.ReleaseAgain?
    requires var t := Apply(s, step); d in t.calls && t.calls[d].Active()
    requires var t := Apply(s, step); t.calls[d].entry in t.entries ==> t.entries[t.calls[d].entry].refs != 0
    ensures var t := Apply(s, step); t.calls[d].key != "" && t.calls[d].key in t.locks && t.locks[t.calls[d].key] == t.calls[d].entry
  {
    if d in s.calls {
      assert s.locks[s.calls[d].key] == s.calls[d].entry;
    }
  }

  lemma StepKeepsSharing<E>(s: State<E>, step: Step<E>)
    requires CallsShareTable(s) && TableLive(s) && Enabled(s, step) && !step.ReleaseAgain?
    requires RefsExact(Apply(s, step))
    ensures CallsShareTable(Apply(s, step))
  {
    var t := Apply(s, step);
    forall d | d in t.calls && t.calls[d].Active()
      ensures t.calls[d].key != "" && t.calls[d].key in t.locks && t.locks[t.calls[d].key] == t.calls[d].entry
    {
      assert d in Users(t.calls, t.calls[d].entry);
      CallShares(s, step, d);
    }
  }

  lemma StepKeepsInv<E>(s: State<E>, step: Step<E>)
    requires Inv(s) && Enabled(s, step)
    ensures Inv(Apply(s, step))
  {
    if !step.ReleaseAgain? {
      StepKeepsCounts(s, step);
      StepKeepsTable(s, step);
      StepKeepsSharing(s, step);
    }
  }

  lemma {:induction false} RunKeepsInv<E>(s: State<E>, steps: seq<Step<E>>)
    requires Inv(s) && IsRun(s, steps)
    ensures Inv(After(s, steps))
    decreases |steps|
  {
    if steps != [] {
      StepKeepsInv(s, steps[0]);
      RunKeepsInv(Apply(s, steps[0]), steps[1..]);
    }
  }

  // ---------------------------------------------------------------- what every run guarantees

  // No two calls ever hold the same key.
  lemma MutualExclusion<E>(steps: seq<Step<E>>, c: nat, d: nat)
    requires IsRun(Init<E>(), steps)
    ensures var s := After(Init<E>(), steps);
      c in s.calls && d in s.calls && s.calls[c].Holding? && s.calls[d].Holding? && s.calls[c].key == s.calls[d].key
      ==> c == d
  {
    RunKeepsInv(Init<E>(), steps);
    var s := After(Init<E>(), steps);
    if c in s.calls && d in s.calls && s.calls[c].Holding? && s.calls[d].Holding? && s.calls[c].key == s.calls[d].key {
      OneHolder(s, c, d);
    }
  }

  lemma OneHolder<E>(s: State<E>, c: nat, d: nat)
    requires Inv(s)
    requires c in s.calls && d in s.calls && s.calls[c].Holding? && s.calls[d].Holding?
    requires s.calls[c].entry == s.calls[d].entry
    ensures c == d
  {
    var holders := Holders(s.calls, s.calls[c].entry);
    assert c in holders && d in holders && |holders - {c}| == |holders| - 1 == 0;
  }

  ghost function CallersOf<E>(s: State<E>, k: string): set<nat> {
    set c | c in s.calls && s.calls[c].Active() && s.calls[c].key == k
  }

  // A key is in the table exactly while some call waits on it, holds it or is leaving it; its
  // entry is then the entry of all those calls, and its counter is their number.
  lemma TableCountsCallers<E>(steps: seq<Step<E>>, k: string)
    requires IsRun(Init<E>(), steps)
    ensures var s := After(Init<E>(), steps);
      && (k in s.locks <==> CallersOf(s, k) != {})
      && (k in s.locks ==> s.locks[k] in s.entries && s.entries[s.locks[k]].refs == |CallersOf(s, k)|)
      && (forall c :: c in CallersOf(s, k) ==> s.calls[c].entry == s.locks[k])
  {
    RunKeepsInv(Init<E>(), steps);
    var s := After(Init<E>(), steps);
    if k in s.locks {
      CallersShareEntry(s, k);
    }
  }

  lemma CallersShareEntry<E>(s: State<E>, k: string)
    requires Inv(s) && k in s.locks
    ensures Users(s.calls, s.locks[k]) == CallersOf(s, k)
  {
    forall c | c in Users(s.calls, s.locks[k]) ensures c in CallersOf(s, k) {
      assert s.locks[s.calls[c].key] == s.locks[k];
    }
  }

  // The table is empty exactly when every call issued so far has finished.
  lemma IdleTableEmpty<E>(steps: seq<Step<E>>)
    requires IsRun(Init<E>(), steps)
    ensures var s := After(Init<E>(), steps);
      s.locks == map[] <==> forall c :: c in s.calls ==> s.calls[c].Finished?
  {
    RunKeepsInv(Init<E>(), steps);
    EmptyIffIdle(After(Init<E>(), steps));
  }

  lemma EmptyIffIdle<E>(s: State<E>)
    requires Inv(s)
    ensures s.locks == map[] <==> forall c :: c in s.calls ==> s.calls[c].Finished?
  {
    if k :| k in s.locks {
      CallersShareEntry(s, k);
      assert CallersOf(s, k) != {};
      var c :| c in CallersOf(s, k);
      assert !s.calls[c].Finished?;
    }
  }

  // The key a step works on; none for a step that touches no entry.
  function KeyOf<E(==)>(s: State<E>, step: Step<E>): (key: string)
    requires Enabled(s, step)
  {
    match step
    case Enter(_, k, _) => k
    case EnterEmpty(_) => ""
    case ReleaseAgain(_) => ""
    case _ => s.calls[step.call].key
  }

  // A waiting call is never wedged: some call on its own key can take a step, without any help
  // from calls on other keys.
  lemma WaiterHasProgress<E>(s: State<E>, c: nat) returns (d: nat)
    requires Inv(s) && c in s.calls && s.calls[c].Waiting?
    ensures d in s.calls && s.calls[d].Active() && s.calls[d].key == s.calls[c].key
    ensures Enabled(s, Lock(d)) || Enabled(s, Unlock(d))
  {
    var e := s.calls[c].entry;
    if s.entries[e].locked {
      assert Holders(s.calls, e) != {};
      d :| d in Holders(s.calls, e);
      assert s.locks[s.calls[d].key] == s.locks[s.calls[c].key];
    } else {
      d := c;
      assert Enabled(s, Lock(d));
    }
  }

  lemma OtherKeyStays<E>(s: State<E>, step: Step<E>, k: string)
    requires CallsShareTable(s) && TableLive(s) && Enabled(s, step) && k != KeyOf(s, step)
    ensures var t := Apply(s, step);
      && (k in t.locks <==> k in s.locks)
      && (k in s.locks ==> t.locks[k] == s.locks[k] && t.entries[t.locks[k]] == s.entries[s.locks[k]])
  {
    if k in s.locks {
      assert s.locks[k] in s.entries;
    }
  }

  lemma OtherCallersStay<E>(s: State<E>, step: Step<E>, k: string)
    requires Enabled(s, step) && k != KeyOf(s, step)
    ensures CallersOf(Apply(s, step), k) == CallersOf(s, k)
  {
  }

  // A step on one key leaves every other key's table slot and entry alone.
  lemma KeysIndependent<E>(s: State<E>, step: Step<E>, k: string)
    requires Inv(s) && Enabled(s, step) && k != KeyOf(s, step)
    ensures var t := Apply(s, step);
      && (k in t.locks <==> k in s.locks)
      && (k in s.locks ==> t.locks[k] == s.locks[k] && t.entries[t.locks[k]] == s.entries[s.locks[k]])
      && CallersOf(t, k) == CallersOf(s, k)
  {
    OtherKeyStays(s, step, k);
    OtherCallersStay(s, step, k);
  }

  // ---------------------------------------------------------------- critical sections never overlap

  // The state before step i of a run.
  ghost function StateAt<E>(s: State<E>, steps: seq<Step<E>>, i: nat): State<E>
    requires IsRun(s, steps) && i <= |steps|
    decreases |steps|
  {
    if i == 0 then s else StateAt(Apply(s, steps[0]), steps[1..], i - 1)
  }

  lemma {:induction false} StateAtStep<E>(s: State<E>, steps: seq<Step<E>>, i: nat)
    requires Inv(s) && IsRun(s, steps) && i < |steps|
    ensures Inv(StateAt(s, steps, i))
    ensures Enabled(StateAt(s, steps, i), steps[i])
    ensures StateAt(s, steps, i + 1) == Apply(StateAt(s, steps, i), steps[i])
    decreases i
  {
    StepKeepsInv(s, steps[0]);
    if i > 0 {
      StateAtStep(Apply(s, steps[0]), steps[1..], i - 1);
    }
  }

  // If call c took its key at step i, and a different call takes the same key at step j > i,
  // then c unlocked in between: the sections Lock..Unlock of one key are disjoint intervals.
  lemma SectionsDisjoint<E>(steps: seq<Step<E>>, i: nat, j: nat, c: nat, d: nat)
    requires IsRun(Init<E>(), steps) && i < j < |steps| && c != d
    requires steps[i] == Lock(c) && steps[j] == Lock(d)
    requires var si, sj := StateAt(Init<E>(), steps, i), StateAt(Init<E>(), steps, j);
      c in si.calls && si.calls[c].Waiting? && d in sj.calls && sj.calls[d].Waiting? && si.calls[c].key == sj.calls[d].key
    ensures exists m :: i < m < j && steps[m] == Unlock(c)
  {
    StateAtStep(Init<E>(), steps, i);
    StateAtStep(Init<E>(), steps, j);
    HeldUntilUnlock(steps, i, j, c, StateAt(Init<E>(), steps, i).calls[c].key);
    TakenMeansUnheld(StateAt(Init<E>(), steps, j), c, d);
  }

  lemma TakenMeansUnheld<E>(s: State<E>, c: nat, d: nat)
    requires Inv(s) && Enabled(s, Lock(d))
    ensures !(c in s.calls && s.calls[c].Holding? && s.calls[c].key == s.calls[d].key)
  {
    assert c !in Holders(s.calls, s.calls[d].entry);
  }

  ghost predicate Holds<E>(s: State<E>, c: nat, k: string) {
    c in s.calls && s.calls[c].Holding? && s.calls[c].key == k
  }

  lemma OnlyUnlockLetsGo<E>(s: State<E>, step: Step<E>, c: nat, k: string)
    requires Enabled(s, step)
    ensures Holds(s, c, k) ==> step == Unlock(c) || Holds(Apply(s, step), c, k)
    ensures step == Lock(c) && c in s.calls && s.calls[c].Waiting? && s.calls[c].key == k ==> Holds(Apply(s, step), c, k)
  {
  }

  lemma {:induction false} HeldUntilUnlock<E>(steps: seq<Step<E>>, i: nat, j: nat, c: nat, k: string)
    requires IsRun(Init<E>(), steps) && i < j < |steps| && steps[i] == Lock(c)
    requires var si := StateAt(Init<E>(), steps, i); c in si.calls && si.calls[c].Waiting? && si.calls[c].key == k
    ensures (exists m :: i < m < j && steps[m] == Unlock(c)) || Holds(StateAt(Init<E>(), steps, j), c, k)
    decreases j
  {
    StateAtStep(Init<E>(), steps, j - 1);
    if j - 1 > i {
      OnlyUnlockLetsGo(StateAt(Init<E>(), steps, j - 1), steps[j - 1], c, k);
      HeldUntilUnlock(steps, i, j - 1, c, k);
    } else {
      LockHolds(StateAt(Init<E>(), steps, i), c, k);
    }
  }

  lemma LockHolds<E>(s: State<E>, c: nat, k: string)
    requires Enabled(s, Lock(c)) && s.calls[c].key == k
    ensures Holds(Apply(s, Lock(c)), c, k)
  {
  }

  // ---------------------------------------------------------------- draining

  // Steps still owed: one for every call not finished, one more before its Unlock, one more
  // before its Lock.
  ghost function Work<E>(s: State<E>): nat {
    |ToExit(s.calls)| + |ToUnlock(s.calls)| + |ToLock(s.calls)|
  }

  ghost function ToExit<E>(calls: map<nat, Call<E>>): set<nat> { set c | c in calls && calls[c].Active() }
  ghost function ToUnlock<E>(calls: map<nat, Call<E>>): set<nat> { set c | c in calls && (calls[c].Waiting? || calls[c].Holding?) }
  ghost function ToLock<E>(calls: map<nat, Call<E>>): set<nat> { set c | c in calls && calls[c].Waiting? }

  predicate Drains<E>(step: Step<E>) { step.Lock? || step.Unlock? || step.Exit? }

  ghost predicate NothingToSchedule<E>(s: State<E>) {
    forall c: nat :: !Enabled(s, Lock(c)) && !Enabled(s, Unlock(c)) && !Enabled(s, Exit(c))
  }

  lemma WorkUpdate<E>(calls: map<nat, Call<E>>, c: nat, x: Call<E>)
    ensures ToExit(calls[c := x]) == if x.Active() then ToExit(calls) + {c} else ToExit(calls) - {c}
    ensures ToUnlock(calls[c := x]) == if x.Waiting? || x.Holding? then ToUnlock(calls) + {c} else ToUnlock(calls) - {c}
    ensures ToLock(calls[c := x]) == if x.Waiting? then ToLock(calls) + {c} else ToLock(calls) - {c}
  {
  }

  lemma DrainStep<E>(s: State<E>, step: Step<E>)
    requires Enabled(s, step) && Drains(step)
    ensures Work(Apply(s, step)) == Work(s) - 1
  {
    var c := step.call;
    WorkUpdate(s.calls, c, Apply(s, step).calls[c]);
    SizeUpdate(ToExit(s.calls), c);
    SizeUpdate(ToUnlock(s.calls), c);
    SizeUpdate(ToLock(s.calls), c);
    assert c in ToExit(s.calls);
    assert c in ToUnlock(s.calls) <==> s.calls[c].Waiting? || s.calls[c].Holding?;
    assert c in ToLock(s.calls) <==> s.calls[c].Waiting?;
  }

  // Once no new call arrives, every schedule of the outstanding calls has the same finite
  // length to go, and the only state with nothing left to schedule is the empty table.
  lemma {:induction false} EveryScheduleDrains<E>(s: State<E>, steps: seq<Step<E>>)
    requires Inv(s) && IsRun(s, steps) && (forall i :: 0 <= i < |steps| ==> Drains(steps[i]))
    ensures |steps| + Work(After(s, steps)) == Work(s)
    ensures NothingToSchedule(After(s, steps)) ==> After(s, steps).locks == map[] && Work(After(s, steps)) == 0
    decreases |steps|
  {
    if steps != [] {
      DrainStep(s, steps[0]);
      StepKeepsInv(s, steps[0]);
      EveryScheduleDrains(Apply(s, steps[0]), steps[1..]);
    } else if NothingToSchedule(s) {
      forall c | c in s.calls ensures s.calls[c].Finished? {
        assert !Enabled(s, Exit(c)) && !Enabled(s, Unlock(c));
        if s.calls[c].Waiting? {
          var _ := WaiterHasProgress(s, c);
        }
      }
      EmptyIffIdle(s);
    }
  }
}
