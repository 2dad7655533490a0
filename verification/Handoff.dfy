/**
 The bootstrap-to-handoff state machine: four ordered tiers, each pending, unblocked or handed
 off.  One tick is described by the log of what it did; every predicate, apply, health check and
 write is an answer of the outside world.
 */
module Handoff {
  import opened Options

  datatype Tier = Cilium | ESO | ArgoCD | Apps
  datatype Phase = Pending | Unblocked | HandedOff

  const ORDER: seq<Tier> := [Cilium, ESO, ArgoCD, Apps]

  datatype Phases = Phases(cilium: Phase, eso: Phase, argocd: Phase, apps: Phase) {
    function Get(t: Tier): Phase {
      match t case Cilium => cilium case ESO => eso case ArgoCD => argocd case Apps => apps
    }

    function Set(t: Tier, p: Phase): Phases {
      match t
      case Cilium => this.(cilium := p)
      case ESO => this.(eso := p)
      case ArgoCD => this.(argocd := p)
      case Apps => this.(apps := p)
    }
  }

  const ALL_PENDING := Phases(Pending, Pending, Pending, Pending)

  predicate AllHandedOff(p: Phases) { forall t: Tier :: p.Get(t) == HandedOff }

  // ---------------------------------------------------------------- the outside world

  datatype Probe = Up | Down | Failing

  // What one tier meets in one tick: the pre-check, the apply, the bounded wait after it, and the
  // ArgoCD health seen when the tier tries to hand off.
  datatype TierAnswers = TierAnswers(check: Probe, applyOk: bool, waitOk: bool, healthy: bool)

  datatype TickAnswers = TickAnswers(configOk: bool, watchdogHealthy: bool, namespacesOk: bool, tiers: Tier -> TierAnswers)

  // ---------------------------------------------------------------- one tick

  datatype Event =
    | Reset                     // watchdog: every tier back to pending
    | Namespaces                // ensureNamespaces was called
    | Skipped(tier: Tier)       // handed off already, not touched
    | Applied(tier: Tier)       // apply was called, whether or not it worked
    | SeenUp(tier: Tier)        // the unblock predicate was observed true
    | Moved(tier: Tier, to: Phase)

  function Step(p: Phases, e: Event): Phases {
    match e
    case Reset => ALL_PENDING
    case Moved(t, to) => p.Set(t, to)
    case _ => p
  }

  function Replay(p: Phases, log: seq<Event>): Phases
    decreases |log|
  {
    if log == [] then p else Replay(Step(p, log[0]), log[1..])
  }

  // A log and whether the next tier may run.
  datatype Part = Part(log: seq<Event>, go: bool)

  // advanceUnblocked, then maybeHandoff, once the tier has been seen up.
  function Advance(p: Phase, t: Tier, healthy: bool): seq<Event> {
    [SeenUp(t)]
    + (if p == Pending then [Moved(t, Unblocked)] else [])
    + (if healthy then [Moved(t, HandedOff)] else [])
  }

  function RunTier(p: Phase, t: Tier, a: TierAnswers): Part {
    if p == HandedOff then Part([Skipped(t)], true)
    else match a.check
      case Failing => Part([], false)
      case Up => Part(Advance(p, t, a.healthy), true)
      case Down =>
        if a.applyOk && a.waitOk then Part([Applied(t)] + Advance(p, t, a.healthy), true)
        else Part([Applied(t)], false)
  }

  // The phases one tier leaves behind.
  function AfterTier(p: Phases, t: Tier, a: TierAnswers): Phases {
    if p.Get(t) == HandedOff || !RunTier(p.Get(t), t, a).go then p
    else p.Set(t, if a.healthy then HandedOff else Unblocked)
  }

  // The tiers from position i of ORDER on, each gating the next.
  function RunTiers(p: Phases, ans: TickAnswers, i: nat): seq<Event>
    requires i <= |ORDER|
    decreases |ORDER| - i
  {
    if i == |ORDER| then []
    else
      var t := ORDER[i];
      var part := RunTier(p.Get(t), t, ans.tiers(t));
      part.log + if part.go then RunTiers(AfterTier(p, t, ans.tiers(t)), ans, i + 1) else []
  }

  function Bootstrap(p: Phases, ans: TickAnswers): seq<Event> {
    [Namespaces] + if ans.namespacesOk then RunTiers(p, ans, 0) else []
  }

  function TickLog(p: Phases, ans: TickAnswers): seq<Event> {
    if !ans.configOk then []
    else if !AllHandedOff(p) then Bootstrap(p, ans)
    else if ans.watchdogHealthy then []
    else [Reset] + Bootstrap(ALL_PENDING, ans)
  }

  function Tick(p: Phases, ans: TickAnswers): Phases { Replay(p, TickLog(p, ans)) }

  // ---------------------------------------------------------------- lives of the controller

  // The persisted status, as the phases it holds; None while there is none to restore.
  datatype System = System(phases: Phases, stored: Option<Phases>)
  // A restart starts all pending and then reads the status back, if it can.
  datatype Life = Ticked(ans: TickAnswers, persisted: bool) | Restarted(readable: bool)

  const START := System(ALL_PENDING, None)

  function Live(s: System, l: Life): System {
    match l
    case Ticked(ans, persisted) =>
      var p := Tick(s.phases, ans);
      System(p, if persisted then Some(p) else s.stored)
    case Restarted(readable) =>
      s.(phases := if readable && s.stored.Some? then s.stored.value else ALL_PENDING)
  }

  function Lives(s: System, lives: seq<Life>): System
    decreases |lives|
  {
    if lives == [] then s else Lives(Live(s, lives[0]), lives[1..])
  }

  // ---------------------------------------------------------------- the non-pending tiers are a prefix

  ghost predicate Ordered(p: Phases) {
    forall t: Tier, u: Tier :: Rank(t) < Rank(u) && p.Get(u) != Pending ==> p.Get(t) != Pending
  }

  // ---------------------------------------------------------------- what every log satisfies

  predicate Earlier(s: Phase, t: Phase) { (s == Pending && t != Pending) || (s == Unblocked && t == HandedOff) }

  // Where t stands in ORDER.
  function Rank(t: Tier): nat { match t case Cilium => 0 case ESO => 1 case ArgoCD => 2 case Apps => 3 }

  // One event that is right at phases p, when the tiers in `settled` have been seen up or skipped:
  // a reset needs four handed-off tiers; a move goes forward; an apply needs a tier not handed off,
  // with every earlier tier settled.
  ghost predicate Right(p: Phases, settled: set<Tier>, e: Event) {
    match e
    case Reset => AllHandedOff(p)
    case Moved(t, to) => Earlier(p.Get(t), to)
    case Applied(t) => p.Get(t) != HandedOff && forall u: Tier :: Rank(u) < Rank(t) ==> u in settled
    case Skipped(t) => p.Get(t) == HandedOff
    case _ => true
  }

  function Settle(settled: set<Tier>, e: Event): set<Tier> {
    if e.SeenUp? || e.Skipped? then settled + {e.tier} else settled
  }

  ghost predicate AllRight(p: Phases, settled: set<Tier>, log: seq<Event>)
    decreases |log|
  {
    log == [] || (Right(p, settled, log[0]) && AllRight(Step(p, log[0]), Settle(settled, log[0]), log[1..]))
  }

  function SettledBy(settled: set<Tier>, log: seq<Event>): set<Tier>
    decreases |log|
  {
    if log == [] then settled else SettledBy(Settle(settled, log[0]), log[1..])
  }

  lemma Cons(p: Phases, settled: set<Tier>, e: Event, rest: seq<Event>)
    ensures Replay(p, [e] + rest) == Replay(Step(p, e), rest)
    ensures SettledBy(settled, [e] + rest) == SettledBy(Settle(settled, e), rest)
    ensures AllRight(p, settled, [e] + rest) <==> Right(p, settled, e) && AllRight(Step(p, e), Settle(settled, e), rest)
  {
    assert ([e] + rest)[1..] == rest;
  }

  lemma {:induction false} Concat(p: Phases, settled: set<Tier>, a: seq<Event>, b: seq<Event>)
    ensures Replay(p, a + b) == Replay(Replay(p, a), b)
    ensures SettledBy(settled, a + b) == SettledBy(SettledBy(settled, a), b)
    ensures AllRight(p, settled, a + b) <==> AllRight(p, settled, a) && AllRight(Replay(p, a), SettledBy(settled, a), b)
    decreases |a|
  {
    if a == [] {
      assert a + b == b;
    } else {
      assert (a + b)[1..] == a[1..] + b;
      Concat(Step(p, a[0]), Settle(settled, a[0]), a[1..], b);
    }
  }

  // Once a tier is seen up it leaves pending, and is handed off exactly when ArgoCD is healthy.
  lemma AdvanceEffect(p: Phases, settled: set<Tier>, t: Tier, healthy: bool)
    requires p.Get(t) != HandedOff
    ensures var log := Advance(p.Get(t), t, healthy);
      && Replay(p, log) == p.Set(t, if healthy then HandedOff else Unblocked)
      && SettledBy(settled, log) == settled + {t}
      && AllRight(p, settled, log)
  {
    var unblock := if p.Get(t) == Pending then [Moved(t, Unblocked)] else [];
    var handoff := if healthy then [Moved(t, HandedOff)] else [];
    assert Advance(p.Get(t), t, healthy) == [SeenUp(t)] + (unblock + handoff);
    Cons(p, settled, SeenUp(t), unblock + handoff);
    Concat(p, settled + {t}, unblock, handoff);
    assert unblock != [] ==> unblock[1..] == [];
    assert handoff != [] ==> handoff[1..] == [];
  }

  // Running one tier moves that tier alone, forward, and lets the next tier run only once this one
  // is settled and no longer pending.
  lemma TierEffect(p: Phases, settled: set<Tier>, t: Tier, a: TierAnswers)
    requires forall u: Tier :: Rank(u) < Rank(t) ==> u in settled
    ensures var part := RunTier(p.Get(t), t, a);
      var q := Replay(p, part.log);
      && AllRight(p, settled, part.log)
      && (part.go ==> SettledBy(settled, part.log) == settled + {t})
      && q == AfterTier(p, t, a)
  {
    if p.Get(t) != HandedOff {
      AdvanceEffect(p, settled, t, a.healthy);
      Cons(p, settled, Applied(t), Advance(p.Get(t), t, a.healthy));
      Cons(p, settled, Applied(t), []);
      assert [Applied(t)] + [] == [Applied(t)];
    } else {
      Cons(p, settled, Skipped(t), []);
      assert [Skipped(t)] + [] == [Skipped(t)];
    }
  }

  predicate ReadyAt(p: Phases, settled: set<Tier>, i: nat) {
    forall t: Tier :: Rank(t) < i ==> t in settled && p.Get(t) != Pending
  }

  lemma ReadyNext(p: Phases, settled: set<Tier>, i: nat, to: Phase)
    requires i < |ORDER| && ReadyAt(p, settled, i) && to != Pending
    ensures ReadyAt(p.Set(ORDER[i], to), settled + {ORDER[i]}, i + 1)
    ensures Ordered(p) ==> Ordered(p.Set(ORDER[i], to))
  {
    assert Rank(ORDER[i]) == i;
  }

  // The sequence from tier i on, when the earlier tiers are settled and no longer pending.
  lemma {:induction false} TiersEffect(p: Phases, settled: set<Tier>, ans: TickAnswers, i: nat)
    requires i <= |ORDER| && ReadyAt(p, settled, i)
    ensures AllRight(p, settled, RunTiers(p, ans, i))
    ensures Ordered(p) ==> Ordered(Replay(p, RunTiers(p, ans, i)))
    decreases |ORDER| - i
  {
    if i < |ORDER| {
      var t := ORDER[i];
      assert Rank(t) == i;
      var part, next := RunTier(p.Get(t), t, ans.tiers(t)), AfterTier(p, t, ans.tiers(t));
      TierEffect(p, settled, t, ans.tiers(t));
      Concat(p, settled, part.log, if part.go then RunTiers(next, ans, i + 1) else []);
      if part.go {
        assert next == p.Set(t, next.Get(t));
        ReadyNext(p, settled, i, next.Get(t));
        TiersEffect(next, settled + {t}, ans, i + 1);
      }
    }
  }

  lemma TickEffect(p: Phases, ans: TickAnswers)
    ensures AllRight(p, {}, TickLog(p, ans))
    ensures Ordered(p) ==> Ordered(Tick(p, ans))
  {
    if ans.configOk && !(AllHandedOff(p) && ans.watchdogHealthy) {
      var start := if AllHandedOff(p) then ALL_PENDING else p;
      var tiers := if ans.namespacesOk then RunTiers(start, ans, 0) else [];
      TiersEffect(start, {}, ans, 0);
      Cons(start, {}, Namespaces, tiers);
      Cons(p, {}, Reset, Bootstrap(start, ans));
    }
  }

  // The phases after the tiers from position i on, and after a tick, without the log.
  function AfterTiers(p: Phases, ans: TickAnswers, i: nat): Phases
    requires i <= |ORDER|
    decreases |ORDER| - i
  {
    if i == |ORDER| then p
    else
      var t := ORDER[i];
      var next := AfterTier(p, t, ans.tiers(t));
      if RunTier(p.Get(t), t, ans.tiers(t)).go then AfterTiers(next, ans, i + 1) else next
  }

  function AfterTick(p: Phases, ans: TickAnswers): Phases {
    if !ans.configOk || (AllHandedOff(p) && ans.watchdogHealthy) then p
    else if ans.namespacesOk then AfterTiers(SequenceStart(p), ans, 0)
    else SequenceStart(p)
  }

  // Where the ordered sequence of a tick starts.
  function SequenceStart(p: Phases): Phases { if AllHandedOff(p) then ALL_PENDING else p }

  lemma {:induction false} ReplayTiers(p: Phases, ans: TickAnswers, i: nat)
    requires i <= |ORDER|
    ensures Replay(p, RunTiers(p, ans, i)) == AfterTiers(p, ans, i)
    decreases |ORDER| - i
  {
    if i < |ORDER| {
      var t := ORDER[i];
      TierThenRest(p, ans, i);
      ReplayTiers(AfterTier(p, t, ans.tiers(t)), ans, i + 1);
    }
  }

  lemma ReplayTick(p: Phases, ans: TickAnswers)
    ensures Tick(p, ans) == AfterTick(p, ans)
  {
    var start := SequenceStart(p);
    ReplayTiers(start, ans, 0);
    Cons(start, {}, Namespaces, if ans.namespacesOk then RunTiers(start, ans, 0) else []);
    Cons(p, {}, Reset, Bootstrap(start, ans));
  }

  // ---------------------------------------------------------------- theorems about ticks

  lemma {:induction false} AtIndex(p: Phases, settled: set<Tier>, log: seq<Event>, k: nat)
    requires AllRight(p, settled, log) && k < |log|
    ensures Right(Replay(p, log[..k]), SettledBy(settled, log[..k]), log[k])
    ensures Replay(p, log[..k + 1]) == Step(Replay(p, log[..k]), log[k])
  {
    assert log == log[..k] + log[k..];
    Concat(p, settled, log[..k], log[k..]);
    assert log[..k + 1] == log[..k] + [log[k]];
    Concat(p, settled, log[..k], [log[k]]);
    assert [log[k]][1..] == [];
  }

  lemma {:induction false} SettledBecause(log: seq<Event>, t: Tier)
    requires t in SettledBy({}, log)
    ensures SeenUp(t) in log || Skipped(t) in log
    decreases |log|
  {
    var n := |log| - 1;
    if log != [] {
      assert log == log[..n] + [log[n]];
      Concat(ALL_PENDING, {}, log[..n], [log[n]]);
      assert [log[n]][1..] == [];
      if t in SettledBy({}, log[..n]) {
        SettledBecause(log[..n], t);
      }
    }
  }

  // A tier is applied in a tick only while it is not handed off, and only after every earlier tier
  // was, in that same tick, seen up or found handed off.
  lemma AppliesAreGated(p: Phases, ans: TickAnswers, k: nat, t: Tier, u: Tier)
    requires k < |TickLog(p, ans)| && TickLog(p, ans)[k] == Applied(t) && Rank(u) < Rank(t)
    ensures Replay(p, TickLog(p, ans)[..k]).Get(t) != HandedOff
    ensures SeenUp(u) in TickLog(p, ans)[..k] || Skipped(u) in TickLog(p, ans)[..k]
  {
    TickEffect(p, ans);
    AtIndex(p, {}, TickLog(p, ans), k);
    SettledBecause(TickLog(p, ans)[..k], u);
  }

  // Within a tick each single event leaves the phases alone, moves one tier strictly forward, or
  // is the reset, which takes four handed-off tiers to pending at once.
  lemma PhasesMoveForward(p: Phases, ans: TickAnswers, k: nat)
    requires k < |TickLog(p, ans)|
    ensures var q, r := Replay(p, TickLog(p, ans)[..k]), Replay(p, TickLog(p, ans)[..k + 1]);
      || r == q
      || (AllHandedOff(q) && r == ALL_PENDING)
      || OneTierForward(q, r)
  {
    TickEffect(p, ans);
    AtIndex(p, {}, TickLog(p, ans), k);
    RightStepForward(Replay(p, TickLog(p, ans)[..k]), SettledBy({}, TickLog(p, ans)[..k]), TickLog(p, ans)[k]);
  }

  // Phases r differ from q in one tier, which moved strictly forward.
  ghost predicate OneTierForward(q: Phases, r: Phases) {
    exists t: Tier :: Earlier(q.Get(t), r.Get(t)) && r == q.Set(t, r.Get(t))
  }

  lemma RightStepForward(q: Phases, settled: set<Tier>, e: Event)
    requires Right(q, settled, e)
    ensures var r := Step(q, e); r == q || (AllHandedOff(q) && r == ALL_PENDING) || OneTierForward(q, r)
  {
    if e.Moved? {
      assert Step(q, e).Get(e.tier) == e.to;
    }
  }

  // ---------------------------------------------------------------- what a tick does, from its answers

  // A tier at this phase lets the next one run: handed off, found up, or applied and then up in time.
  predicate LetsOn(p: Phase, a: TierAnswers) {
    p == HandedOff || a.check == Up || (a.check == Down && a.applyOk && a.waitOk)
  }

  // The tick gets to tier t.
  ghost predicate Reaches(p: Phases, ans: TickAnswers, t: Tier) {
    && ans.configOk && ans.namespacesOk && !(AllHandedOff(p) && ans.watchdogHealthy)
    && forall u: Tier :: Rank(u) < Rank(t) ==> LetsOn(SequenceStart(p).Get(u), ans.tiers(u))
  }

  // Where an event stands in a tick: the reset, the namespaces, then tier by tier.
  function Place(e: Event): nat {
    match e
    case Reset => 0
    case Namespaces => 1
    case Skipped(t) => 6 * Rank(t) + 2
    case Applied(t) => 6 * Rank(t) + 3
    case SeenUp(t) => 6 * Rank(t) + 4
    case Moved(t, to) => 6 * Rank(t) + match to case Unblocked => 5 case HandedOff => 6 case Pending => 7
  }

  ghost predicate Increasing(log: seq<Event>) {
    forall i, j :: 0 <= i < j < |log| ==> Place(log[i]) < Place(log[j])
  }

  // The events of tier t in a log: all that a tier reached at this phase, with these answers, does.
  ghost predicate Does(log: seq<Event>, t: Tier, reached: bool, p: Phase, a: TierAnswers) {
    var up := reached && p != HandedOff && LetsOn(p, a);
    && (Skipped(t) in log <==> reached && p == HandedOff)
    && (Applied(t) in log <==> reached && p != HandedOff && a.check == Down)
    && (SeenUp(t) in log <==> up)
    && (Moved(t, Unblocked) in log <==> up && p == Pending)
    && (Moved(t, HandedOff) in log <==> up && a.healthy)
    && Moved(t, Pending) !in log
  }

  ghost predicate Within(log: seq<Event>, lo: nat, hi: nat) {
    forall i :: 0 <= i < |log| ==> lo <= Place(log[i]) < hi
  }

  lemma AdvanceDoes(p: Phase, t: Tier, healthy: bool)
    requires p != HandedOff
    ensures var log := Advance(p, t, healthy);
      && Increasing(log) && Within(log, 6 * Rank(t) + 4, 6 * Rank(t) + 8)
      && SeenUp(t) in log && (Moved(t, Unblocked) in log <==> p == Pending) && (Moved(t, HandedOff) in log <==> healthy)
      && Moved(t, Pending) !in log && Skipped(t) !in log && Applied(t) !in log
  {
    var log := Advance(p, t, healthy);
    assert log[0] == SeenUp(t);
    if p == Pending { assert log[1] == Moved(t, Unblocked); }
    if healthy { assert log[|log| - 1] == Moved(t, HandedOff); }
  }

  ghost predicate Silent(log: seq<Event>, t: Tier) {
    Skipped(t) !in log && Applied(t) !in log && SeenUp(t) !in log && forall to: Phase :: Moved(t, to) !in log
  }

  lemma SilentDoes(log: seq<Event>, t: Tier, p: Phase, a: TierAnswers)
    ensures Silent(log, t) ==> Does(log, t, false, p, a)
  {
  }

  lemma DoesAfter(x: seq<Event>, y: seq<Event>, t: Tier, reached: bool, p: Phase, a: TierAnswers)
    requires Silent(x, t) && Does(y, t, reached, p, a)
    ensures Does(x + y, t, reached, p, a)
  {
    forall e ensures e in x + y <==> e in x || e in y {}
  }

  lemma DoesBefore(x: seq<Event>, y: seq<Event>, t: Tier, reached: bool, p: Phase, a: TierAnswers)
    requires Does(x, t, reached, p, a) && Silent(y, t)
    ensures Does(x + y, t, reached, p, a)
  {
    forall e ensures e in x + y <==> e in x || e in y {}
  }

  lemma SeenDoes(p: Phase, t: Tier, a: TierAnswers)
    requires p != HandedOff && LetsOn(p, a)
    ensures a.check == Up ==> Does(Advance(p, t, a.healthy), t, true, p, a)
    ensures a.check == Down ==> Does([Applied(t)] + Advance(p, t, a.healthy), t, true, p, a)
  {
    var log := Advance(p, t, a.healthy);
    AdvanceDoes(p, t, a.healthy);
    assert ([Applied(t)] + log)[0] == Applied(t);
    forall e ensures e in [Applied(t)] + log <==> e == Applied(t) || e in log {}
  }

  lemma OneTierDoes(p: Phase, t: Tier, a: TierAnswers)
    ensures Does(RunTier(p, t, a).log, t, true, p, a)
    ensures RunTier(p, t, a).go <==> LetsOn(p, a)
  {
    if p != HandedOff && LetsOn(p, a) { SeenDoes(p, t, a); }
  }

  lemma OneTierInOrder(p: Phase, t: Tier, a: TierAnswers)
    ensures Increasing(RunTier(p, t, a).log) && Within(RunTier(p, t, a).log, 6 * Rank(t) + 2, 6 * Rank(t) + 8)
  {
    if p != HandedOff {
      AdvanceDoes(p, t, a.healthy);
      JoinInOrder([Applied(t)], Advance(p, t, a.healthy), 6 * Rank(t) + 2, 6 * Rank(t) + 4, 6 * Rank(t) + 8);
    }
  }

  // Two stretches of a log, one place after the other.
  lemma JoinInOrder(a: seq<Event>, b: seq<Event>, lo: nat, mid: nat, hi: nat)
    requires Increasing(a) && Increasing(b) && Within(a, lo, mid) && Within(b, mid, hi) && lo <= mid <= hi
    ensures Increasing(a + b) && Within(a + b, lo, hi)
  {
  }

  lemma {:induction false} TiersInOrder(p: Phases, ans: TickAnswers, i: nat)
    requires i <= |ORDER|
    ensures Increasing(RunTiers(p, ans, i)) && Within(RunTiers(p, ans, i), 6 * i + 2, 26)
    decreases |ORDER| - i
  {
    if i < |ORDER| {
      var t := ORDER[i];
      var part, next := RunTier(p.Get(t), t, ans.tiers(t)), AfterTier(p, t, ans.tiers(t));
      assert Rank(t) == i;
      OneTierInOrder(p.Get(t), t, ans.tiers(t));
      TiersInOrder(next, ans, i + 1);
      JoinInOrder(part.log, if part.go then RunTiers(next, ans, i + 1) else [], 6 * i + 2, 6 * i + 8, 26);
    }
  }

  ghost predicate Opens(p: Phases, ans: TickAnswers, i: nat, t: Tier) {
    forall u: Tier :: i <= Rank(u) < Rank(t) ==> LetsOn(p.Get(u), ans.tiers(u))
  }

  lemma {:induction false} TiersDo(p: Phases, ans: TickAnswers, i: nat, t: Tier)
    requires i <= Rank(t)
    ensures Does(RunTiers(p, ans, i), t, Opens(p, ans, i, t), p.Get(t), ans.tiers(t))
    decreases |ORDER| - i
  {
    var u := ORDER[i];
    var part, next := RunTier(p.Get(u), u, ans.tiers(u)), AfterTier(p, u, ans.tiers(u));
    var rest := if part.go then RunTiers(next, ans, i + 1) else [];
    assert Rank(u) == i;
    if u == t {
      TiersInOrder(next, ans, i + 1);
      NoneBelow(rest, 6 * i + 8, t);
      ThisTierDoes(p, ans, i, t, rest);
    } else {
      if part.go { TiersDo(next, ans, i + 1, t); }
      LaterTierDoes(p, ans, i, u, t, rest);
    }
  }

  lemma ThisTierDoes(p: Phases, ans: TickAnswers, i: nat, t: Tier, rest: seq<Event>)
    requires Rank(t) == i && Silent(rest, t)
    ensures Does(RunTier(p.Get(t), t, ans.tiers(t)).log + rest, t, Opens(p, ans, i, t), p.Get(t), ans.tiers(t))
  {
    OneTierDoes(p.Get(t), t, ans.tiers(t));
    DoesBefore(RunTier(p.Get(t), t, ans.tiers(t)).log, rest, t, true, p.Get(t), ans.tiers(t));
  }

  lemma LaterTierDoes(p: Phases, ans: TickAnswers, i: nat, u: Tier, t: Tier, rest: seq<Event>)
    requires Rank(u) == i < Rank(t)
    requires var part, next := RunTier(p.Get(u), u, ans.tiers(u)), AfterTier(p, u, ans.tiers(u));
      if part.go then Does(rest, t, Opens(next, ans, i + 1, t), next.Get(t), ans.tiers(t)) else rest == []
    ensures Does(RunTier(p.Get(u), u, ans.tiers(u)).log + rest, t, Opens(p, ans, i, t), p.Get(t), ans.tiers(t))
  {
    var part, next := RunTier(p.Get(u), u, ans.tiers(u)), AfterTier(p, u, ans.tiers(u));
    OneTierDoes(p.Get(u), u, ans.tiers(u));
    OneTierInOrder(p.Get(u), u, ans.tiers(u));
    NoneAbove(part.log, 6 * i + 8, t);
    NextOpens(p, next, ans, i, u, t);
    if !part.go { SilentDoes([], t, p.Get(t), ans.tiers(t)); }
    DoesAfter(part.log, rest, t, Opens(p, ans, i, t), p.Get(t), ans.tiers(t));
  }

  lemma NextOpens(p: Phases, next: Phases, ans: TickAnswers, i: nat, u: Tier, t: Tier)
    requires Rank(u) == i < Rank(t) && forall v: Tier :: v != u ==> next.Get(v) == p.Get(v)
    ensures Opens(p, ans, i, t) <==> LetsOn(p.Get(u), ans.tiers(u)) && Opens(next, ans, i + 1, t)
  {
    forall v: Tier ensures Rank(v) == i <==> v == u {}
  }

  lemma NoneBelow(log: seq<Event>, lo: nat, t: Tier)
    requires Within(log, lo, 26) && 6 * Rank(t) + 8 <= lo
    ensures Silent(log, t)
  {
  }

  lemma NoneAbove(log: seq<Event>, hi: nat, t: Tier)
    requires Within(log, 0, hi) && hi <= 6 * Rank(t) + 2
    ensures Silent(log, t)
  {
  }

  // Every event of a tick, from its phases and answers: the reset and the namespaces, and for each tier
  // whether it is skipped, applied, seen up and moved.
  lemma TickDoes(p: Phases, ans: TickAnswers, t: Tier)
    ensures Does(TickLog(p, ans), t, Reaches(p, ans, t), SequenceStart(p).Get(t), ans.tiers(t))
    ensures Reset in TickLog(p, ans) <==> ans.configOk && AllHandedOff(p) && !ans.watchdogHealthy
    ensures Namespaces in TickLog(p, ans) <==> ans.configOk && !(AllHandedOff(p) && ans.watchdogHealthy)
  {
    var start := SequenceStart(p);
    var tiers := if ans.namespacesOk then RunTiers(start, ans, 0) else [];
    TiersWithin(start, ans, tiers);
    if ans.configOk && !(AllHandedOff(p) && ans.watchdogHealthy) {
      var front := if AllHandedOff(p) then [Reset, Namespaces] else [Namespaces];
      TickIsFrontAndTiers(p, ans, front, tiers);
      FrontAndTiers(front, tiers, t);
      if ans.namespacesOk { TiersDo(start, ans, 0, t); } else { SilentDoes([], t, start.Get(t), ans.tiers(t)); }
      ReachesOpens(p, ans, t);
      DoesAfter(front, tiers, t, Reaches(p, ans, t), start.Get(t), ans.tiers(t));
    } else {
      SilentDoes([], t, start.Get(t), ans.tiers(t));
    }
  }

  lemma TiersWithin(start: Phases, ans: TickAnswers, tiers: seq<Event>)
    requires tiers == if ans.namespacesOk then RunTiers(start, ans, 0) else []
    ensures Within(tiers, 2, 26)
  {
    TiersInOrder(start, ans, 0);
  }

  lemma TickIsFrontAndTiers(p: Phases, ans: TickAnswers, front: seq<Event>, tiers: seq<Event>)
    requires ans.configOk && !(AllHandedOff(p) && ans.watchdogHealthy)
    requires front == if AllHandedOff(p) then [Reset, Namespaces] else [Namespaces]
    requires tiers == if ans.namespacesOk then RunTiers(SequenceStart(p), ans, 0) else []
    ensures TickLog(p, ans) == front + tiers
  {
    var boot := Bootstrap(SequenceStart(p), ans);
    BootstrapIs(SequenceStart(p), ans, tiers);
    assert TickLog(p, ans) == if AllHandedOff(p) then [Reset] + boot else boot;
    TwoInFront(tiers);
  }

  lemma BootstrapIs(start: Phases, ans: TickAnswers, tiers: seq<Event>)
    requires tiers == if ans.namespacesOk then RunTiers(start, ans, 0) else []
    ensures Bootstrap(start, ans) == [Namespaces] + tiers
  {
  }

  lemma TwoInFront(tiers: seq<Event>)
    ensures [Reset] + ([Namespaces] + tiers) == [Reset, Namespaces] + tiers
  {
  }

  lemma ReachesOpens(p: Phases, ans: TickAnswers, t: Tier)
    requires ans.configOk && !(AllHandedOff(p) && ans.watchdogHealthy)
    ensures Reaches(p, ans, t) <==> ans.namespacesOk && Opens(SequenceStart(p), ans, 0, t)
  {
  }

  lemma FrontAndTiers(front: seq<Event>, tiers: seq<Event>, t: Tier)
    requires (front == [Reset, Namespaces] || front == [Namespaces]) && Within(tiers, 2, 26)
    ensures Namespaces in front + tiers && (Reset in front + tiers <==> |front| == 2) && Silent(front, t)
  {
    if |front| == 2 { assert (front + tiers)[0] == Reset; }
    assert (front + tiers)[|front| - 1] == Namespaces;
  }

  // Each event happens at most once in a tick, and in this order.
  lemma TickInOrder(p: Phases, ans: TickAnswers)
    ensures Increasing(TickLog(p, ans))
  {
    var start := SequenceStart(p);
    var tiers := if ans.namespacesOk then RunTiers(start, ans, 0) else [];
    TiersInOrder(start, ans, 0);
    JoinInOrder([Namespaces], tiers, 1, 2, 26);
    JoinInOrder([Reset], [Namespaces] + tiers, 0, 1, 26);
  }

  // A tier that a tick applies was found down in that tick, and is applied once.
  lemma AppliedWasDown(p: Phases, ans: TickAnswers, k: nat, t: Tier)
    requires k < |TickLog(p, ans)| && TickLog(p, ans)[k] == Applied(t)
    ensures ans.tiers(t).check == Down && SequenceStart(p).Get(t) != HandedOff
    ensures forall j :: 0 <= j < |TickLog(p, ans)| && TickLog(p, ans)[j] == Applied(t) ==> j == k
  {
    TickDoes(p, ans, t);
    TickInOrder(p, ans);
  }

  // ---------------------------------------------------------------- theorems about lives

  // After any ticks and restarts, with any answers and any lost writes, the tiers that are not
  // pending are a prefix of Cilium, ESO, ArgoCD, Apps; so are those of the stored snapshot.
  lemma {:induction false} AlwaysOrdered(s: System, lives: seq<Life>)
    requires Ordered(s.phases) && (s.stored.Some? ==> Ordered(s.stored.value))
    ensures var e := Lives(s, lives); Ordered(e.phases) && (e.stored.Some? ==> Ordered(e.stored.value))
    decreases |lives|
  {
    if lives != [] {
      if lives[0].Ticked? { TickEffect(s.phases, lives[0].ans); }
      AlwaysOrdered(Live(s, lives[0]), lives[1..]);
    }
  }

  // What one life step did.
  function Did(s: System, l: Life): seq<Event> { if l.Ticked? then TickLog(s.phases, l.ans) else [] }

  // Everything the ticks did, in order.
  function History(s: System, lives: seq<Life>): seq<Event>
    decreases |lives|
  {
    if lives == [] then []
    else Did(s, lives[0]) + History(Live(s, lives[0]), lives[1..])
  }

  // No restart takes back the handoff of t: where t is handed off in memory, it is in what is restored.
  ghost predicate KeepsHandoff(s: System, lives: seq<Life>, t: Tier)
    decreases |lives|
  {
    lives == [] || (
      && (lives[0].Restarted? && s.phases.Get(t) == HandedOff ==> Live(s, lives[0]).phases.Get(t) == HandedOff)
      && KeepsHandoff(Live(s, lives[0]), lives[1..], t))
  }

  const ALL_TIERS := {Cilium, ESO, ArgoCD, Apps}

  // Inside a log, a tier handed off at i is still handed off at j, or there was a reset in between.
  lemma {:induction false} StaysHandedOff(p: Phases, log: seq<Event>, i: nat, j: nat, t: Tier)
    requires AllRight(p, {}, log) && i <= j <= |log| && Replay(p, log[..i]).Get(t) == HandedOff
    ensures Replay(p, log[..j]).Get(t) == HandedOff || exists k :: i <= k < j && log[k] == Reset
    decreases j
  {
    if i < j {
      AtIndex(p, {}, log, j - 1);
      StaysHandedOff(p, log, i, j - 1, t);
    }
  }

  // From position i of what a life step did: no apply of t without a reset before it; and t handed off at
  // the end of it, or a reset.
  ghost predicate Quiet(did: seq<Event>, i: nat, t: Tier, handedOff: bool)
    requires i <= |did|
  {
    && (forall j :: i <= j < |did| && did[j] == Applied(t) ==> Reset in did[i..j])
    && (handedOff || Reset in did[i..])
  }

  lemma TickIsQuiet(p: Phases, ans: TickAnswers, i: nat, t: Tier)
    requires i <= |TickLog(p, ans)| && Replay(p, TickLog(p, ans)[..i]).Get(t) == HandedOff
    ensures Quiet(TickLog(p, ans), i, t, Tick(p, ans).Get(t) == HandedOff)
  {
    var log := TickLog(p, ans);
    TickEffect(p, ans);
    forall j | i <= j < |log| && log[j] == Applied(t) ensures Reset in log[i..j] {
      StaysHandedOff(p, log, i, j, t);
      AtIndex(p, {}, log, j);
      var k :| i <= k < j && log[k] == Reset;
      assert log[i..j][k - i] == Reset;
    }
    StaysHandedOff(p, log, i, |log|, t);
    assert log[..|log|] == log;
    if k :| i <= k < |log| && log[k] == Reset {
      assert log[i..][k - i] == Reset;
    }
  }

  lemma MovedIsQuiet(p: Phases, ans: TickAnswers, i: nat, t: Tier)
    requires i < |TickLog(p, ans)| && TickLog(p, ans)[i] == Moved(t, HandedOff)
    ensures Quiet(TickLog(p, ans), i + 1, t, Tick(p, ans).Get(t) == HandedOff)
  {
    TickEffect(p, ans);
    AtIndex(p, {}, TickLog(p, ans), i);
    TickIsQuiet(p, ans, i + 1, t);
  }

  // A life step as far as one tier goes: what it did, and whether the tier is handed off after it.
  datatype Piece = Piece(did: seq<Event>, handedOff: bool)

  function Joined(pieces: seq<Piece>): seq<Event>
    decreases |pieces|
  {
    if pieces == [] then [] else pieces[0].did + Joined(pieces[1..])
  }

  // Each piece is quiet from where it has t handed off.
  ghost predicate CalmPiece(handedOff: bool, piece: Piece, t: Tier) {
    && (handedOff ==> Quiet(piece.did, 0, t, piece.handedOff))
    && (forall i :: 0 <= i < |piece.did| && piece.did[i] == Moved(t, HandedOff) ==> Quiet(piece.did, i + 1, t, piece.handedOff))
  }

  ghost predicate Calm(handedOff: bool, pieces: seq<Piece>, t: Tier)
    decreases |pieces|
  {
    pieces == [] || (CalmPiece(handedOff, pieces[0], t) && Calm(pieces[0].handedOff, pieces[1..], t))
  }

  lemma LifeIsCalm(s: System, l: Life, t: Tier)
    requires l.Restarted? && s.phases.Get(t) == HandedOff ==> Live(s, l).phases.Get(t) == HandedOff
    ensures CalmPiece(s.phases.Get(t) == HandedOff, Piece(Did(s, l), Live(s, l).phases.Get(t) == HandedOff), t)
  {
    if l.Ticked? {
      TickIsCalm(s.phases, l.ans, t);
    }
  }

  lemma TickIsCalm(p: Phases, ans: TickAnswers, t: Tier)
    ensures CalmPiece(p.Get(t) == HandedOff, Piece(TickLog(p, ans), Tick(p, ans).Get(t) == HandedOff), t)
  {
    var did := TickLog(p, ans);
    if p.Get(t) == HandedOff {
      assert did[..0] == [];
      TickIsQuiet(p, ans, 0, t);
    }
    forall i | 0 <= i < |did| && did[i] == Moved(t, HandedOff) ensures Quiet(did, i + 1, t, Tick(p, ans).Get(t) == HandedOff) {
      MovedIsQuiet(p, ans, i, t);
    }
  }

  lemma {:induction false} PiecesOf(s: System, lives: seq<Life>, t: Tier) returns (pieces: seq<Piece>)
    requires KeepsHandoff(s, lives, t)
    ensures Joined(pieces) == History(s, lives) && Calm(s.phases.Get(t) == HandedOff, pieces, t)
    decreases |lives|
  {
    if lives == [] {
      pieces := [];
    } else {
      var next := Live(s, lives[0]);
      LifeIsCalm(s, lives[0], t);
      var rest := PiecesOf(next, lives[1..], t);
      pieces := PiecesCons(Did(s, lives[0]), s.phases.Get(t) == HandedOff, next.phases.Get(t) == HandedOff, rest, t);
    }
  }

  lemma PiecesCons(did: seq<Event>, before: bool, after: bool, rest: seq<Piece>, t: Tier) returns (pieces: seq<Piece>)
    requires CalmPiece(before, Piece(did, after), t) && Calm(after, rest, t)
    ensures Joined(pieces) == did + Joined(rest) && Calm(before, pieces, t)
  {
    pieces := [Piece(did, after)] + rest;
    assert pieces[1..] == rest;
  }

  lemma QuietSum(did: seq<Event>, rest: seq<Event>, i: nat, j: nat, t: Tier, handedOff: bool)
    requires i <= |did| && i <= j < |did + rest| && (did + rest)[j] == Applied(t) && Quiet(did, i, t, handedOff)
    requires j >= |did| && handedOff ==> Reset in rest[..j - |did|]
    ensures Reset in (did + rest)[i..j]
  {
    if j < |did| {
      assert (did + rest)[i..j] == did[i..j];
    } else {
      assert (did + rest)[i..j] == did[i..] + rest[..j - |did|];
    }
  }

  lemma {:induction false} CalmUntilReset(pieces: seq<Piece>, t: Tier, j: nat)
    requires Calm(true, pieces, t) && j < |Joined(pieces)| && Joined(pieces)[j] == Applied(t)
    ensures Reset in Joined(pieces)[..j]
    decreases |pieces|
  {
    var did, rest := pieces[0].did, Joined(pieces[1..]);
    if j >= |did| && pieces[0].handedOff {
      CalmUntilReset(pieces[1..], t, j - |did|);
    }
    QuietSum(did, rest, 0, j, t, pieces[0].handedOff);
    assert (did + rest)[0..j] == (did + rest)[..j];
  }

  lemma {:induction false} CalmAfterMove(before: bool, pieces: seq<Piece>, t: Tier, i: nat, j: nat)
    requires Calm(before, pieces, t) && i < j < |Joined(pieces)|
    requires Joined(pieces)[i] == Moved(t, HandedOff) && Joined(pieces)[j] == Applied(t)
    ensures Reset in Joined(pieces)[i + 1..j]
    decreases |pieces|
  {
    var did, rest := pieces[0].did, Joined(pieces[1..]);
    if i >= |did| {
      CalmAfterMove(pieces[0].handedOff, pieces[1..], t, i - |did|, j - |did|);
      LateSlice(did, rest, i + 1, j);
    } else {
      MovedInFirst(before, pieces, t, i, j);
    }
  }

  lemma MovedInFirst(before: bool, pieces: seq<Piece>, t: Tier, i: nat, j: nat)
    requires pieces != [] && Calm(before, pieces, t) && i < j < |Joined(pieces)| && i < |pieces[0].did|
    requires Joined(pieces)[i] == Moved(t, HandedOff) && Joined(pieces)[j] == Applied(t)
    ensures Reset in Joined(pieces)[i + 1..j]
  {
    var did, rest := pieces[0].did, Joined(pieces[1..]);
    assert did[i] == Moved(t, HandedOff);
    if j >= |did| && pieces[0].handedOff {
      CalmUntilReset(pieces[1..], t, j - |did|);
    }
    QuietSum(did, rest, i + 1, j, t, pieces[0].handedOff);
  }

  lemma LateSlice(a: seq<Event>, b: seq<Event>, i: nat, j: nat)
    requires |a| <= i <= j <= |a + b|
    ensures (a + b)[i..j] == b[i - |a|..j - |a|]
  {
  }

  // A handed-off tier is not applied before a reset, whatever follows, while no restart takes it back.
  lemma QuietUntilReset(s: System, lives: seq<Life>, t: Tier, j: nat)
    requires s.phases.Get(t) == HandedOff && KeepsHandoff(s, lives, t)
    requires j < |History(s, lives)| && History(s, lives)[j] == Applied(t)
    ensures Reset in History(s, lives)[..j]
  {
    var pieces := PiecesOf(s, lives, t);
    CalmUntilReset(pieces, t, j);
  }

  // Once a tier is handed off, its apply is not called again, in this life of the controller or a
  // later one, until a watchdog reset.
  lemma HandedOffIsLeftAlone(s: System, lives: seq<Life>, i: nat, j: nat, t: Tier)
    requires KeepsHandoff(s, lives, t) && i < j < |History(s, lives)|
    requires History(s, lives)[i] == Moved(t, HandedOff) && History(s, lives)[j] == Applied(t)
    ensures Reset in History(s, lives)[i + 1..j]
  {
    var pieces := PiecesOf(s, lives, t);
    CalmAfterMove(s.phases.Get(t) == HandedOff, pieces, t, i, j);
  }

  // t is not applied before a reset, in anything that can follow.
  ghost predicate LeftAlone(s: System, t: Tier) {
    forall lives: seq<Life>, j: nat ::
      KeepsHandoff(s, lives, t) && j < |History(s, lives)| && History(s, lives)[j] == Applied(t)
      ==> Reset in History(s, lives)[..j]
  }

  // The tiers before t are up and t is down: the world in which a tick gets to the apply of t.
  function UpToTier(t: Tier): TickAnswers {
    TickAnswers(true, true, true, (u: Tier) => TierAnswers(if Rank(u) < Rank(t) then Up else Down, true, true, false))
  }

  // In that world the tiers before t let the next one run and leave t as it is; t itself is applied.
  lemma OneTierUpTo(p: Phases, u: Tier, t: Tier)
    requires Rank(u) <= Rank(t) && p.Get(t) != HandedOff
    ensures u == t ==> Applied(t) in RunTier(p.Get(u), u, UpToTier(t).tiers(u)).log
    ensures u != t ==> RunTier(p.Get(u), u, UpToTier(t).tiers(u)).go && AfterTier(p, u, UpToTier(t).tiers(u)).Get(t) != HandedOff
  {
    if u == t { assert RunTier(p.Get(t), t, UpToTier(t).tiers(t)).log[0] == Applied(t); }
  }

  lemma {:induction false} ReachesApply(p: Phases, i: nat, t: Tier)
    requires i <= Rank(t) && p.Get(t) != HandedOff
    ensures Applied(t) in RunTiers(p, UpToTier(t), i)
    decreases |ORDER| - i
  {
    var u := ORDER[i];
    assert Rank(u) == i;
    OneTierUpTo(p, u, t);
    if u != t {
      ReachesApply(AfterTier(p, u, UpToTier(t).tiers(u)), i + 1, t);
    }
  }

  lemma {:induction false} NoResetInTiers(p: Phases, ans: TickAnswers, i: nat)
    requires i <= |ORDER|
    ensures Reset !in RunTiers(p, ans, i)
    decreases |ORDER| - i
  {
    if i < |ORDER| {
      NoResetInTiers(AfterTier(p, ORDER[i], ans.tiers(ORDER[i])), ans, i + 1);
    }
  }

  // A tier that is not handed off can be applied in the very next tick.
  lemma AppliedNext(s: System, t: Tier) returns (k: nat)
    requires s.phases.Get(t) != HandedOff
    ensures var lives := [Ticked(UpToTier(t), true)];
      && KeepsHandoff(s, lives, t) && k < |History(s, lives)| && History(s, lives)[k] == Applied(t)
      && Reset !in History(s, lives)
  {
    var ans := UpToTier(t);
    assert !AllHandedOff(s.phases);
    ReachesApply(s.phases, 0, t);
    NoResetInTiers(s.phases, ans, 0);
    var lives, log := [Ticked(ans, true)], TickLog(s.phases, ans);
    assert log == [Namespaces] + RunTiers(s.phases, ans, 0);
    assert Applied(t) in log;
    HistoryCons(s, Ticked(ans, true), []);
    assert lives == [Ticked(ans, true)] + [] && lives[1..] == [] && History(s, lives) == log;
    k :| 0 <= k < |log| && log[k] == Applied(t);
  }

  // A tier is left alone until a reset exactly while it is handed off.
  lemma LeftAloneExactlyWhen(s: System, t: Tier)
    ensures LeftAlone(s, t) <==> s.phases.Get(t) == HandedOff
  {
    if s.phases.Get(t) == HandedOff {
      forall lives: seq<Life>, j: nat | KeepsHandoff(s, lives, t) && j < |History(s, lives)| && History(s, lives)[j] == Applied(t)
        ensures Reset in History(s, lives)[..j]
      {
        QuietUntilReset(s, lives, t, j);
      }
    } else {
      var k := AppliedNext(s, t);
      var lives := [Ticked(UpToTier(t), true)];
      assert KeepsHandoff(s, lives, t) && History(s, lives)[k] == Applied(t);
    }
  }

  // So a restart keeps the guarantee for t exactly when it reads a snapshot in which t is handed off.
  lemma RestartKeepsExactlyWhen(s: System, readable: bool, t: Tier)
    ensures LeftAlone(Live(s, Restarted(readable)), t)
      <==> readable && s.stored.Some? && s.stored.value.Get(t) == HandedOff
  {
    LeftAloneExactlyWhen(Live(s, Restarted(readable)), t);
  }

  // One restart that does not: the write after a handoff is lost, and the handed-off tier is applied again, with
  // no reset in between.
  lemma LostWriteReapplies(a: TickAnswers, b: TickAnswers)
    requires a.configOk && a.namespacesOk && b.configOk && b.namespacesOk
    requires a.tiers(Cilium) == TierAnswers(Up, true, true, true) && a.tiers(ESO).check == Failing
    requires b.tiers(Cilium) == TierAnswers(Down, false, true, true)
    ensures History(START, [Ticked(a, false), Restarted(true), Ticked(b, true)]) ==
      [Namespaces, SeenUp(Cilium), Moved(Cilium, Unblocked), Moved(Cilium, HandedOff), Namespaces, Applied(Cilium)]
  {
    OneTierLog(a);
    OneTierLog(b);
    HistoryOfThree(START, Ticked(a, false), Restarted(true), Ticked(b, true));
    NothingStored(a);
  }

  lemma HistoryCons(s: System, l: Life, rest: seq<Life>)
    ensures History(s, [l] + rest) == Did(s, l) + History(Live(s, l), rest)
  {
    assert ([l] + rest)[1..] == rest;
  }

  lemma HistoryOfThree(s: System, x: Life, y: Life, z: Life)
    ensures History(s, [x, y, z]) == Did(s, x) + (Did(Live(s, x), y) + Did(Live(Live(s, x), y), z))
  {
    var t, u := Live(s, x), Live(Live(s, x), y);
    HistoryCons(s, x, [y] + ([z] + []));
    HistoryCons(t, y, [z] + []);
    HistoryCons(u, z, []);
    assert [x] + ([y] + ([z] + [])) == [x, y, z];
    assert Did(u, z) + [] == Did(u, z);
  }

  // With nothing stored, a restart is a fresh start.
  lemma NothingStored(a: TickAnswers)
    ensures Live(Live(START, Ticked(a, false)), Restarted(true)) == START
  {
  }

  // A first tick that gets no further than Cilium.
  lemma OneTierLog(ans: TickAnswers)
    requires ans.configOk && ans.namespacesOk
    requires (ans.tiers(Cilium) == TierAnswers(Up, true, true, true) && ans.tiers(ESO).check == Failing) || ans.tiers(Cilium) == TierAnswers(Down, false, true, true)
    ensures TickLog(ALL_PENDING, ans) == [Namespaces] +
      if ans.tiers(Cilium).check == Up then [SeenUp(Cilium), Moved(Cilium, Unblocked), Moved(Cilium, HandedOff)] else [Applied(Cilium)]
  {
    assert !AllHandedOff(ALL_PENDING) by { assert ALL_PENDING.Get(Cilium) == Pending; }
    assert ORDER[0] == Cilium && ORDER[1] == ESO;
    if ans.tiers(Cilium).check == Up {
      assert RunTiers(ALL_PENDING, ans, 1) == [];
    }
  }

  // ---------------------------------------------------------------- convergence

  // What is up once tier t has had its turn: what was up before, and every tier up to t that this
  // tick did not skip, since it was seen up or its apply brought it up.
  function UpTo(p: Phases, up: set<Tier>, t: Tier): set<Tier> {
    up + set u: Tier | u in ALL_TIERS && Rank(u) <= Rank(t) && SequenceStart(p).Get(u) != HandedOff
  }

  predicate Unfailing(a: TierAnswers) { a.check != Failing && a.applyOk && a.waitOk }

  // The tick finds everything handed off and ArgoCD healthy.
  predicate Idle(p: Phases, ans: TickAnswers) { AllHandedOff(p) && ans.watchdogHealthy }

  // A tick in a world that cooperates, where `up` is up before it and `next` after it: configuration,
  // namespaces and applies succeed, what is up is seen up, an apply brings its tier up, what is up stays
  // up, and ArgoCD is healthy while it is up. Tiers may also come up, and ArgoCD be healthy, by themselves.
  ghost predicate Cooperates(p: Phases, up: set<Tier>, ans: TickAnswers, next: set<Tier>) {
    && ans.configOk && ans.namespacesOk && (ArgoCD in up ==> ans.watchdogHealthy)
    && (forall t: Tier ::
      && Unfailing(ans.tiers(t)) && (t in up ==> ans.tiers(t).check == Up)
      && (ArgoCD in UpTo(p, up, t) ==> ans.tiers(t).healthy))
    && up <= next && (if Idle(p, ans) then ArgoCD in next else UpTo(p, up, Apps) <= next)
  }

  // ArgoCD has been handed off and is down, but some other tier has not been handed off: the
  // sequence skips ArgoCD and the watchdog is not running yet.
  predicate Stuck(p: Phases, up: set<Tier>) { p.argocd == HandedOff && ArgoCD !in up && !AllHandedOff(p) }

  function Settles(p: Phase, healthy: bool): Phase { if p == HandedOff || healthy then HandedOff else Unblocked }

  // One tier's log, then the rest, as far as the phases go.
  lemma TierThenRest(p: Phases, ans: TickAnswers, i: nat)
    requires i < |ORDER|
    ensures var t := ORDER[i];
      var part, next := RunTier(p.Get(t), t, ans.tiers(t)), AfterTier(p, t, ans.tiers(t));
      Replay(p, RunTiers(p, ans, i)) == if part.go then Replay(next, RunTiers(next, ans, i + 1)) else next
  {
    var t := ORDER[i];
    var part, next := RunTier(p.Get(t), t, ans.tiers(t)), AfterTier(p, t, ans.tiers(t));
    forall u: Tier ensures u in ALL_TIERS { assert u.Cilium? || u.ESO? || u.ArgoCD? || u.Apps?; }
    TierEffect(p, ALL_TIERS, t, ans.tiers(t));
    Concat(p, ALL_TIERS, part.log, if part.go then RunTiers(next, ans, i + 1) else []);
  }

  lemma UnfailingStep(p: Phases, ans: TickAnswers, i: nat)
    requires i < |ORDER| && Unfailing(ans.tiers(ORDER[i]))
    ensures var next := p.Set(ORDER[i], Settles(p.Get(ORDER[i]), ans.tiers(ORDER[i]).healthy));
      Replay(p, RunTiers(p, ans, i)) == Replay(next, RunTiers(next, ans, i + 1))
  {
    TierThenRest(p, ans, i);
  }

  // When no tier fails, each from position i on ends where its phase and the health it saw put it.
  lemma {:induction false} UnfailingTiers(p: Phases, ans: TickAnswers, i: nat, t: Tier)
    requires i <= |ORDER| && forall j :: i <= j < |ORDER| ==> Unfailing(ans.tiers(ORDER[j]))
    ensures Replay(p, RunTiers(p, ans, i)).Get(t) ==
      if Rank(t) < i then p.Get(t) else Settles(p.Get(t), ans.tiers(t).healthy)
    decreases |ORDER| - i
  {
    if i < |ORDER| {
      var u := ORDER[i];
      var next := p.Set(u, Settles(p.Get(u), ans.tiers(u).healthy));
      assert Rank(u) == i && (Rank(t) == i ==> t == u);
      UnfailingStep(p, ans, i);
      UnfailingTiers(next, ans, i + 1, t);
    }
  }

  lemma SequenceReplay(p: Phases, ans: TickAnswers)
    requires ans.configOk && ans.namespacesOk && !(AllHandedOff(p) && ans.watchdogHealthy)
    ensures Tick(p, ans) == Replay(SequenceStart(p), RunTiers(SequenceStart(p), ans, 0))
  {
    var start := SequenceStart(p);
    Cons(start, {}, Namespaces, RunTiers(start, ans, 0));
    Cons(p, {}, Reset, Bootstrap(start, ans));
  }

  lemma UnfailingTick(p: Phases, ans: TickAnswers, t: Tier)
    requires ans.configOk && ans.namespacesOk && !(AllHandedOff(p) && ans.watchdogHealthy)
    requires forall u: Tier :: Unfailing(ans.tiers(u))
    ensures Tick(p, ans).Get(t) == Settles(SequenceStart(p).Get(t), ans.tiers(t).healthy)
  {
    var start := SequenceStart(p);
    SequenceReplay(p, ans);
    UnfailingTiers(start, ans, 0, t);
  }

  lemma IdleTick(p: Phases, ans: TickAnswers)
    requires Idle(p, ans)
    ensures TickLog(p, ans) == [] && Tick(p, ans) == p
  {
  }

  // ups[i] is up before the i-th tick.
  ghost predicate CooperativeRun(p: Phases, ups: seq<set<Tier>>, ticks: seq<TickAnswers>)
    decreases |ticks|
  {
    && |ups| == |ticks| + 1
    && (ticks == [] || (Cooperates(p, ups[0], ticks[0], ups[1]) && CooperativeRun(Tick(p, ticks[0]), ups[1..], ticks[1..])))
  }

  function Ticks(p: Phases, ticks: seq<TickAnswers>): Phases
    decreases |ticks|
  {
    if ticks == [] then p else Ticks(Tick(p, ticks[0]), ticks[1..])
  }

  // A controller that is not stuck has ArgoCD up after one cooperative tick.
  lemma FirstTickRaisesArgoCD(p: Phases, up: set<Tier>, ans: TickAnswers, next: set<Tier>)
    requires !Stuck(p, up) && Cooperates(p, up, ans, next)
    ensures ArgoCD in next
  {
    if !Idle(p, ans) && ArgoCD !in up {
      assert SequenceStart(p).Get(ArgoCD) != HandedOff;
      assert ArgoCD in UpTo(p, up, Apps);
    }
  }

  // One that has ArgoCD up hands everything off.
  lemma HealthyTickHandsOff(p: Phases, up: set<Tier>, ans: TickAnswers, next: set<Tier>)
    requires ArgoCD in up && Cooperates(p, up, ans, next)
    ensures AllHandedOff(Tick(p, ans)) && ArgoCD in next
  {
    if Idle(p, ans) {
      IdleTick(p, ans);
    } else {
      forall t: Tier ensures Tick(p, ans).Get(t) == HandedOff {
        assert ArgoCD in UpTo(p, up, t);
        UnfailingTick(p, ans, t);
      }
    }
  }

  lemma {:induction false} HealthyRun(p: Phases, ups: seq<set<Tier>>, ticks: seq<TickAnswers>)
    requires CooperativeRun(p, ups, ticks) && ticks != [] && ArgoCD in ups[0]
    ensures AllHandedOff(Ticks(p, ticks))
    decreases |ticks|
  {
    HealthyTickHandsOff(p, ups[0], ticks[0], ups[1]);
    if |ticks| > 1 {
      HealthyRun(Tick(p, ticks[0]), ups[1..], ticks[1..]);
    } else {
      assert ticks[1..] == [];
    }
  }

  // From any phases that are not stuck, every cooperative run of two or more ticks ends with every tier
  // handed off.
  lemma Converges(p: Phases, ups: seq<set<Tier>>, ticks: seq<TickAnswers>)
    requires CooperativeRun(p, ups, ticks) && |ticks| >= 2 && !Stuck(p, ups[0])
    ensures AllHandedOff(Ticks(p, ticks))
  {
    FirstTickRaisesArgoCD(p, ups[0], ticks[0], ups[1]);
    HealthyRun(Tick(p, ticks[0]), ups[1..], ticks[1..]);
  }

  // Once there, every later tick does nothing at all: no apply, no namespaces, no move.
  lemma {:induction false} LaterTicksIdle(p: Phases, ups: seq<set<Tier>>, ticks: seq<TickAnswers>)
    requires CooperativeRun(p, ups, ticks) && AllHandedOff(p) && ArgoCD in ups[0]
    ensures Ticks(p, ticks) == p && forall i :: 0 <= i < |ticks| ==> TickLog(p, ticks[i]) == []
    decreases |ticks|
  {
    if ticks != [] {
      IdleTick(p, ticks[0]);
      LaterTicksIdle(p, ups[1..], ticks[1..]);
      assert forall i :: 1 <= i < |ticks| ==> ticks[i] == ticks[1..][i - 1];
    }
  }

  // ---------------------------------------------------------------- the stuck state

  // With no check that finds ArgoCD healthy, whatever else succeeds or fails, the tiers from position i on
  // hand nothing off, and what is handed off is not applied.
  lemma {:induction false} NoHealthNoHandoff(p: Phases, ans: TickAnswers, i: nat, t: Tier)
    requires i <= |ORDER| && forall u: Tier :: !ans.tiers(u).healthy
    ensures Replay(p, RunTiers(p, ans, i)).Get(t) == HandedOff <==> p.Get(t) == HandedOff
    decreases |ORDER| - i
  {
    if i < |ORDER| {
      var u := ORDER[i];
      TierThenRest(p, ans, i);
      UnhealthyTier(p, u, ans.tiers(u), t);
      NoHealthNoHandoff(AfterTier(p, u, ans.tiers(u)), ans, i + 1, t);
    }
  }

  lemma UnhealthyTier(p: Phases, u: Tier, a: TierAnswers, t: Tier)
    requires !a.healthy
    ensures AfterTier(p, u, a).Get(t) == HandedOff <==> p.Get(t) == HandedOff
    ensures p.Get(t) == HandedOff ==> Applied(t) !in RunTier(p.Get(u), u, a).log
  {
  }

  lemma {:induction false} NoHealthNoApply(p: Phases, ans: TickAnswers, i: nat, t: Tier)
    requires i <= |ORDER| && p.Get(t) == HandedOff && forall u: Tier :: !ans.tiers(u).healthy
    ensures Applied(t) !in RunTiers(p, ans, i)
    decreases |ORDER| - i
  {
    if i < |ORDER| {
      var u := ORDER[i];
      UnhealthyTier(p, u, ans.tiers(u), t);
      NoHealthNoApply(AfterTier(p, u, ans.tiers(u)), ans, i + 1, t);
    }
  }

  lemma UnhealthyTick(p: Phases, ans: TickAnswers, t: Tier)
    requires !AllHandedOff(p) && forall u: Tier :: !ans.tiers(u).healthy
    ensures Tick(p, ans).Get(t) == HandedOff <==> p.Get(t) == HandedOff
    ensures p.Get(t) == HandedOff ==> Applied(t) !in TickLog(p, ans)
  {
    var tiers := if ans.namespacesOk then RunTiers(p, ans, 0) else [];
    if ans.configOk {
      assert TickLog(p, ans) == [Namespaces] + tiers;
      Cons(p, {}, Namespaces, tiers);
      NoHealthNoHandoff(p, ans, 0, t);
      if p.Get(t) == HandedOff { NoHealthNoApply(p, ans, 0, t); }
    }
  }

  // A stuck controller cannot bring ArgoCD back: as long as no check finds it healthy, with any answers
  // at all, ArgoCD is never applied, no tier is handed off, and there is no reset to change that.
  lemma {:induction false} StuckUntilHealthy(p: Phases, ticks: seq<TickAnswers>, n: nat)
    requires p.argocd == HandedOff && !AllHandedOff(p) && n < |ticks|
    requires forall i, t: Tier :: 0 <= i < |ticks| ==> !ticks[i].tiers(t).healthy
    ensures !AllHandedOff(Ticks(p, ticks)) && Ticks(p, ticks).argocd == HandedOff
    ensures Applied(ArgoCD) !in TickLog(Ticks(p, ticks[..n]), ticks[n])
    decreases |ticks|
  {
    var next, rest := Tick(p, ticks[0]), ticks[1..];
    UnhealthyTick(p, ticks[0], ArgoCD);
    assert p.Get(ArgoCD) == p.argocd && next.Get(ArgoCD) == next.argocd;
    var t: Tier :| p.Get(t) != HandedOff;
    UnhealthyTick(p, ticks[0], t);
    if rest != [] {
      StuckUntilHealthy(next, rest, if n > 0 then n - 1 else 0);
      if n > 0 { assert ticks[..n][0] == ticks[0] && ticks[..n][1..] == rest[..n - 1] && ticks[n] == rest[n - 1]; }
    }
    if n == 0 { assert ticks[..n] == []; }
  }

  // It recovers in one tick with no failures exactly when ArgoCD, back by itself, is found healthy for
  // every tier that is left.
  lemma StuckRecoversExactlyWhen(p: Phases, up: set<Tier>, ans: TickAnswers, next: set<Tier>)
    requires Stuck(p, up) && Cooperates(p, up, ans, next)
    ensures AllHandedOff(Tick(p, ans)) <==> forall t: Tier :: p.Get(t) != HandedOff ==> ans.tiers(t).healthy
  {
    forall t: Tier ensures Tick(p, ans).Get(t) == HandedOff <==> p.Get(t) == HandedOff || ans.tiers(t).healthy {
      UnfailingTick(p, ans, t);
    }
  }

  // The answers of a world in which nothing comes up but by an apply.
  function Cooperation(p: Phases, up: set<Tier>): TickAnswers {
    TickAnswers(true, ArgoCD in up, true,
                (t: Tier) => TierAnswers(if t in up then Up else Down, true, true, ArgoCD in UpTo(p, up, t)))
  }

  function UpAfter(p: Phases, up: set<Tier>): set<Tier> {
    if AllHandedOff(p) && ArgoCD in up then up else UpTo(p, up, Apps)
  }

  lemma CooperationCooperates(p: Phases, up: set<Tier>)
    ensures Cooperates(p, up, Cooperation(p, up), UpAfter(p, up))
  {
  }

  lemma RunCons(p: Phases, up: set<Tier>, ans: TickAnswers, ups: seq<set<Tier>>, rest: seq<TickAnswers>)
    requires ups != [] && Cooperates(p, up, ans, ups[0]) && CooperativeRun(Tick(p, ans), ups, rest)
    ensures CooperativeRun(p, [up] + ups, [ans] + rest)
  {
    assert ([ans] + rest)[1..] == rest && ([up] + ups)[1..] == ups;
  }

  // One tick of such a world; it leaves a stuck controller stuck.
  lemma PlainTick(p: Phases, up: set<Tier>) returns (ans: TickAnswers, next: set<Tier>)
    ensures Cooperates(p, up, ans, next)
    ensures Stuck(p, up) ==> Stuck(Tick(p, ans), next)
  {
    ans, next := Cooperation(p, up), UpAfter(p, up);
    CooperationCooperates(p, up);
    if Stuck(p, up) { StuckStays(p, up); }
  }

  // In such a world a stuck controller stays stuck.
  lemma StuckStays(p: Phases, up: set<Tier>)
    requires Stuck(p, up)
    ensures Stuck(Tick(p, Cooperation(p, up)), UpAfter(p, up))
  {
    var ans := Cooperation(p, up);
    CooperationCooperates(p, up);
    assert p.Get(ArgoCD) == p.argocd && ArgoCD !in UpTo(p, up, Apps);
    var t: Tier :| p.Get(t) != HandedOff;
    UnhealthyTick(p, ans, t);
    UnhealthyTick(p, ans, ArgoCD);
    assert Tick(p, ans).Get(ArgoCD) == Tick(p, ans).argocd;
  }

  lemma TicksCons(p: Phases, ans: TickAnswers, rest: seq<TickAnswers>)
    ensures Ticks(p, [ans] + rest) == Ticks(Tick(p, ans), rest)
  {
    assert ([ans] + rest)[1..] == rest;
  }

  // From any phases and any world there are cooperative runs of every length; from stuck ones, runs that
  // never hand everything off.
  lemma {:induction false} CooperativeRunExists(p: Phases, up: set<Tier>, n: nat) returns (ups: seq<set<Tier>>, ticks: seq<TickAnswers>)
    ensures |ticks| == n && CooperativeRun(p, ups, ticks) && ups[0] == up
    ensures Stuck(p, up) ==> !AllHandedOff(Ticks(p, ticks))
    decreases n
  {
    if n == 0 {
      ups, ticks := [up], [];
    } else {
      var ans, next := PlainTick(p, up);
      var us, ts := CooperativeRunExists(Tick(p, ans), next, n - 1);
      RunCons(p, up, ans, us, ts);
      TicksCons(p, ans, ts);
      ups, ticks := [up] + us, [ans] + ts;
    }
  }

  // Every cooperative run of this length from these phases ends with every tier handed off.
  ghost predicate AlwaysConverges(p: Phases, up: set<Tier>, n: nat) {
    forall ups: seq<set<Tier>>, ticks: seq<TickAnswers> ::
      CooperativeRun(p, ups, ticks) && ups[0] == up && |ticks| == n ==> AllHandedOff(Ticks(p, ticks))
  }

  // Cooperation is enough, for two ticks or any longer, exactly when the controller is not stuck.
  lemma ConvergesUnlessStuck(p: Phases, up: set<Tier>, n: nat)
    requires n >= 2
    ensures AlwaysConverges(p, up, n) <==> !Stuck(p, up)
  {
    if Stuck(p, up) {
      var ups, ticks := CooperativeRunExists(p, up, n);
    } else {
      forall ups: seq<set<Tier>>, ticks: seq<TickAnswers> | CooperativeRun(p, ups, ticks) && ups[0] == up && |ticks| == n
        ensures AllHandedOff(Ticks(p, ticks))
      {
        Converges(p, ups, ticks);
      }
    }
  }

  // The stuck state is reachable from a fresh start in one tick: ArgoCD comes up and is handed
  // off, generating the apps fails, and then ArgoCD dies.
  lemma StuckIsReachable(ans: TickAnswers, up: set<Tier>)
    requires ans.configOk && ans.namespacesOk && ArgoCD !in up
    requires ans.tiers(Cilium) == TierAnswers(Down, true, true, false) && ans.tiers(ESO) == TierAnswers(Down, true, true, false)
    requires ans.tiers(ArgoCD) == TierAnswers(Down, true, true, true) && ans.tiers(Apps) == TierAnswers(Down, false, false, true)
    ensures Tick(ALL_PENDING, ans) == Phases(Unblocked, Unblocked, HandedOff, Pending)
    ensures Stuck(Tick(ALL_PENDING, ans), up)
  {
    var start, end := ALL_PENDING, Phases(Unblocked, Unblocked, HandedOff, Pending);
    assert !AllHandedOff(start) by { assert start.Get(Cilium) == Pending; }
    ReplayTick(start, ans);
    var p1, p2 := Phases(Unblocked, Pending, Pending, Pending), Phases(Unblocked, Unblocked, Pending, Pending);
    TiersCons(start, ans, 0, p1);
    TiersCons(p1, ans, 1, p2);
    TiersCons(p2, ans, 2, end);
    assert AfterTier(end, Apps, ans.tiers(Apps)) == end && AfterTiers(end, ans, 3) == end;
    assert end.Get(Apps) == Pending;
  }

  lemma TiersCons(p: Phases, ans: TickAnswers, i: nat, next: Phases)
    requires i < |ORDER| && RunTier(p.Get(ORDER[i]), ORDER[i], ans.tiers(ORDER[i])).go
    requires next == AfterTier(p, ORDER[i], ans.tiers(ORDER[i]))
    ensures AfterTiers(p, ans, i) == AfterTiers(next, ans, i + 1)
  {
  }
}
