/**
 The controller as the object it is: durable phases, a status filled in step by step during each
 reconcile, and the stored snapshot.  Its methods are proved to be the ticks and restarts of
 module Handoff, and the snapshot it writes to hold exactly its phases.
 */
module HandoffController {
  import opened Options
  import opened Handoff

  // ---------------------------------------------------------------- the stored form

  // status.json, as the four phase strings in it.
  datatype Snapshot = Snapshot(cilium: string, eso: string, argocd: string, apps: string)

  function PhaseText(p: Phase): string {
    match p case Pending => "pending" case Unblocked => "unblocked" case HandedOff => "handed-off"
  }

  // An unknown or empty phase counts as pending.
  function NormalizePhase(s: string): Phase {
    if s == "unblocked" then Unblocked else if s == "handed-off" then HandedOff else Pending
  }

  function Write(p: Phases): Snapshot {
    Snapshot(PhaseText(p.cilium), PhaseText(p.eso), PhaseText(p.argocd), PhaseText(p.apps))
  }

  function Read(s: Snapshot): Phases {
    Phases(NormalizePhase(s.cilium), NormalizePhase(s.eso), NormalizePhase(s.argocd), NormalizePhase(s.apps))
  }

  function ReadStored(stored: Option<Snapshot>): Option<Phases> {
    if stored.Some? then Some(Read(stored.value)) else None
  }

  class Controller {
    var phases: Phases
    var status: Phases            // the phase fields of the status of the current reconcile
    var stored: Option<Snapshot>  // the status ConfigMap

    ghost function View(): System
      reads this
    {
      System(phases, ReadStored(stored))
    }

    constructor (stored: Option<Snapshot>)
      ensures phases == ALL_PENDING && this.stored == stored
    {
      this.phases, this.status, this.stored := ALL_PENDING, ALL_PENDING, stored;
    }

    // `did` lists what the tick did, in order.
    method ReconcileOnce(ans: TickAnswers, persistOk: bool) returns (ghost did: seq<Event>)
      modifies this
      ensures did == TickLog(old(phases), ans)
      ensures View() == Live(old(View()), Ticked(ans, persistOk))
      ensures persistOk ==> stored == Some(Write(phases))
      ensures !persistOk ==> stored == old(stored)
    {
      status := ALL_PENDING;
      SeedPhases();
      did := [];
      if ans.configOk {
        did := Reconcile(ans);
      }
      Persist(persistOk);
      LiveTick(old(View()), ans, persistOk);
      ReadBack(phases);
    }

    method SetPhase(t: Tier, p: Phase)
      modifies this`status
      ensures status == old(status).Set(t, p)
    {
      status := status.Set(t, p);
    }

    method Persist(ok: bool)
      modifies this`stored
      ensures stored == if ok then Some(Write(status)) else old(stored)
    {
      if ok {
        stored := Some(Write(status));
      }
    }

    // Status fields are filled from the phases, so that a tier no step reaches is still reported.
    method SeedPhases()
      modifies this`status
      ensures status == phases
    {
      SetPhase(Cilium, phases.cilium);
      SetPhase(ESO, phases.eso);
      SetPhase(ArgoCD, phases.argocd);
      SetPhase(Apps, phases.apps);
    }

    method Reconcile(ans: TickAnswers) returns (ghost did: seq<Event>)
      requires ans.configOk && status == phases
      modifies this`phases, this`status
      ensures did == TickLog(old(phases), ans)
      ensures phases == AfterTick(old(phases), ans) && status == phases
    {
      var idle, reset := HandleSteadyState(ans);
      if idle {
        return [];
      }
      did := EnsureNamespacesThenTiers(ans);
      did := if reset then [Reset] + did else did;
    }

    method EnsureNamespacesThenTiers(ans: TickAnswers) returns (ghost did: seq<Event>)
      requires status == phases
      modifies this`phases, this`status
      ensures did == Bootstrap(old(phases), ans)
      ensures phases == (if ans.namespacesOk then AfterTiers(old(phases), ans, 0) else old(phases)) && status == phases
    {
      if !ans.namespacesOk {
        return [Namespaces] + [];
      }
      did := RunAll(ans);
      did := [Namespaces] + did;
    }

    // The four gated tiers.
    method RunAll(ans: TickAnswers) returns (ghost did: seq<Event>)
      requires status == phases
      modifies this`phases, this`status
      ensures did == RunTiers(old(phases), ans, 0)
      ensures phases == AfterTiers(old(phases), ans, 0) && status == phases
    {
      var go; ghost var d0, d1, d2, d3;
      go, d0 := RunTier(Cilium, ans.tiers(Cilium));
      if !go {
        return d0 + [];
      }
      go, d1 := RunTier(ESO, ans.tiers(ESO));
      if !go {
        return d0 + (d1 + []);
      }
      go, d2 := RunTier(ArgoCD, ans.tiers(ArgoCD));
      if !go {
        return d0 + (d1 + (d2 + []));
      }
      go, d3 := RunTier(Apps, ans.tiers(Apps));
      return d0 + (d1 + (d2 + (d3 + [])));
    }

    // Watchdog: when everything is handed off, one health check decides between idling and
    // starting over.
    method HandleSteadyState(ans: TickAnswers) returns (idle: bool, ghost reset: bool)
      requires status == phases
      modifies this`phases, this`status
      ensures idle <==> AllHandedOff(old(phases)) && ans.watchdogHealthy
      ensures reset <==> AllHandedOff(old(phases)) && !ans.watchdogHealthy
      ensures phases == (if idle then old(phases) else SequenceStart(old(phases))) && status == phases
    {
      AllHandedOffIsFour(phases);
      if phases != Phases(HandedOff, HandedOff, HandedOff, HandedOff) {
        return false, false;
      }
      if ans.watchdogHealthy {
        MarkHandedOffIdle();
        return true, false;
      }
      phases := ALL_PENDING;
      SeedPhases();
      return false, true;
    }

    method MarkHandedOffIdle()
      modifies this`status
      ensures status == Phases(HandedOff, HandedOff, HandedOff, HandedOff)
    {
      for i := 0 to |ORDER|
        invariant forall t: Tier :: Rank(t) < i ==> status.Get(t) == HandedOff
      {
        SetPhase(ORDER[i], HandedOff);
      }
      AllHandedOffIsFour(status);
    }

    method RunTier(t: Tier, a: TierAnswers) returns (go: bool, ghost did: seq<Event>)
      requires status == phases
      modifies this`phases, this`status
      ensures var part := Handoff.RunTier(old(phases).Get(t), t, a);
        go == part.go && did == part.log
      ensures phases == AfterTier(old(phases), t, a) && status == phases
    {
      if phases.Get(t) == HandedOff {
        SetPhase(t, HandedOff);
        return true, [Skipped(t)];
      }
      if a.check == Failing {
        return false, [];
      }
      ghost var applied := [];
      if a.check == Down {
        applied := [Applied(t)];
        if !a.applyOk || !a.waitOk {
          return false, applied;
        }
      }
      ghost var unblock := AdvanceUnblocked(t);
      ghost var handoff := MaybeHandoff(t, a.healthy);
      return true, applied + ([SeenUp(t)] + unblock + handoff);
    }

    method AdvanceUnblocked(t: Tier) returns (ghost did: seq<Event>)
      requires status == phases
      modifies this`phases, this`status
      ensures phases == (if old(phases).Get(t) == Pending then old(phases).Set(t, Unblocked) else old(phases))
      ensures did == (if old(phases).Get(t) == Pending then [Moved(t, Unblocked)] else [])
      ensures status == phases
    {
      did := [];
      if phases.Get(t) == Pending {
        phases := phases.Set(t, Unblocked);
        did := [Moved(t, Unblocked)];
      }
      SetPhase(t, phases.Get(t));
    }

    method MaybeHandoff(t: Tier, healthy: bool) returns (ghost did: seq<Event>)
      requires status == phases && phases.Get(t) != HandedOff
      modifies this`phases, this`status
      ensures phases == (if healthy then old(phases).Set(t, HandedOff) else old(phases))
      ensures did == (if healthy then [Moved(t, HandedOff)] else [])
      ensures status == phases
    {
      if !healthy {
        return [];
      }
      phases := phases.Set(t, HandedOff);
      SetPhase(t, HandedOff);
      return [Moved(t, HandedOff)];
    }

    // A new process: pending everywhere, then whatever the snapshot says, if it can be read.
    method Restart(readable: bool)
      modifies this`phases
      ensures View() == Live(old(View()), Restarted(readable))
    {
      phases := ALL_PENDING;
      if readable && stored.Some? {
        phases := Phases(NormalizePhase(stored.value.cilium), NormalizePhase(stored.value.eso),
                         NormalizePhase(stored.value.argocd), NormalizePhase(stored.value.apps));
      }
    }
  }

  lemma LiveTick(s: System, ans: TickAnswers, persisted: bool)
    ensures Live(s, Ticked(ans, persisted)) ==
      System(AfterTick(s.phases, ans), if persisted then Some(AfterTick(s.phases, ans)) else s.stored)
  {
    ReplayTick(s.phases, ans);
  }

  // What is written is what a restart reads.
  lemma ReadBack(p: Phases)
    ensures Read(Write(p)) == p
  {
  }

  // A text that no phase is written as reads as pending.
  lemma OnlyWrittenReads(s: string)
    ensures NormalizePhase(s) == Pending || s == PhaseText(NormalizePhase(s))
  {
  }

  lemma AllHandedOffIsFour(p: Phases)
    ensures AllHandedOff(p) <==> p == Phases(HandedOff, HandedOff, HandedOff, HandedOff)
  {
    if AllHandedOff(p) {
      assert p.Get(Cilium) == HandedOff && p.Get(ESO) == HandedOff && p.Get(ArgoCD) == HandedOff && p.Get(Apps) == HandedOff;
    }
  }
}
