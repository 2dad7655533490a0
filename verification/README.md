# Verification model of nostos

Dafny models of the mechanisms of nostos that other parts rely on to be right under concurrency, crashes,
failures and restarts, with proofs of what they keep. Each mechanism has a specification, as functions, a
step system or predicates, and a program with the branches, loops and fields of the original, proved
against it. What the network, the cluster, the clock, files and subprocesses answer is a parameter
everywhere, so each theorem holds for all their answers.

| mechanism | modules |
|---|---|
| the keyed mutex that serialises work on one device | `KeyedMutex` (all interleavings), `ContentionMap` (the map and its entries) |
| the trust-on-first-use image cache | `ImageCache` (plans, crashes, runs), `ImageCacheHost` (the program) |
| the bootstrap-to-handoff controller and its bounded wait | `Handoff`, `HandoffController`, `BoundedWait` |
| the rolling Talos upgrade | `Versions`, `UpgradePlan`, `NodeOrder`, `Rollout`, `UpgradeCommand` |
| the Kubernetes hop ladder | `K8sHops` |
| the per-host probe limiter | `TokenBucket` |
| boot events: the fold and the line splitter | `EventFold`, `LineSplitter` |
| the secret scrubber | `Scrubber` |
| the install flow and the one-shot PXE wipe | `Install`, `WipeQueue`, `PxeWipe`, `LateCleanup` |
| the managed hosts block | `TextLines`, `ManagedHosts`, `HostsRuns` |
| the resumable download | `Download` |

`Text`, `Options` and `Sequences` hold what several modules share.

## What turned out not to hold

Where a promise fails, the model keeps the code's behaviour, shows a run in which it fails, and states when it
holds instead: as an equivalence, except for secrets with brackets.

- A controller whose ArgoCD is handed off but down, while another tier is not handed off, cannot bring ArgoCD
  back: the watchdog runs only when all four are handed off, and a handed-off tier is skipped
  (`Handoff.StuckIsReachable`, `Handoff.StuckUntilHealthy`). It recovers when ArgoCD comes back by itself
  (`Handoff.StuckRecoversExactlyWhen`). Cooperation alone is enough exactly from the other states
  (`Handoff.ConvergesUnlessStuck`).
- A handoff whose status write is lost is forgotten by a restart (`Handoff.LostWriteReapplies`). A restart
  keeps a tier left alone exactly when the snapshot it reads has the tier handed off
  (`Handoff.RestartKeepsExactlyWhen`).
- The image cache returns a torn raw image after a crash or a failed decompression
  (`ImageCache.TornRawIsReturned`), and the raw image of another file after a failed read of the cached one
  (`ImageCache.StaleRawIsReturned`). What a success returns is right exactly when it was not served from
  the cached file, found no raw file, or found the right one (`ImageCache.RawIsDecodedExactlyWhen`); a call
  keeps right what was right exactly when it does not leave a raw file behind a removed .xz that no download
  then replaces (`ImageCache.CallKeepsRawExactlyWhen`).
- A repeated call downloads again exactly without a pin and a digest store, or for an empty body
  (`ImageCache.RepeatIsFree`).
- A download killed after its last byte and before its rename cannot be resumed
  (`Download.CompletePartIsStuck`). An undisturbed attempt succeeds exactly when bytes are missing or ranges
  are ignored (`Download.CleanAttemptSucceedsWhen`).
- A cleanup runs after its install has released the contention key, so it can take the wipe flag out of the
  boot script of the next install (`LateCleanup.LateCleanupLosesWipe`); when it does not is
  `LateCleanup.WipeKeptExactlyWhen`.
- A wipe queue that cannot be read is saved back as if it were empty: other nodes stay queued exactly when it
  can be read (`WipeQueue.OthersKeptExactlyWhen`).
- A component at v0.0.0 hides lower ones listed before it (`K8sHops.ZeroHidesALaggard`). The floor is the
  lowest version exactly when v0.0.0 is not listed or is listed last (`K8sHops.FloorIsLowest`).
- An address bound to a second MAC sets the first one back (`EventFold.RebindingRegresses`). A MAC is safe from
  that exactly when its furthest phase and latest time come from events that name it
  (`EventFold.NeverSetBackExactlyWhen`).
- Secrets inside the marker are printed by the scrubber itself; a table without brackets leaks on no input
  exactly when none of its secrets lies in the marker (`Scrubber.SafeExactlyWhen`). With brackets, a secret
  that begins with an end of the marker leaks (`Scrubber.SeamLeaks`) and one that shares no seam with it does
  not (`Scrubber.NoClearSecretLeaks`); for these the two do not meet.
- A managed hosts block without its end marker takes the rest of the file with it
  (`ManagedHosts.UnclosedBlockTakesAll`). A line of others survives exactly when no block is open at it
  (`ManagedHosts.SurvivesExactlyWhen`).
- A line that is stripped takes all its names along (`HostsRuns.OpenBlockLosesName`); another name keeps its
  addresses exactly when none of its lines maps the rewritten host or stands in an open block of it
  (`HostsRuns.OtherNameKeepsExactlyWhen`).

## Model

| member | source | states |
|---|---|---|
| `KeyedMutex.StepKeepsInv` | internal/provisioner/contention/map.go:25-57 | every step of every call keeps: live entries count exactly the calls waiting, holding or leaving on them, calls on one key share the one table entry, a locked entry has one holder |
| `KeyedMutex.RunKeepsInv` | internal/provisioner/contention/map.go:25-57 | so does every interleaving of any number of calls |
| `KeyedMutex.MutualExclusion` | internal/provisioner/contention/map.go:41-49 | in every interleaving at most one call holds a key |
| `KeyedMutex.TableCountsCallers` | internal/provisioner/contention/map.go:29-56 | a key is in the table exactly while some call is active on it, under one entry, whose count is the number of those calls: a delete never drops an entry in use |
| `KeyedMutex.IdleTableEmpty` | internal/provisioner/contention/map.go:50-55 | the table is empty exactly when no call is active |
| `KeyedMutex.WaiterHasProgress` | internal/provisioner/contention/map.go:41-49 | while a call waits, some call on the same key has an enabled step |
| `KeyedMutex.KeysIndependent` | internal/provisioner/contention/map.go:25-57 | a step on one key changes no other key: not its table entry, its lock, its count, or its calls |
| `KeyedMutex.SectionsDisjoint` | internal/provisioner/contention/map.go:41-49 | between two acquisitions of one key by different calls the first has unlocked |
| `KeyedMutex.EveryScheduleDrains` | internal/provisioner/contention/map.go:25-57 | with no new callers, every schedule of the remaining steps is finite, and where it can go no further all calls are finished |
| `ContentionMap.LockMap.AcquireEmpty` | internal/provisioner/contention/map.go:26-28 | an empty key takes nothing and leaves the map as it was |
| `ContentionMap.LockMap.FindOrCreate` | internal/provisioner/contention/map.go:29-37 | the first map section reaches the shared entry of the key, creating it only when absent |
| `ContentionMap.LockMap.Register` | internal/provisioner/contention/map.go:29-39 | the map section of Acquire is the Enter step of the interleaving model |
| `ContentionMap.LockMap.Take` | internal/provisioner/contention/map.go:41 | locking the entry is the Lock step |
| `ContentionMap.LockMap.Release` | internal/provisioner/contention/map.go:44-49 | the first release closure call is the Unlock step, a second one changes nothing |
| `ContentionMap.LockMap.Forget` | internal/provisioner/contention/map.go:50-55 | the map section of the closure is the Exit step, deleting the key exactly when its count reaches zero |
| `ImageCache.EnsureSafe` | internal/provisioner/tpi/image_cache.go:66-167 | each single file operation of Ensure, wherever it stops, is one that keeps the cache invariant |
| `ImageCache.CallKeepsInv` | internal/provisioner/tpi/image_cache.go:66-167 | a call cut short after any operation keeps the invariant and extends what is recorded |
| `ImageCache.RunKeepsInv` | internal/provisioner/tpi/image_cache.go:66-167 | any sequence of calls, each crashing anywhere, keeps it; recorded digests never change |
| `ImageCache.NeverTorn` | internal/provisioner/tpi/image_cache.go:130-148 | the final .xz is absent or the whole body of a completed download of its own key, never a prefix |
| `ImageCache.RecordedDigestPermanent` | internal/provisioner/tpi/image_cache.go:150-163 | a non-empty recorded digest never changes, and is the hash of a body that had been renamed into place |
| `ImageCache.PlacedWasInPlace` | internal/provisioner/tpi/image_cache.go:139-163 | for every body counted as placed there is a call and an operation of it after which that body was the .xz on disk |
| `ImageCache.OtherKeysUntouched` | internal/provisioner/tpi/image_cache.go:256-323 | a call changes no other key, neither its files nor its recorded digest |
| `ImageCache.EnsureEffect` | internal/provisioner/tpi/image_cache.go:66-167 | the slot a call that runs to its end leaves, in every branch |
| `ImageCache.SuccessIsVerified` | internal/provisioner/tpi/image_cache.go:66-167 | success means no tmp, an .xz and a raw file, and an .xz whose hash is, character by character but for case and an optional sha256:, the pinned digest, or the recorded one if there is no pin |
| `ImageCache.MatchMeans` | internal/provisioner/tpi/image_cache.go:230-233 | a digest matches a hash exactly when, after an optional sha256:, it is that hash character by character, up to the case of letters |
| `ImageCache.EnsureDecides` | internal/provisioner/tpi/image_cache.go:66-167 | exactly when a call succeeds, downloads, renames, records which digest, and removes the cached files, from the answers, the request and the files |
| `ImageCache.WrongBodyIsRefused` | internal/provisioner/tpi/image_cache.go:130-138 | a body whose hash differs from the expected one is never renamed into place, and with no matching cached file the call fails |
| `ImageCache.ReturnLeavesNoTmp` | internal/provisioner/tpi/image_cache.go:66-98 | a tmp survives a return exactly when it was there before and the cache directory could not be made |
| `ImageCache.CooperativeWorldSucceeds` | internal/provisioner/tpi/image_cache.go:66-167 | with every operation succeeding and a matching body, Ensure succeeds from any state of its slot |
| `ImageCache.RepeatIsFree` | internal/provisioner/tpi/image_cache.go:100-126 | repeating a successful call downloads again exactly when there is neither pin nor digest store, or the body was empty; otherwise it performs no operation at all |
| `ImageCache.CallKeepsRawExactlyWhen` | internal/provisioner/tpi/image_cache.go:100-166 | from a cache whose raw files are right, an uncut call whose decompressions work keeps them right exactly when it leaves none stale: the cached file could not be read back, so it was removed but its raw file was not, and the download then did not land (arrive, match, be moved into place and recorded), nor left in place a file that decodes to that raw file; an empty file is taken not to decode |
| `ImageCache.CleanRunKeepsRaw` | internal/provisioner/tpi/image_cache.go:100-166 | so any run of uncut calls whose decompressions work and of which none leaves a stale raw file keeps every raw file the decoded .xz, whatever downloads, digests and pins do |
| `ImageCache.ReturnedRawIsDecoded` | internal/provisioner/tpi/image_cache.go:100-166 | so a raw file returned after such a run is the decoding of a verified .xz |
| `ImageCache.RawIsDecodedExactlyWhen` | internal/provisioner/tpi/image_cache.go:100-166 | for any disk at all: a success whose decompressions work returns the decoded .xz exactly when the cached file was missing, empty, unreadable or not the expected one, or there was no raw file, or the raw file was already the decoded one |
| `ImageCache.TornRawIsReturned` | internal/provisioner/tpi/image_cache.go:106-111 | after a crash or a failed copy while decompressing, a torn raw file is returned as a success |
| `ImageCache.StaleRawIsReturned` | internal/provisioner/tpi/image_cache.go:123-125 | with no crash and every decompression exact, one failed read of the cached file is enough for a later success to return the raw file of another image |
| `ImageCacheHost.Host.Ensure` | internal/provisioner/tpi/image_cache.go:66-167 | the program performs exactly the operations of the plan, in order, and returns its result |
| `ImageCacheHost.Host.CommitBody` | internal/provisioner/tpi/image_cache.go:139-163 | rename before record, and the record only when there is a store and no expected digest |
| `ImageCacheHost.Host.CopyInto` | internal/provisioner/tpi/image_cache.go:171-202 | a stream into a file is one truncating create and one append for each chunk |
| `Handoff.TickEffect` | internal/bootstrap/controller.go:202-349 | the log of any tick is right event by event, and the phases it leaves follow from it |
| `Handoff.TickDoes` | internal/bootstrap/controller.go:202-370 | exactly when a tick resets, makes namespaces, and skips, applies, sees up, unblocks and hands off each tier, from its phases and answers |
| `Handoff.TickInOrder` | internal/bootstrap/controller.go:202-349 | each of these happens at most once in a tick, tier by tier and in a fixed order within a tier |
| `Handoff.AppliedWasDown` | internal/bootstrap/controller.go:296-312 | a tier applied in a tick was found down by its pre-check in that tick, and is applied once |
| `Handoff.AppliesAreGated` | internal/bootstrap/controller.go:202-323 | a tier is applied only while not handed off, and only after every earlier tier was seen up or found handed off in that tick |
| `Handoff.PhasesMoveForward` | internal/bootstrap/controller.go:327-370 | each event leaves the phases alone, moves one tier forward, or takes four handed-off tiers to pending at once |
| `Handoff.AlwaysOrdered` | internal/bootstrap/controller.go:202-370 | after any ticks, lost writes and restarts the non-pending tiers are a prefix of Cilium, ESO, ArgoCD, Apps, in memory and in the snapshot |
| `Handoff.HandedOffIsLeftAlone` | internal/bootstrap/controller.go:279-323 | from any state, over any ticks and restarts of which none takes the handoff of the tier back, a tier once handed off is not applied until a reset |
| `Handoff.LeftAloneExactlyWhen` | internal/bootstrap/controller.go:279-323 | over everything that can follow, a tier is left alone until a reset exactly while it is handed off |
| `Handoff.RestartKeepsExactlyWhen` | internal/bootstrap/controller.go:395-421 | so a restart keeps that guarantee exactly when it reads a snapshot in which the tier is handed off |
| `Handoff.LostWriteReapplies` | internal/bootstrap/controller.go:431-435 | one run in which it does not: the write after a handoff is lost, and the restart applies the tier again |
| `Handoff.Converges` | internal/bootstrap/controller.go:202-349 | from phases that are not stuck (ArgoCD handed off, not up, and not every tier handed off) every run of two or more cooperative ticks hands off every tier; tiers may also come up by themselves |
| `Handoff.ConvergesUnlessStuck` | internal/bootstrap/controller.go:202-349 | for each number of ticks from two on, every cooperative run of that length from these phases hands off every tier exactly when they are not stuck |
| `Handoff.CooperativeRunExists` | internal/bootstrap/controller.go:202-349 | from any phases and any world there are cooperative runs of every length, and from stuck ones cooperative runs that never hand everything off |
| `Handoff.StuckUntilHealthy` | internal/bootstrap/controller.go:255-323 | a stuck controller cannot bring ArgoCD back: while no check finds ArgoCD healthy, whatever else is answered, it never applies ArgoCD and never has every tier handed off |
| `Handoff.StuckRecoversExactlyWhen` | internal/bootstrap/controller.go:202-349 | it recovers in a tick without failures exactly when ArgoCD, back by itself, is found healthy for every tier left |
| `Handoff.StuckIsReachable` | internal/bootstrap/controller.go:202-349 | a fresh controller can become stuck in one tick |
| `Handoff.LaterTicksIdle` | internal/bootstrap/controller.go:255-275 | once all is handed off and ArgoCD up, every tick of every cooperative run applies nothing and creates no namespaces |
| `HandoffController.Controller.ReconcileOnce` | internal/bootstrap/controller.go:163-192 | a tick does exactly the log of the model, and a successful persist stores the phases in memory |
| `HandoffController.Controller.HandleSteadyState` | internal/bootstrap/controller.go:255-275 | idle exactly when all is handed off and ArgoCD healthy; a reset exactly when handed off and not healthy |
| `HandoffController.Controller.RunTier` | internal/bootstrap/controller.go:279-323 | one tier moves exactly as the model says, for every predicate, apply and wait result |
| `HandoffController.Controller.Reconcile` | internal/bootstrap/controller.go:202-250 | steady state, namespaces and four gated tiers, in that order |
| `HandoffController.Controller.Restart` | internal/bootstrap/controller.go:395-421 | a restart takes up the stored phases if they can be read, and all pending otherwise |
| `HandoffController.ReadBack` | internal/bootstrap/status.go:28-44 | the phases a restart reads are the phases that were written |
| `HandoffController.OnlyWrittenReads` | internal/bootstrap/controller.go:413-421 | any text that no other phase is written as reads as pending |
| `BoundedWait.DoneMeansSeen` | internal/bootstrap/tiers.go:278-297 | a wait succeeds exactly on a look that found the condition, after looks that did not |
| `BoundedWait.PollIsBounded` | internal/bootstrap/tiers.go:278-297 | however long looks would take and whichever way ties fall, it looks at most once and then once for each whole interval of its timeout, is over by the deadline, and times out only there |
| `BoundedWait.LooksAgainExactlyWhen` | internal/bootstrap/tiers.go:283-296 | a look that finds nothing is followed by another at its next tick exactly when that tick comes before the deadline, or with it and wins; otherwise the wait times out |
| `BoundedWait.NextTickIsFirst` | internal/bootstrap/tiers.go:281-295 | a tick that fell due during the look is received at its end, else the next one due |
| `BoundedWait.BoundIsReached` | internal/bootstrap/tiers.go:278-297 | for every timeout there is a wait with that many looks |
| `BoundedWait.PollLoop` | internal/bootstrap/tiers.go:278-297 | the loop ends as the model of ticks and deadline says, at the same time and after as many looks |
| `Versions.LessIsStrictOrder` | internal/upgrade/plan.go:29-37 | Less is a strict total order |
| `Versions.LessMeans` | internal/upgrade/plan.go:29-37 | one version is less than another exactly when its part is the smaller in the first place they differ |
| `Versions.ParseText` | internal/upgrade/plan.go:24-66 | parsing the printed version gives it back exactly when its parts fit 64-bit integers |
| `Versions.UsualTexts` | internal/upgrade/plan.go:24-27 | two printed versions, which between them use every digit |
| `Versions.ParsesExactlyWhen` | internal/upgrade/plan.go:41-66 | a text parses to a version exactly when it is, between white space and after an optional v, three dotted decimal numbers of its parts, a sign and leading zeros allowed, that fit |
| `Versions.ParsedFits` | internal/upgrade/plan.go:41-66 | whatever parses fits |
| `UpgradePlan.ComputePath` | internal/upgrade/plan.go:74-110 | fails exactly on another major or a missing intermediate minor; otherwise returns the path of best patches |
| `UpgradePlan.BestPatches` | internal/upgrade/plan.go:74-110 | the highest patch of every released minor, whatever the order of the catalog |
| `UpgradePlan.PathUnique` | internal/upgrade/plan.go:74-110 | the path depends only on which versions are released, not on the order they are listed in |
| `UpgradePlan.PathClimbs` | internal/upgrade/plan.go:74-110 | a path climbs strictly, by at most one minor, in one major, never past the target, and ends there |
| `UpgradePlan.LowestVersion` | internal/upgrade/plan.go:153-164 | the lowest detected version of the planned nodes |
| `UpgradePlan.BuildPlan` | internal/upgrade/plan.go:145-182 | one step for each version of the path, with exactly the nodes below it; no step is empty; the lowest version is named |
| `NodeOrder.OrderNodes` | internal/upgrade/plan.go:184-199 | a permutation with workers first, then by name: of two names in order the first is a beginning of the second or has the smaller character where they first differ; equal nodes stay in their old order |
| `NodeOrder.StepsKeepWorkersFirst` | internal/upgrade/plan.go:145-199 | within every step all workers precede all control planes |
| `NodeOrder.KeepReached` | internal/cli/upgrade.go:145-153 | the in-place filter leaves exactly the reached nodes, in order, at the front of the array |
| `Rollout.CompletedStepsHold` | internal/cli/upgrade.go:254-289 | at every point of every run, all planned nodes are at least at the version of each completed step |
| `Rollout.SkewIsOneMinor` | internal/cli/upgrade.go:254-289 | during a step any two nodes not above its version are at most one minor apart |
| `Rollout.NextMoveIsAHop` | internal/cli/upgrade.go:254-289 | every upgrade issued climbs by at most one minor in one major, to at most the target |
| `Rollout.FullRunReachesTarget` | internal/cli/upgrade.go:254-289 | a complete run ends every node at the higher of its version and the target |
| `Rollout.ClientMatchesNode` | internal/cli/upgrade.go:258-288 | every upgrade of every run is driven by a client of the version its node runs at that moment |
| `Rollout.LogOrder` | internal/cli/upgrade.go:254-289 | upgrades never go back to an earlier step, and within a step workers come first and then names in order |
| `Rollout.Execute` | internal/cli/upgrade.go:250-289 | whatever the answers, the run stops at the first answer that is not good: with nothing issued if there is no client, else with that node issued, and moved exactly if the answer says so; a run that succeeds leaves every node at the higher of its version and the target |
| `Rollout.StepVersion` | internal/cli/upgrade.go:255 | the step text reads back as the planned version, so the ignored parse error never happens |
| `UpgradeCommand.PlanIsAJob` | internal/upgrade/plan.go:145-182 | every plan for distinct nodes with parsed versions meets what the executor theorems need |
| `UpgradeCommand.Upgrade` | internal/cli/upgrade.go:96-289 | order, filter, plan and execute: exactly when it ends up to date, without a path, or with no node reached, over exactly the nodes that answered; otherwise a run of the path through the catalog that obeys all of the above, and that leaves every node at the higher of its version and the target if it succeeds |
| `K8sHops.FloorIsLowest` | internal/upgrade/k8s.go:86-102 | the computed floor is the lowest component version exactly when v0.0.0 is not listed or is listed last |
| `K8sHops.FloorAfterZero` | internal/upgrade/k8s.go:86-102 | when v0.0.0 is listed, the floor is that of what is listed after it |
| `K8sHops.PassedMeansAll` | internal/upgrade/k8s.go:193-203 | with no v0.0.0 listed the gate opens exactly when components were found and all are at the hop |
| `K8sHops.ZeroHidesALaggard` | internal/upgrade/k8s.go:86-102 | with one listed, the gate can open on a component below the hop |
| `K8sHops.DetectFloor` | internal/upgrade/k8s.go:86-102 | the loop computes that floor |
| `K8sHops.PlanK8sHops` | internal/upgrade/k8s.go:147-168 | fails exactly on a lower target or another major; otherwise returns the ladder |
| `K8sHops.LadderClimbs` | internal/upgrade/k8s.go:147-168 | a ladder is empty exactly when floor and target are equal, has consecutive minors, starts at most one above the floor and ends at the target |
| `K8sHops.LadderUnique` | internal/upgrade/k8s.go:147-168 | there is one ladder |
| `K8sHops.GateBeforeHop` | internal/cli/upgrade_k8s.go:232-252 | hop h + 1 is issued only after a probe that saw the control plane at hop h, and after every issue of hop h |
| `K8sHops.WaitK8sHop` | internal/upgrade/k8s.go:193-219 | succeeds exactly when some poll passes the gate and none before it gives up; looks once for each poll up to the one that ends the wait |
| `K8sHops.IssueHop` | internal/cli/upgrade_k8s.go:233-247 | succeeds exactly when every command is accepted; otherwise it stops at the first that is not, and that one is issued unless there is no client |
| `K8sHops.RunHops` | internal/cli/upgrade_k8s.go:232-252 | every run issues only the first hop not yet cleared; it succeeds exactly when every command of every hop is accepted and the polls open the gate of every hop, each after the one before |
| `TokenBucket.RateBound` | internal/provisioner/tpi/bmc_probe.go:69-105 | for every host, every interleaving and every window of T seconds, at most 3 + T admissions |
| `TokenBucket.BoundIsTight` | internal/provisioner/tpi/bmc_probe.go:69-105 | the bound is reached: three at once and one a second after |
| `TokenBucket.HostsIndependent` | internal/provisioner/tpi/bmc_probe.go:63-105 | a host is admitted exactly as if its own tries were the only ones |
| `TokenBucket.OneWaitIsEnough` | internal/provisioner/tpi/bmc_probe.go:78-104 | a refused caller nobody overtakes is admitted once it has waited as long as it was told, and no sooner |
| `TokenBucket.Entry.TakeOrWait` | internal/provisioner/tpi/bmc_probe.go:78-104 | one pass under the lock refills, caps, and takes a token or says how long to wait |
| `TokenBucket.Entry.AcquireAlone` | internal/provisioner/tpi/bmc_probe.go:78-104 | the loop of a lone caller sleeps at most once, and not at all exactly when a token is there |
| `TokenBucket.Limiter.Lookup` | internal/provisioner/tpi/bmc_probe.go:70-76 | a host gets a full bucket on its first look-up, and no other host changes |
| `TokenBucket.Limiter.Try` | internal/provisioner/tpi/bmc_probe.go:78-93 | a try is one step of its host and of no other |
| `EventFold.FoldState` | internal/pxe/events.go:268-354 | every event lands in its one bucket; phase and last-seen are maxima, interface and address the last named; the merge finds work exactly when an event names as its MAC the key of a bound address |
| `EventFold.BucketsAre` | internal/pxe/events.go:286-325 | the buckets are those of the MACs events name, of the MACs their addresses are bound to, and of their other addresses |
| `EventFold.BoundToLast` | internal/pxe/events.go:270-275 | an address is bound to the MAC of the last event that offered it to one |
| `EventFold.StagesInOrder` | internal/pxe/events.go:37-60 | the stages rank in the order a boot goes through them, and anything else before them |
| `EventFold.OrderDoesNotMatter` | internal/pxe/events.go:268-325 | with each address bound to one MAC, reordering or repeating events changes no bucket, phase or last-seen |
| `EventFold.NeverRegresses` | internal/pxe/events.go:268-325 | under the same condition, appending events never sets a MAC back |
| `EventFold.RebindingRegresses` | internal/pxe/events.go:268-325 | without it, an address that moves to another MAC takes its events along and sets the first one back |
| `EventFold.NeverSetBackExactlyWhen` | internal/pxe/events.go:268-325 | no continuation sets a MAC back exactly when its furthest phase and its latest time each come from an event that names it, not from one only its address ties to it |
| `EventFold.FoldExists` | internal/pxe/events.go:268-325 | every event list has a fold, so the statements about folds are about something |
| `EventFold.PlainMeansNoClash` | internal/pxe/events.go:327-351 | when no MAC starts like the key of an address bucket the merge loop finds no work |
| `EventFold.ClashIsAKey` | internal/pxe/events.go:327-351 | what the merge loop looks for is there exactly on such a clash |
| `EventFold.PhaseOrdinal` | internal/pxe/events.go:53-60 | the search loop computes the rank; unknown phases rank below all |
| `EventFold.BindingIP` | internal/pxe/events.go:356-364 | some address bound to the MAC, or none when there is none |
| `LineSplitter.Recorder.Write` | internal/pxe/serve.go:465-481 | after any writes, the lines handed over and the buffer cut the whole stream at its newlines |
| `LineSplitter.CutIsUnique` | internal/pxe/serve.go:465-481 | a stream can be cut in one way only |
| `LineSplitter.CutExists` | internal/pxe/serve.go:465-481 | and every stream can be |
| `LineSplitter.WriteAll` | internal/pxe/serve.go:465-481 | so for every chunking the parser gets exactly the lines of the concatenation, and the buffer what follows the last newline |
| `LineSplitter.ChunksDoNotMatter` | internal/pxe/serve.go:465-481 | two chunkings of one stream hand over the same lines |
| `LineSplitter.IndexByte` | internal/pxe/serve.go:484-491 | the first position, or none |
| `Scrubber.NoClearSecretLeaks` | internal/provisioner/redact/scrubber.go:54-68 | for every input and table, a secret that shares no seam with the marker is nowhere in the output |
| `Scrubber.SafeExactlyWhen` | internal/provisioner/redact/scrubber.go:54-68 | a table of secrets without brackets leaks on no input exactly when none is a substring of REDACTED |
| `Scrubber.BracketFreeIsClear` | internal/provisioner/redact/scrubber.go:54-68 | such a secret shares no seam with the marker |
| `Scrubber.SeamLeaks` | internal/provisioner/redact/scrubber.go:54-68 | with brackets: every secret that begins with an end of the marker leaks on some input |
| `Scrubber.SecretBecomesOneMarker` | internal/provisioner/redact/scrubber.go:50-68 | what longest-first gives: a secret that holds shorter ones still becomes one marker |
| `Scrubber.Scrubber.AddAll` | internal/provisioner/redact/scrubber.go:28-48 | any calls keep the table duplicate-free, non-empty-valued and non-increasing in length, with exactly the non-empty values added |
| `Scrubber.Scrubber.Scrub` | internal/provisioner/redact/scrubber.go:54-68 | the loop computes the replacement of all secrets in table order |
| `Scrubber.Replace` | internal/provisioner/redact/scrubber.go:65 | leftmost non-overlapping replacement |
| `Scrubber.ReplaceAllMeans` | internal/provisioner/redact/scrubber.go:65 | what is replaced is exactly the secrets from left to right, each the first after the one before, and all the text between them stays |
| `Scrubber.PlainTextStays` | internal/provisioner/redact/scrubber.go:54-68 | a text that holds no secret of the table is unchanged |
| `Scrubber.SortByLength` | internal/provisioner/redact/scrubber.go:45-47 | some order by falling length, of the same secrets |
| `Install.EachExactlyOnce` | internal/cluster/orchestrate.go:77-239 | one cleanup for a built provisioner, one release of the key if taken, one removal of the secrets, one unlock of the node |
| `Install.Order` | internal/cluster/orchestrate.go:77-239 | nothing touches the key after the cleanup, and nothing at all happens after the node is unlocked |
| `Install.InOrder` | internal/cluster/orchestrate.go:77-239 | whatever an install does, it does at most once and in one fixed order from the node lock to its release |
| `Install.Run.Install` | internal/cluster/orchestrate.go:77-239 | for every outcome of every hook the call breaks no rule and ends with everything released; exactly which of its steps it runs and when it succeeds, from the answers; a live node with no reinstall asked for is not installed over |
| `Install.Run.Body` | internal/cluster/orchestrate.go:103-239 | what each way out has registered and still holds |
| `Install.Run.Drive` | internal/cluster/orchestrate.go:178-208 | the hooks run in order, each only after the one before it succeeded |
| `Install.LockAgrees` | internal/cluster/orchestrate.go:166-176 | in every interleaving the keyed lock and each install agree on who waits, holds and has left |
| `Install.HooksNeverOverlap` | internal/cluster/orchestrate.go:166-209 | over any number of installs of one process with one key, no hook of another install falls between two hooks of one |
| `PxeWipe.WipeIsOneShot` | internal/provisioner/pxe/pxe.go:79-109 | with working files a queued wipe is gone from queue and boot script on return, other nodes stay queued, and no wipe is left that was not found |
| `PxeWipe.OthersStayQueuedExactlyWhen` | internal/provisioner/pxe/pxe.go:79-109 | with working writes, the wipes of other nodes outlive an install exactly when the queue could be read both times |
| `PxeWipe.NoWipeOutlivesAnyRun` | internal/provisioner/pxe/pxe.go:79-294 | the same over any number of installs in turn, none of them killed |
| `PxeWipe.KillLeavesWipe` | internal/provisioner/pxe/pxe.go:79-109 | a process killed after Prepare leaves the wipe in queue and boot script |
| `PxeWipe.NextInstallAfterKill` | internal/provisioner/pxe/pxe.go:79-294 | what the next install makes of that: the boot script keeps the wipe exactly when it renders none, the node stays queued exactly when it is not the one wiped |
| `PxeWipe.FinishedOnFiles` | internal/provisioner/pxe/pxe.go:263-294 | every install that obeys the rules does that to the files, whatever its hooks did |
| `PxeWipe.PrepareDecides` | internal/provisioner/pxe/pxe.go:79-109 | exactly when Prepare succeeds; then the boot script carries the wipe exactly if one is active, and the queue has gained the node exactly if it was to be wiped |
| `PxeWipe.PrepareFailsAt` | internal/provisioner/pxe/pxe.go:90-107 | what each step that can fail leaves of the boot script and the queue |
| `PxeWipe.CleanupDecides` | internal/provisioner/pxe/pxe.go:285-293 | Cleanup touches nothing without an active wipe; otherwise it takes the node from the queue, and renders a plain script only if that worked |
| `PxeWipe.WipeSurvivesExactlyWhen` | internal/provisioner/pxe/pxe.go:285-292 | a served wipe outlives its install exactly when consuming it fails or the last render fails leaving it |
| `LateCleanup.ActiveExactlyWhen` | internal/provisioner/pxe/pxe.go:79-294 | in every interleaving of whole hooks an install means to consume its wipe exactly from a Prepare that queued it until its cleanup |
| `LateCleanup.WipeKeptExactlyWhen` | internal/provisioner/pxe/pxe.go:263-294 | in every interleaving of whole hooks, a boot script that carries a wipe, whoever rendered it, still does after a cleanup exactly when that install queued none, or consuming fails, or the plain render fails leaving it |
| `LateCleanup.LateCleanupLosesWipe` | internal/provisioner/pxe/pxe.go:263-294 | an interleaving the key and the rules allow, with every file access working, in which the cleanup of one install undoes the boot script of the next inside its key section, whose wipe stays queued |
| `PxeWipe.InTurnBothWipe` | internal/provisioner/pxe/pxe.go:79-109 | one after the other, both are served |
| `PxeWipe.Provisioner.Prepare` | internal/provisioner/pxe/pxe.go:79-109 | Prepare on the files, for every write result |
| `PxeWipe.Provisioner.Cleanup` | internal/provisioner/pxe/pxe.go:263-294 | Cleanup on the files, for every write result |
| `WipeQueue.QueueThenConsume` | internal/cluster/wipe.go:14-26 | a queued wipe is there to be consumed, however its MAC is spelled, and the two calls leave the other nodes as they were |
| `WipeQueue.OthersKeptExactlyWhen` | internal/cluster/wipe.go:44-52 | the wipe of another node survives a write that succeeds exactly when the file could be read first |
| `WipeQueue.LastOpDecides` | internal/cluster/wipe.go:14-61 | over any calls that work, a MAC is pending exactly when it was last queued, or was pending before and nothing was done about it |
| `ManagedHosts.RewriteManagedHosts` | internal/cli/hosts.go:97-123 | the line loop with its flag computes the kept lines and the new text |
| `ManagedHosts.LineMapsMeans` | internal/cli/hosts.go:125-138 | a line maps a name exactly when it is no comment and the name is one of its words after the first, however the words are spaced |
| `ManagedHosts.Idempotent` | internal/cli/hosts.go:97-123 | rewriting a host to the same addresses again changes nothing, whatever the file was |
| `ManagedHosts.SurvivesExactlyWhen` | internal/cli/hosts.go:97-123 | a line that is neither a marker of the host nor maps it is in the rewritten file exactly when no block of the host is open at it |
| `ManagedHosts.UnclosedBlockTakesAll` | internal/cli/hosts.go:97-123 | so a file with a begin marker and no end marker after it is rewritten as if it ended before the marker |
| `HostsRuns.RewriteItems` | internal/cli/hosts.go:86-138 | a rewrite replaces the block of its host, drops the lines that map it, and keeps all else in order |
| `HostsRuns.AnyRun` | internal/cli/hosts.go:86-138 | after any rewrites of a marker-free file: one block for each written host with its last addresses, and every non-blank line that maps none of them, in order |
| `HostsRuns.HostResolvesToLast` | internal/cli/hosts.go:87-138 | each written host resolves to exactly its last addresses, in order |
| `HostsRuns.OtherNameKeepsExactlyWhen` | internal/cli/hosts.go:97-138 | whatever the file, another name resolves to what it did before exactly when no line of it maps the rewritten host as well or stands where a block of that host is open |
| `HostsRuns.OpenBlockLosesName` | internal/cli/hosts.go:97-138 | a file in which a name loses its address: its line stands after a begin marker that has no end marker |
| `TextLines.LinesOfJoin` | internal/cli/hosts.go:103-120 | joined lines split into the same lines |
| `TextLines.FieldsMean` | internal/cli/hosts.go:131-136 | the fields of a line are its words, whatever white space is around them |
| `Download.NeverTorn` | internal/netboot/proxmox/download.go:53-118 | over any attempts the partial file is a prefix of the content, and the destination the content or nothing |
| `Download.AttemptDecides` | internal/netboot/proxmox/download.go:53-118 | exactly when one attempt succeeds, and the bytes it leaves in the partial file for every way it ends |
| `Download.DownloadDecides` | internal/netboot/proxmox/download.go:24-51 | exactly when a download succeeds, from the cached file, the checksum, the partial file and the attempt, and what it leaves |
| `Download.ReturnedIsVerified` | internal/netboot/proxmox/download.go:24-51 | with a known checksum a path is returned only for a file that has it, whatever was on disk |
| `Download.ProgressIsKept` | internal/netboot/proxmox/download.go:53-118 | while ranges are honoured, fetched bytes are never lost |
| `Download.CleanAttemptSucceedsWhen` | internal/netboot/proxmox/download.go:53-118 | an undisturbed attempt succeeds exactly when bytes are missing or the server ignores ranges |
| `Download.CompletePartIsStuck` | internal/netboot/proxmox/download.go:59-85 | a complete partial file fails forever against a server that honours ranges |
| `Download.StuckIsReachable` | internal/netboot/proxmox/download.go:107-118 | and one kill just before the rename leaves it |
| `Download.Cache.DownloadTo` | internal/netboot/proxmox/download.go:53-118 | append or truncate, copy, and rename only a whole body |
| `Download.Cache.Download` | internal/netboot/proxmox/download.go:24-51 | cache hit, re-download on mismatch, verify, remove on mismatch |

## Left out

- ContentionMap.LockMap.Take: the two mutexes are the atomic steps of the interleaving model, so the class
  runs one step at a time; that any interleaving of those steps is right is proved in `KeyedMutex`.
- KeyedMutex.WaiterHasProgress: which waiter gets a free lock, and that a waiter is not passed over for ever,
  is left to the scheduler.
- ImageCache.RunKeepsInv: a crash is the end of the process between two completed file operations, which stay
  done; the loss of writes not yet forced to the disk, torn appends included, is not modelled, nor are two
  processes in one cache directory. The temporary file of the digest store is part of the single write of it.
- ImageCache.EnsureEffect: failures of removing a file, and the permission bits of files, other than as a
  failed step.
- Handoff.TickEffect: the tier states shown beside the phases, messages, timestamps and log lines; the
  informers that only wake the loop; and a second controller process at once.
- HandoffController.ReadBack: the JSON of the status is a record of four phase texts.
- BoundedWait.PollIsBounded: a look is given the deadline as its context and is taken to stop there at once, as
  requests to the cluster do; what it finds then is free. A cancelled parent context ends the wait like the deadline does and has no case of
  its own.
- Rollout.Execute: what `WaitHealthy` polls; it either saw the node healthy at the step version or did not.
  The interactive plan screen, dry runs and the confirmation, which end before anything is issued.
- UpgradeCommand.Upgrade: the endpoint each node answered on, and its schematic.
- K8sHops.RunHops: the kubelet template edits and the final readiness check after the hops.
- TokenBucket.RateBound: time is exact; rounding of nanoseconds and floats, and the ten-millisecond floor for a
  wait that rounds to nothing, are not modelled.
- TokenBucket.Entry.AcquireAlone: a caller among others on its host can be overtaken and has no bound.
- EventFold.FoldState: what the merge loop leaves behind when it does find work; the `Known` flag.
- LineSplitter.Recorder.Write: what the parser makes of a line.
- Scrubber.SeamLeaks: secrets that only end with a beginning of the marker may or may not leak, depending on
  how they overlap themselves; the exact condition is given for tables without brackets.
- Install.HooksNeverOverlap: the contention key lives in one process, so the theorem is about the installs of
  one process; two commands at once share only the lock of each node. A provisioner with the empty key takes no
  lock, so the theorem asks for another key. What the hooks of other provisioners do.
- PxeWipe.NoWipeOutlivesAnyRun: the wipe files have no lock of their own, so installs are in turn here, and
  none is killed between Prepare and Cleanup; what interleaved ones do is in `LateCleanup`, and what a kill
  leaves and the next install makes of it is `PxeWipe.KillLeavesWipe` and `PxeWipe.NextInstallAfterKill`.
- LateCleanup.WipeKeptExactlyWhen: a whole Prepare and a whole Cleanup are one step each; in the original they are
  several file accesses, with downloads in between, so the interleavings are those of whole hooks.
- WipeQueue.LastOpDecides: a queue file that holds the JSON value null, which makes the original write to a nil
  map; a file of the wrong value types.
- PxeWipe.FinishedOnFiles: marking a node installed is keyed by one form of its MAC and looked up by another in
  the server, so the boot-from-disk answer end to end is not modelled.
- HostsRuns.AnyRun: hosts and addresses are single words, as host names and addresses are, and the file starts
  without managed markers; a failed write of the file.
- Download.NeverTorn: the content does not change between attempts, a body that ends without an error is
  complete, and a partial answer starts where it was asked to; `Content-Range` is not read by the original.
- Command wiring, the interactive screens, the MCP server, schema, setup and doctor commands, secret backends,
  ISO building, kubeconfig editing and config validation: plumbing, or specifications that restate the code.
- TextLines.LinesOfJoin: white space and letter case are those of ASCII; other Unicode spaces are not modelled.
- HTTP, TLS, subprocesses, Kubernetes clients, JSON and YAML, xz and SHA-256: parameters or uninterpreted
  functions.
