/**
 PXE installs that interleave: their hooks share the boot script and the wipe queue, and a cleanup runs
 after its install has given the contention key back.
 */
module LateCleanup {
  import opened Text
  import opened WipeQueue
  import opened PxeWipe
  import I = Install
  import M = KeyedMutex

  datatype Node = Node(mac: string, skipWipe: bool, writes: Writes)

  // The shared files, and the installs whose provisioner still means to consume its wipe.
  datatype World = World(files: Files, active: set<nat>)

  function Step<E>(w: World, a: I.Act<E>, nodes: nat -> Node): World {
    var c, node := a.install, nodes(a.install);
    var s := match a.event
      case Prepare => Prepared(State(w.files, c in w.active), node.mac, node.skipWipe, node.writes).0
      case Cleanup => Cleaned(State(w.files, c in w.active), node.mac, node.writes)
      case _ => State(w.files, c in w.active);
    World(s.files, if s.wipeActive then w.active + {c} else w.active - {c})
  }

  function Run<E>(w: World, acts: seq<I.Act<E>>, nodes: nat -> Node): World {
    if acts == [] then w
    else Step(Run(w, acts[..|acts| - 1], nodes), acts[|acts| - 1], nodes)
  }

  function Fresh(f: Files): World { World(f, {}) }

  // ---------------------------------------------------------------- exactly when a cleanup undoes a wipe

  lemma StepActive<E>(w: World, a: I.Act<E>, nodes: nat -> Node, c: nat)
    ensures c in Step(w, a, nodes).active
      <==> if a.install != c then c in w.active
           else if a.event == I.Prepare then c in w.active || (!nodes(c).skipWipe && nodes(c).writes.queue.write.Done?)
           else a.event != I.Cleanup && c in w.active
  {
  }

  predicate Due(h: I.Holding, node: Node) {
    h.hooks > 0 && h.prov == I.Open && !node.skipWipe && node.writes.queue.write.Done?
  }

  lemma DueNext(log: seq<I.Event>, e: I.Event, node: Node)
    requires I.Obeys(log) && I.After(log).Allows(e)
    ensures Due(I.After(log).Next(e), node)
      <==> if e == I.Prepare then Due(I.After(log), node) || (!node.skipWipe && node.writes.queue.write.Done?)
           else e != I.Cleanup && Due(I.After(log), node)
  {
    KeyNeedsProvisioner(log);
  }

  // In every interleaving: an install is active exactly from a Prepare that queued its wipe until its
  // cleanup.
  lemma {:induction false} ActiveExactlyWhen<E>(f: Files, acts: seq<I.Act<E>>, key: string, nodes: nat -> Node, c: nat)
    requires I.Interleaved(acts, key)
    ensures c in Run(Fresh(f), acts, nodes).active <==> Due(I.After(I.Own(acts, c)), nodes(c))
    decreases |acts|
  {
    if acts != [] {
      var front, last := acts[..|acts| - 1], acts[|acts| - 1];
      I.FrontInterleaved(acts, key);
      ActiveExactlyWhen(f, front, key, nodes, c);
      I.LastAct(acts, key, c);
      StepActive(Run(Fresh(f), front, nodes), last, nodes, c);
      if last.install == c { DueNext(I.Own(front, c), last.event, nodes(c)); }
    }
  }

  // Cleanup, as one step on the shared files.
  lemma CleanupStep<E>(w: World, a: I.Act<E>, nodes: nat -> Node)
    requires a.event == I.Cleanup && w.files.wipes
    ensures var writes := nodes(a.install).writes;
      Step(w, a, nodes).files.wipes
      <==> a.install !in w.active || writes.consume.write.Failed? || writes.plainScript == Failed(true)
  {
  }

  // A cleanup takes the wipe out of a boot script that carries one, whoever rendered it, unless its
  // install queued no wipe, or consuming fails, or the plain render fails leaving it.
  lemma WipeKeptExactlyWhen<E>(f: Files, acts: seq<I.Act<E>>, last: I.Act<E>, key: string, nodes: nat -> Node)
    requires I.Interleaved(acts, key) && last.event == I.Cleanup && I.After(I.Own(acts, last.install)).Allows(I.Cleanup)
    requires Run(Fresh(f), acts, nodes).files.wipes
    ensures var h, node := I.After(I.Own(acts, last.install)), nodes(last.install);
      Run(Fresh(f), acts + [last], nodes).files.wipes
      <==> h.hooks == 0 || node.skipWipe || node.writes.queue.write.Failed?
           || node.writes.consume.write.Failed? || node.writes.plainScript == Failed(true)
  {
    ActiveExactlyWhen(f, acts, key, nodes, last.install);
    RunSnoc(Fresh(f), acts, last, nodes);
    CleanupStep(Run(Fresh(f), acts, nodes), last, nodes);
  }

  lemma RunSnoc<E>(w: World, acts: seq<I.Act<E>>, last: I.Act<E>, nodes: nat -> Node)
    ensures Run(w, acts + [last], nodes) == Step(Run(w, acts, nodes), last, nodes)
  {
    assert (acts + [last])[..|acts|] == acts;
  }

  // ---------------------------------------------------------------- a run in which it happens

  // Where two installs, the key and the files stand.
  datatype View = View(first: I.Holding, second: I.Holding, lock: M.State<nat>, world: World) {
    function Of(c: nat): I.Holding { if c == 0 then first else second }

    function With(c: nat, h: I.Holding): View { if c == 0 then this.(first := h) else this.(second := h) }
  }

  ghost predicate At(acts: seq<I.Act<nat>>, key: string, f: Files, nodes: nat -> Node, v: View) {
    && I.Interleaved(acts, key)
    && I.After(I.Own(acts, 0)) == v.first && I.After(I.Own(acts, 1)) == v.second
    && I.LockState(acts, key) == v.lock && Run(Fresh(f), acts, nodes) == v.world
  }

  lemma AtStart(key: string, f: Files, nodes: nat -> Node)
    requires key != ""
    ensures At([], key, f, nodes, View(I.NOTHING, I.NOTHING, M.Init(), Fresh(f)))
  {
  }

  predicate Can(v: View, c: nat, e: I.Event, key: string) {
    v.Of(c).Allows(e) && var step := I.StepOf(I.Act(c, e, c), key); step == [] || M.Enabled(v.lock, step[0])
  }

  function Next(v: View, c: nat, e: I.Event, key: string, nodes: nat -> Node): View
    requires Can(v, c, e, key)
  {
    var act, w := I.Act(c, e, c), v.With(c, v.Of(c).Next(e));
    var step := I.StepOf(act, key);
    View(w.first, w.second, if step == [] then v.lock else M.Apply(v.lock, step[0]), Step(v.world, act, nodes))
  }

  lemma OwnNext(acts: seq<I.Act<nat>>, a: I.Act<nat>, c: nat)
    requires I.Obeys(I.Own(acts, c)) && (a.install == c ==> I.After(I.Own(acts, c)).Allows(a.event))
    ensures I.Obeys(I.Own(acts + [a], c))
    ensures I.After(I.Own(acts + [a], c)) == if a.install == c then I.After(I.Own(acts, c)).Next(a.event) else I.After(I.Own(acts, c))
  {
    assert (acts + [a])[..|acts|] == acts;
    if a.install == c {
      I.ObeysSnoc(I.Own(acts, c), a.event);
    } else {
      assert I.Own(acts, c) + [] == I.Own(acts, c);
    }
  }

  lemma StepsSnoc(acts: seq<I.Act<nat>>, a: I.Act<nat>, key: string)
    ensures I.Steps(acts + [a], key) == I.Steps(acts, key) + I.StepOf(a, key)
  {
    assert (acts + [a])[..|acts|] == acts;
  }

  lemma LockNext(acts: seq<I.Act<nat>>, a: I.Act<nat>, key: string)
    requires M.IsRun(M.Init<nat>(), I.Steps(acts, key))
    requires var step := I.StepOf(a, key); step == [] || M.Enabled(I.LockState(acts, key), step[0])
    ensures M.IsRun(M.Init<nat>(), I.Steps(acts + [a], key))
    ensures var step := I.StepOf(a, key);
      I.LockState(acts + [a], key) == if step == [] then I.LockState(acts, key) else M.Apply(I.LockState(acts, key), step[0])
  {
    StepsSnoc(acts, a, key);
    var step := I.StepOf(a, key);
    if step == [] {
      assert I.Steps(acts, key) + [] == I.Steps(acts, key);
    } else {
      assert step == [step[0]];
      I.RunSnoc(M.Init<nat>(), I.Steps(acts, key), step[0]);
    }
  }

  // Whatever the rules and the key allow next extends an interleaving.
  lemma AtNext(acts: seq<I.Act<nat>>, key: string, f: Files, nodes: nat -> Node, v: View, c: nat, e: I.Event)
    requires At(acts, key, f, nodes, v) && c <= 1 && Can(v, c, e, key)
    ensures At(acts + [I.Act(c, e, c)], key, f, nodes, Next(v, c, e, key, nodes))
  {
    var a := I.Act(c, e, c);
    LockNext(acts, a, key);
    RunSnoc(Fresh(f), acts, a, nodes);
    forall d: nat ensures I.Obeys(I.Own(acts + [a], d)) {
      assert I.Obeys(I.Own(acts, d));
      AllowedToAct(acts, v, a, d);
      OwnNext(acts, a, d);
    }
    OwnNext(acts, a, 0);
    OwnNext(acts, a, 1);
  }

  lemma AllowedToAct(acts: seq<I.Act<nat>>, v: View, a: I.Act<nat>, d: nat)
    requires I.After(I.Own(acts, 0)) == v.first && I.After(I.Own(acts, 1)) == v.second
    requires a.install <= 1 && v.Of(a.install).Allows(a.event)
    ensures a.install == d ==> I.After(I.Own(acts, d)).Allows(a.event)
  {
  }

  lemma IdleStep(w: World, c: nat, e: I.Event, nodes: nat -> Node)
    requires e != I.Prepare && e != I.Cleanup
    ensures Step(w, I.Act(c, e, c), nodes) == w
  {
    assert c in w.active ==> w.active + {c} == w.active;
    assert c !in w.active ==> w.active - {c} == w.active;
  }

  // An event that touches neither key nor files.
  lemma Plain(acts: seq<I.Act<nat>>, key: string, f: Files, nodes: nat -> Node, v: View, c: nat, e: I.Event)
    requires At(acts, key, f, nodes, v) && c <= 1 && v.Of(c).Allows(e)
    requires I.StepOf(I.Act(c, e, c), key) == [] && e != I.Prepare && e != I.Cleanup
    ensures At(acts + [I.Act(c, e, c)], key, f, nodes, v.With(c, v.Of(c).Next(e)))
  {
    AtNext(acts, key, f, nodes, v, c, e);
    IdleStep(v.world, c, e, nodes);
  }

  // An event on the key.
  lemma OnLock(acts: seq<I.Act<nat>>, key: string, f: Files, nodes: nat -> Node, v: View, c: nat, e: I.Event, step: M.Step<nat>)
    requires At(acts, key, f, nodes, v) && c <= 1 && v.Of(c).Allows(e)
    requires I.StepOf(I.Act(c, e, c), key) == [step] && M.Enabled(v.lock, step)
    ensures At(acts + [I.Act(c, e, c)], key, f, nodes, v.With(c, v.Of(c).Next(e)).(lock := M.Apply(v.lock, step)))
  {
    AtNext(acts, key, f, nodes, v, c, e);
    IdleStep(v.world, c, e, nodes);
  }

  const WAITING := I.Holding(I.Open, I.Open, I.Open, I.Unasked, 0)
  const INSIDE := I.Holding(I.Open, I.Open, I.Open, I.Held, 0)

  // A fresh install comes as far as asking for the key.
  lemma Arrives(acts: seq<I.Act<nat>>, key: string, f: Files, nodes: nat -> Node, v: View, c: nat) returns (next: seq<I.Act<nat>>)
    requires At(acts, key, f, nodes, v) && c <= 1 && v.Of(c) == I.NOTHING
    ensures At(next, key, f, nodes, v.With(c, WAITING))
  {
    Plain(acts, key, f, nodes, v, c, I.NodeLocked);
    next := acts + [I.Act(c, I.NodeLocked, c)];
    var v1 := v.With(c, v.Of(c).Next(I.NodeLocked));
    Plain(next, key, f, nodes, v1, c, I.Preflight);
    next := next + [I.Act(c, I.Preflight, c)];
    var v2 := v1.With(c, v1.Of(c).Next(I.Preflight));
    Plain(next, key, f, nodes, v2, c, I.TempMade);
    next := next + [I.Act(c, I.TempMade, c)];
  }

  lemma Takes(acts: seq<I.Act<nat>>, key: string, f: Files, nodes: nat -> Node, v: View, c: nat) returns (next: seq<I.Act<nat>>)
    requires At(acts, key, f, nodes, v) && c <= 1 && v.Of(c) == WAITING
    requires M.Enabled(v.lock, M.Enter(c, key, c)) && M.Enabled(M.Apply(v.lock, M.Enter(c, key, c)), M.Lock(c))
    ensures At(next, key, f, nodes, v.With(c, INSIDE).(lock := M.Apply(M.Apply(v.lock, M.Enter(c, key, c)), M.Lock(c))))
  {
    OnLock(acts, key, f, nodes, v, c, I.KeyEnter, M.Enter(c, key, c));
    next := acts + [I.Act(c, I.KeyEnter, c)];
    var v1 := v.With(c, v.Of(c).Next(I.KeyEnter)).(lock := M.Apply(v.lock, M.Enter(c, key, c)));
    OnLock(next, key, f, nodes, v1, c, I.KeyLock, M.Lock(c));
    next := next + [I.Act(c, I.KeyLock, c)];
  }

  const PREPARED := I.Holding(I.Open, I.Open, I.Open, I.Held, 1)

  lemma Prepares(acts: seq<I.Act<nat>>, key: string, f: Files, nodes: nat -> Node, v: View, c: nat) returns (next: seq<I.Act<nat>>)
    requires At(acts, key, f, nodes, v) && c <= 1 && v.Of(c) == INSIDE
    ensures At(next, key, f, nodes, v.With(c, PREPARED).(world := Step(v.world, I.Act(c, I.Prepare, c), nodes)))
  {
    AtNext(acts, key, f, nodes, v, c, I.Prepare);
    next := acts + [I.Act(c, I.Prepare, c)];
  }

  const LEAVING := I.Holding(I.Open, I.Open, I.Open, I.Left, 2)

  // Its boot fails and it gives the key back.
  lemma Leaves(acts: seq<I.Act<nat>>, key: string, f: Files, nodes: nat -> Node, v: View, c: nat) returns (next: seq<I.Act<nat>>)
    requires At(acts, key, f, nodes, v) && c <= 1 && v.Of(c) == PREPARED
    requires M.Enabled(v.lock, M.Unlock(c)) && M.Enabled(M.Apply(v.lock, M.Unlock(c)), M.Exit(c))
    ensures At(next, key, f, nodes, v.With(c, LEAVING).(lock := M.Apply(M.Apply(v.lock, M.Unlock(c)), M.Exit(c))))
  {
    Plain(acts, key, f, nodes, v, c, I.Boot);
    next := acts + [I.Act(c, I.Boot, c)];
    var v1 := v.With(c, v.Of(c).Next(I.Boot));
    OnLock(next, key, f, nodes, v1, c, I.KeyUnlock, M.Unlock(c));
    next := next + [I.Act(c, I.KeyUnlock, c)];
    var v2 := v1.With(c, v1.Of(c).Next(I.KeyUnlock)).(lock := M.Apply(v1.lock, M.Unlock(c)));
    OnLock(next, key, f, nodes, v2, c, I.KeyExit, M.Exit(c));
    next := next + [I.Act(c, I.KeyExit, c)];
  }

  function Taken(s: M.State<nat>, key: string, c: nat): M.State<nat>
    requires M.Enabled(s, M.Enter(c, key, c)) && M.Enabled(M.Apply(s, M.Enter(c, key, c)), M.Lock(c))
  {
    M.Apply(M.Apply(s, M.Enter(c, key, c)), M.Lock(c))
  }

  // The key can go from one call to the other.
  lemma KeyPasses(key: string) returns (held: M.State<nat>, free: M.State<nat>)
    requires key != ""
    ensures var s := M.Init<nat>();
      && M.Enabled(s, M.Enter(0, key, 0)) && M.Enabled(M.Apply(s, M.Enter(0, key, 0)), M.Lock(0)) && held == Taken(s, key, 0)
    ensures M.Enabled(held, M.Unlock(0)) && M.Enabled(M.Apply(held, M.Unlock(0)), M.Exit(0))
    ensures free == M.Apply(M.Apply(held, M.Unlock(0)), M.Exit(0))
    ensures M.Enabled(free, M.Enter(1, key, 1)) && M.Enabled(M.Apply(free, M.Enter(1, key, 1)), M.Lock(1))
  {
    held := Taken(M.Init(), key, 0);
    free := M.Apply(M.Apply(held, M.Unlock(0)), M.Exit(0));
  }

  function Started(f: Files, nodes: nat -> Node): World {
    Step(Step(Fresh(f), I.Act(0, I.Prepare, 0), nodes), I.Act(1, I.Prepare, 1), nodes)
  }

  // An install that finds the key free takes it and prepares.
  lemma ComesToPrepare(acts: seq<I.Act<nat>>, key: string, f: Files, nodes: nat -> Node, v: View, c: nat, held: M.State<nat>)
    returns (next: seq<I.Act<nat>>)
    requires At(acts, key, f, nodes, v) && c <= 1 && v.Of(c) == I.NOTHING
    requires M.Enabled(v.lock, M.Enter(c, key, c)) && M.Enabled(M.Apply(v.lock, M.Enter(c, key, c)), M.Lock(c)) && held == Taken(v.lock, key, c)
    ensures At(next, key, f, nodes, v.With(c, PREPARED).(lock := held, world := Step(v.world, I.Act(c, I.Prepare, c), nodes)))
  {
    next := Arrives(acts, key, f, nodes, v, c);
    next := Takes(next, key, f, nodes, v.With(c, WAITING), c);
    next := Prepares(next, key, f, nodes, v.With(c, INSIDE).(lock := held), c);
  }

  // The first one then fails to boot and gives the key back.
  lemma FirstLeaves(f: Files, nodes: nat -> Node, key: string) returns (acts: seq<I.Act<nat>>, free: M.State<nat>)
    requires key != ""
    ensures At(acts, key, f, nodes, View(LEAVING, I.NOTHING, free, Step(Fresh(f), I.Act(0, I.Prepare, 0), nodes)))
    ensures M.Enabled(free, M.Enter(1, key, 1)) && M.Enabled(M.Apply(free, M.Enter(1, key, 1)), M.Lock(1))
  {
    AtStart(key, f, nodes);
    var held;
    held, free := KeyPasses(key);
    acts := ComesToPrepare([], key, f, nodes, View(I.NOTHING, I.NOTHING, M.Init(), Fresh(f)), 0, held);
    acts := Leaves(acts, key, f, nodes, View(PREPARED, I.NOTHING, held, Step(Fresh(f), I.Act(0, I.Prepare, 0), nodes)), 0);
  }

  // The second takes it and prepares.
  lemma BothPrepared(f: Files, nodes: nat -> Node, key: string) returns (acts: seq<I.Act<nat>>)
    requires key != ""
    ensures I.Interleaved(acts, key) && Run(Fresh(f), acts, nodes) == Started(f, nodes)
    ensures I.After(I.Own(acts, 0)) == LEAVING && I.After(I.Own(acts, 1)) == PREPARED
  {
    var free;
    acts, free := FirstLeaves(f, nodes, key);
    var one := Step(Fresh(f), I.Act(0, I.Prepare, 0), nodes);
    acts := ComesToPrepare(acts, key, f, nodes, View(LEAVING, I.NOTHING, free, one), 1, Taken(free, key, 1));
  }

  predicate WipesAndWorks(n: Node) { !n.skipWipe && AllWorks(n.writes) && n.writes.build.Built? }

  // The files at the two ends of the late cleanup.
  lemma LateFiles(f: Files, nodes: nat -> Node)
    requires ToLower(nodes(0).mac) != ToLower(nodes(1).mac) && WipesAndWorks(nodes(0)) && WipesAndWorks(nodes(1))
    ensures var two := Started(f, nodes);
      var late := Step(two, I.Act(0, I.Cleanup, 0), nodes);
      two.files.wipes && !late.files.wipes && ToLower(nodes(1).mac) in Pending(late.files.queue)
  {
  }

  // An interleaving the rules and the key allow, with every file access working: the second install,
  // inside its key section, has just rendered its wipe; the cleanup of the first, which comes next, takes
  // it out of the boot script, although it is still queued.
  lemma LateCleanupLosesWipe(f: Files, nodes: nat -> Node, key: string) returns (acts: seq<I.Act<nat>>, late: I.Act<nat>)
    requires key != "" && ToLower(nodes(0).mac) != ToLower(nodes(1).mac) && WipesAndWorks(nodes(0)) && WipesAndWorks(nodes(1))
    ensures late.install == 0 && late.event == I.Cleanup && I.Interleaved(acts, key) && I.Interleaved(acts + [late], key)
    ensures I.After(I.Own(acts, 1)).key == I.Held
    ensures Run(Fresh(f), acts, nodes).files.wipes && !Run(Fresh(f), acts + [late], nodes).files.wipes
    ensures ToLower(nodes(1).mac) in Pending(Run(Fresh(f), acts + [late], nodes).files.queue)
  {
    acts := BothPrepared(f, nodes, key);
    late := I.Act(0, I.Cleanup, 0);
    AtNext(acts, key, f, nodes, View(LEAVING, PREPARED, I.LockState(acts, key), Started(f, nodes)), 0, I.Cleanup);
    LateFiles(f, nodes);
  }
}
