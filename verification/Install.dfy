/**
 The control flow of an install: hooks, early returns, and the deferred releases that every way out
 runs in reverse. The rules of the resources an install holds are a small state machine over its log;
 any number of installs interleave around one keyed lock.
 */
module Install {
  import M = KeyedMutex

  datatype Event =
    | NodeLocked | NodeUnlocked
    | Preflight | Cleanup
    | TempMade | TempRemoved
    | KeyEnter | KeyLock | KeyUnlock | KeyExit
    | Prepare | Boot | Wait | Apply
    | ApidWait | Bootstrap

  // ---------------------------------------------------------------- the rules

  datatype Cell = Fresh | Open | Closed

  datatype Key = Unasked | Entered | Held | Unlocked | Left

  // What an install holds: the node lock, a provisioner to clean up, the rendered secrets, the
  // contention key; and how many of its hooks it has run.
  datatype Holding = Holding(node: Cell, prov: Cell, temp: Cell, key: Key, hooks: nat) {
    predicate KeyDone() { key == Unasked || key == Left }

    predicate AllReleased() { node != Open && prov != Open && temp != Open && KeyDone() }

    predicate Allows(e: Event) {
      if e == NodeLocked then this == NOTHING
      else node == Open && match e
        case NodeLocked => false
        case Preflight => prov == Fresh
        case TempMade => prov == Open && temp == Fresh && key == Unasked
        case KeyEnter => prov == Open && temp == Open && key == Unasked
        case KeyLock => key == Entered
        case Prepare => key == Held && hooks == 0
        case Boot => key == Held && hooks == 1
        case Wait => key == Held && hooks == 2
        case Apply => key == Held && hooks == 3
        case KeyUnlock => key == Held
        case KeyExit => key == Unlocked
        case ApidWait => prov == Open && key == Left && hooks == 4
        case Bootstrap => prov == Open && key == Left && hooks == 5
        case Cleanup => prov == Open && KeyDone()
        case TempRemoved => temp == Open && prov == Closed
        case NodeUnlocked => prov != Open && temp != Open && KeyDone()
    }

    function Next(e: Event): Holding {
      match e
      case NodeLocked => this.(node := Open)
      case NodeUnlocked => this.(node := Closed)
      case Preflight => this.(prov := Open)
      case Cleanup => this.(prov := Closed)
      case TempMade => this.(temp := Open)
      case TempRemoved => this.(temp := Closed)
      case KeyEnter => this.(key := Entered)
      case KeyLock => this.(key := Held)
      case KeyUnlock => this.(key := Unlocked)
      case KeyExit => this.(key := Left)
      case Prepare => this.(hooks := 1)
      case Boot => this.(hooks := 2)
      case Wait => this.(hooks := 3)
      case Apply => this.(hooks := 4)
      case ApidWait => this.(hooks := 5)
      case Bootstrap => this.(hooks := 6)
    }
  }

  const NOTHING := Holding(Fresh, Fresh, Fresh, Unasked, 0)

  // The log breaks no rule.
  predicate Obeys(log: seq<Event>) {
    log == [] || (Obeys(log[..|log| - 1]) && After(log[..|log| - 1]).Allows(log[|log| - 1]))
  }

  function After(log: seq<Event>): Holding {
    if log == [] then NOTHING else After(log[..|log| - 1]).Next(log[|log| - 1])
  }

  lemma ObeysSnoc(log: seq<Event>, e: Event)
    ensures Obeys(log + [e]) <==> Obeys(log) && After(log).Allows(e)
    ensures After(log + [e]) == After(log).Next(e)
  {
    assert (log + [e])[..|log|] == log;
  }

  lemma {:induction false} ObeysPrefix(log: seq<Event>, i: nat)
    requires Obeys(log) && i <= |log|
    ensures Obeys(log[..i])
    ensures i < |log| ==> After(log[..i]).Allows(log[i]) && After(log[..i + 1]) == After(log[..i]).Next(log[i])
  {
    if i == |log| {
      assert log[..i] == log;
    } else if i == |log| - 1 {
      assert log[..i + 1] == log;
    } else {
      var front := log[..|log| - 1];
      ObeysPrefix(front, i);
      assert front[..i] == log[..i] && front[..i + 1] == log[..i + 1];
    }
  }

  // ---------------------------------------------------------------- what the rules give

  function Count(log: seq<Event>, e: Event): nat {
    if log == [] then 0 else Count(log[..|log| - 1], e) + (if log[|log| - 1] == e then 1 else 0)
  }

  function Once(b: bool): nat { if b then 1 else 0 }

  // A log that has released everything ran one cleanup for the provisioner it built, gave back the key
  // once if it took it, removed the secrets once if it wrote them, and unlocked the node once.
  ghost predicate Counted(log: seq<Event>, h: Holding) {
    && Count(log, Preflight) == Once(h.prov != Fresh) && Count(log, Cleanup) == Once(h.prov == Closed)
    && Count(log, TempMade) == Once(h.temp != Fresh) && Count(log, TempRemoved) == Once(h.temp == Closed)
    && Count(log, KeyEnter) == Once(h.key != Unasked) && Count(log, KeyUnlock) == Once(h.key == Unlocked || h.key == Left)
    && Count(log, NodeLocked) == Once(h.node != Fresh) && Count(log, NodeUnlocked) == Once(h.node == Closed)
  }

  lemma CountedSnoc(log: seq<Event>, h: Holding, e: Event)
    requires Counted(log, h) && h.Allows(e)
    ensures Counted(log + [e], h.Next(e))
  {
    forall f ensures Count(log + [e], f) == Count(log, f) + if e == f then 1 else 0 {
      assert (log + [e])[..|log|] == log;
    }
  }

  lemma {:induction false} EachExactlyOnce(log: seq<Event>)
    requires Obeys(log)
    ensures Counted(log, After(log))
  {
    if log != [] {
      var front := log[..|log| - 1];
      EachExactlyOnce(front);
      CountedSnoc(front, After(front), log[|log| - 1]);
      assert log == front + [log[|log| - 1]];
    }
  }

  predicate OnKey(e: Event) {
    e == KeyEnter || e == KeyLock || e == KeyUnlock || e == KeyExit || e == Prepare || e == Boot || e == Wait || e == Apply
  }

  // Nothing touches the key after the cleanup; nothing at all happens after the node is unlocked.
  lemma {:induction false} Order(log: seq<Event>, i: nat, j: nat)
    requires Obeys(log) && i < |log| && j < |log|
    ensures log[j] == Cleanup && OnKey(log[i]) ==> i < j
    ensures log[j] == NodeUnlocked ==> i <= j
  {
    ObeysPrefix(log, i);
    ObeysPrefix(log, j);
    if j < i {
      StaysClosed(log, j + 1, i);
    }
  }

  lemma {:induction false} StaysClosed(log: seq<Event>, j: nat, i: nat)
    requires Obeys(log) && j <= i <= |log|
    ensures After(log[..j]).prov == Closed && After(log[..j]).KeyDone() ==> After(log[..i]).prov == Closed && After(log[..i]).KeyDone()
    ensures After(log[..j]).node == Closed ==> After(log[..i]).node == Closed
  {
    if j < i {
      StaysClosed(log, j, i - 1);
      ObeysPrefix(log, i - 1);
    }
  }

  // What the log of an install says of what it holds.
  ghost predicate Logged(log: seq<Event>, h: Holding) {
    && (NodeLocked in log <==> h.node != Fresh) && (NodeUnlocked in log <==> h.node == Closed)
    && (Preflight in log <==> h.prov != Fresh) && (Cleanup in log <==> h.prov == Closed)
    && (TempMade in log <==> h.temp != Fresh) && (TempRemoved in log <==> h.temp == Closed)
    && (KeyEnter in log <==> h.key != Unasked) && (KeyLock in log <==> h.key == Held || h.key == Unlocked || h.key == Left)
    && (KeyUnlock in log <==> h.key == Unlocked || h.key == Left) && (KeyExit in log <==> h.key == Left)
    && (Prepare in log <==> h.hooks >= 1) && (Boot in log <==> h.hooks >= 2) && (Wait in log <==> h.hooks >= 3)
    && (Apply in log <==> h.hooks >= 4) && (ApidWait in log <==> h.hooks >= 5) && (Bootstrap in log <==> h.hooks >= 6)
  }

  // What can be held together.
  predicate Sane(h: Holding) {
    && (h.node == Fresh ==> h == NOTHING) && (h.node == Closed ==> h.AllReleased())
    && (h.temp != Fresh ==> h.prov != Fresh) && (h.temp == Closed ==> h.prov == Closed)
    && (h.key != Unasked ==> h.temp != Fresh) && (!h.KeyDone() ==> h.prov == Open && h.temp == Open)
    && (h.hooks > 0 ==> h.key == Held || h.key == Unlocked || h.key == Left) && (h.hooks > 4 ==> h.key == Left)
  }

  lemma SaneNext(h: Holding, e: Event)
    requires Sane(h) && h.Allows(e)
    ensures Sane(h.Next(e))
  {
  }

  lemma LoggedNext(log: seq<Event>, next: seq<Event>, h: Holding, e: Event)
    requires Logged(log, h) && h.Allows(e) && forall f :: f in next <==> f in log || f == e
    ensures Logged(next, h.Next(e))
  {
  }

  lemma {:induction false} LogMeans(log: seq<Event>)
    requires Obeys(log)
    ensures Logged(log, After(log)) && Sane(After(log))
  {
    if log != [] {
      var front, e := log[..|log| - 1], log[|log| - 1];
      LogMeans(front);
      SaneNext(After(front), e);
      assert log == front + [e];
      LoggedNext(front, log, After(front), e);
    }
  }

  // The order of everything an install can do.
  function Stage(e: Event): nat {
    match e
    case NodeLocked => 0 case Preflight => 1 case TempMade => 2 case KeyEnter => 3 case KeyLock => 4
    case Prepare => 5 case Boot => 6 case Wait => 7 case Apply => 8 case KeyUnlock => 9 case KeyExit => 10
    case ApidWait => 11 case Bootstrap => 12 case Cleanup => 13 case TempRemoved => 14 case NodeUnlocked => 15
  }

  lemma LaterStage(log: seq<Event>, h: Holding, d: Event, e: Event)
    requires Logged(log, h) && Sane(h) && h.Allows(e) && d in log
    ensures Stage(d) < Stage(e)
  {
  }

  // Whatever an install does, it does at most once and in this order.
  lemma {:induction false} InOrder(log: seq<Event>, i: nat, j: nat)
    requires Obeys(log) && i < j < |log|
    ensures Stage(log[i]) < Stage(log[j])
  {
    ObeysPrefix(log, j);
    LogMeans(log[..j]);
    assert log[..j][i] == log[i];
    LaterStage(log[..j], After(log[..j]), log[i], log[j]);
  }

  // ---------------------------------------------------------------- the program

  // How every step that can fail turns out.
  datatype Answers = Answers(
    nodeLocked: bool, built: bool, preflight: bool, reinstall: bool, alive: bool, rendered: bool,
    prepare: bool, boot: bool, wait: bool, apply: bool, cancelled: bool, controlPlane: bool, bootstrap: bool)

  predicate Starts(a: Answers) { a.preflight && (a.reinstall || !a.alive) && a.rendered }

  function HooksRun(a: Answers): nat {
    if !a.prepare then 1
    else if !a.boot then 2
    else if !a.wait then 3
    else if !a.apply then 4
    else if a.cancelled || !a.controlPlane then 5
    else 6
  }

  // What an install has acquired and released when it returns.
  function Outcome(a: Answers): Holding {
    if !a.nodeLocked then NOTHING
    else if !a.built then NOTHING.(node := Closed)
    else if !Starts(a) then Holding(Closed, Closed, Fresh, Unasked, 0)
    else Holding(Closed, Closed, Closed, Left, HooksRun(a))
  }

  predicate Succeeds(a: Answers) {
    a.nodeLocked && a.built && Starts(a) && HooksRun(a) >= 5 && !a.cancelled && (a.controlPlane ==> a.bootstrap)
  }

  // What an install did, from its answers alone.
  ghost predicate Did(log: seq<Event>, a: Answers, ok: bool) {
    var begun := a.nodeLocked && a.built && a.preflight && a.rendered && (a.reinstall || !a.alive);
    && (Preflight in log <==> a.nodeLocked && a.built) && (Cleanup in log <==> a.nodeLocked && a.built)
    && (TempMade in log <==> begun) && (KeyEnter in log <==> begun) && (Prepare in log <==> begun)
    && (Boot in log <==> begun && a.prepare)
    && (Wait in log <==> begun && a.prepare && a.boot)
    && (Apply in log <==> begun && a.prepare && a.boot && a.wait)
    && (ApidWait in log <==> begun && a.prepare && a.boot && a.wait && a.apply)
    && (Bootstrap in log <==> begun && a.prepare && a.boot && a.wait && a.apply && !a.cancelled && a.controlPlane)
    && (ok <==> begun && a.prepare && a.boot && a.wait && a.apply && !a.cancelled && (a.controlPlane ==> a.bootstrap))
  }

  lemma OutcomeMeans(log: seq<Event>, a: Answers)
    requires Obeys(log) && After(log) == Outcome(a)
    ensures Did(log, a, Succeeds(a))
  {
    LogMeans(log);
  }

  datatype Deferred = UnlockNode | RemoveTemp | RunCleanup | ReleaseKeyOnce

  class Run {
    var log: seq<Event>
    var deferred: seq<Deferred>
    var keyReleased: bool

    // What the log says is held.
    ghost var held: Holding

    ghost predicate Valid() reads this { Obeys(log) && held == After(log) }

    constructor ()
      ensures Valid() && log == [] && deferred == [] && !keyReleased
    {
      log, deferred, keyReleased, held := [], [], false, NOTHING;
    }

    method Do(e: Event)
      requires Valid() && held.Allows(e)
      modifies this`log, this`held
      ensures Valid() && held == old(held).Next(e)
    {
      ObeysSnoc(log, e);
      log, held := log + [e], held.Next(e);
    }

    method ReleaseKey()
      requires Valid() && (!keyReleased ==> held.node == Open && held.key == Held)
      modifies this`log, this`held, this`keyReleased
      ensures Valid() && keyReleased && held == if old(keyReleased) then old(held) else old(held).(key := Left)
    {
      if !keyReleased {
        keyReleased := true;
        Do(KeyUnlock);
        Do(KeyExit);
      }
    }

    // The whole call, from the node lock to the last deferred release.
    method Install(a: Answers) returns (ok: bool)
      requires Valid() && held == NOTHING && deferred == [] && !keyReleased
      modifies this
      ensures Valid() && held == Outcome(a) && held.AllReleased()
      ensures ok == Succeeds(a) && Did(log, a, ok)
      ensures a.alive && !a.reinstall ==>
        !ok && TempMade !in log && KeyEnter !in log && Prepare !in log && Boot !in log && Wait !in log && Apply !in log
    {
      ok := Body(a);
      while deferred != []
        invariant Valid() && Unwinding(deferred) && held == Pending(a, deferred, keyReleased)
        decreases |deferred|
      {
        var d := deferred[|deferred| - 1];
        deferred := deferred[..|deferred| - 1];
        match d {
          case UnlockNode => Do(NodeUnlocked);
          case RemoveTemp => Do(TempRemoved);
          case RunCleanup => Do(Cleanup);
          case ReleaseKeyOnce => ReleaseKey();
        }
      }
      OutcomeMeans(log, a);
    }

    // Everything up to a return statement.
    method Body(a: Answers) returns (ok: bool)
      requires Valid() && held == NOTHING && deferred == [] && !keyReleased
      modifies this
      ensures Valid() && held == Pending(a, deferred, keyReleased)
      ensures deferred == Registered(a) && ok == Succeeds(a)
      ensures keyReleased <==> a.nodeLocked && a.built && Starts(a) && HooksRun(a) >= 5
    {
      if !a.nodeLocked {
        return false;
      }
      Do(NodeLocked);
      deferred := deferred + [UnlockNode];
      if !a.built {
        return false;
      }
      var starts := Check(a);
      if !starts {
        return false;
      }
      deferred := deferred + [RemoveTemp];
      deferred := deferred + [RunCleanup];
      TakeKey();
      deferred := deferred + [ReleaseKeyOnce];
      var applied := Drive(a);
      if !applied {
        return false;
      }
      ok := Finish(a);
    }

    method TakeKey()
      requires Valid() && held == Holding(Open, Open, Open, Unasked, 0)
      modifies this`log, this`held
      ensures Valid() && held == Holding(Open, Open, Open, Held, 0)
    {
      Do(KeyEnter);
      Do(KeyLock);
    }

    // Preflight, the live-node guard, and the rendered secrets; a way out here cleans up by itself.
    method Check(a: Answers) returns (starts: bool)
      requires Valid() && held == NOTHING.(node := Open)
      modifies this`log, this`held
      ensures Valid() && starts == Starts(a)
      ensures held == if starts then Holding(Open, Open, Open, Unasked, 0) else Holding(Open, Closed, Fresh, Unasked, 0)
    {
      Do(Preflight);
      if !a.preflight {
        Do(Cleanup);
        return false;
      }
      if !a.reinstall {
        if a.alive {
          Do(Cleanup);
          return false;
        }
      }
      if !a.rendered {
        Do(Cleanup);
        return false;
      }
      Do(TempMade);
      starts := true;
    }

    // The hooks that run under the key.
    method Drive(a: Answers) returns (applied: bool)
      requires Valid() && held == Holding(Open, Open, Open, Held, 0)
      modifies this`log, this`held
      ensures Valid() && held == Holding(Open, Open, Open, Held, if applied then 4 else HooksRun(a))
      ensures applied <==> HooksRun(a) >= 5
    {
      Do(Prepare);
      if !a.prepare {
        return false;
      }
      Do(Boot);
      if !a.boot {
        return false;
      }
      Do(Wait);
      if !a.wait {
        return false;
      }
      Do(Apply);
      if !a.apply {
        return false;
      }
      applied := true;
    }

    // From the end of Apply to Ready.
    method Finish(a: Answers) returns (ok: bool)
      requires Valid() && !keyReleased && held == Holding(Open, Open, Open, Held, 4) && HooksRun(a) >= 5
      modifies this`log, this`held, this`keyReleased
      ensures Valid() && keyReleased && held == Holding(Open, Open, Open, Left, HooksRun(a))
      ensures ok <==> !a.cancelled && (a.controlPlane ==> a.bootstrap)
    {
      ReleaseKey();
      Do(ApidWait);
      if a.cancelled {
        return false;
      }
      if a.controlPlane {
        Do(Bootstrap);
        if !a.bootstrap {
          return false;
        }
      }
      ok := true;
    }
  }

  // The stack of releases a call has registered when it returns.
  function Registered(a: Answers): seq<Deferred> {
    if !a.nodeLocked then []
    else if !a.built || !Starts(a) then [UnlockNode]
    else [UnlockNode, RemoveTemp, RunCleanup, ReleaseKeyOnce]
  }

  predicate Unwinding(d: seq<Deferred>) { d <= [UnlockNode, RemoveTemp, RunCleanup, ReleaseKeyOnce] }

  // What is held while the releases in `d` have still to run.
  ghost function Pending(a: Answers, d: seq<Deferred>, keyReleased: bool): Holding {
    var end := Outcome(a);
    Holding(if |d| >= 1 then Open else end.node,
            if |d| >= 3 then Open else end.prov,
            if |d| >= 2 then Open else end.temp,
            if |d| >= 4 && !keyReleased then Held else end.key,
            end.hooks)
  }

  // ---------------------------------------------------------------- many installs, one lock

  // One event of one install; events on the key are steps of the keyed lock.
  datatype Act<E> = Act(install: nat, event: Event, entry: E)

  function StepOf<E>(a: Act<E>, key: string): seq<M.Step<E>> {
    match a.event
    case KeyEnter => [M.Enter(a.install, key, a.entry)]
    case KeyLock => [M.Lock(a.install)]
    case KeyUnlock => [M.Unlock(a.install)]
    case KeyExit => [M.Exit(a.install)]
    case _ => []
  }

  function Steps<E>(acts: seq<Act<E>>, key: string): seq<M.Step<E>> {
    if acts == [] then [] else Steps(acts[..|acts| - 1], key) + StepOf(acts[|acts| - 1], key)
  }

  // One install's own log.
  function Own<E>(acts: seq<Act<E>>, c: nat): seq<Event> {
    if acts == [] then []
    else
      var last := acts[|acts| - 1];
      Own(acts[..|acts| - 1], c) + if last.install == c then [last.event] else []
  }

  // An interleaving: every install obeys the rules, and the key behaves as the keyed lock does.
  ghost predicate Interleaved<E>(acts: seq<Act<E>>, key: string) {
    && key != "" && M.IsRun(M.Init<E>(), Steps(acts, key))
    && forall c: nat :: Obeys(Own(acts, c))
  }

  // What the keyed lock knows of an install is what the install's own log says.
  ghost predicate Agrees<E>(s: M.State<E>, key: string, c: nat, k: Key) {
    match k
    case Unasked => c !in s.calls
    case Entered => c in s.calls && s.calls[c].Waiting? && s.calls[c].key == key
    case Held => c in s.calls && s.calls[c].Holding? && s.calls[c].key == key
    case Unlocked => c in s.calls && s.calls[c].Leaving? && s.calls[c].key == key
    case Left => c in s.calls && s.calls[c].Finished?
  }

  lemma {:induction false} RunSnoc<E>(s: M.State<E>, steps: seq<M.Step<E>>, x: M.Step<E>)
    ensures M.IsRun(s, steps + [x]) <==> M.IsRun(s, steps) && M.Enabled(M.After(s, steps), x)
    ensures M.IsRun(s, steps + [x]) ==> M.After(s, steps + [x]) == M.Apply(M.After(s, steps), x)
    decreases |steps|
  {
    var all := steps + [x];
    if steps == [] {
      assert all[1..] == [];
    } else {
      assert all[1..] == steps[1..] + [x];
      if M.Enabled(s, steps[0]) {
        RunSnoc(M.Apply(s, steps[0]), steps[1..], x);
      }
    }
  }

  lemma RunMaybe<E>(s: M.State<E>, steps: seq<M.Step<E>>, last: seq<M.Step<E>>)
    requires |last| <= 1 && M.IsRun(s, steps + last)
    ensures M.IsRun(s, steps)
    ensures last == [] ==> M.After(s, steps + last) == M.After(s, steps)
    ensures last != [] ==> M.Enabled(M.After(s, steps), last[0])
    ensures last != [] ==> M.After(s, steps + last) == M.Apply(M.After(s, steps), last[0])
  {
    if last == [] {
      assert steps + last == steps;
    } else {
      assert last == [last[0]];
      RunSnoc(s, steps, last[0]);
    }
  }

  ghost function LockState<E>(acts: seq<Act<E>>, key: string): M.State<E>
    requires M.IsRun(M.Init<E>(), Steps(acts, key))
  {
    M.After(M.Init<E>(), Steps(acts, key))
  }

  // An interleaving cut short is one.
  lemma FrontInterleaved<E>(acts: seq<Act<E>>, key: string)
    requires Interleaved(acts, key) && acts != []
    ensures Interleaved(acts[..|acts| - 1], key)
  {
    var front, last := acts[..|acts| - 1], acts[|acts| - 1];
    RunMaybe(M.Init<E>(), Steps(front, key), StepOf(last, key));
    forall c: nat ensures Obeys(Own(front, c)) {
      LastAct(acts, key, c);
    }
  }

  lemma LastAct<E>(acts: seq<Act<E>>, key: string, c: nat)
    requires Interleaved(acts, key) && acts != []
    ensures var front, last := acts[..|acts| - 1], acts[|acts| - 1];
      && Obeys(Own(front, c))
      && (if c == last.install
          then After(Own(front, c)).Allows(last.event) && After(Own(acts, c)) == After(Own(front, c)).Next(last.event)
          else Own(acts, c) == Own(front, c))
  {
    var front, last := acts[..|acts| - 1], acts[|acts| - 1];
    assert Obeys(Own(acts, c));
    assert Own(front, c) + [] == Own(front, c);
    ObeysSnoc(Own(front, c), last.event);
  }

  lemma LockStep<E>(acts: seq<Act<E>>, key: string)
    requires acts != [] && M.IsRun(M.Init<E>(), Steps(acts, key))
    ensures var front, step := acts[..|acts| - 1], StepOf(acts[|acts| - 1], key);
      && M.IsRun(M.Init<E>(), Steps(front, key))
      && (step == [] ==> LockState(acts, key) == LockState(front, key))
      && (step != [] ==> M.Enabled(LockState(front, key), step[0])
                         && LockState(acts, key) == M.Apply(LockState(front, key), step[0]))
  {
    RunMaybe(M.Init<E>(), Steps(acts[..|acts| - 1], key), StepOf(acts[|acts| - 1], key));
  }

  lemma AgreesNext<E>(s: M.State<E>, t: M.State<E>, key: string, c: nat, a: Act<E>, h: Holding)
    requires key != "" && Agrees(s, key, c, h.key) && (a.install == c ==> h.Allows(a.event))
    requires var step := StepOf(a, key); if step == [] then t == s else M.Enabled(s, step[0]) && t == M.Apply(s, step[0])
    ensures Agrees(t, key, c, if a.install == c then h.Next(a.event).key else h.key)
  {
  }

  // The keyed lock and every install's own log agree at every point.
  lemma {:induction false} LockAgrees<E>(acts: seq<Act<E>>, key: string, c: nat)
    requires Interleaved(acts, key)
    ensures Agrees(LockState(acts, key), key, c, After(Own(acts, c)).key)
    decreases |acts|
  {
    if acts != [] {
      FrontInterleaved(acts, key);
      LockAgrees(acts[..|acts| - 1], key, c);
      LastAct(acts, key, c);
      LockStep(acts, key);
      var front, last := acts[..|acts| - 1], acts[|acts| - 1];
      AgreesNext(LockState(front, key), LockState(acts, key), key, c, last, After(Own(front, c)));
    }
  }

  function Rank(k: Key): nat {
    match k case Unasked => 0 case Entered => 1 case Held => 2 case Unlocked => 3 case Left => 4
  }

  lemma {:induction false} PrefixInterleaved<E>(acts: seq<Act<E>>, key: string, i: nat)
    requires Interleaved(acts, key) && i <= |acts|
    ensures Interleaved(acts[..i], key)
    decreases |acts|
  {
    if i < |acts| {
      FrontInterleaved(acts, key);
      PrefixInterleaved(acts[..|acts| - 1], key, i);
      assert acts[..|acts| - 1][..i] == acts[..i];
    } else {
      assert acts[..i] == acts;
    }
  }

  ghost function KeyAt<E>(acts: seq<Act<E>>, i: nat, c: nat): Key
    requires i <= |acts|
  {
    After(Own(acts[..i], c)).key
  }

  lemma RankNext(h: Holding, e: Event)
    requires h.Allows(e)
    ensures Rank(h.key) <= Rank(h.Next(e).key) && (IsHook(e) ==> h.key == Held)
  {
  }

  lemma KeyStep<E>(acts: seq<Act<E>>, key: string, i: nat, c: nat)
    requires Interleaved(acts, key) && i < |acts|
    ensures Rank(KeyAt(acts, i, c)) <= Rank(KeyAt(acts, i + 1, c))
    ensures c == acts[i].install && IsHook(acts[i].event) ==> KeyAt(acts, i, c) == Held
  {
    PrefixInterleaved(acts, key, i + 1);
    LastKey(acts[..i + 1], key, c);
    assert acts[..i + 1][..i] == acts[..i];
  }

  lemma LastKey<E>(acts: seq<Act<E>>, key: string, c: nat)
    requires Interleaved(acts, key) && acts != []
    ensures var front, last := acts[..|acts| - 1], acts[|acts| - 1];
      && Rank(After(Own(front, c)).key) <= Rank(After(Own(acts, c)).key)
      && (c == last.install && IsHook(last.event) ==> After(Own(front, c)).key == Held)
  {
    LastAct(acts, key, c);
    if c == acts[|acts| - 1].install {
      RankNext(After(Own(acts[..|acts| - 1], c)), acts[|acts| - 1].event);
    }
  }

  // An install takes the key once and for all: it never goes back.
  lemma {:induction false} KeyGoesForward<E>(acts: seq<Act<E>>, key: string, i: nat, j: nat, c: nat)
    requires Interleaved(acts, key) && i <= j <= |acts|
    ensures Rank(KeyAt(acts, i, c)) <= Rank(KeyAt(acts, j, c))
    decreases j
  {
    if i < j {
      KeyGoesForward(acts, key, i, j - 1, c);
      KeyStep(acts, key, j - 1, c);
    }
  }

  predicate IsHook(e: Event) { e == Prepare || e == Boot || e == Wait || e == Apply }

  // Over any number of installs with one key, between two hooks of one install there is no hook of
  // another: the sections from Prepare to Apply never overlap.
  lemma HooksNeverOverlap<E>(acts: seq<Act<E>>, key: string, i: nat, j: nat, k: nat)
    requires Interleaved(acts, key) && i <= j <= k < |acts|
    requires IsHook(acts[i].event) && IsHook(acts[j].event) && IsHook(acts[k].event)
    requires acts[i].install == acts[k].install
    ensures acts[j].install == acts[i].install
  {
    var c, d := acts[i].install, acts[j].install;
    KeyStep(acts, key, i, c);
    KeyStep(acts, key, j, d);
    KeyStep(acts, key, k, c);
    KeyGoesForward(acts, key, i, j, c);
    KeyGoesForward(acts, key, j, k, c);
    PrefixInterleaved(acts, key, j);
    LockAgrees(acts[..j], key, c);
    LockAgrees(acts[..j], key, d);
    M.MutualExclusion(Steps(acts[..j], key), c, d);
  }
}
