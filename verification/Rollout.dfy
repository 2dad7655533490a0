/**
 The executor of a rolling upgrade. Any point of any run is a position (i, j): steps before i are
 complete, and the first j nodes of step i have moved. A run may stop at any node, with that node
 moved or not.
 */
module Rollout {
  import opened Options
  import opened Versions
  import opened UpgradePlan
  import opened NodeOrder

  ghost predicate Holds(nodes: seq<NodeRef>, name: string) {
    exists k :: 0 <= k < |nodes| && nodes[k].name == name
  }

  ghost predicate Distinct(nodes: seq<NodeRef>) {
    forall a, b :: 0 <= a < b < |nodes| ==> nodes[a].name != nodes[b].name
  }

  lemma HoldsConcat(a: seq<NodeRef>, b: seq<NodeRef>, name: string)
    ensures Holds(a + b, name) <==> Holds(a, name) || Holds(b, name)
  {
    if Holds(a, name) {
      var k :| 0 <= k < |a| && a[k].name == name;
      assert (a + b)[k].name == name;
    } else if Holds(b, name) {
      var k :| 0 <= k < |b| && b[k].name == name;
      assert (a + b)[|a| + k].name == name;
    }
  }

  lemma {:induction false} BelowHolds(nodes: seq<NodeRef>, current: map<string, Version>, v: Version, name: string)
    ensures Holds(Below(nodes, current, v), name) <==> Holds(nodes, name) && Current(current, name).Less(v)
  {
    if nodes != [] {
      BelowHolds(nodes[1..], current, v, name);
      assert nodes == [nodes[0]] + nodes[1..];
      HoldsConcat([nodes[0]], nodes[1..], name);
      HoldsConcat(if Current(current, nodes[0].name).Less(v) then [nodes[0]] else [], Below(nodes[1..], current, v), name);
    }
  }

  lemma {:induction false} BelowDistinct(nodes: seq<NodeRef>, current: map<string, Version>, v: Version)
    requires Distinct(nodes)
    ensures Distinct(Below(nodes, current, v))
  {
    if nodes != [] {
      BelowDistinct(nodes[1..], current, v);
      var rest := Below(nodes[1..], current, v);
      forall b | 0 <= b < |rest| ensures rest[b].name != nodes[0].name {
        BelowHolds(nodes[1..], current, v, rest[b].name);
      }
    }
  }

  // The version of a node detected at c, once the first i steps are behind it.
  function At(c: Version, path: seq<Version>, i: nat): Version
    requires i <= |path|
  {
    if i > 0 && c.Less(path[i - 1]) then path[i - 1] else c
  }

  // What the planner hands over: a fleet of known versions and a path that climbs from its lowest.
  datatype Job = Job(nodes: seq<NodeRef>, current: map<string, Version>, low: Version, target: Version, path: seq<Version>) {
    ghost predicate Valid() {
      && Distinct(nodes) && (forall name :: name in current <==> Holds(nodes, name))
      && (forall name :: name in current ==> !current[name].Less(low))
      && (path != [] ==> path[|path| - 1] == target) && (path == [] ==> !low.Less(target))
      && (forall i :: 0 <= i < |path| ==> Sound(i))
      && (forall i, j :: 0 <= i < j < |path| ==> Ascends(i, j))
    }

    ghost predicate Sound(i: nat)
      requires i < |path|
    {
      path[i].Fits() && !target.Less(path[i]) && Hop(Before(i), path[i])
    }

    ghost predicate Ascends(i: nat, j: nat)
      requires i < j < |path|
    {
      path[i].Less(path[j])
    }

    // The lowest version left once the first i steps are done.
    function Before(i: nat): Version requires i <= |path| { if i == 0 then low else path[i - 1] }

    function StepNodes(i: nat): seq<NodeRef> { if i < |path| then Below(nodes, current, path[i]) else [] }

    ghost predicate Position(i: nat, j: nat) { i <= |path| && j <= |StepNodes(i)| }

    ghost function VersionAt(i: nat, j: nat, name: string): Version
      requires Position(i, j) && name in current
    {
      At(current[name], path, if Holds(StepNodes(i)[..j], name) then i + 1 else i)
    }

    // The running versions at a position.
    ghost function FleetAt(i: nat, j: nat): map<string, Version>
      requires Position(i, j)
    {
      map name | name in current :: VersionAt(i, j, name)
    }

    // The upgrades issued on the way to a position.
    ghost function Log(i: nat, j: nat): seq<Issued>
      requires Position(i, j)
      decreases i, j
    {
      if j > 0 then
        var n := StepNodes(i)[j - 1];
        Log(i, j - 1) + [Issued(n, Current(FleetAt(i, j - 1), n.name), path[i])]
      else if i > 0 then Log(i - 1, |StepNodes(i - 1)|)
      else []
    }
  }

  // One upgrade: the node, the version of the client that drove it, and the version it was sent to.
  datatype Issued = Issued(node: NodeRef, client: Version, to: Version)

  // ---------------------------------------------------------------- moving between positions

  lemma StepMembers(job: Job, i: nat, name: string)
    requires job.Valid() && i < |job.path| && name in job.current
    ensures Holds(job.StepNodes(i), name) <==> job.current[name].Less(job.path[i])
  {
    BelowHolds(job.nodes, job.current, job.path[i], name);
  }

  // The node at j of a step has not moved in it yet, and is below the step's version.
  lemma NextInStep(job: Job, i: nat, j: nat)
    requires job.Valid() && job.Position(i, j + 1)
    ensures var name := job.StepNodes(i)[j].name;
      name in job.current && job.current[name].Less(job.path[i]) && !Holds(job.StepNodes(i)[..j], name)
  {
    BelowDistinct(job.nodes, job.current, job.path[i]);
    BelowHolds(job.nodes, job.current, job.path[i], job.StepNodes(i)[j].name);
  }

  // One more node moved is one map update.
  lemma FleetNext(job: Job, i: nat, j: nat)
    requires job.Valid() && job.Position(i, j + 1)
    ensures job.FleetAt(i, j + 1) == job.FleetAt(i, j)[job.StepNodes(i)[j].name := job.path[i]]
  {
    NextInStep(job, i, j);
    forall name | name in job.current
      ensures job.VersionAt(i, j + 1, name) == if name == job.StepNodes(i)[j].name then job.path[i] else job.VersionAt(i, j, name)
    {
      VersionNext(job, i, j, name);
    }
  }

  lemma VersionNext(job: Job, i: nat, j: nat, name: string)
    requires job.Valid() && job.Position(i, j + 1) && name in job.current
    ensures job.VersionAt(i, j + 1, name) == if name == job.StepNodes(i)[j].name then job.path[i] else job.VersionAt(i, j, name)
  {
    var step := job.StepNodes(i);
    NextInStep(job, i, j);
    assert step[..j + 1] == step[..j] + [step[j]];
    HoldsConcat(step[..j], [step[j]], name);
    assert [step[j]][0].name == step[j].name;
  }

  // The end of a step is the start of the next.
  lemma FleetStepEnd(job: Job, i: nat)
    requires job.Valid() && i < |job.path|
    ensures job.FleetAt(i, |job.StepNodes(i)|) == job.FleetAt(i + 1, 0)
  {
    forall name | name in job.current
      ensures job.VersionAt(i, |job.StepNodes(i)|, name) == job.VersionAt(i + 1, 0, name)
    {
      StepEndName(job, i, name);
    }
  }

  lemma StepEndName(job: Job, i: nat, name: string)
    requires job.Valid() && i < |job.path| && name in job.current
    ensures job.VersionAt(i, |job.StepNodes(i)|, name) == job.VersionAt(i + 1, 0, name)
  {
    var step := job.StepNodes(i);
    assert step[..|step|] == step;
    assert !Holds(job.StepNodes(i + 1)[..0], name);
    StepMembers(job, i, name);
    if !Holds(step, name) {
      assert i > 0 ==> job.Ascends(i - 1, i);
      AboveStep(job.current[name], job.path, i);
    }
  }

  lemma AboveStep(c: Version, path: seq<Version>, i: nat)
    requires i < |path| && !c.Less(path[i]) && (i > 0 ==> path[i - 1].Less(path[i]))
    ensures At(c, path, i) == At(c, path, i + 1) == c
  {
  }

  // ---------------------------------------------------------------- what holds at every point of every run

  // Everything a node can be running at a position: never below the last completed step, never below
  // where it started, and nothing but its first version, that step's, or the one under way.
  lemma NodeAt(job: Job, i: nat, j: nat, name: string)
    requires job.Valid() && job.Position(i, j) && name in job.current
    ensures var v := job.FleetAt(i, j)[name];
      && !v.Less(job.Before(i)) && !v.Less(job.current[name])
      && (v == job.current[name] || v == job.Before(i) || (i < |job.path| && v == job.path[i]))
  {
    var step := job.StepNodes(i);
    if Holds(step[..j], name) {
      HoldsConcat(step[..j], step[j..], name);
      assert step == step[..j] + step[j..];
      StepMembers(job, i, name);
      assert job.Sound(i);
    }
  }

  // Once step s is complete, every planned node is at least at its version, for good.
  lemma CompletedStepsHold(job: Job, i: nat, j: nat, s: nat, name: string)
    requires job.Valid() && job.Position(i, j) && name in job.current && s < i
    ensures !job.FleetAt(i, j)[name].Less(job.path[s])
  {
    NodeAt(job, i, j, name);
    assert s < i - 1 ==> job.Ascends(s, i - 1);
  }

  // While step i is under way, any two nodes not above its version are at most one minor apart.
  lemma SkewIsOneMinor(job: Job, i: nat, j: nat, a: string, b: string)
    requires job.Valid() && job.Position(i, j) && i < |job.path|
    requires a in job.current && !job.path[i].Less(job.FleetAt(i, j)[a])
    requires b in job.current && !job.path[i].Less(job.FleetAt(i, j)[b])
    ensures var fleet := job.FleetAt(i, j);
      fleet[a].major == fleet[b].major && -1 <= fleet[a].minor - fleet[b].minor <= 1
  {
    NodeAt(job, i, j, a);
    NodeAt(job, i, j, b);
    assert job.Sound(i);
  }

  // The next move climbs, by at most one minor, inside one major, to at most the target.
  lemma NextMoveIsAHop(job: Job, i: nat, j: nat)
    requires job.Valid() && job.Position(i, j + 1)
    ensures var name := job.StepNodes(i)[j].name;
      name in job.current && Hop(job.FleetAt(i, j)[name], job.path[i]) && !job.target.Less(job.path[i])
  {
    var name := job.StepNodes(i)[j].name;
    NextInStep(job, i, j);
    assert job.Sound(i);
    assert !job.current[name].Less(job.low);
  }

  // A complete run ends at the higher of the detected version and the target.
  lemma FullRunReachesTarget(job: Job, name: string)
    requires job.Valid() && name in job.current
    ensures job.FleetAt(|job.path|, 0)[name] == if job.current[name].Less(job.target) then job.target else job.current[name]
  {
  }

  // ---------------------------------------------------------------- what holds of every log

  // Applies a log of upgrades in order; fails unless each is a climb of a node that runs exactly the
  // version of the client used.
  function Replay(start: map<string, Version>, log: seq<Issued>): Option<map<string, Version>> {
    if log == [] then Some(start)
    else
      var fleet, u := Replay(start, log[..|log| - 1]), log[|log| - 1];
      if fleet.Some? && u.node.name in fleet.value && fleet.value[u.node.name] == u.client && Hop(u.client, u.to)
      then Some(fleet.value[u.node.name := u.to])
      else None
  }

  lemma ReplaySnoc(start: map<string, Version>, log: seq<Issued>, u: Issued, fleet: map<string, Version>)
    requires Replay(start, log) == Some(fleet)
    requires u.node.name in fleet && fleet[u.node.name] == u.client && Hop(u.client, u.to)
    ensures Replay(start, log + [u]) == Some(fleet[u.node.name := u.to])
  {
    assert (log + [u])[..|log + [u]| - 1] == log;
  }

  // The log up to a position replays, and ends in the fleet there.
  ghost predicate Replays(job: Job, i: nat, j: nat) {
    job.Position(i, j) && Replay(job.current, job.Log(i, j)) == Some(job.FleetAt(i, j))
  }

  lemma ReplayNext(job: Job, i: nat, j: nat)
    requires job.Valid() && job.Position(i, j) && j > 0 && Replays(job, i, j - 1)
    ensures Replays(job, i, j)
  {
    var n, fleet := job.StepNodes(i)[j - 1], job.FleetAt(i, j - 1);
    FleetNext(job, i, j - 1);
    NextMoveIsAHop(job, i, j - 1);
    ReplaySnoc(job.current, job.Log(i, j - 1), Issued(n, Current(fleet, n.name), job.path[i]), fleet);
  }

  lemma ReplayStart(job: Job)
    ensures Replays(job, 0, 0)
  {
    assert job.FleetAt(0, 0) == job.current;
  }

  lemma ReplayStepEnd(job: Job, i: nat)
    requires job.Valid() && 0 < i <= |job.path| && Replays(job, i - 1, |job.StepNodes(i - 1)|)
    ensures Replays(job, i, 0)
  {
    FleetStepEnd(job, i - 1);
  }

  // What holds at the start, and is handed on from move to move and from step to step, holds everywhere.
  ghost predicate OverMove(P: (nat, nat) -> bool, i: nat, j: nat) { P(i, j) ==> P(i, j + 1) }

  ghost predicate OverStep(P: (nat, nat) -> bool, sizes: seq<nat>, i: nat)
    requires i < |sizes|
  {
    P(i, sizes[i]) ==> P(i + 1, 0)
  }

  lemma {:induction false} AtEveryPosition(P: (nat, nat) -> bool, sizes: seq<nat>, i: nat, j: nat)
    requires P(0, 0) && i < |sizes| && j <= sizes[i]
    requires forall k: nat, l: nat :: k < |sizes| && l < sizes[k] ==> OverMove(P, k, l)
    requires forall k: nat :: k < |sizes| - 1 ==> OverStep(P, sizes, k)
    ensures P(i, j)
    decreases i, j
  {
    if j > 0 {
      AtEveryPosition(P, sizes, i, j - 1);
      assert OverMove(P, i, j - 1);
    } else if i > 0 {
      AtEveryPosition(P, sizes, i - 1, sizes[i - 1]);
      assert OverStep(P, sizes, i - 1);
    }
  }

  lemma ReplaysAt(job: Job, i: nat, j: nat)
    requires job.Valid() && job.Position(i, j)
    ensures Replays(job, i, j)
  {
    var P := (k: nat, l: nat) => Replays(job, k, l);
    var sizes := seq(|job.path| + 1, k requires 0 <= k => |job.StepNodes(k)|);
    forall k: nat, l: nat | k < |sizes| && l < sizes[k] ensures OverMove(P, k, l) {
      if Replays(job, k, l) { ReplayNext(job, k, l + 1); }
    }
    forall k: nat | k < |sizes| - 1 ensures OverStep(P, sizes, k) {
      if Replays(job, k, sizes[k]) { ReplayStepEnd(job, k + 1); }
    }
    ReplayStart(job);
    AtEveryPosition(P, sizes, i, j);
  }

  // Every upgrade of every run is driven by a client of the very version its node runs, and climbs.
  lemma ClientMatchesNode(job: Job, i: nat, j: nat)
    requires job.Valid() && job.Position(i, j)
    ensures Replay(job.current, job.Log(i, j)) == Some(job.FleetAt(i, j))
  {
    ReplaysAt(job, i, j);
  }

  // The log entry of a position, and the position of a log entry.
  ghost function Index(job: Job, s: nat, k: nat): nat
    requires job.Position(s, k)
  {
    |job.Log(s, k)|
  }

  lemma {:induction false} LogEntry(job: Job, i: nat, j: nat, a: nat) returns (s: nat, k: nat)
    requires job.Position(i, j) && a < |job.Log(i, j)|
    ensures (s < i || (s == i && k < j)) && s < |job.path| && k < |job.StepNodes(s)| && a == Index(job, s, k)
    ensures job.Log(i, j)[a].node == job.StepNodes(s)[k] && job.Log(i, j)[a].to == job.path[s]
    decreases i, j
  {
    if j == 0 {
      s, k := LogEntry(job, i - 1, |job.StepNodes(i - 1)|, a);
    } else if a < |job.Log(i, j)| - 1 {
      s, k := LogEntry(job, i, j - 1, a);
    } else {
      s, k := i, j - 1;
    }
  }

  // Later positions have longer logs.
  lemma {:induction false} IndexGrows(job: Job, i: nat, j: nat, s: nat, k: nat)
    requires job.Position(i, j) && job.Position(s, k) && (s < i || (s == i && k <= j))
    ensures Index(job, s, k) <= Index(job, i, j)
    decreases i, j
  {
    if s != i || k != j {
      if j > 0 {
        IndexGrows(job, i, j - 1, s, k);
      } else {
        IndexGrows(job, i - 1, |job.StepNodes(i - 1)|, s, k);
      }
    }
  }

  // The log never goes back to an earlier version, and within a step all workers come first, and then
  // names in order.
  ghost predicate InOrder(a: Issued, b: Issued) {
    && !b.to.Less(a.to) && (a.to == b.to && a.node.role == "controlplane" ==> b.node.role == "controlplane")
    && (a.to == b.to && (a.node.role == "controlplane" <==> b.node.role == "controlplane") ==> NameBefore(a.node.name, b.node.name))
  }

  lemma {:induction false} LogOrder(job: Job, i: nat, j: nat, a: nat, b: nat)
    requires job.Valid() && job.Position(i, j) && Sorted(job.nodes)
    requires a < b < |job.Log(i, j)|
    ensures InOrder(job.Log(i, j)[a], job.Log(i, j)[b])
  {
    var s, k := LogEntry(job, i, j, a);
    var s', k' := LogEntry(job, i, j, b);
    if s < s' {
      assert job.Ascends(s, s');
    } else {
      if s' < s || k' <= k { IndexGrows(job, s, k, s', k'); }
      StepsKeepOrder(job.nodes, job.current, job.path[s]);
      SortedMeans(job.StepNodes(s), k, k');
    }
  }

  // ---------------------------------------------------------------- the executor

  // How one node's upgrade goes. On a failed upgrade or health gate the node may have moved all the same.
  datatype Answer = Healthy | NoClient | Refused(moved: bool) | Unhealthy(moved: bool)

  datatype Outcome = Outcome(ok: bool, running: map<string, Version>, log: seq<Issued>)

  ghost predicate AllHealthy(answers: seq<Answer>, n: nat) {
    n <= |answers| && forall u :: 0 <= u < n ==> answers[u] == Healthy
  }

  ghost predicate StepsOf(steps: seq<Step>, job: Job) {
    && |steps| == |job.path|
    && forall s :: 0 <= s < |steps| ==> steps[s] == Step(job.path[s].Text(), job.StepNodes(s))
  }

  // Where a run stands: what the nodes run and what has been issued.
  ghost predicate Stands(job: Job, i: nat, j: nat, running: map<string, Version>, log: seq<Issued>) {
    job.Position(i, j) && running == job.FleetAt(i, j) && log == job.Log(i, j)
  }

  lemma StandsNext(job: Job, i: nat, j: nat, running: map<string, Version>, log: seq<Issued>, n: NodeRef)
    requires job.Valid() && Stands(job, i, j, running, log) && job.Position(i, j + 1) && n == job.StepNodes(i)[j]
    ensures Stands(job, i, j + 1, running[n.name := job.path[i]], log + [Issued(n, Current(running, n.name), job.path[i])])
  {
    FleetNext(job, i, j);
  }

  lemma StandsNextStep(job: Job, i: nat, running: map<string, Version>, log: seq<Issued>)
    requires job.Valid() && i < |job.path| && Stands(job, i, |job.StepNodes(i)|, running, log)
    ensures Stands(job, i + 1, 0, running, log)
  {
    FleetStepEnd(job, i);
  }

  // A run that has not stopped: every answer so far was good, and the executor's own table of node
  // versions is what the nodes run.
  ghost predicate Going(job: Job, i: nat, j: nat, r: Outcome, nodeCurrent: map<string, Version>, answers: seq<Answer>) {
    && r.ok && nodeCurrent == r.running && Stands(job, i, j, r.running, r.log)
    && AllHealthy(answers, |r.log|)
  }

  // A run that has stopped at the node after this position, where every answer so far was good: the process
  // was killed or had no client for it, and nothing was issued; or it was issued, and has moved or not.
  ghost predicate Stopped(job: Job, i: nat, j: nat, r: Outcome, answers: seq<Answer>) {
    && !r.ok && job.Position(i, j + 1) && AllHealthy(answers, |job.Log(i, j)|)
    && var t := |job.Log(i, j)|;
      if t == |answers| || answers[t] == NoClient then
        r.log == job.Log(i, j) && r.running == job.FleetAt(i, j)
      else
        && answers[t] != Healthy && r.log == job.Log(i, j + 1)
        && r.running == job.FleetAt(i, if answers[t].moved then j + 1 else j)
  }

  lemma NodeHealthy(job: Job, i: nat, j: nat, r: Outcome, answers: seq<Answer>, n: NodeRef)
    requires job.Valid() && Going(job, i, j, r, r.running, answers) && job.Position(i, j + 1) && n == job.StepNodes(i)[j]
    requires |r.log| < |answers| && answers[|r.log|] == Healthy
    ensures var moved := r.running[n.name := job.path[i]];
      Going(job, i, j + 1, Outcome(true, moved, r.log + [Issued(n, Current(r.running, n.name), job.path[i])]), moved, answers)
  {
    StandsNext(job, i, j, r.running, r.log, n);
    HealthyNext(answers, |r.log|);
  }

  lemma HealthyNext(answers: seq<Answer>, n: nat)
    requires AllHealthy(answers, n) && n < |answers| && answers[n] == Healthy
    ensures AllHealthy(answers, n + 1)
  {
  }

  lemma NodeFailed(job: Job, i: nat, j: nat, r: Outcome, answers: seq<Answer>, n: NodeRef)
    requires job.Valid() && Going(job, i, j, r, r.running, answers) && job.Position(i, j + 1) && n == job.StepNodes(i)[j]
    requires |r.log| < |answers| && answers[|r.log|] != Healthy && answers[|r.log|] != NoClient
    ensures var log := r.log + [Issued(n, Current(r.running, n.name), job.path[i])];
      Stopped(job, i, j, Outcome(false, if answers[|r.log|].moved then r.running[n.name := job.path[i]] else r.running, log), answers)
  {
    StandsNext(job, i, j, r.running, r.log, n);
  }

  // What every node runs after a complete run.
  ghost function Finished(job: Job): map<string, Version> {
    map name | name in job.current :: if job.current[name].Less(job.target) then job.target else job.current[name]
  }

  lemma FinishedIsFullRun(job: Job)
    requires job.Valid()
    ensures job.FleetAt(|job.path|, 0) == Finished(job)
  {
    forall name | name in job.current ensures job.FleetAt(|job.path|, 0)[name] == Finished(job)[name] {
      FullRunReachesTarget(job, name);
    }
  }

  lemma RunBegins(job: Job, answers: seq<Answer>)
    ensures Going(job, 0, 0, Outcome(true, job.current, []), job.current, answers)
  {
    assert job.FleetAt(0, 0) == job.current;
  }

  lemma NextStepBegins(job: Job, i: nat, r: Outcome, table: map<string, Version>, answers: seq<Answer>)
    requires job.Valid() && i < |job.path| && Going(job, i, |job.StepNodes(i)|, r, table, answers)
    ensures Going(job, i + 1, 0, r, table, answers)
  {
    StandsNextStep(job, i, r.running, r.log);
  }

  lemma SameNodes(job: Job, i: nat, j: nat, r: Outcome, answers: seq<Answer>)
    requires Going(job, i, j, r, r.running, answers) || Stopped(job, i, j, r, answers)
    ensures r.running.Keys == job.current.Keys
  {
  }

  // Runs the steps, reading each step's version back from its text. `answers` may end early: the
  // process is then killed at that point, before it does anything to the next node.
  method Execute(steps: seq<Step>, current: map<string, Version>, answers: seq<Answer>, ghost job: Job)
    returns (r: Outcome, ghost i: nat, ghost j: nat)
    requires job.Valid() && job.current == current && StepsOf(steps, job)
    ensures if r.ok then i == |job.path| && Going(job, i, j, r, r.running, answers) else Stopped(job, i, j, r, answers)
    ensures r.running.Keys == current.Keys
    ensures r.ok ==> r.running == Finished(job)
  {
    var nodeCurrent := current;
    r := Outcome(true, current, []);
    i, j := 0, 0;
    RunBegins(job, answers);
    for s := 0 to |steps|
      invariant i == s && j == 0 && Going(job, s, 0, r, nodeCurrent, answers)
    {
      var sv := StepVersion(steps[s], job, s);
      r, nodeCurrent, j := RunStep(steps[s].nodes, sv, r, nodeCurrent, answers, job, s);
      if !r.ok {
        SameNodes(job, i, j, r, answers);
        return r, i, j;
      }
      NextStepBegins(job, s, r, nodeCurrent, answers);
      i, j := s + 1, 0;
    }
    SameNodes(job, i, j, r, answers);
    FinishedIsFullRun(job);
  }

  // One step: each node in turn, and never the next one before this one is healthy.
  method RunStep(nodes: seq<NodeRef>, sv: Version, start: Outcome, table: map<string, Version>, answers: seq<Answer>, ghost job: Job, ghost i: nat)
    returns (r: Outcome, nodeCurrent: map<string, Version>, ghost j: nat)
    requires job.Valid() && i < |job.path| && sv == job.path[i] && nodes == job.StepNodes(i)
    requires Going(job, i, 0, start, table, answers)
    ensures if r.ok then j == |nodes| && Going(job, i, j, r, nodeCurrent, answers) else Stopped(job, i, j, r, answers)
  {
    r, nodeCurrent, j := start, table, 0;
    for k := 0 to |nodes|
      invariant j == k && Going(job, i, k, r, nodeCurrent, answers)
    {
      var ref, n := nodes[k], |r.log|;
      if n == |answers| || answers[n] == NoClient {
        return r.(ok := false), nodeCurrent, k;
      }
      var moved := r.running[ref.name := sv];
      var log := r.log + [Issued(ref, Current(nodeCurrent, ref.name), sv)];
      if answers[n] == Healthy {
        NodeHealthy(job, i, k, r, answers, ref);
        r, nodeCurrent, j := Outcome(true, moved, log), nodeCurrent[ref.name := sv], k + 1;
      } else {
        NodeFailed(job, i, k, r, answers, ref);
        return Outcome(false, if answers[n].moved then moved else r.running, log), nodeCurrent, k;
      }
    }
  }

  // The executor ignores a parse error: the version would silently become v0.0.0.
  method StepVersion(step: Step, ghost job: Job, ghost s: nat) returns (v: Version)
    requires job.Valid() && s < |job.path| && step.version == job.path[s].Text()
    ensures v == job.path[s]
  {
    assert job.Sound(s);
    ParseText(job.path[s]);
    var parsed := ParseVersion(step.version);
    v := if parsed.Some? then parsed.value else ZERO;
  }
}
