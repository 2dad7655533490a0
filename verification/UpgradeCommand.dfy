/** The whole of a rolling upgrade: order, drop unreachable nodes, plan, execute. */
module UpgradeCommand {
  import opened Options
  import opened Versions
  import opened UpgradePlan
  import opened NodeOrder
  import opened Rollout

  lemma {:induction false} TwiceCounts(s: seq<NodeRef>, x: NodeRef)
    ensures multiset(s)[x] >= 2 ==> exists a, b :: 0 <= a < b < |s| && s[a] == x && s[b] == x
  {
    if s != [] && multiset(s)[x] >= 2 {
      assert s == [s[0]] + s[1..];
      if s[0] == x {
        assert x in multiset(s[1..]);
        var b :| 0 <= b < |s[1..]| && s[1..][b] == x;
        assert s[b + 1] == x;
      } else {
        TwiceCounts(s[1..], x);
        var a, b :| 0 <= a < b < |s[1..]| && s[1..][a] == x && s[1..][b] == x;
        assert s[a + 1] == x && s[b + 1] == x;
      }
    }
  }

  lemma PermutedDistinct(s: seq<NodeRef>, t: seq<NodeRef>)
    requires multiset(s) == multiset(t) && Distinct(s)
    ensures Distinct(t)
  {
    forall a, b | 0 <= a < b < |t| ensures t[a].name != t[b].name {
      assert t == t[..a] + [t[a]] + t[a + 1..b] + [t[b]] + t[b + 1..];
      TwiceCounts(s, t[a]);
      assert t[a] in multiset(s) && t[b] in multiset(s);
    }
  }

  lemma PermutedHolds(s: seq<NodeRef>, t: seq<NodeRef>, name: string)
    requires multiset(s) == multiset(t) && Holds(s, name)
    ensures Holds(t, name)
  {
    var k :| 0 <= k < |s| && s[k].name == name;
    assert s[k] in multiset(t);
    var m :| 0 <= m < |t| && t[m] == s[k];
  }

  lemma {:induction false} ReachedMembers(nodes: seq<NodeRef>, current: map<string, Version>, n: NodeRef)
    ensures n in Reached(nodes, current) <==> n in nodes && n.name in current
  {
    if nodes != [] {
      ReachedMembers(nodes[1..], current, n);
      assert n in nodes <==> n == nodes[0] || n in nodes[1..];
    }
  }

  // Dropping nodes keeps the order and keeps names distinct.
  lemma {:induction false} ReachedKeeps(nodes: seq<NodeRef>, current: map<string, Version>)
    requires Sorted(nodes) && Distinct(nodes)
    ensures Sorted(Reached(nodes, current)) && Distinct(Reached(nodes, current))
  {
    if nodes != [] {
      ReachedKeeps(nodes[1..], current);
      var rest := Reached(nodes[1..], current);
      forall b | 0 <= b < |rest| ensures rest[b].name != nodes[0].name && !NodeLess(rest[b], nodes[0]) {
        ReachedMembers(nodes[1..], current, rest[b]);
        var k :| 0 <= k < |nodes[1..]| && nodes[1..][k] == rest[b];
        assert nodes[k + 1] == rest[b];
      }
    }
  }

  // It keeps exactly the names that were reached.
  lemma ReachedHolds(nodes: seq<NodeRef>, current: map<string, Version>, name: string)
    ensures Holds(Reached(nodes, current), name) <==> Holds(nodes, name) && name in current
  {
    if Holds(nodes, name) && name in current {
      var k :| 0 <= k < |nodes| && nodes[k].name == name;
      ReachedMembers(nodes, current, nodes[k]);
      var m :| 0 <= m < |Reached(nodes, current)| && Reached(nodes, current)[m] == nodes[k];
    }
    if Holds(Reached(nodes, current), name) {
      var k :| 0 <= k < |Reached(nodes, current)| && Reached(nodes, current)[k].name == name;
      ReachedMembers(nodes, current, Reached(nodes, current)[k]);
      var m :| 0 <= m < |nodes| && nodes[m] == Reached(nodes, current)[k];
    }
  }

  // A plan for distinct nodes whose versions fit is a valid job for the executor.
  lemma PlanIsAJob(nodes: seq<NodeRef>, current: map<string, Version>, low: Version, target: Version, catalog: set<Version>, path: seq<Version>)
    requires Distinct(nodes) && (forall name :: name in current <==> Holds(nodes, name)) && IsMin(nodes, current, low)
    requires IsPath(low, target, catalog, path) && !Unreachable(low, target, catalog)
    requires target.Fits() && forall v :: v in catalog ==> v.Fits()
    ensures Job(nodes, current, low, target, path).Valid()
  {
    var job := Job(nodes, current, low, target, path);
    PathClimbs(low, target, catalog, path);
    forall name | name in current ensures !current[name].Less(low) {
      var k :| 0 <= k < |nodes| && nodes[k].name == name;
      assert !Current(current, nodes[k].name).Less(low);
    }
    forall i | 0 <= i < |path| ensures job.Sound(i) {
      if i < |path| - 1 { assert Best(catalog, target.major, low.minor + 1 + i, path[i]); }
    }
    forall i, j | 0 <= i < j < |path| ensures job.Ascends(i, j) {
    }
  }

  datatype Result =
    | NoneReachable
    | NoPath
    | UpToDate
    | Ran(outcome: Outcome)

  // The nodes to plan for: in order, those that answered.
  method Prepare(refs: seq<NodeRef>, detected: map<string, Version>) returns (nodes: seq<NodeRef>)
    requires Distinct(refs) && forall name :: name in detected ==> Holds(refs, name)
    ensures Sorted(nodes) && Distinct(nodes) && forall name :: name in detected <==> Holds(nodes, name)
    ensures forall n :: n in nodes <==> n in refs && n.name in detected
  {
    var ordered := OrderNodes(refs);
    PermutedDistinct(refs, ordered);
    var slots := new NodeRef[|ordered|](k requires 0 <= k < |ordered| => ordered[k]);
    assert slots[..] == ordered;
    var kept := KeepReached(slots, detected);
    nodes := slots[..kept];
    ReachedKeeps(ordered, detected);
    forall name ensures name in detected <==> Holds(nodes, name) {
      ReachedHolds(ordered, detected, name);
      if name in detected { PermutedHolds(refs, ordered, name); }
    }
    forall n ensures n in nodes <==> n in refs && n.name in detected {
      ReachedMembers(ordered, detected, n);
      assert n in multiset(ordered) <==> n in multiset(refs);
    }
  }

  // `detected` holds the versions of the nodes that answered. Names come from the keys of one map, and
  // the target and the catalog were parsed, so they fit.
  method Upgrade(refs: seq<NodeRef>, detected: map<string, Version>, target: Version, catalog: seq<Version>, answers: seq<Answer>)
    returns (r: Result, ghost job: Job, ghost i: nat, ghost j: nat)
    requires Distinct(refs) && forall name :: name in detected ==> Holds(refs, name)
    requires target.Fits() && forall v :: v in catalog ==> v.Fits()
    ensures r.NoneReachable? <==> detected == map[]
    ensures !r.NoneReachable? ==> Sorted(job.nodes) && forall n :: n in job.nodes <==> n in refs && n.name in detected
    ensures !r.NoneReachable? ==> forall name :: name in detected <==> Holds(job.nodes, name)
    ensures !r.NoneReachable? ==> IsMin(job.nodes, detected, job.low) && job.target == target && job.current == detected
    ensures r.NoPath? <==> detected != map[] && Unreachable(job.low, target, Entries(catalog))
    ensures r.UpToDate? <==> detected != map[] && forall name :: name in detected ==> !detected[name].Less(target)
    ensures r.Ran? ==> RanAsPlanned(r.outcome, job, i, j, Entries(catalog), answers)
  {
    job, i, j := Job([], detected, ZERO, target, []), 0, 0;
    if detected == map[] {
      return NoneReachable, job, 0, 0;
    }
    var nodes := Prepare(refs, detected);
    r, job, i, j := PlanAndRun(nodes, detected, target, catalog, answers);
  }

  // A run of a path to the target through this catalog, over the planned nodes.
  ghost predicate RanAsPlanned(o: Outcome, job: Job, i: nat, j: nat, catalog: set<Version>, answers: seq<Answer>) {
    && job.Valid() && IsPath(job.low, job.target, catalog, job.path)
    && (o.ok ==> o.running == Finished(job))
    && if o.ok then i == |job.path| && Going(job, i, j, o, o.running, answers) else Stopped(job, i, j, o, answers)
  }

  method PlanAndRun(nodes: seq<NodeRef>, detected: map<string, Version>, target: Version, catalog: seq<Version>, answers: seq<Answer>)
    returns (r: Result, ghost job: Job, ghost i: nat, ghost j: nat)
    requires Distinct(nodes) && detected != map[] && forall name :: name in detected <==> Holds(nodes, name)
    requires target.Fits() && forall v :: v in catalog ==> v.Fits()
    ensures job.nodes == nodes && job.target == target && job.current == detected && IsMin(nodes, detected, job.low)
    ensures !r.NoneReachable? && (r.NoPath? <==> Unreachable(job.low, target, Entries(catalog)))
    ensures r.UpToDate? <==> forall name :: name in detected ==> !detected[name].Less(target)
    ensures r.Ran? ==> RanAsPlanned(r.outcome, job, i, j, Entries(catalog), answers)
  {
    i, j := 0, 0;
    var plan, low, path := BuildPlan(nodes, detected, target, catalog);
    job := Job(nodes, detected, low, target, path);
    SomeNodeLowest(nodes, detected, low, target);
    if plan.None? {
      return NoPath, job, 0, 0;
    }
    PlanIsAJob(nodes, detected, low, target, Entries(catalog), path);
    if plan.value.steps == [] {
      return UpToDate, job, 0, 0;
    }
    var outcome;
    outcome, i, j := Execute(plan.value.steps, detected, answers, job);
    return Ran(outcome), job, i, j;
  }

  // Nothing is below the target exactly when the lowest node is not.
  lemma SomeNodeLowest(nodes: seq<NodeRef>, detected: map<string, Version>, low: Version, target: Version)
    requires detected != map[] && (forall name :: name in detected <==> Holds(nodes, name)) && IsMin(nodes, detected, low)
    ensures nodes != [] && ((forall name :: name in detected ==> !detected[name].Less(target)) <==> !low.Less(target))
  {
    var some :| some in detected;
    assert Holds(nodes, some);
    var k :| 0 <= k < |nodes| && Current(detected, nodes[k].name) == low;
    assert Holds(nodes, nodes[k].name);
    forall name | name in detected ensures !detected[name].Less(low) {
      var m :| 0 <= m < |nodes| && nodes[m].name == name;
      assert !Current(detected, nodes[m].name).Less(low);
    }
  }
}
