/**
 The planner of a rolling upgrade: node order, adjacent-minor path, and per-step node lists.
 The path is specified on the catalog as a set, so no property of it depends on catalog order.
 */
module UpgradePlan {
  import opened Options
  import opened Versions

  datatype NodeRef = NodeRef(name: string, ip: string, role: string) {
    predicate ControlPlane() { role == "controlplane" }
  }

  // ---------------------------------------------------------------- the adjacent-minor path

  ghost predicate Released(catalog: set<Version>, major: nat, minor: nat) {
    exists v :: v in catalog && v.major == major && v.minor == minor
  }

  // v is the highest patch released for the minor.
  ghost predicate Best(catalog: set<Version>, major: nat, minor: nat, v: Version) {
    && v in catalog && v.major == major && v.minor == minor
    && forall w :: w in catalog && w.major == major && w.minor == minor ==> w.patch <= v.patch
  }

  // No path exists: another major, or some minor strictly in between was never released.
  ghost predicate Unreachable(current: Version, target: Version, catalog: set<Version>) {
    && current.Less(target)
    && (current.major != target.major
        || exists m: nat :: current.minor < m < target.minor && !Released(catalog, target.major, m))
  }

  // p takes current to target: the best release of every minor in between, then target itself.
  ghost predicate IsPath(current: Version, target: Version, catalog: set<Version>, p: seq<Version>) {
    if !current.Less(target) then p == []
    else
      && |p| == (if target.minor > current.minor then target.minor - current.minor else 1)
      && p[|p| - 1] == target
      && forall i :: 0 <= i < |p| - 1 ==> Best(catalog, target.major, current.minor + 1 + i, p[i])
  }

  function Entries(catalog: seq<Version>): set<Version> { set v | v in catalog }

  method ComputePath(current: Version, target: Version, catalog: seq<Version>) returns (r: Option<seq<Version>>)
    ensures r.None? <==> Unreachable(current, target, Entries(catalog))
    ensures r.Some? ==> IsPath(current, target, Entries(catalog), r.value)
  {
    if !current.Less(target) {
      return Some([]);
    }
    if current.major != target.major {
      return None;
    }
    var best := BestPatches(catalog, target.major);
    var path: seq<Version> := [];
    var minor := current.minor + 1;
    while minor < target.minor
      invariant |path| == minor - current.minor - 1
      invariant minor <= target.minor || path == []
      invariant forall i :: 0 <= i < |path| ==> Best(Entries(catalog), target.major, current.minor + 1 + i, path[i])
    {
      if minor !in best {
        return None;
      }
      path := path + [best[minor]];
      minor := minor + 1;
    }
    forall m: nat | current.minor < m < target.minor ensures Released(Entries(catalog), target.major, m) {
      assert Best(Entries(catalog), target.major, current.minor + 1 + (m - current.minor - 1), path[m - current.minor - 1]);
    }
    return Some(path + [target]);
  }

  // The highest patch of each minor of one major.
  method BestPatches(catalog: seq<Version>, major: nat) returns (best: map<nat, Version>)
    ensures forall m: nat :: m in best <==> Released(Entries(catalog), major, m)
    ensures forall m: nat :: m in best ==> Best(Entries(catalog), major, m, best[m])
  {
    best := map[];
    for i := 0 to |catalog|
      invariant forall m: nat :: m in best <==> Released(Entries(catalog[..i]), major, m)
      invariant forall m: nat :: m in best ==> Best(Entries(catalog[..i]), major, m, best[m])
    {
      var v := catalog[i];
      assert Entries(catalog[..i + 1]) == Entries(catalog[..i]) + {v};
      if v.major == major {
        if v.minor !in best || best[v.minor].Less(v) {
          best := best[v.minor := v];
        }
      }
    }
    assert catalog[..|catalog|] == catalog;
  }

  // A path depends on nothing but the set of releases.
  lemma PathUnique(current: Version, target: Version, catalog: set<Version>, p: seq<Version>, q: seq<Version>)
    requires IsPath(current, target, catalog, p) && IsPath(current, target, catalog, q)
    ensures p == q
  {
  }

  // What a path is for: it climbs strictly, by at most one minor at a time, inside one major,
  // and never past the target.
  ghost predicate Climbs(current: Version, target: Version, p: seq<Version>) {
    && (forall i :: 0 <= i < |p| ==> Hop(if i == 0 then current else p[i - 1], p[i]) && !target.Less(p[i]))
    && (p != [] ==> p[|p| - 1] == target)
    && (p == [] ==> !current.Less(target))
  }

  predicate Hop(a: Version, b: Version) { a.Less(b) && a.major == b.major && b.minor <= a.minor + 1 }

  lemma PathClimbs(current: Version, target: Version, catalog: set<Version>, p: seq<Version>)
    requires IsPath(current, target, catalog, p) && !Unreachable(current, target, catalog)
    ensures Climbs(current, target, p)
    ensures forall i, j :: 0 <= i < j < |p| ==> p[i].Less(p[j])
  {
    forall i | 0 <= i < |p|
      ensures p[i].major == target.major && (i < |p| - 1 ==> p[i].minor == current.minor + 1 + i)
      ensures Hop(if i == 0 then current else p[i - 1], p[i]) && !target.Less(p[i])
    {
      if i < |p| - 1 { assert Best(catalog, target.major, current.minor + 1 + i, p[i]); }
      if i > 0 { assert Best(catalog, target.major, current.minor + 1 + (i - 1), p[i - 1]); }
    }
  }

  // ---------------------------------------------------------------- the plan

  // Step.Version is text, as it is printed, stored and re-parsed.
  datatype Step = Step(version: string, nodes: seq<NodeRef>)

  datatype Plan = Plan(target: string, minCurrent: string, nodes: seq<NodeRef>, steps: seq<Step>)

  // A node with no detected version counts as v0.0.0, like a missing key of a Go map.
  function Current(current: map<string, Version>, name: string): Version {
    if name in current then current[name] else ZERO
  }

  // The nodes of a step: those whose detected version is below it, in plan order.
  function Below(nodes: seq<NodeRef>, current: map<string, Version>, v: Version): seq<NodeRef> {
    if nodes == [] then []
    else (if Current(current, nodes[0].name).Less(v) then [nodes[0]] else []) + Below(nodes[1..], current, v)
  }

  ghost predicate IsMin(nodes: seq<NodeRef>, current: map<string, Version>, m: Version) {
    && (nodes == [] ==> m == ZERO)
    && (nodes != [] ==> exists i :: 0 <= i < |nodes| && Current(current, nodes[i].name) == m)
    && (forall i :: 0 <= i < |nodes| ==> !Current(current, nodes[i].name).Less(m))
  }

  method LowestVersion(nodes: seq<NodeRef>, current: map<string, Version>) returns (m: Version)
    ensures IsMin(nodes, current, m)
  {
    m := ZERO;
    for i := 0 to |nodes|
      invariant IsMin(nodes[..i], current, m)
    {
      var v := Current(current, nodes[i].name);
      ghost var was := m;
      if i == 0 || v.Less(m) {
        m := v;
      }
      assert nodes[..i + 1] == nodes[..i] + [nodes[i]];
      if i > 0 {
        ghost var j :| 0 <= j < i && Current(current, nodes[..i][j].name) == was;
        assert nodes[..i + 1][j] == nodes[..i][j] && nodes[..i + 1][i] == nodes[i];
      } else {
        assert nodes[..i + 1][i] == nodes[i];
      }
    }
    assert nodes[..|nodes|] == nodes;
  }

  // `path` is the version sequence behind the steps.
  method BuildPlan(ordered: seq<NodeRef>, current: map<string, Version>, target: Version, catalog: seq<Version>)
    returns (r: Option<Plan>, ghost low: Version, ghost path: seq<Version>)
    ensures r.Some? ==> r.value.nodes == ordered && r.value.target == target.Text()
    ensures r.Some? ==> r.value.minCurrent == if ordered == [] then "" else low.Text()
    ensures r.Some? ==> forall i :: 0 <= i < |r.value.steps| ==> r.value.steps[i].nodes != []
    ensures IsMin(ordered, current, low)
    ensures r.None? <==> Unreachable(low, target, Entries(catalog))
    ensures r.Some? ==>
      && IsPath(low, target, Entries(catalog), path)
      && |r.value.steps| == (if ordered == [] then 0 else |path|)
      && forall i :: 0 <= i < |r.value.steps| ==>
        r.value.steps[i] == Step(path[i].Text(), Below(ordered, current, path[i])) && r.value.steps[i].nodes != []
  {
    var min := LowestVersion(ordered, current);
    low, path := min, [];
    var computed := ComputePath(min, target, catalog);
    if computed.None? {
      return None, low, [];
    }
    path := computed.value;
    PathClimbs(low, target, Entries(catalog), path);
    var steps := [];
    for i := 0 to |computed.value|
      invariant |steps| == if ordered == [] then 0 else i
      invariant forall j :: 0 <= j < |steps| ==> steps[j] == Step(path[j].Text(), Below(ordered, current, path[j])) && steps[j].nodes != []
    {
      var sn := Below(ordered, current, computed.value[i]);
      if sn != [] {
        steps := steps + [Step(computed.value[i].Text(), sn)];
      }
      if ordered != [] {
        // the lowest node is below every step
        ghost var k :| 0 <= k < |ordered| && Current(current, ordered[k].name) == low;
        BelowKeeps(ordered, current, path[i], k);
      }
    }
    r := Some(Plan(target.Text(), if ordered == [] then "" else min.Text(), ordered, steps));
  }

  lemma {:induction false} BelowKeeps(nodes: seq<NodeRef>, current: map<string, Version>, v: Version, k: nat)
    requires k < |nodes|
    ensures Current(current, nodes[k].name).Less(v) ==> nodes[k] in Below(nodes, current, v)
  {
    if k > 0 {
      BelowKeeps(nodes[1..], current, v, k - 1);
    }
  }
}
