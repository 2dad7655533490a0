/** Node order of a rolling upgrade, and the in-place filter that drops unreachable nodes. */
module NodeOrder {
  import opened Versions
  import opened UpgradePlan

  // Byte-wise string order.
  predicate StringLess(a: string, b: string) {
    if b == "" then false
    else if a == "" then true
    else a[0] < b[0] || (a[0] == b[0] && StringLess(a[1..], b[1..]))
  }

  // Workers before control planes, then by name.
  predicate NodeLess(a: NodeRef, b: NodeRef) {
    if a.ControlPlane() != b.ControlPlane() then !a.ControlPlane() else StringLess(a.name, b.name)
  }

  lemma {:induction false} StringLessOrder(a: string, b: string, c: string)
    ensures !StringLess(a, a)
    ensures a == b || StringLess(a, b) || StringLess(b, a)
    ensures StringLess(a, b) && StringLess(b, c) ==> StringLess(a, c)
    decreases |a| + |b| + |c|
  {
    if a != "" && b != "" {
      if a[0] == b[0] && a[1..] == b[1..] { assert a == [a[0]] + a[1..] == b; }
      StringLessOrder(a[1..], b[1..], if c == "" then "" else c[1..]);
    } else if a != "" {
      StringLessOrder(a[1..], "", "");
    }
  }

  // The two agree up to k, and there a ends or has the smaller character.
  predicate DiffersAt(a: string, b: string, k: nat) {
    k < |b| && k <= |a| && a[..k] == b[..k] && (k < |a| ==> a[k] < b[k])
  }

  lemma {:induction false} StringLessMeans(a: string, b: string)
    ensures StringLess(a, b) <==> exists k: nat :: DiffersAt(a, b, k)
  {
    if a != "" && b != "" && a[0] == b[0] {
      StringLessMeans(a[1..], b[1..]);
      if k: nat :| DiffersAt(a[1..], b[1..], k) {
        assert a[..k + 1] == [a[0]] + a[1..][..k] && b[..k + 1] == [b[0]] + b[1..][..k];
        assert DiffersAt(a, b, k + 1);
      }
      if k: nat :| DiffersAt(a, b, k) {
        assert k > 0 && a[1..][..k - 1] == a[..k][1..] && b[1..][..k - 1] == b[..k][1..];
        assert DiffersAt(a[1..], b[1..], k - 1);
      }
    } else {
      if b != "" && (a == "" || a[0] < b[0]) {
        assert DiffersAt(a, b, 0);
      }
      if k: nat :| DiffersAt(a, b, k) {
        AgreeFirst(a, b, k);
      }
    }
  }

  lemma AgreeFirst(a: string, b: string, k: nat)
    requires DiffersAt(a, b, k)
    ensures k > 0 ==> a != "" && a[0] == b[0]
  {
    if k > 0 { assert a[..k][0] == a[0] && b[..k][0] == b[0]; }
  }

  // Names in order: a is a beginning of b, or at the first place they differ its character is the smaller.
  ghost predicate NameBefore(a: string, b: string) {
    a <= b || exists k: nat :: k < |a| && k < |b| && a[..k] == b[..k] && a[k] < b[k]
  }

  lemma NotLessIsBefore(a: string, b: string)
    requires !StringLess(b, a)
    ensures NameBefore(a, b)
  {
    StringLessOrder(a, b, a);
    if a != b {
      StringLessMeans(a, b);
      var k: nat :| DiffersAt(a, b, k);
      assert k == |a| ==> a[..k] == a;
    }
  }

  lemma SortedMeans(nodes: seq<NodeRef>, i: nat, j: nat)
    requires Sorted(nodes) && i < j < |nodes|
    ensures nodes[i].role == "controlplane" ==> nodes[j].role == "controlplane"
    ensures (nodes[i].role == "controlplane" <==> nodes[j].role == "controlplane") ==> NameBefore(nodes[i].name, nodes[j].name)
  {
    assert !NodeLess(nodes[j], nodes[i]);
    if nodes[i].ControlPlane() == nodes[j].ControlPlane() {
      NotLessIsBefore(nodes[i].name, nodes[j].name);
    }
  }

  lemma NodeLessOrder(a: NodeRef, b: NodeRef, c: NodeRef)
    ensures !NodeLess(a, a)
    ensures NodeLess(a, b) ==> !NodeLess(b, a)
    ensures !NodeLess(b, a) && !NodeLess(c, b) ==> !NodeLess(c, a)
    ensures NodeLess(a, b) && !NodeLess(c, b) ==> !NodeLess(c, a)
  {
    StringLessOrder(a.name, b.name, a.name);
    StringLessOrder(b.name, a.name, b.name);
    StringLessOrder(c.name, a.name, b.name);
    StringLessOrder(b.name, c.name, a.name);
    StringLessOrder(a.name, c.name, b.name);
    StringLessOrder(c.name, b.name, a.name);
  }

  ghost predicate Sorted(nodes: seq<NodeRef>) {
    forall i, j :: 0 <= i < j < |nodes| ==> !NodeLess(nodes[j], nodes[i])
  }

  // The nodes that compare equal to k, in the order they appear.
  function Ties(nodes: seq<NodeRef>, k: NodeRef): seq<NodeRef> {
    if nodes == [] then []
    else (if !NodeLess(nodes[0], k) && !NodeLess(k, nodes[0]) then [nodes[0]] else []) + Ties(nodes[1..], k)
  }

  lemma {:induction false} TiesConcat(a: seq<NodeRef>, b: seq<NodeRef>, k: NodeRef)
    ensures Ties(a + b, k) == Ties(a, k) + Ties(b, k)
  {
    if a == [] {
      assert a + b == b;
    } else {
      assert (a + b)[1..] == a[1..] + b;
      TiesConcat(a[1..], b, k);
    }
  }

  // A stable sort: sorted, with the same elements, and ties in their old order.
  method OrderNodes(nodes: seq<NodeRef>) returns (out: seq<NodeRef>)
    ensures Sorted(out) && multiset(out) == multiset(nodes)
    ensures forall k :: Ties(out, k) == Ties(nodes, k)
    ensures forall i, j :: 0 <= i < j < |out| ==>
      && (out[i].role == "controlplane" ==> out[j].role == "controlplane")
      && ((out[i].role == "controlplane" <==> out[j].role == "controlplane") ==> NameBefore(out[i].name, out[j].name))
  {
    out := [];
    for i := 0 to |nodes|
      invariant Sorted(out) && multiset(out) == multiset(nodes[..i])
      invariant forall k :: Ties(out, k) == Ties(nodes[..i], k)
    {
      ghost var was := out;
      out := Insert(out, nodes[i]);
      assert nodes[..i + 1] == nodes[..i] + [nodes[i]];
      forall k ensures Ties(out, k) == Ties(nodes[..i + 1], k) {
        TiesConcat(nodes[..i], [nodes[i]], k);
        TiesConcat(was, [nodes[i]], k);
      }
    }
    assert nodes[..|nodes|] == nodes;
    forall i, j | 0 <= i < j < |out|
      ensures out[i].role == "controlplane" ==> out[j].role == "controlplane"
      ensures (out[i].role == "controlplane" <==> out[j].role == "controlplane") ==> NameBefore(out[i].name, out[j].name)
    {
      SortedMeans(out, i, j);
    }
  }

  // Insert after every element that does not come after n.
  method Insert(sorted: seq<NodeRef>, n: NodeRef) returns (out: seq<NodeRef>)
    requires Sorted(sorted)
    ensures Sorted(out) && multiset(out) == multiset(sorted + [n])
    ensures forall k :: Ties(out, k) == Ties(sorted + [n], k)
  {
    var i := |sorted|;
    while i > 0 && NodeLess(n, sorted[i - 1])
      invariant 0 <= i <= |sorted|
      invariant forall j :: i <= j < |sorted| ==> NodeLess(n, sorted[j])
    {
      i := i - 1;
    }
    out := sorted[..i] + ([n] + sorted[i..]);
    assert sorted == sorted[..i] + sorted[i..];
    InsertedSorted(sorted[..i], n, sorted[i..]);
    forall k ensures Ties(out, k) == Ties(sorted + [n], k) {
      InsertedTies(sorted[..i], n, sorted[i..], k);
    }
  }

  lemma InsertedSorted(front: seq<NodeRef>, n: NodeRef, back: seq<NodeRef>)
    requires Sorted(front + back)
    requires front != [] ==> !NodeLess(n, front[|front| - 1])
    requires forall j :: 0 <= j < |back| ==> NodeLess(n, back[j])
    ensures Sorted(front + ([n] + back))
  {
    var was, out := front + back, front + ([n] + back);
    forall j | 0 <= j < |front| ensures !NodeLess(n, front[j]) {
      if j < |front| - 1 {
        assert !NodeLess(was[|front| - 1], was[j]);
        NodeLessOrder(front[j], front[|front| - 1], n);
      }
    }
    forall j | 0 <= j < |back| ensures !NodeLess(back[j], n) {
      NodeLessOrder(n, back[j], n);
    }
    forall i, j | 0 <= i < j < |out| ensures !NodeLess(out[j], out[i]) {
      if i != |front| && j != |front| {
        assert !NodeLess(was[if j < |front| then j else j - 1], was[if i < |front| then i else i - 1]);
      }
    }
  }

  lemma InsertedTies(front: seq<NodeRef>, n: NodeRef, back: seq<NodeRef>, k: NodeRef)
    requires forall j :: 0 <= j < |back| ==> NodeLess(n, back[j])
    ensures Ties(front + ([n] + back), k) == Ties(front + back + [n], k)
  {
    TiesConcat(front, [n] + back, k);
    TiesConcat([n], back, k);
    TiesConcat(front + back, [n], k);
    TiesConcat(front, back, k);
    if !NodeLess(n, k) && !NodeLess(k, n) {
      TiesAllAbove(back, n, k);
    }
  }

  lemma {:induction false} TiesAllAbove(nodes: seq<NodeRef>, n: NodeRef, k: NodeRef)
    requires !NodeLess(n, k) && !NodeLess(k, n) && forall j :: 0 <= j < |nodes| ==> NodeLess(n, nodes[j])
    ensures Ties(nodes, k) == []
  {
    if nodes != [] {
      TieIsEqualRank(n, k, nodes[0]);
      TiesAllAbove(nodes[1..], n, k);
    }
  }

  lemma TieIsEqualRank(n: NodeRef, k: NodeRef, x: NodeRef)
    requires !NodeLess(n, k) && !NodeLess(k, n) && NodeLess(n, x)
    ensures NodeLess(k, x)
  {
    StringLessOrder(n.name, k.name, n.name);
  }

  // Every selection of ordered nodes is ordered.
  lemma {:induction false} StepsKeepOrder(nodes: seq<NodeRef>, current: map<string, Version>, v: Version)
    requires Sorted(nodes)
    ensures Sorted(Below(nodes, current, v))
  {
    if nodes != [] {
      StepsKeepOrder(nodes[1..], current, v);
      var rest := Below(nodes[1..], current, v);
      forall b | 0 <= b < |rest| ensures !NodeLess(rest[b], nodes[0]) {
        BelowSubset(nodes[1..], current, v, rest[b]);
        var j :| 0 <= j < |nodes[1..]| && nodes[1..][j] == rest[b];
        assert !NodeLess(nodes[j + 1], nodes[0]);
      }
    }
  }

  // What the sort is for: every selection of ordered nodes has its workers first.
  ghost predicate WorkersFirst(nodes: seq<NodeRef>) {
    forall i, j :: 0 <= i < j < |nodes| && nodes[i].ControlPlane() ==> nodes[j].ControlPlane()
  }

  lemma {:induction false} StepsKeepWorkersFirst(nodes: seq<NodeRef>, current: map<string, Version>, v: Version)
    requires Sorted(nodes)
    ensures WorkersFirst(Below(nodes, current, v))
  {
    if nodes != [] {
      StepsKeepWorkersFirst(nodes[1..], current, v);
      forall n | n in Below(nodes[1..], current, v) ensures nodes[0].ControlPlane() ==> n.ControlPlane() {
        BelowSubset(nodes[1..], current, v, n);
        var j :| 0 <= j < |nodes[1..]| && nodes[1..][j] == n;
        assert !NodeLess(nodes[j + 1], nodes[0]);
      }
    }
  }

  lemma {:induction false} BelowSubset(nodes: seq<NodeRef>, current: map<string, Version>, v: Version, n: NodeRef)
    requires n in Below(nodes, current, v)
    ensures n in nodes && Current(current, n.name).Less(v)
  {
    if n in Below(nodes[1..], current, v) {
      BelowSubset(nodes[1..], current, v, n);
    }
  }

  // ---------------------------------------------------------------- dropping unreachable nodes

  function Reached(nodes: seq<NodeRef>, current: map<string, Version>): seq<NodeRef> {
    if nodes == [] then []
    else (if nodes[0].name in current then [nodes[0]] else []) + Reached(nodes[1..], current)
  }

  lemma {:induction false} ReachedConcat(a: seq<NodeRef>, b: seq<NodeRef>, current: map<string, Version>)
    ensures Reached(a + b, current) == Reached(a, current) + Reached(b, current)
  {
    if a == [] {
      assert a + b == b;
    } else {
      assert (a + b)[1..] == a[1..] + b;
      ReachedConcat(a[1..], b, current);
    }
  }

  // kept := ordered[:0]; append in place: the survivors end up at the front of the same array.
  method KeepReached(ordered: array<NodeRef>, current: map<string, Version>) returns (kept: nat)
    modifies ordered
    ensures kept <= ordered.Length && ordered[..kept] == Reached(old(ordered[..]), current)
  {
    kept := 0;
    for i := 0 to ordered.Length
      invariant kept <= i
      invariant ordered[..kept] == Reached(old(ordered[..i]), current)
      invariant forall j :: i <= j < ordered.Length ==> ordered[j] == old(ordered[j])
    {
      ReachedConcat(old(ordered[..i]), [old(ordered[i])], current);
      assert old(ordered[..i + 1]) == old(ordered[..i]) + [old(ordered[i])];
      if ordered[i].name in current {
        ghost var before := ordered[..kept];
        ordered[kept] := ordered[i];
        kept := kept + 1;
        assert ordered[..kept] == before + [old(ordered[i])];
      }
    }
    assert old(ordered[..ordered.Length]) == old(ordered[..]);
  }
}
