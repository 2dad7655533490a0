/**
 The Kubernetes hop ladder: the control-plane floor, the minor-by-minor plan, and a hop loop that
 issues a hop only once the whole control plane was seen at the one before.
 */
module K8sHops {
  import opened Options
  import opened Versions

  // ---------------------------------------------------------------- the floor

  // The floor of the component versions, in the order they are listed. v0.0.0 doubles as "none yet".
  function FloorOf(seen: seq<Version>): Version {
    if seen == [] then ZERO
    else
      var floor, v := FloorOf(seen[..|seen| - 1]), seen[|seen| - 1];
      if floor == ZERO || v.Less(floor) then v else floor
  }

  method DetectFloor(seen: seq<Version>) returns (floor: Version)
    ensures floor == FloorOf(seen)
  {
    floor := ZERO;
    for i := 0 to |seen|
      invariant floor == FloorOf(seen[..i])
    {
      assert seen[..i + 1][..i] == seen[..i];
      if floor == ZERO || seen[i].Less(floor) {
        floor := seen[i];
      }
    }
    assert seen[..|seen|] == seen;
  }

  ghost predicate Lowest(seen: seq<Version>, m: Version) {
    m in seen && forall i :: 0 <= i < |seen| ==> !seen[i].Less(m)
  }

  // The floor is the lowest component version exactly when v0.0.0 is not listed, or is listed last.
  lemma {:induction false} FloorIsLowest(seen: seq<Version>)
    requires seen != []
    ensures Lowest(seen, FloorOf(seen)) <==> ZERO !in seen || seen[|seen| - 1] == ZERO
    ensures FloorOf(seen) == ZERO <==> seen[|seen| - 1] == ZERO
  {
    var front, v := seen[..|seen| - 1], seen[|seen| - 1];
    assert seen == front + [v];
    if front != [] {
      FloorIsLowest(front);
      if v == ZERO {
        assert Lowest(seen, v);
      } else if ZERO !in front {
        assert Lowest(front, FloorOf(front));
      } else {
        var i :| 0 <= i < |front| && front[i] == ZERO;
        assert seen[i].Less(FloorOf(seen));
      }
    }
  }

  // And when v0.0.0 is listed, the floor is that of what is listed after it.
  lemma {:induction false} FloorAfterZero(before: seq<Version>, after: seq<Version>)
    ensures FloorOf(before + [ZERO] + after) == FloorOf(after)
    decreases |after|
  {
    var seen := before + [ZERO] + after;
    if after == [] {
      assert seen == before + [ZERO] && seen[..|seen| - 1] == before;
    } else {
      assert seen[..|seen| - 1] == before + [ZERO] + after[..|after| - 1];
      FloorAfterZero(before, after[..|after| - 1]);
    }
  }

  // What WaitK8sHop accepts: components were found, and the floor is at least the hop.
  predicate Passes(seen: seq<Version>, hop: Version) {
    FloorOf(seen) != ZERO && !FloorOf(seen).Less(hop)
  }

  lemma PassedMeansAll(seen: seq<Version>, hop: Version)
    requires ZERO !in seen
    ensures Passes(seen, hop) <==> seen != [] && forall i :: 0 <= i < |seen| ==> !seen[i].Less(hop)
  {
    if seen != [] {
      FloorIsLowest(seen);
      var i :| 0 <= i < |seen| && seen[i] == FloorOf(seen);
    }
  }

  // With v0.0.0 listed anywhere but last, the gate can open on a component below the hop.
  lemma ZeroHidesALaggard()
    ensures var seen := [Version(1, 30, 0), ZERO, Version(1, 33, 0)];
      Passes(seen, Version(1, 33, 0)) && seen[0].Less(Version(1, 33, 0))
  {
    var a, b, c := Version(1, 30, 0), ZERO, Version(1, 33, 0);
    assert [a, b, c][..2] == [a, b] && [a, b][..1] == [a] && [a][..0] == [];
    assert FloorOf([a, b]) == b;
  }

  // ---------------------------------------------------------------- the ladder

  // Consecutive minors, each at its .0 but the last, which is the target itself.
  ghost predicate IsLadder(floor: Version, target: Version, hops: seq<Version>) {
    if floor == target then hops == []
    else
      var first := if floor.minor == target.minor then floor.minor else floor.minor + 1;
      && |hops| == target.minor - first + 1
      && hops[|hops| - 1] == target
      && forall i :: 0 <= i < |hops| - 1 ==> hops[i] == Version(target.major, first + i, 0)
  }

  method PlanK8sHops(floor: Version, target: Version) returns (r: Option<seq<Version>>)
    ensures r.None? <==> target.Less(floor) || floor.major != target.major
    ensures r.Some? ==> IsLadder(floor, target, r.value)
  {
    if target.Less(floor) {
      return None;
    }
    if floor.major != target.major {
      return None;
    }
    var hops: seq<Version> := [];
    var minor := floor.minor;
    while minor <= target.minor
      invariant floor.minor <= minor <= target.minor + 1
      invariant minor <= target.minor ==>
        && |hops| == (if minor == floor.minor then 0 else minor - floor.minor - 1)
        && forall i :: 0 <= i < |hops| ==> hops[i] == Version(target.major, floor.minor + 1 + i, 0)
      invariant minor > target.minor ==> IsLadder(floor, target, hops)
    {
      var v := Version(target.major, minor, if minor == target.minor then target.patch else 0);
      if floor.Less(v) {
        hops := hops + [v];
      }
      minor := minor + 1;
    }
    return Some(hops);
  }

  // What a ladder is for: it climbs one minor at a time, from at most one minor above the floor to
  // exactly the target, and is empty just when there is nothing to do.
  ghost predicate ClimbsByMinor(floor: Version, target: Version, hops: seq<Version>) {
    && (hops == [] <==> floor == target)
    && (hops != [] ==> hops[|hops| - 1] == target && floor.Less(hops[0]) && hops[0].minor <= floor.minor + 1)
    && (forall i :: 0 <= i < |hops| ==> hops[i].major == floor.major && !target.Less(hops[i]))
    && (forall i, j :: 0 <= i < j < |hops| ==> hops[j].minor == hops[i].minor + (j - i))
  }

  lemma LadderClimbs(floor: Version, target: Version, hops: seq<Version>)
    requires IsLadder(floor, target, hops) && floor.major == target.major && !target.Less(floor)
    ensures ClimbsByMinor(floor, target, hops)
  {
  }

  lemma LadderUnique(floor: Version, target: Version, a: seq<Version>, b: seq<Version>)
    requires IsLadder(floor, target, a) && IsLadder(floor, target, b)
    ensures a == b
  {
  }

  // ---------------------------------------------------------------- the hop loop

  // What a run does and sees, in order. Each issue names the hop's place in the ladder.
  datatype Event = Issue(hop: nat, node: string) | Probe(seen: seq<Version>) | ProbeFailed

  // How many hops the control plane has been seen to complete, one after the other.
  function Cleared(hops: seq<Version>, log: seq<Event>): (n: nat)
    ensures n <= |hops|
  {
    if log == [] then 0
    else
      var n, e := Cleared(hops, log[..|log| - 1]), log[|log| - 1];
      if n < |hops| && e.Probe? && Passes(e.seen, hops[n]) then n + 1 else n
  }

  // Every hop issued is the first one not yet cleared.
  ghost predicate InStep(hops: seq<Version>, log: seq<Event>) {
    forall p :: 0 <= p < |log| && log[p].Issue? ==> log[p].hop == Cleared(hops, log[..p])
  }

  lemma {:induction false} ClearedAt(hops: seq<Version>, log: seq<Event>, n: nat) returns (q: nat)
    requires n < Cleared(hops, log)
    ensures q < |log| && Cleared(hops, log[..q]) == n && log[q].Probe? && Passes(log[q].seen, hops[n])
    ensures forall p :: q < p <= |log| ==> Cleared(hops, log[..p]) > n
  {
    var front := log[..|log| - 1];
    if n < Cleared(hops, front) {
      q := ClearedAt(hops, front, n);
      forall p | q < p <= |log| ensures Cleared(hops, log[..p]) > n {
        if p < |log| { assert log[..p] == front[..p]; } else { assert log[..p] == log; }
      }
      assert log[..q] == front[..q];
    } else {
      q := |log| - 1;
      assert log[..|log|] == log;
    }
  }

  // In every run, hop h + 1 is issued only after a probe that saw the control plane at hop h, which
  // comes after every issue of hop h; with no v0.0.0 listed, that probe saw every component there, and
  // the new hop is the very next minor.
  lemma GateBeforeHop(floor: Version, target: Version, hops: seq<Version>, log: seq<Event>, p: nat) returns (q: nat)
    requires ClimbsByMinor(floor, target, hops) && InStep(hops, log)
    requires p < |log| && log[p].Issue? && 0 < log[p].hop < |hops|
    ensures var h := log[p].hop - 1;
      && q < p && log[q].Probe? && Passes(log[q].seen, hops[h])
      && (forall k :: 0 <= k < |log| && log[k].Issue? && log[k].hop <= h ==> k < q)
      && (ZERO !in log[q].seen ==> forall i :: 0 <= i < |log[q].seen| ==> !log[q].seen[i].Less(hops[h]))
      && hops[h + 1].minor == hops[h].minor + 1
  {
    var h := log[p].hop - 1;
    q := ClearedAt(hops, log[..p], h);
    assert log[..p][..q] == log[..q];
    forall k | q < k <= |log| ensures Cleared(hops, log[..k]) > h {
      if k <= p {
        assert log[..p][..k] == log[..k];
      } else {
        ClearedGrows(hops, log, p, k);
      }
    }
    if ZERO !in log[q].seen { PassedMeansAll(log[q].seen, hops[h]); }
    assert hops[h + 1].minor == hops[h].minor + (h + 1 - h);
  }

  lemma {:induction false} ClearedGrows(hops: seq<Version>, log: seq<Event>, p: nat, k: nat)
    requires p <= k <= |log|
    ensures Cleared(hops, log[..p]) <= Cleared(hops, log[..k])
  {
    if p < k {
      ClearedGrows(hops, log, p, k - 1);
      assert log[..k][..k - 1] == log[..k - 1];
    }
  }

  lemma LogNext(hops: seq<Version>, log: seq<Event>, e: Event)
    requires InStep(hops, log) && (e.Issue? ==> e.hop == Cleared(hops, log))
    ensures InStep(hops, log + [e])
    ensures Cleared(hops, log + [e]) == Cleared(hops, log)
      + if e.Probe? && Cleared(hops, log) < |hops| && Passes(e.seen, hops[Cleared(hops, log)]) then 1 else 0
  {
    var next := log + [e];
    assert next[..|next| - 1] == log;
    forall p | 0 <= p < |next| && next[p].Issue? ensures next[p].hop == Cleared(hops, next[..p]) {
      assert next[..p] == log[..p];
    }
    assert log[..|log|] == log;
  }

  // One poll: what kubectl answered, and whether the deadline has passed or the caller gave up after it.
  datatype Poll = Poll(answer: Option<seq<Version>>, giveUp: bool)

  // The poll answers with components that are all the gate asks for.
  predicate Opens(p: Poll, hop: Version) { p.answer.Some? && Passes(p.answer.value, hop) }

  // What each poll saw, in order.
  function Looks(polls: seq<Poll>): seq<Event> {
    if polls == [] then []
    else
      var p := polls[|polls| - 1];
      Looks(polls[..|polls| - 1]) + [if p.answer.Some? then Probe(p.answer.value) else ProbeFailed]
  }

  lemma {:induction false} LooksAre(polls: seq<Poll>)
    ensures |Looks(polls)| == |polls|
    ensures forall k :: 0 <= k < |polls| ==> Looks(polls)[k] == match polls[k].answer case Some(seen) => Probe(seen) case None => ProbeFailed
  {
    if polls != [] { LooksAre(polls[..|polls| - 1]); }
  }

  lemma LooksNext(polls: seq<Poll>, i: nat, e: Event)
    requires i < |polls| && e == match polls[i].answer case Some(seen) => Probe(seen) case None => ProbeFailed
    ensures Looks(polls[..i + 1]) == Looks(polls[..i]) + [e]
  {
    assert polls[..i + 1][..i] == polls[..i];
  }

  // No poll before this one ends the wait, and this one opens the gate.
  ghost predicate Gate(polls: seq<Poll>, hop: Version, cut: nat) {
    cut < |polls| && Opens(polls[cut], hop) && forall k :: 0 <= k < cut ==> !Opens(polls[k], hop) && !polls[k].giveUp
  }

  // Or this one gives up with the gate still shut; or there are no more, and the process is killed.
  ghost predicate Shut(polls: seq<Poll>, hop: Version, used: nat) {
    && used <= |polls| && (forall k :: 0 <= k < used ==> !Opens(polls[k], hop))
    && (forall k :: 0 <= k < used - 1 ==> !polls[k].giveUp) && (used == |polls| || (used > 0 && polls[used - 1].giveUp))
  }

  // Some poll opens the gate, and none before it gives up.
  ghost predicate InTime(polls: seq<Poll>, hop: Version) {
    exists n :: 0 <= n < |polls| && Opens(polls[n], hop) && forall i :: 0 <= i < n ==> !polls[i].giveUp
  }

  lemma GateIsInTime(polls: seq<Poll>, hop: Version, used: nat)
    ensures used > 0 && Gate(polls, hop, used - 1) ==> InTime(polls, hop)
    ensures Shut(polls, hop, used) ==> !InTime(polls, hop)
  {
  }

  // Polls until the gate opens; gives up only after looking. It succeeds exactly when some poll opens the
  // gate and none before it gives up, and looks once for each poll up to the one that ends it.
  method WaitK8sHop(hops: seq<Version>, h: nat, polls: seq<Poll>, was: seq<Event>)
    returns (ok: bool, log: seq<Event>, rest: seq<Poll>, ghost used: nat)
    requires h < |hops| && InStep(hops, was) && Cleared(hops, was) == h
    ensures InStep(hops, log) && Cleared(hops, log) == if ok then h + 1 else h
    ensures if ok then used > 0 && Gate(polls, hops[h], used - 1) else Shut(polls, hops[h], used)
    ensures rest == polls[used..] && log == was + Looks(polls[..used])
    ensures ok <==> InTime(polls, hops[h])
  {
    ok, log, rest, used := PollGate(hops, h, polls, was);
    GateIsInTime(polls, hops[h], used);
  }

  method PollGate(hops: seq<Version>, h: nat, polls: seq<Poll>, was: seq<Event>)
    returns (ok: bool, log: seq<Event>, rest: seq<Poll>, ghost used: nat)
    requires h < |hops| && InStep(hops, was) && Cleared(hops, was) == h
    ensures InStep(hops, log) && Cleared(hops, log) == if ok then h + 1 else h
    ensures if ok then used > 0 && Gate(polls, hops[h], used - 1) else Shut(polls, hops[h], used)
    ensures rest == polls[used..] && log == was + Looks(polls[..used])
  {
    log, used := was, 0;
    for i := 0 to |polls|
      invariant InStep(hops, log) && Cleared(hops, log) == h && used == i
      invariant log == was + Looks(polls[..i])
      invariant forall k :: 0 <= k < i ==> !Opens(polls[k], hops[h]) && !polls[k].giveUp
    {
      var e := match polls[i].answer case Some(seen) => Probe(seen) case None => ProbeFailed;
      LogNext(hops, log, e);
      LooksNext(polls, i, e);
      log, used := log + [e], i + 1;
      if e.Probe? && Passes(e.seen, hops[h]) {
        assert Opens(polls[i], hops[h]);
        return true, log, polls[i + 1..], used;
      }
      if polls[i].giveUp {
        return false, log, polls[i + 1..], used;
      }
    }
    return false, log, [], used;
  }

  // One hop's commands, one per control plane, in order.
  function Commands(h: nat, planes: seq<string>): seq<Event> {
    if planes == [] then [] else Commands(h, planes[..|planes| - 1]) + [Issue(h, planes[|planes| - 1])]
  }

  lemma {:induction false} CommandsAre(h: nat, planes: seq<string>)
    ensures |Commands(h, planes)| == |planes| && forall k :: 0 <= k < |planes| ==> Commands(h, planes)[k] == Issue(h, planes[k])
  {
    if planes != [] { CommandsAre(h, planes[..|planes| - 1]); }
  }

  // How one command goes: there is no client for the node, it fails, or it succeeds.
  datatype Exec = NoClient | Refused | Accepted

  predicate AllAccepted(execs: seq<Exec>, n: nat) {
    n <= |execs| && forall k :: 0 <= k < n ==> execs[k] == Accepted
  }

  // Command k is the first that is not accepted, or is never given; one that is refused was issued all the same.
  predicate FirstBad(execs: seq<Exec>, k: nat) { AllAccepted(execs, k) && (k < |execs| ==> execs[k] != Accepted) }

  // Issues a hop to one control plane after the other, stopping at the first command that fails; one with
  // no client is not issued.
  method IssueHop(ghost hops: seq<Version>, h: nat, planes: seq<string>, execs: seq<Exec>, was: seq<Event>)
    returns (ok: bool, log: seq<Event>, rest: seq<Exec>)
    requires h < |hops| && InStep(hops, was) && Cleared(hops, was) == h
    ensures InStep(hops, log) && Cleared(hops, log) == h
    ensures ok <==> AllAccepted(execs, |planes|)
    ensures ok ==> log == was + Commands(h, planes) && rest == execs[|planes|..]
    ensures !ok ==> exists k :: 0 <= k < |planes| && FirstBad(execs, k) && log == was + Commands(h, planes[..if k < |execs| && execs[k] == Refused then k + 1 else k])
  {
    log, rest := was, execs;
    assert log == was + Commands(h, planes[..0]);
    for k := 0 to |planes|
      invariant InStep(hops, log) && Cleared(hops, log) == h && log == was + Commands(h, planes[..k])
      invariant AllAccepted(execs, k) && rest == execs[k..]
    {
      if rest == [] || rest[0] == NoClient {
        assert FirstBad(execs, k);
        return false, log, rest;
      }
      LogNext(hops, log, Issue(h, planes[k]));
      log := log + [Issue(h, planes[k])];
      assert log == was + Commands(h, planes[..k + 1]) by {
        assert planes[..k + 1][..k] == planes[..k];
      }
      if rest[0] == Refused {
        assert FirstBad(execs, k);
        return false, log, rest;
      }
      rest := rest[1..];
    }
    assert planes[..|planes|] == planes;
    ok := true;
  }

  lemma {:induction false} CommandsReachAll(h: nat, planes: seq<string>)
    ensures IssuedToAll(Commands(h, planes), h, planes)
  {
    if planes != [] {
      CommandsReachAll(h, planes[..|planes| - 1]);
      assert planes == planes[..|planes| - 1] + [planes[|planes| - 1]];
    }
  }

  ghost predicate IssuedToAll(log: seq<Event>, h: nat, planes: seq<string>) {
    forall c :: c in planes ==> Issue(h, c) in log
  }

  // The polls open the gate of every hop, each after the one before.
  ghost predicate AllOpen(hops: seq<Version>, polls: seq<Poll>)
    decreases |hops|
  {
    hops == [] || exists cut: nat :: Gate(polls, hops[0], cut) && AllOpen(hops[1..], polls[cut + 1..])
  }

  // Only one poll is the first to open a gate.
  lemma OpenNext(hops: seq<Version>, polls: seq<Poll>, cut: nat)
    requires hops != [] && Gate(polls, hops[0], cut)
    ensures AllOpen(hops, polls) <==> AllOpen(hops[1..], polls[cut + 1..])
  {
    forall other: nat | Gate(polls, hops[0], other) ensures other == cut {}
  }

  lemma ShutIsNoGate(polls: seq<Poll>, hop: Version, used: nat)
    requires Shut(polls, hop, used)
    ensures forall cut: nat :: !Gate(polls, hop, cut)
  {
  }

  // Where the loop stands before hop h: every command so far was accepted, and what is left to open is the
  // gates from h on.
  ghost predicate AtHop(hops: seq<Version>, h: nat, width: nat, execs: seq<Exec>, answers: seq<Poll>, left: seq<Exec>, polls: seq<Poll>) {
    && h <= |hops| && AllAccepted(execs, h * width) && left == execs[h * width..]
    && (AllOpen(hops, answers) <==> AllOpen(hops[h..], polls))
  }

  lemma Rows(h: nat, hops: nat, width: nat)
    requires h < hops
    ensures h * width + width <= hops * width && (h + 1) * width == h * width + width
  {
    assert (h + 1) * width <= hops * width;
  }

  lemma AcceptedRows(execs: seq<Exec>, n: nat, width: nat)
    requires AllAccepted(execs, n)
    ensures AllAccepted(execs[n..], width) <==> AllAccepted(execs, n + width)
  {
    if AllAccepted(execs[n..], width) {
      forall k | n <= k < n + width ensures execs[k] == Accepted { assert execs[k] == execs[n..][k - n]; }
    }
  }

  lemma NextHop(hops: seq<Version>, h: nat, width: nat, execs: seq<Exec>, answers: seq<Poll>, left: seq<Exec>, polls: seq<Poll>, cut: nat)
    requires AtHop(hops, h, width, execs, answers, left, polls) && h < |hops|
    requires AllAccepted(left, width) && Gate(polls, hops[h], cut)
    ensures AtHop(hops, h + 1, width, execs, answers, left[width..], polls[cut + 1..])
  {
    Rows(h, |hops|, width);
    AcceptedRows(execs, h * width, width);
    assert hops[h..][0] == hops[h] && hops[h..][1..] == hops[h + 1..];
    OpenNext(hops[h..], polls, cut);
    assert left[width..] == execs[h * width + width..];
  }

  lemma NoNextHop(hops: seq<Version>, h: nat, width: nat, execs: seq<Exec>, answers: seq<Poll>, left: seq<Exec>, polls: seq<Poll>)
    requires AtHop(hops, h, width, execs, answers, left, polls) && h < |hops|
    requires !AllAccepted(left, width) || forall cut: nat :: !Gate(polls, hops[h], cut)
    ensures !(AllAccepted(execs, |hops| * width) && AllOpen(hops, answers))
  {
    Rows(h, |hops|, width);
    AcceptedRows(execs, h * width, width);
    assert hops[h..][0] == hops[h];
  }

  // One hop: its commands, and then its gate.
  method RunHop(hops: seq<Version>, h: nat, planes: seq<string>, execs: seq<Exec>, polls: seq<Poll>, was: seq<Event>)
    returns (ok: bool, log: seq<Event>, left: seq<Exec>, rest: seq<Poll>, ghost cut: nat)
    requires h < |hops| && InStep(hops, was) && Cleared(hops, was) == h
    ensures InStep(hops, log) && was <= log && Cleared(hops, log) == if ok then h + 1 else h
    ensures ok ==> AllAccepted(execs, |planes|) && left == execs[|planes|..] && IssuedToAll(log, h, planes)
    ensures ok ==> Gate(polls, hops[h], cut) && rest == polls[cut + 1..]
    ensures !ok ==> !AllAccepted(execs, |planes|) || forall cut: nat :: !Gate(polls, hops[h], cut)
  {
    rest, cut := polls, 0;
    ok, log, left := IssueHop(hops, h, planes, execs, was);
    if !ok {
      return;
    }
    ghost var used;
    ok, log, rest, used := WaitK8sHop(hops, h, polls, log);
    if !ok {
      ShutIsNoGate(polls, hops[h], used);
      return;
    }
    cut := used - 1;
    CommandsReachAll(h, planes);
    StillIssued(was, Commands(h, planes), log, h, planes);
  }

  // The hop loop over the reachable control planes. `execs` says how each hop command goes. It succeeds
  // exactly when every command of every hop is accepted and the polls open the gate of every hop.
  method RunHops(hops: seq<Version>, planes: seq<string>, execs: seq<Exec>, answers: seq<Poll>) returns (ok: bool, log: seq<Event>)
    ensures InStep(hops, log)
    ensures ok ==> Cleared(hops, log) == |hops| && forall h :: 0 <= h < |hops| ==> IssuedToAll(log, h, planes)
    ensures ok <==> AllAccepted(execs, |hops| * |planes|) && AllOpen(hops, answers)
  {
    log := [];
    var polls, left := answers, execs;
    for h := 0 to |hops|
      invariant InStep(hops, log) && Cleared(hops, log) == h
      invariant forall g :: 0 <= g < h ==> IssuedToAll(log, g, planes)
      invariant AtHop(hops, h, |planes|, execs, answers, left, polls)
    {
      ghost var was, issuing, polling, cut := log, left, polls, 0;
      ok, log, left, polls, cut := RunHop(hops, h, planes, left, polls, log);
      if !ok {
        NoNextHop(hops, h, |planes|, execs, answers, issuing, polling);
        return false, log;
      }
      NextHop(hops, h, |planes|, execs, answers, issuing, polling, cut);
      forall g | 0 <= g < h ensures IssuedToAll(log, g, planes) {
        StillIssued([], was, log, g, planes);
      }
    }
    assert hops[|hops|..] == [];
    ok := true;
  }

  lemma StillIssued(before: seq<Event>, part: seq<Event>, log: seq<Event>, h: nat, planes: seq<string>)
    requires before + part <= log && IssuedToAll(part, h, planes)
    ensures IssuedToAll(log, h, planes)
  {
    forall c | c in planes ensures Issue(h, c) in log {
      assert Issue(h, c) in part;
      assert Issue(h, c) in before + part;
    }
  }
}
