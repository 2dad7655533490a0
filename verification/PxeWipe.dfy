/**
 The one-shot wipe of a PXE install: a queue of MACs on disk and a boot script that may carry the wipe
 flag. Every write can fail and leave its file in any state.
 */
module PxeWipe {
  import opened Text
  import opened WipeQueue
  import I = Install

  // The two files an install writes; `wipes` says whether the boot script carries the wipe flag.
  datatype Files = Files(queue: QueueFile, wipes: bool)

  // How building the assets goes: it ends with a plain boot script, or fails before or while writing it.
  datatype Build = Built | NotReached | Torn(left: bool)

  datatype Writes = Writes(queue: Access, build: Build, wipeScript: Write<bool>, consume: Access, plainScript: Write<bool>)

  // ---------------------------------------------------------------- Prepare and Cleanup on the files

  datatype State = State(files: Files, wipeActive: bool)

  function AfterBuild(wipes: bool, b: Build): bool {
    match b case Built => false case NotReached => wipes case Torn(left) => left
  }

  function Prepared(s: State, mac: string, skipWipe: bool, w: Writes): (State, bool) {
    var queue := if skipWipe then s.files.queue else Queued(s.files.queue, mac, w.queue);
    if !skipWipe && w.queue.write.Failed? then (s.(files := s.files.(queue := queue)), false)
    else
      var active := s.wipeActive || !skipWipe;
      var built := AfterBuild(s.files.wipes, w.build);
      if w.build != Built || !active then (State(Files(queue, built), active), w.build == Built)
      else match w.wipeScript
        case Done => (State(Files(queue, true), active), true)
        case Failed(left) => (State(Files(queue, left), active), false)
  }

  function Cleaned(s: State, mac: string, w: Writes): State {
    if !s.wipeActive then s
    else
      var queue := Consumed(s.files.queue, mac, w.consume);
      if w.consume.write.Failed? then State(s.files.(queue := queue), false)
      else State(Files(queue, w.plainScript.Failed? && w.plainScript.left), false)
  }

  // A whole install on the files: it may end before Prepare, and Cleanup always comes.
  function Installed(f: Files, mac: string, skipWipe: bool, reached: bool, w: Writes): Files {
    var s := State(f, false);
    Cleaned(if reached then Prepared(s, mac, skipWipe, w).0 else s, mac, w).files
  }

  // ---------------------------------------------------------------- what an install leaves behind

  predicate WritesWork(w: Writes) {
    w.queue.write.Done? && w.wipeScript.Done? && w.consume.write.Done? && w.plainScript.Done? && !w.build.Torn?
  }

  predicate AllWorks(w: Writes) { WritesWork(w) && w.queue.readOk && w.consume.readOk }

  // When Prepare succeeds, and what it leaves: with a wipe, the node queued and a boot script that carries
  // the wipe; without one, the queue as it was and a plain script.
  lemma PrepareDecides(s: State, mac: string, skipWipe: bool, w: Writes)
    ensures var (t, ok) := Prepared(s, mac, skipWipe, w);
      var queued := !skipWipe && w.queue.write.Done?;
      var wiping := s.wipeActive || queued;
      && (ok <==> (skipWipe || queued) && w.build.Built? && (!wiping || w.wipeScript.Done?))
      && (ok ==> (t.files.wipes <==> wiping))
      && t.wipeActive == wiping
      && (skipWipe ==> t.files.queue == s.files.queue)
      && (queued ==> Pending(t.files.queue) == (if w.queue.readOk then Pending(s.files.queue) else {}) + {ToLower(mac)})
  {
  }

  // And when it fails: the boot script is what the step that failed left of it.
  lemma PrepareFailsAt(s: State, mac: string, skipWipe: bool, w: Writes)
    requires !Prepared(s, mac, skipWipe, w).1
    ensures var t := Prepared(s, mac, skipWipe, w).0;
      if !skipWipe && w.queue.write.Failed? then t.files == Files(w.queue.write.left, s.files.wipes)
      else t.files.wipes == match w.build
        case NotReached => s.files.wipes
        case Torn(left) => left
        case Built => w.wipeScript.Failed? && w.wipeScript.left
  {
  }

  // Cleanup does nothing for an install that queued no wipe; otherwise it takes the node from the queue, and
  // renders a plain script if that worked.
  lemma CleanupDecides(s: State, mac: string, w: Writes)
    ensures var t := Cleaned(s, mac, w);
      && !t.wipeActive && (!s.wipeActive ==> t == s)
      && (s.wipeActive && w.consume.write.Done? ==>
          && Pending(t.files.queue) == (if w.consume.readOk then Pending(s.files.queue) else {}) - {ToLower(mac)}
          && (t.files.wipes <==> w.plainScript == Failed(true)))
      && (s.wipeActive && w.consume.write.Failed? ==> t.files == Files(w.consume.write.left, s.files.wipes))
  {
  }

  // With working files, whatever else fails: a wipe that was queued is gone from the queue and from
  // the boot script, other nodes' wipes stay queued, and an install never leaves a wipe it did not find.
  lemma WipeIsOneShot(f: Files, mac: string, skipWipe: bool, reached: bool, w: Writes)
    requires AllWorks(w)
    ensures var after := Installed(f, mac, skipWipe, reached, w);
      && (reached && !skipWipe ==> ToLower(mac) !in Pending(after.queue) && !after.wipes)
      && Pending(after.queue) - {ToLower(mac)} == Pending(f.queue) - {ToLower(mac)}
      && (skipWipe || !reached ==> after.queue == f.queue)
      && (after.wipes ==> f.wipes)
  {
  }

  // With working writes, the queued wipes of other nodes outlive an install that wipes exactly when the
  // queue could be read both times: a queue that cannot be read is saved back as if it were empty.
  lemma OthersStayQueuedExactlyWhen(f: Files, mac: string, w: Writes, other: string)
    requires WritesWork(w) && other in Pending(f.queue) && other != ToLower(mac)
    ensures other in Pending(Installed(f, mac, false, true, w).queue) <==> w.queue.readOk && w.consume.readOk
  {
  }

  // Exactly when a wipe that was served outlives its install.
  lemma WipeSurvivesExactlyWhen(f: Files, mac: string, w: Writes)
    requires Prepared(State(f, false), mac, false, w).1
    ensures Installed(f, mac, false, true, w).wipes <==> w.consume.write.Failed? || w.plainScript == Failed(true)
  {
  }

  // A process killed after Prepare leaves the wipe in both files.
  lemma KillLeavesWipe(f: Files, mac: string, w: Writes)
    requires Prepared(State(f, false), mac, false, w).1
    ensures var left := Prepared(State(f, false), mac, false, w).0.files;
      left.wipes && ToLower(mac) in Pending(left.queue)
  {
  }

  // What the next install makes of that: the boot script keeps the wipe exactly when it gets to no
  // render, and the killed node stays queued exactly when it is not the one wiped this time.
  lemma NextInstallAfterKill(left: Files, killed: string, mac: string, skipWipe: bool, reached: bool, w: Writes)
    requires left.wipes && ToLower(killed) in Pending(left.queue) && AllWorks(w)
    ensures var after := Installed(left, mac, skipWipe, reached, w);
      && (after.wipes <==> !reached || (skipWipe && w.build.NotReached?))
      && (ToLower(killed) in Pending(after.queue) <==> !(reached && !skipWipe && ToLower(mac) == ToLower(killed)))
  {
  }

  // In turn, each of them serves its wipe.
  lemma InTurnBothWipe(f: Files, first: string, second: string, w: Writes)
    requires WritesWork(w) && w.build.Built?
    ensures Prepared(State(f, false), first, false, w).0.files.wipes
    ensures Prepared(State(Installed(f, first, false, true, w), false), second, false, w).0.files.wipes
  {
  }

  // The files under the log of an install: only Prepare and Cleanup write them.
  function OnFiles(s: State, log: seq<I.Event>, mac: string, skipWipe: bool, w: Writes): State {
    if log == [] then s
    else
      var was := OnFiles(s, log[..|log| - 1], mac, skipWipe, w);
      match log[|log| - 1]
      case Prepare => Prepared(was, mac, skipWipe, w).0
      case Cleanup => Cleaned(was, mac, w)
      case _ => was
  }

  // Whatever its hooks did, an install that has released everything did to the files exactly what
  // `Installed` says.
  lemma {:induction false} LogOnFiles(f: Files, log: seq<I.Event>, mac: string, skipWipe: bool, w: Writes)
    requires I.Obeys(log)
    ensures var h := I.After(log);
      var begun := if h.hooks > 0 then Prepared(State(f, false), mac, skipWipe, w).0 else State(f, false);
      && (h.key == I.Held ==> h.prov == I.Open)
      && OnFiles(State(f, false), log, mac, skipWipe, w) == if h.prov == I.Closed then Cleaned(begun, mac, w) else begun
  {
    if log != [] {
      LogOnFiles(f, log[..|log| - 1], mac, skipWipe, w);
      KeyNeedsProvisioner(log[..|log| - 1]);
    }
  }

  lemma {:induction false} KeyNeedsProvisioner(log: seq<I.Event>)
    requires I.Obeys(log)
    ensures !I.After(log).KeyDone() ==> I.After(log).prov == I.Open
    ensures I.After(log).hooks > 0 ==> I.After(log).key != I.Unasked
  {
    if log != [] {
      KeyNeedsProvisioner(log[..|log| - 1]);
    }
  }

  lemma FinishedOnFiles(f: Files, log: seq<I.Event>, mac: string, skipWipe: bool, w: Writes)
    requires I.Obeys(log) && I.After(log).AllReleased() && I.After(log).prov == I.Closed
    ensures OnFiles(State(f, false), log, mac, skipWipe, w).files == Installed(f, mac, skipWipe, I.After(log).hooks > 0, w)
  {
    LogOnFiles(f, log, mac, skipWipe, w);
  }

  // Installs one after the other.
  datatype Job = Job(mac: string, skipWipe: bool, reached: bool, writes: Writes)

  function InTurn(f: Files, jobs: seq<Job>): Files {
    if jobs == [] then f
    else Installed(InTurn(f, jobs[..|jobs| - 1]), jobs[|jobs| - 1].mac, jobs[|jobs| - 1].skipWipe, jobs[|jobs| - 1].reached, jobs[|jobs| - 1].writes)
  }

  function Wiped(jobs: seq<Job>): set<string> { set j | j in jobs && j.reached && !j.skipWipe :: ToLower(j.mac) }

  // After any number of installs in turn, none of them killed, no boot script carries a wipe, and the
  // queue is what it was but for the nodes that were installed with a wipe.
  lemma {:induction false} NoWipeOutlivesAnyRun(f: Files, jobs: seq<Job>)
    requires !f.wipes && forall j :: j in jobs ==> AllWorks(j.writes)
    ensures !InTurn(f, jobs).wipes && Pending(InTurn(f, jobs).queue) == Pending(f.queue) - Wiped(jobs)
  {
    if jobs != [] {
      var front, j := jobs[..|jobs| - 1], jobs[|jobs| - 1];
      NoWipeOutlivesAnyRun(f, front);
      assert jobs == front + [j];
      assert Wiped(jobs) == Wiped(front) + if j.reached && !j.skipWipe then {ToLower(j.mac)} else {};
      WipeIsOneShot(InTurn(f, front), j.mac, j.skipWipe, j.reached, j.writes);
    }
  }

  // ---------------------------------------------------------------- the provisioner

  class Provisioner {
    const mac: string
    const skipWipe: bool
    var wipeActive: bool
    // The files on disk.
    var queue: QueueFile
    var wipes: bool

    ghost function Value(): State reads this { State(Files(queue, wipes), wipeActive) }

    constructor (mac: string, skipWipe: bool, f: Files)
      ensures Value() == State(f, false) && this.mac == mac && this.skipWipe == skipWipe
    {
      this.mac, this.skipWipe := mac, skipWipe;
      wipeActive, queue, wipes := false, f.queue, f.wipes;
    }

    method Prepare(w: Writes) returns (ok: bool)
      modifies this
      ensures (Value(), ok) == Prepared(old(Value()), mac, skipWipe, w)
    {
      if !skipWipe {
        queue, ok := QueueWipe(queue, mac, w.queue);
        if !ok {
          return false;
        }
        wipeActive := true;
      }
      match w.build {
        case Built => wipes := false;
        case NotReached => return false;
        case Torn(left) => wipes := left; return false;
      }
      if wipeActive {
        match w.wipeScript {
          case Done => wipes := true;
          case Failed(left) => wipes := left; return false;
        }
      }
      ok := true;
    }

    method Cleanup(w: Writes)
      modifies this
      ensures Value() == Cleaned(old(Value()), mac, w)
    {
      if wipeActive {
        var had, consumed;
        queue, had, consumed := ConsumeWipe(queue, mac, w.consume);
        if consumed {
          match w.plainScript {
            case Done => wipes := false;
            case Failed(left) => wipes := left;
          }
        }
        wipeActive := false;
      }
    }
  }
}
