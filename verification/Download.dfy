/**
 A resumable download. A partial file grows across interrupted attempts; the server either honours the
 range it is asked for (sections 14.2 and 15.3.7 of RFC 9110) or ignores it and sends everything.
 */
module Download {
  import opened Options

  type Bytes = seq<bv8>

  // The partial file and the destination.
  datatype Disk = Disk(part: Option<Bytes>, dst: Option<Bytes>)

  datatype Server = HonoursRanges | IgnoresRanges

  // How one attempt ends: no answer, another status, cut off after some bytes of the body (or killed
  // there), the whole body but killed before the rename, or the whole body and the rename.
  datatype Net = Down | OtherStatus | CutOff(bytes: nat) | Killed | Whole

  // ---------------------------------------------------------------- one attempt

  function Size(f: Option<Bytes>): nat { if f.Some? then |f.value| else 0 }

  // What the server answers to a request from `from`: whether it resumes, and the body; none for 416.
  datatype Reply = Partial(body: Bytes) | Full(body: Bytes) | Unsatisfiable

  function Answer(server: Server, content: Bytes, from: nat): Reply {
    if from == 0 || server.IgnoresRanges? then Full(content)
    else if from < |content| then Partial(content[from..])
    else Unsatisfiable
  }

  function Take(b: Bytes, n: nat): Bytes { if n < |b| then b[..n] else b }

  function Attempt(d: Disk, content: Bytes, server: Server, net: Net): (Disk, bool) {
    var reply := Answer(server, content, Size(d.part));
    if net.Down? || net.OtherStatus? || reply.Unsatisfiable? then (d, false)
    else
      var base: Bytes := if reply.Partial? then d.part.value else [];
      match net
      case CutOff(n) => (d.(part := Some(base + Take(reply.body, n))), false)
      case Killed => (d.(part := Some(base + reply.body)), false)
      case _ => (Disk(None, Some(base + reply.body)), true)
  }

  // A known checksum, and the digest it is a checksum under.
  datatype Check = Check(sum: Option<string>, digest: Bytes -> string) {
    predicate Passes(b: Bytes) { sum.None? || digest(b) == sum.value }
  }

  function DownloadISO(d: Disk, check: Check, content: Bytes, server: Server, net: Net): (Disk, bool) {
    if Size(d.dst) > 0 && check.Passes(d.dst.value) then (d, true)
    else
      var cleared := if Size(d.dst) > 0 then d.(dst := None) else d;
      var (after, ok) := Attempt(cleared, content, server, net);
      if !ok then (after, false)
      else if check.Passes(after.dst.value) then (after, true)
      else (after.(dst := None), false)
  }

  // ---------------------------------------------------------------- any number of attempts

  datatype Try = Try(server: Server, net: Net)

  function After(d: Disk, check: Check, content: Bytes, tries: seq<Try>): Disk {
    if tries == [] then d
    else
      var t := tries[|tries| - 1];
      DownloadISO(After(d, check, content, tries[..|tries| - 1]), check, content, t.server, t.net).0
  }

  // The partial file is a prefix of the content; the destination is the content or nothing.
  ghost predicate Inv(d: Disk, content: Bytes) {
    (d.part.Some? ==> d.part.value <= content) && (d.dst.Some? ==> d.dst.value == content)
  }

  lemma AttemptKeepsInv(d: Disk, content: Bytes, server: Server, net: Net)
    requires Inv(d, content)
    ensures var (after, ok) := Attempt(d, content, server, net);
      Inv(after, content) && (ok ==> after == Disk(None, Some(content)))
  {
    var from := Size(d.part);
    if d.part.Some? {
      assert content == d.part.value + content[from..];
      assert d.part.value == content[..from];
    }
  }

  lemma {:induction false} NeverTorn(d: Disk, check: Check, content: Bytes, tries: seq<Try>)
    requires Inv(d, content)
    ensures Inv(After(d, check, content, tries), content)
  {
    if tries != [] {
      var t := tries[|tries| - 1];
      var before := After(d, check, content, tries[..|tries| - 1]);
      NeverTorn(d, check, content, tries[..|tries| - 1]);
      AttemptKeepsInv(if Size(before.dst) > 0 then before.(dst := None) else before, content, t.server, t.net);
    }
  }

  // What one attempt does to a partial file that is a beginning of the content, byte for byte.
  lemma AttemptDecides(d: Disk, content: Bytes, server: Server, net: Net)
    requires Inv(d, content)
    ensures var (after, ok) := Attempt(d, content, server, net);
      var size := Size(d.part);
      var stuck := server.HonoursRanges? && size > 0 && size >= |content|;
      var from := if server.HonoursRanges? then size else 0;
      && (ok <==> net.Whole? && !stuck)
      && (ok ==> after == Disk(None, Some(content))) && (!ok ==> after.dst == d.dst)
      && (net.Down? || net.OtherStatus? || stuck ==> after == d)
      && (net.Killed? && !stuck ==> after.part == Some(content))
      && (net.CutOff? && !stuck ==> after.part == Some(content[..if from + net.bytes < |content| then from + net.bytes else |content|]))
  {
    var size := Size(d.part);
    if d.part.Some? {
      assert d.part.value == content[..size] && content == content[..size] + content[size..];
    }
    assert [] + content == content;
    if net.CutOff? {
      TakeFrom(content, 0, net.bytes);
      assert content[0..] == content && content[..0] == [];
      if size <= |content| { TakeFrom(content, size, net.bytes); }
    }
  }

  lemma TakeFrom(content: Bytes, from: nat, n: nat)
    requires from <= |content|
    ensures content[..from] + Take(content[from..], n) == content[..if from + n < |content| then from + n else |content|]
  {
  }

  // When a download succeeds, and what it leaves.
  lemma DownloadDecides(d: Disk, check: Check, content: Bytes, server: Server, net: Net)
    requires Inv(d, content)
    ensures var (after, ok) := DownloadISO(d, check, content, server, net);
      var cached := Size(d.dst) > 0 && (check.sum.None? || check.digest(d.dst.value) == check.sum.value);
      var stuck := server.HonoursRanges? && Size(d.part) > 0 && Size(d.part) >= |content|;
      && (ok <==> cached || (net.Whole? && !stuck && (check.sum.None? || check.digest(content) == check.sum.value)))
      && (cached ==> after == d)
      && (!cached && net.Whole? && !stuck ==> after == if ok then Disk(None, Some(content)) else Disk(None, None))
      && (!cached && (!net.Whole? || stuck) ==> after.dst == if Size(d.dst) > 0 then None else d.dst)
  {
    AttemptDecides(if Size(d.dst) > 0 then d.(dst := None) else d, content, server, net);
  }

  // With a known checksum, a path is returned only for a file that has it, whatever was on disk.
  lemma ReturnedIsVerified(d: Disk, check: Check, content: Bytes, server: Server, net: Net)
    ensures var (after, ok) := DownloadISO(d, check, content, server, net);
      ok ==> after.dst.Some? && (check.sum.Some? ==> check.digest(after.dst.value) == check.sum.value)
  {
  }

  // Bytes already fetched are kept: while the server honours ranges, an attempt only adds to them.
  lemma {:induction false} ProgressIsKept(d: Disk, check: Check, content: Bytes, tries: seq<Try>)
    requires Inv(d, content) && d.dst.None? && d.part.Some?
    requires forall i :: 0 <= i < |tries| ==> tries[i].server.HonoursRanges? && !tries[i].net.Whole?
    ensures var after := After(d, check, content, tries);
      after.dst.None? && after.part.Some? && d.part.value <= after.part.value <= content
  {
    if tries != [] {
      var front, t := tries[..|tries| - 1], tries[|tries| - 1];
      ProgressIsKept(d, check, content, front);
      var before := After(d, check, content, front);
      NeverTorn(d, check, content, front);
      AttemptKeepsInv(before, content, t.server, t.net);
      assert before.part.value <= Attempt(before, content, t.server, t.net).0.part.value;
    }
  }

  // When an undisturbed attempt succeeds: exactly when something is left to ask for, or the server
  // sends everything anyway.
  lemma CleanAttemptSucceedsWhen(d: Disk, check: Check, content: Bytes, server: Server)
    requires Inv(d, content) && d.dst.None? && check.Passes(content)
    ensures DownloadISO(d, check, content, server, Whole).1
      <==> server.IgnoresRanges? || Size(d.part) < |content| || Size(d.part) == 0
  {
    AttemptKeepsInv(d, content, server, Whole);
  }

  // A complete partial file, left by a run killed just before its rename, is never finished by a
  // server that honours ranges: it is asked for bytes past the end, and every attempt fails.
  lemma {:induction false} CompletePartIsStuck(content: Bytes, check: Check, tries: seq<Try>)
    requires content != [] && forall i :: 0 <= i < |tries| ==> tries[i].server.HonoursRanges?
    ensures var stuck := Disk(Some(content), None);
      After(stuck, check, content, tries) == stuck
      && forall net :: !DownloadISO(stuck, check, content, HonoursRanges, net).1
  {
    if tries != [] {
      CompletePartIsStuck(content, check, tries[..|tries| - 1]);
    }
  }

  lemma StuckIsReachable(content: Bytes, check: Check)
    requires content != []
    ensures After(Disk(None, None), check, content, [Try(HonoursRanges, Killed)]) == Disk(Some(content), None)
  {
    assert [Try(HonoursRanges, Killed)][..0] == [];
    assert [] + content == content;
  }

  // ---------------------------------------------------------------- the program

  class Cache {
    var part: Option<Bytes>
    var dst: Option<Bytes>

    ghost function Value(): Disk reads this { Disk(part, dst) }

    constructor ()
      ensures Value() == Disk(None, None)
    {
      part, dst := None, None;
    }

    // Appends or truncates, then copies what arrives of the body; renames only a whole one.
    method DownloadTo(content: Bytes, server: Server, net: Net) returns (ok: bool)
      modifies this
      ensures (Value(), ok) == Attempt(old(Value()), content, server, net)
    {
      var resumeFrom := 0;
      if part.Some? && |part.value| > 0 {
        resumeFrom := |part.value|;
      }
      if net.Down? || net.OtherStatus? {
        return false;
      }
      var reply := Answer(server, content, resumeFrom);
      var appendMode := false;
      match reply {
        case Partial(_) => appendMode := true;
        case Full(_) => resumeFrom := 0;
        case Unsatisfiable => return false;
      }
      var written: Bytes := if appendMode then part.value else [];
      if net.CutOff? {
        part := Some(written + Take(reply.body, net.bytes));
        return false;
      }
      part := Some(written + reply.body);
      if net.Killed? {
        return false;
      }
      part, dst := None, part;
      ok := true;
    }

    method Download(check: Check, content: Bytes, server: Server, net: Net) returns (ok: bool)
      modifies this
      ensures (Value(), ok) == DownloadISO(old(Value()), check, content, server, net)
    {
      if dst.Some? && |dst.value| > 0 {
        if check.Passes(dst.value) {
          return true;
        }
        dst := None;
      }
      ok := DownloadTo(content, server, net);
      if !ok {
        return false;
      }
      if !check.Passes(dst.value) {
        dst := None;
        return false;
      }
    }
  }
}
