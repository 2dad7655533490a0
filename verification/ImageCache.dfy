/**
 The image cache: a download into a temporary file, a rename into place, and only then a
 recorded digest.  One call of Ensure is described by the file operations it performs, so a
 crash is a cut after any of them, in the middle of a partly written file included.
 */
module ImageCache {
  import opened Options
  import opened Text

  newtype byte = b: int | 0 <= b < 256
  type Bytes = seq<byte>

  // SHA-256 (as hex) and the xz decoder, about which nothing is assumed but where a lemma says that
  // an empty file does not decode.
  datatype Codec = Codec(sha: Bytes -> string, unxz: Bytes -> Option<Bytes>)

  // ---------------------------------------------------------------- the disk

  // The three files of one schematic, version and architecture.
  datatype File = Tmp | Xz | Raw

  datatype Slot = Slot(tmp: Option<Bytes>, xz: Option<Bytes>, raw: Option<Bytes>) {
    function Get(f: File): Option<Bytes> {
      match f case Tmp => tmp case Xz => xz case Raw => raw
    }

    function Set(f: File, content: Option<Bytes>): Slot {
      match f case Tmp => this.(tmp := content) case Xz => this.(xz := content) case Raw => this.(raw := content)
    }
  }

  // digests.json: absent or empty, unreadable as JSON, or a table.
  datatype Store = Missing | Corrupt | Table(digests: map<string, string>)

  // `placed` is a history: every body a rename ever put under the final name of a key.
  datatype Disk = Disk(slots: map<string, Slot>, store: Store, placed: set<(string, Bytes)>)

  const EMPTY_DISK := Disk(map[], Missing, {})

  function SlotOf(d: Disk, k: string): Slot {
    if k in d.slots then d.slots[k] else Slot(None, None, None)
  }

  function Digests(store: Store): map<string, string> {
    if store.Table? then store.digests else map[]
  }

  // The digest recorded for k; "" when there is none.
  function Recorded(d: Disk, k: string): string {
    if k in Digests(d.store) then Digests(d.store)[k] else ""
  }

  datatype Op =
    | Remove(file: File)
    | Create(file: File)
    | Append(file: File, chunk: Bytes)
    | Rename                  // tmp to xz
    | Record(digest: string)  // the atomic rewrite of digests.json

  // One operation on behalf of key k.
  function ApplyOp(d: Disk, k: string, op: Op): Disk {
    var s := SlotOf(d, k);
    match op
    case Remove(f) => d.(slots := d.slots[k := s.Set(f, None)])
    case Create(f) => d.(slots := d.slots[k := s.Set(f, Some([]))])
    case Append(f, c) => if s.Get(f).None? then d else d.(slots := d.slots[k := s.Set(f, Some(s.Get(f).value + c))])
    case Rename =>
      if s.tmp.None? then d
      else d.(slots := d.slots[k := Slot(None, s.tmp, s.raw)], placed := d.placed + {(k, s.tmp.value)})
    case Record(g) => d.(store := Table(Digests(d.store)[k := g]))
  }

  function ApplyOps(d: Disk, k: string, ops: seq<Op>): Disk
    decreases |ops|
  {
    if ops == [] then d else ApplyOps(ApplyOp(d, k, ops[0]), k, ops[1..])
  }

  // ---------------------------------------------------------------- one call

  // `store` is false when the cache was given no digest store.
  datatype Request = Request(key: string, pinned: string, store: bool)

  // How far a copy got: the target never opened, some chunks written and then an error, or all.
  datatype Copy = NotOpened | Broken(chunks: seq<Bytes>) | Complete(chunks: seq<Bytes>)

  // Everything the outside world decides during one call.
  datatype Answers = Answers(dirOk: bool, storeReadOk: bool, hashOk: bool, reply: Copy,
                             chmodOk: bool, renameOk: bool, recordOk: bool, hitCopy: Copy, freshCopy: Copy)

  datatype Plan = Plan(ops: seq<Op>, ok: bool, fetched: bool)

  function Concat(chunks: seq<Bytes>): Bytes {
    if chunks == [] then [] else chunks[0] + Concat(chunks[1..])
  }

  predicate DigestMatches(got: string, expected: string) {
    EqualFold(got, TrimPrefix(expected, "sha256:"))
  }

  // The pinned digest, else the recorded one, else ""; None when the store cannot be read.
  function Expected(req: Request, readOk: bool, d: Disk): Option<string> {
    var pinned := TrimSpace(req.pinned);
    if pinned != "" || !req.store then Some(pinned)
    else if !readOk || d.store.Corrupt? then None
    else Some(Recorded(d, req.key))
  }

  function Write(f: File, copy: Copy): seq<Op> {
    if copy.NotOpened? then []
    else [Create(f)] + seq(|copy.chunks|, i requires 0 <= i < |copy.chunks| => Append(f, copy.chunks[i]))
  }

  function Recovery(s: Slot): seq<Op> { if s.tmp.Some? then [Remove(Tmp)] else [] }

  predicate Verified(codec: Codec, expected: string, body: Bytes) {
    expected != "" && DigestMatches(codec.sha(body), expected)
  }

  // The cache-hit block; `ok` means it returned the raw file.
  function Hit(codec: Codec, expected: string, ans: Answers, s: Slot): Plan {
    if s.xz.None? || s.xz.value == [] then Plan([], false, false)
    else if !ans.hashOk then Plan([Remove(Xz)], false, false)
    else if !Verified(codec, expected, s.xz.value) then Plan([Remove(Xz), Remove(Raw)], false, false)
    else if s.raw.Some? then Plan([], true, false)
    else Plan(Write(Raw, ans.hitCopy), ans.hitCopy.Complete?, false)
  }

  // Once the body is verified: rename, record, decompress.
  function Commit(codec: Codec, req: Request, expected: string, ans: Answers, body: Bytes): Plan {
    if !ans.chmodOk || !ans.renameOk then Plan([Remove(Tmp)], false, true)
    else if expected != "" || !req.store then Plan([Rename] + Write(Raw, ans.freshCopy), ans.freshCopy.Complete?, true)
    else if !ans.recordOk then Plan([Rename], false, true)
    else Plan([Rename, Record("sha256:" + codec.sha(body))] + Write(Raw, ans.freshCopy), ans.freshCopy.Complete?, true)
  }

  // Download into the temporary file and verify.
  function Fetch(codec: Codec, req: Request, expected: string, ans: Answers): Plan {
    var download := Write(Tmp, ans.reply);
    if !ans.reply.Complete? || (expected != "" && !Verified(codec, expected, Concat(ans.reply.chunks))) then
      Plan(download + [Remove(Tmp)], false, true)
    else
      var commit := Commit(codec, req, expected, ans, Concat(ans.reply.chunks));
      Plan(download + commit.ops, commit.ok, true)
  }

  // With the expected digest known: the cached file, or else a download.
  function Serve(codec: Codec, req: Request, expected: string, ans: Answers, s: Slot): Plan {
    var hit := Hit(codec, expected, ans, s);
    if hit.ok then hit
    else
      var fetch := Fetch(codec, req, expected, ans);
      Plan(hit.ops + fetch.ops, fetch.ok, true)
  }

  function Ensure(codec: Codec, req: Request, ans: Answers, d: Disk): Plan {
    if !ans.dirOk then Plan([], false, false)
    else
      var s := SlotOf(d, req.key);
      match Expected(req, ans.storeReadOk, d)
      case None => Plan(Recovery(s), false, false)
      case Some(expected) =>
        var serve := Serve(codec, req, expected, ans, s.(tmp := None));
        Plan(Recovery(s) + serve.ops, serve.ok, serve.fetched)
  }

  // ---------------------------------------------------------------- runs

  // A call that is cut after `crash` operations, or not at all.
  datatype Call = Call(req: Request, ans: Answers, crash: Option<nat>)

  function Performed(codec: Codec, d: Disk, c: Call): seq<Op> {
    var ops := Ensure(codec, c.req, c.ans, d).ops;
    if c.crash.Some? && c.crash.value < |ops| then ops[..c.crash.value] else ops
  }

  predicate Returned(codec: Codec, d: Disk, c: Call) {
    c.crash.None? || c.crash.value >= |Ensure(codec, c.req, c.ans, d).ops|
  }

  function After(codec: Codec, d: Disk, c: Call): Disk {
    ApplyOps(d, c.req.key, Performed(codec, d, c))
  }

  function Run(codec: Codec, d: Disk, calls: seq<Call>): Disk
    decreases |calls|
  {
    if calls == [] then d else Run(codec, After(codec, d, calls[0]), calls[1..])
  }

  // ---------------------------------------------------------------- invariant

  // Whole bodies the calls received, by key.
  function Delivered(calls: seq<Call>): set<(string, Bytes)> {
    set i | 0 <= i < |calls| && calls[i].ans.reply.Complete? :: (calls[i].req.key, Concat(calls[i].ans.reply.chunks))
  }

  ghost predicate Inv(codec: Codec, bodies: set<(string, Bytes)>, d: Disk) {
    && d.placed <= bodies
    && (forall k :: SlotOf(d, k).xz.Some? ==> (k, SlotOf(d, k).xz.value) in d.placed)
    && (forall k :: Recorded(d, k) != "" ==> exists b :: (k, b) in d.placed && Recorded(d, k) == "sha256:" + codec.sha(b))
  }

  // What an operation needs of the moment it runs at.
  predicate Safe(codec: Codec, bodies: set<(string, Bytes)>, d: Disk, k: string, op: Op) {
    match op
    case Rename => SlotOf(d, k).tmp.Some? && (k, SlotOf(d, k).tmp.value) in bodies
    case Create(f) => f != Xz
    case Append(f, _) => f != Xz
    case Record(g) => SlotOf(d, k).xz.Some? && g == "sha256:" + codec.sha(SlotOf(d, k).xz.value) && Recorded(d, k) == "" && !d.store.Corrupt?
    case _ => true
  }

  predicate AllSafe(codec: Codec, bodies: set<(string, Bytes)>, d: Disk, k: string, ops: seq<Op>)
    decreases |ops|
  {
    ops == [] || (Safe(codec, bodies, d, k, ops[0]) && AllSafe(codec, bodies, ApplyOp(d, k, ops[0]), k, ops[1..]))
  }

  lemma {:induction false} ApplyOpsConcat(d: Disk, k: string, a: seq<Op>, b: seq<Op>)
    ensures ApplyOps(d, k, a + b) == ApplyOps(ApplyOps(d, k, a), k, b)
    decreases |a|
  {
    if a == [] {
      assert a + b == b;
    } else {
      assert (a + b)[1..] == a[1..] + b;
      ApplyOpsConcat(ApplyOp(d, k, a[0]), k, a[1..], b);
    }
  }

  lemma {:induction false} AllSafeConcat(codec: Codec, bodies: set<(string, Bytes)>, d: Disk, k: string, a: seq<Op>, b: seq<Op>)
    ensures AllSafe(codec, bodies, d, k, a + b) <==>
      AllSafe(codec, bodies, d, k, a) && AllSafe(codec, bodies, ApplyOps(d, k, a), k, b)
    decreases |a|
  {
    if a == [] {
      assert a + b == b;
    } else {
      assert (a + b)[1..] == a[1..] + b;
      AllSafeConcat(codec, bodies, ApplyOp(d, k, a[0]), k, a[1..], b);
    }
  }

  // Safe operations on key k keep the invariant, leave the other keys alone, and never change
  // a digest that is already recorded.
  ghost predicate Extends(d: Disk, e: Disk, k: string) {
    && d.placed <= e.placed
    && (forall j :: Recorded(d, j) != "" ==> Recorded(e, j) == Recorded(d, j))
    && (forall j :: j != k ==> SlotOf(e, j) == SlotOf(d, j) && Recorded(e, j) == Recorded(d, j))
  }

  lemma SafeOpKeepsInv(codec: Codec, bodies: set<(string, Bytes)>, d: Disk, k: string, op: Op)
    requires Inv(codec, bodies, d) && Safe(codec, bodies, d, k, op)
    ensures Inv(codec, bodies, ApplyOp(d, k, op)) && Extends(d, ApplyOp(d, k, op), k)
  {
    var e := ApplyOp(d, k, op);
    assert forall j :: j != k ==> SlotOf(e, j) == SlotOf(d, j);
    forall j | Recorded(e, j) != "" ensures exists b :: (j, b) in e.placed && Recorded(e, j) == "sha256:" + codec.sha(b) {
      if op.Record? && j == k {
        assert (k, SlotOf(d, k).xz.value) in e.placed;
      } else {
        assert Recorded(d, j) == Recorded(e, j);
        var b :| (j, b) in d.placed && Recorded(d, j) == "sha256:" + codec.sha(b);
        assert (j, b) in e.placed;
      }
    }
  }

  lemma {:induction false} SafeOpsKeepInv(codec: Codec, bodies: set<(string, Bytes)>, d: Disk, k: string, ops: seq<Op>)
    requires Inv(codec, bodies, d) && AllSafe(codec, bodies, d, k, ops)
    ensures Inv(codec, bodies, ApplyOps(d, k, ops)) && Extends(d, ApplyOps(d, k, ops), k)
    decreases |ops|
  {
    if ops != [] {
      SafeOpKeepsInv(codec, bodies, d, k, ops[0]);
      SafeOpsKeepInv(codec, bodies, ApplyOp(d, k, ops[0]), k, ops[1..]);
    }
  }

  // ---------------------------------------------------------------- what the parts of a plan do

  // Operations that put nothing under the final name and record nothing.
  predicate Scratch(op: Op) { op.Remove? || ((op.Create? || op.Append?) && op.file != Xz) }

  lemma {:induction false} ScratchSafe(codec: Codec, bodies: set<(string, Bytes)>, d: Disk, k: string, ops: seq<Op>)
    requires forall i :: 0 <= i < |ops| ==> Scratch(ops[i])
    ensures AllSafe(codec, bodies, d, k, ops)
    ensures ApplyOps(d, k, ops).store == d.store && ApplyOps(d, k, ops).placed == d.placed
    decreases |ops|
  {
    if ops != [] {
      ScratchSafe(codec, bodies, ApplyOp(d, k, ops[0]), k, ops[1..]);
    }
  }

  lemma {:induction false} AppendsAppend(d: Disk, k: string, f: File, chunks: seq<Bytes>)
    requires SlotOf(d, k).Get(f).Some?
    ensures var ops := seq(|chunks|, i requires 0 <= i < |chunks| => Append(f, chunks[i]));
      var s, e := SlotOf(d, k), ApplyOps(d, k, ops);
      SlotOf(e, k) == s.Set(f, Some(s.Get(f).value + Concat(chunks))) && e.store == d.store && e.placed == d.placed
    decreases |chunks|
  {
    var ops := seq(|chunks|, i requires 0 <= i < |chunks| => Append(f, chunks[i]));
    var content := SlotOf(d, k).Get(f).value;
    if chunks == [] {
      assert ops == [];
      assert content + [] == content;
    } else {
      var rest := seq(|chunks[1..]|, i requires 0 <= i < |chunks[1..]| => Append(f, chunks[1..][i]));
      assert ops[1..] == rest;
      AppendsAppend(ApplyOp(d, k, ops[0]), k, f, chunks[1..]);
      assert content + chunks[0] + Concat(chunks[1..]) == content + Concat(chunks);
    }
  }

  lemma WriteWrites(d: Disk, k: string, f: File, copy: Copy)
    ensures var e := ApplyOps(d, k, Write(f, copy));
      && SlotOf(e, k) == (if copy.NotOpened? then SlotOf(d, k) else SlotOf(d, k).Set(f, Some(Concat(copy.chunks))))
      && e.store == d.store && e.placed == d.placed
  {
    if !copy.NotOpened? {
      var appends := seq(|copy.chunks|, i requires 0 <= i < |copy.chunks| => Append(f, copy.chunks[i]));
      assert Write(f, copy)[1..] == appends;
      AppendsAppend(ApplyOp(d, k, Create(f)), k, f, copy.chunks);
      assert [] + Concat(copy.chunks) == Concat(copy.chunks);
    }
  }

  lemma CommitSafe(codec: Codec, bodies: set<(string, Bytes)>, d: Disk, req: Request, expected: string, ans: Answers, body: Bytes)
    requires SlotOf(d, req.key).tmp == Some(body) && (req.key, body) in bodies
    requires expected == "" && req.store ==> Recorded(d, req.key) == "" && !d.store.Corrupt?
    ensures AllSafe(codec, bodies, d, req.key, Commit(codec, req, expected, ans, body).ops)
  {
    var k, ops := req.key, Commit(codec, req, expected, ans, body).ops;
    if ops[0] == Rename {
      var d1 := ApplyOp(d, k, Rename);
      if |ops| > 1 && ops[1].Record? {
        assert ops[1..][1..] == ops[2..];
        ScratchSafe(codec, bodies, ApplyOp(d1, k, ops[1]), k, ops[2..]);
      } else {
        ScratchSafe(codec, bodies, d1, k, ops[1..]);
      }
    }
  }

  lemma FetchSafe(codec: Codec, bodies: set<(string, Bytes)>, d: Disk, req: Request, expected: string, ans: Answers)
    requires ans.reply.Complete? ==> (req.key, Concat(ans.reply.chunks)) in bodies
    requires expected == "" && req.store ==> Recorded(d, req.key) == "" && !d.store.Corrupt?
    ensures AllSafe(codec, bodies, d, req.key, Fetch(codec, req, expected, ans).ops)
  {
    var k, fetch := req.key, Fetch(codec, req, expected, ans);
    var download := Write(Tmp, ans.reply);
    var d1 := ApplyOps(d, k, download);
    WriteWrites(d, k, Tmp, ans.reply);
    ScratchSafe(codec, bodies, d, k, download);
    if fetch.ops == download + [Remove(Tmp)] {
      ScratchSafe(codec, bodies, d, k, fetch.ops);
    } else {
      var body := Concat(ans.reply.chunks);
      CommitSafe(codec, bodies, d1, req, expected, ans, body);
      AllSafeConcat(codec, bodies, d, k, download, Commit(codec, req, expected, ans, body).ops);
    }
  }

  lemma ServeSafe(codec: Codec, bodies: set<(string, Bytes)>, d: Disk, req: Request, expected: string, ans: Answers)
    requires ans.reply.Complete? ==> (req.key, Concat(ans.reply.chunks)) in bodies
    requires expected == "" && req.store ==> Recorded(d, req.key) == "" && !d.store.Corrupt?
    ensures AllSafe(codec, bodies, d, req.key, Serve(codec, req, expected, ans, SlotOf(d, req.key)).ops)
  {
    var k, hit := req.key, Hit(codec, expected, ans, SlotOf(d, req.key));
    ScratchSafe(codec, bodies, d, k, hit.ops);
    if !hit.ok {
      var d1 := ApplyOps(d, k, hit.ops);
      assert Recorded(d1, k) == Recorded(d, k);
      FetchSafe(codec, bodies, d1, req, expected, ans);
      AllSafeConcat(codec, bodies, d, k, hit.ops, Fetch(codec, req, expected, ans).ops);
    }
  }

  // Every operation of a call is safe at the moment it runs.
  lemma EnsureSafe(codec: Codec, bodies: set<(string, Bytes)>, d: Disk, req: Request, ans: Answers)
    requires ans.reply.Complete? ==> (req.key, Concat(ans.reply.chunks)) in bodies
    ensures AllSafe(codec, bodies, d, req.key, Ensure(codec, req, ans, d).ops)
  {
    var k, s := req.key, SlotOf(d, req.key);
    if ans.dirOk {
      ScratchSafe(codec, bodies, d, k, Recovery(s));
      var e := Expected(req, ans.storeReadOk, d);
      if e.Some? {
        var d1 := ApplyOps(d, k, Recovery(s));
        assert SlotOf(d1, k) == s.(tmp := None) && Recorded(d1, k) == Recorded(d, k) by {
          assert ApplyOps(d, k, [Remove(Tmp)]) == ApplyOp(d, k, Remove(Tmp));
        }
        ServeSafe(codec, bodies, d1, req, e.value, ans);
        AllSafeConcat(codec, bodies, d, k, Recovery(s), Serve(codec, req, e.value, ans, s.(tmp := None)).ops);
      }
    }
  }

  lemma CallKeepsInv(codec: Codec, bodies: set<(string, Bytes)>, d: Disk, c: Call)
    requires Inv(codec, bodies, d) && Delivered([c]) <= bodies
    ensures Inv(codec, bodies, After(codec, d, c)) && Extends(d, After(codec, d, c), c.req.key)
  {
    PerformedSafe(codec, bodies, d, c);
    SafeOpsKeepInv(codec, bodies, d, c.req.key, Performed(codec, d, c));
  }

  lemma PerformedSafe(codec: Codec, bodies: set<(string, Bytes)>, d: Disk, c: Call)
    requires Delivered([c]) <= bodies
    ensures AllSafe(codec, bodies, d, c.req.key, Performed(codec, d, c))
  {
    var ops, done := Ensure(codec, c.req, c.ans, d).ops, Performed(codec, d, c);
    assert c.ans.reply.Complete? ==> (c.req.key, Concat(c.ans.reply.chunks)) in Delivered([c]) by { assert [c][0] == c; }
    EnsureSafe(codec, bodies, d, c.req, c.ans);
    assert ops == done + ops[|done|..];
    AllSafeConcat(codec, bodies, d, c.req.key, done, ops[|done|..]);
  }

  lemma {:induction false} RunKeepsInv(codec: Codec, bodies: set<(string, Bytes)>, d: Disk, calls: seq<Call>)
    requires Inv(codec, bodies, d) && Delivered(calls) <= bodies
    ensures Inv(codec, bodies, Run(codec, d, calls))
    ensures forall k :: Recorded(d, k) != "" ==> Recorded(Run(codec, d, calls), k) == Recorded(d, k)
    ensures d.placed <= Run(codec, d, calls).placed
    decreases |calls|
  {
    if calls != [] {
      assert Delivered([calls[0]]) <= Delivered(calls);
      assert Delivered(calls[1..]) <= Delivered(calls) by {
        forall x | x in Delivered(calls[1..]) ensures x in Delivered(calls) {
          var i :| 0 <= i < |calls[1..]| && calls[1..][i].ans.reply.Complete? && x == (calls[1..][i].req.key, Concat(calls[1..][i].ans.reply.chunks));
          assert calls[i + 1] == calls[1..][i];
        }
      }
      CallKeepsInv(codec, bodies, d, calls[0]);
      RunKeepsInv(codec, bodies, After(codec, d, calls[0]), calls[1..]);
    }
  }

  // ---------------------------------------------------------------- safety across crashes

  // A disk on which no call has run yet; digests.json may be absent, empty or unreadable.
  ghost predicate Untouched(d: Disk) {
    d.slots == map[] && d.placed == {} && forall k :: Recorded(d, k) == ""
  }

  // Whatever was cut short and however often, the final file is absent or a whole body that
  // some call for the same key received.
  lemma NeverTorn(codec: Codec, d: Disk, calls: seq<Call>, k: string)
    requires Untouched(d)
    ensures var xz := SlotOf(Run(codec, d, calls), k).xz;
      xz.Some? ==> exists i :: 0 <= i < |calls| && calls[i].req.key == k && calls[i].ans.reply.Complete? && xz.value == Concat(calls[i].ans.reply.chunks)
  {
    RunKeepsInv(codec, Delivered(calls), d, calls);
  }

  lemma {:induction false} RunConcat(codec: Codec, d: Disk, a: seq<Call>, b: seq<Call>)
    ensures Run(codec, d, a + b) == Run(codec, Run(codec, d, a), b)
    decreases |a|
  {
    if a == [] {
      assert a + b == b;
    } else {
      assert (a + b)[1..] == a[1..] + b;
      RunConcat(codec, After(codec, d, a[0]), a[1..], b);
    }
  }

  // A recorded digest is the hash of a body that had been put in place before, and no later
  // call, whole or cut short, pinned or not, ever changes it.
  lemma RecordedDigestPermanent(codec: Codec, d: Disk, earlier: seq<Call>, later: seq<Call>, k: string)
    requires Untouched(d) && Recorded(Run(codec, d, earlier), k) != ""
    ensures Recorded(Run(codec, d, earlier + later), k) == Recorded(Run(codec, d, earlier), k)
    ensures exists b :: (k, b) in Run(codec, d, earlier).placed && Recorded(Run(codec, d, earlier), k) == "sha256:" + codec.sha(b)
  {
    var e := Run(codec, d, earlier);
    RunConcat(codec, d, earlier, later);
    var bodies := Delivered(earlier) + Delivered(later);
    RunKeepsInv(codec, bodies, d, earlier);
    RunKeepsInv(codec, bodies, e, later);
  }

  // Part-way through call i, after its first n operations, the final file of k is body b.
  predicate InPlaceAt(codec: Codec, d: Disk, calls: seq<Call>, k: string, b: Bytes, i: nat, n: nat) {
    && i < |calls|
    && var e := Run(codec, d, calls[..i]);
      var ops := Performed(codec, e, calls[i]);
      n <= |ops| && SlotOf(ApplyOps(e, calls[i].req.key, ops[..n]), k).xz == Some(b)
  }

  // The history variable means what it says: a placed body was the final file at some moment.
  lemma {:induction false} PlacedWasInPlace(codec: Codec, d: Disk, calls: seq<Call>, k: string, b: Bytes) returns (i: nat, n: nat)
    requires Untouched(d) && (k, b) in Run(codec, d, calls).placed
    ensures InPlaceAt(codec, d, calls, k, b, i, n)
    decreases |calls|
  {
    i := |calls| - 1;
    var before, call := calls[..i], calls[i];
    var e := Run(codec, d, before);
    LastCall(codec, d, calls);
    if (k, b) in e.placed {
      i, n := PlacedWasInPlace(codec, d, before, k, b);
      assert before[..i] == calls[..i];
    } else {
      n := PlacedByOps(e, call.req.key, Performed(codec, e, call), k, b);
    }
  }

  lemma LastCall(codec: Codec, d: Disk, calls: seq<Call>)
    requires calls != []
    ensures var n := |calls| - 1; Run(codec, d, calls) == After(codec, Run(codec, d, calls[..n]), calls[n])
  {
    var n := |calls| - 1;
    assert calls[..n] + [calls[n]] == calls;
    RunConcat(codec, d, calls[..n], [calls[n]]);
    assert [calls[n]][1..] == [];
  }

  lemma {:induction false} PlacedByOps(d: Disk, k: string, ops: seq<Op>, j: string, b: Bytes) returns (n: nat)
    requires (j, b) !in d.placed && (j, b) in ApplyOps(d, k, ops).placed
    ensures n <= |ops| && SlotOf(ApplyOps(d, k, ops[..n]), j).xz == Some(b)
    decreases |ops|
  {
    var e := ApplyOp(d, k, ops[0]);
    if (j, b) in e.placed {
      n := 1;
      assert ops[..1] == [ops[0]];
      assert ApplyOps(d, k, [ops[0]]) == e;
    } else {
      n := PlacedByOps(e, k, ops[1..], j, b);
      n := n + 1;
      assert ops[..n][1..] == ops[1..][..n - 1];
    }
  }

  // A call for one key leaves every other key's files and digest alone.
  lemma OtherKeysUntouched(codec: Codec, d: Disk, c: Call, j: string)
    requires j != c.req.key
    ensures SlotOf(After(codec, d, c), j) == SlotOf(d, j) && Recorded(After(codec, d, c), j) == Recorded(d, j)
  {
    OpsLocal(d, c.req.key, Performed(codec, d, c), j);
  }

  lemma {:induction false} OpsLocal(d: Disk, k: string, ops: seq<Op>, j: string)
    requires j != k
    ensures SlotOf(ApplyOps(d, k, ops), j) == SlotOf(d, j) && Recorded(ApplyOps(d, k, ops), j) == Recorded(d, j)
    decreases |ops|
  {
    if ops != [] {
      OpsLocal(ApplyOp(d, k, ops[0]), k, ops[1..], j);
    }
  }

  // ---------------------------------------------------------------- what a returning call leaves

  function Unpacked(s: Slot, copy: Copy): Slot {
    if copy.NotOpened? then s else s.(raw := Some(Concat(copy.chunks)))
  }

  // The files after the cache-hit block, and after the download, as values.
  function HitSlot(codec: Codec, expected: string, ans: Answers, s: Slot): Slot {
    if s.xz.None? || s.xz.value == [] then s
    else if !ans.hashOk then s.(xz := None)
    else if !Verified(codec, expected, s.xz.value) then Slot(s.tmp, None, None)
    else if s.raw.Some? then s
    else Unpacked(s, ans.hitCopy)
  }

  function FetchSlot(codec: Codec, req: Request, expected: string, ans: Answers, s: Slot): Slot {
    if !ans.reply.Complete? || !ans.chmodOk || !ans.renameOk then s.(tmp := None)
    else
      var body := Concat(ans.reply.chunks);
      if expected != "" && !Verified(codec, expected, body) then s.(tmp := None)
      else if expected == "" && req.store && !ans.recordOk then Slot(None, Some(body), s.raw)
      else Unpacked(Slot(None, Some(body), s.raw), ans.freshCopy)
  }

  lemma HitEffect(codec: Codec, expected: string, ans: Answers, d: Disk, k: string)
    ensures var e := ApplyOps(d, k, Hit(codec, expected, ans, SlotOf(d, k)).ops);
      SlotOf(e, k) == HitSlot(codec, expected, ans, SlotOf(d, k)) && e.store == d.store
  {
    WriteWrites(d, k, Raw, ans.hitCopy);
    assert ApplyOps(d, k, [Remove(Xz)]) == ApplyOp(d, k, Remove(Xz));
    assert [Remove(Xz), Remove(Raw)][1..] == [Remove(Raw)];
    assert ApplyOps(d, k, [Remove(Xz), Remove(Raw)]) == ApplyOp(ApplyOp(d, k, Remove(Xz)), k, Remove(Raw));
  }

  lemma CommitEffect(codec: Codec, req: Request, expected: string, ans: Answers, d: Disk, body: Bytes)
    requires SlotOf(d, req.key).tmp == Some(body)
    requires ans.reply.Complete? && body == Concat(ans.reply.chunks) && (expected == "" || Verified(codec, expected, body))
    ensures var plan, s := Commit(codec, req, expected, ans, body), SlotOf(d, req.key);
      var e := ApplyOps(d, req.key, plan.ops);
      && SlotOf(e, req.key) == FetchSlot(codec, req, expected, ans, s)
      && (plan.ok && expected == "" && req.store ==> Recorded(e, req.key) == "sha256:" + codec.sha(body))
      && (expected != "" || !req.store ==> e.store == d.store)
  {
    var k, ops := req.key, Commit(codec, req, expected, ans, body).ops;
    if ans.chmodOk && ans.renameOk {
      var d1 := ApplyOp(d, k, Rename);
      if |ops| > 1 && ops[1].Record? {
        assert ops[1..][1..] == Write(Raw, ans.freshCopy);
        WriteWrites(ApplyOp(d1, k, ops[1]), k, Raw, ans.freshCopy);
      } else {
        assert ops[1..] == Write(Raw, ans.freshCopy) || ops[1..] == [];
        WriteWrites(d1, k, Raw, ans.freshCopy);
      }
    }
  }

  lemma FetchEffect(codec: Codec, req: Request, expected: string, ans: Answers, d: Disk)
    requires SlotOf(d, req.key).tmp.None?
    ensures var plan, s := Fetch(codec, req, expected, ans), SlotOf(d, req.key);
      var e := ApplyOps(d, req.key, plan.ops);
      && SlotOf(e, req.key) == FetchSlot(codec, req, expected, ans, s)
      && (plan.ok && expected == "" && req.store ==> Recorded(e, req.key) == "sha256:" + codec.sha(Concat(ans.reply.chunks)))
      && (expected != "" || !req.store ==> e.store == d.store)
  {
    var k, download := req.key, Write(Tmp, ans.reply);
    WriteWrites(d, k, Tmp, ans.reply);
    var d1 := ApplyOps(d, k, download);
    ApplyOpsConcat(d, k, download, [Remove(Tmp)]);
    assert ApplyOps(d1, k, [Remove(Tmp)]) == ApplyOp(d1, k, Remove(Tmp));
    if ans.reply.Complete? {
      var body := Concat(ans.reply.chunks);
      ApplyOpsConcat(d, k, download, Commit(codec, req, expected, ans, body).ops);
      if expected == "" || Verified(codec, expected, body) {
        CommitEffect(codec, req, expected, ans, d1, body);
      }
    }
  }

  // The state in which a call that got past its directory and store reads decides hit or miss.
  function Recovered(s: Slot): Slot { s.(tmp := None) }

  lemma EnsureEffect(codec: Codec, d: Disk, req: Request, ans: Answers, expected: string)
    requires ans.dirOk && Expected(req, ans.storeReadOk, d) == Some(expected)
    ensures var plan := Ensure(codec, req, ans, d);
      var e := ApplyOps(d, req.key, plan.ops);
      var s := Recovered(SlotOf(d, req.key));
      var h := HitSlot(codec, expected, ans, s);
      && SlotOf(e, req.key) == (if Hit(codec, expected, ans, s).ok then h else FetchSlot(codec, req, expected, ans, h))
      && (plan.ok && plan.fetched && expected == "" && req.store ==> Recorded(e, req.key) == "sha256:" + codec.sha(Concat(ans.reply.chunks)))
      && (!plan.fetched || expected != "" || !req.store ==> e.store == d.store)
  {
    var k, s := req.key, SlotOf(d, req.key);
    var hit := Hit(codec, expected, ans, Recovered(s));
    var d1 := ApplyOps(d, k, Recovery(s));
    assert ApplyOps(d, k, [Remove(Tmp)]) == ApplyOp(d, k, Remove(Tmp));
    assert SlotOf(d1, k) == Recovered(s);
    HitEffect(codec, expected, ans, d1, k);
    ApplyOpsConcat(d, k, Recovery(s), Serve(codec, req, expected, ans, Recovered(s)).ops);
    if !hit.ok {
      FetchEffect(codec, req, expected, ans, ApplyOps(d1, k, hit.ops));
      ApplyOpsConcat(d1, k, hit.ops, Fetch(codec, req, expected, ans).ops);
    }
  }

  // ---------------------------------------------------------------- what a returning call promises

  // A digest names a hash: after an optional "sha256:" it is that hash, character by character, up to the
  // case of letters.
  ghost predicate NamesHash(digest: string, hash: string) {
    var hex := if |digest| >= 7 && digest[..7] == "sha256:" then digest[7..] else digest;
    |hex| == |hash| && forall i :: 0 <= i < |hash| ==> SameLetter(hash[i], hex[i])
  }

  lemma MatchMeans(got: string, expected: string)
    ensures DigestMatches(got, expected) <==> NamesHash(expected, got)
  {
    EqualFoldMeans(got, TrimPrefix(expected, "sha256:"));
    assert "sha256:" <= expected <==> |expected| >= 7 && expected[..7] == "sha256:";
  }

  // A call that returns a raw file leaves both files in place, no temporary one, and a final file
  // that matches the digest a caller would now be held to: the pinned one, else the recorded one.
  // Only a cache with neither a pin nor a store is held to nothing.
  lemma SuccessIsVerified(codec: Codec, d: Disk, c: Call)
    requires Returned(codec, d, c) && Ensure(codec, c.req, c.ans, d).ok
    ensures var e := After(codec, d, c);
      var s, want := SlotOf(e, c.req.key), Expected(c.req, true, e);
      && s.tmp.None? && s.xz.Some? && s.raw.Some? && want.Some?
      && (want.value == "" <==> TrimSpace(c.req.pinned) == "" && !c.req.store)
      && (want.value != "" ==> Verified(codec, want.value, s.xz.value))
    ensures var e := After(codec, d, c);
      var pin, hash := TrimSpace(c.req.pinned), codec.sha(SlotOf(e, c.req.key).xz.value);
      && (pin != "" ==> NamesHash(pin, hash))
      && (pin == "" && c.req.store ==> Recorded(e, c.req.key) != "" && NamesHash(Recorded(e, c.req.key), hash))
  {
    var want := Expected(c.req, c.ans.storeReadOk, d).value;
    var s := Recovered(SlotOf(d, c.req.key));
    EnsureEffect(codec, d, c.req, c.ans, want);
    if Hit(codec, want, c.ans, s).ok {
      HitOkIsVerified(codec, want, c.ans, s);
    } else {
      FetchOkIsVerified(codec, c.req, want, c.ans, HitSlot(codec, want, c.ans, s));
    }
    var e := After(codec, d, c);
    MatchMeans(codec.sha(SlotOf(e, c.req.key).xz.value), Expected(c.req, true, e).value);
  }

  lemma HitOkIsVerified(codec: Codec, expected: string, ans: Answers, s: Slot)
    requires Hit(codec, expected, ans, s).ok
    ensures var t := HitSlot(codec, expected, ans, s);
      t.tmp == s.tmp && t.raw.Some? && t.xz.Some? && expected != "" && Verified(codec, expected, t.xz.value)
  {
  }

  // A first download without a pin is checked against the digest it just recorded.
  lemma FetchOkIsVerified(codec: Codec, req: Request, expected: string, ans: Answers, s: Slot)
    requires Fetch(codec, req, expected, ans).ok
    ensures var t := FetchSlot(codec, req, expected, ans, s);
      var got := codec.sha(Concat(ans.reply.chunks));
      && t.tmp.None? && t.raw.Some? && t.xz.Some?
      && Verified(codec, if expected == "" then "sha256:" + got else expected, t.xz.value)
  {
    var got := codec.sha(Concat(ans.reply.chunks));
    assert TrimPrefix("sha256:" + got, "sha256:") == got;
  }

  // ---------------------------------------------------------------- what decides a call

  // The digest a call is held to, "" for none, and whether it gets to know it.
  function Wanted(req: Request, d: Disk): string {
    if TrimSpace(req.pinned) != "" then TrimSpace(req.pinned) else if req.store then Recorded(d, req.key) else ""
  }

  predicate Known(req: Request, ans: Answers, d: Disk) {
    ans.dirOk && (TrimSpace(req.pinned) != "" || !req.store || (ans.storeReadOk && !d.store.Corrupt?))
  }

  ghost predicate CachedFits(codec: Codec, want: string, ans: Answers, s: Slot) {
    want != "" && s.xz.Some? && s.xz.value != [] && ans.hashOk && NamesHash(want, codec.sha(s.xz.value))
  }

  ghost predicate Serves(codec: Codec, want: string, ans: Answers, s: Slot) {
    CachedFits(codec, want, ans, s) && (s.raw.Some? || ans.hitCopy.Complete?)
  }

  ghost predicate BodyFits(codec: Codec, want: string, ans: Answers) {
    ans.reply.Complete? && (want == "" || NamesHash(want, codec.sha(Concat(ans.reply.chunks))))
  }

  lemma HitDecides(codec: Codec, want: string, ans: Answers, s: Slot)
    ensures var hit, bad := Hit(codec, want, ans, s), s.xz.Some? && s.xz.value != [] && !CachedFits(codec, want, ans, s);
      && (hit.ok <==> Serves(codec, want, ans, s))
      && (Remove(Xz) in hit.ops <==> bad) && (Remove(Raw) in hit.ops <==> bad && ans.hashOk)
      && forall op :: op in hit.ops ==> op.Remove? || ((op.Create? || op.Append?) && op.file == Raw)
  {
    if s.xz.Some? { MatchMeans(codec.sha(s.xz.value), want); }
  }

  lemma FetchDecides(codec: Codec, req: Request, want: string, ans: Answers)
    ensures var fetch := Fetch(codec, req, want, ans);
      var placed := BodyFits(codec, want, ans) && ans.chmodOk && ans.renameOk;
      && (fetch.ok <==> placed && (want != "" || !req.store || ans.recordOk) && ans.freshCopy.Complete?)
      && (Create(Tmp) in fetch.ops <==> !ans.reply.NotOpened?)
      && (Rename in fetch.ops <==> placed)
      && (forall g :: Record(g) in fetch.ops <==> 
          placed && want == "" && req.store && ans.recordOk && g == "sha256:" + codec.sha(Concat(ans.reply.chunks)))
      && Remove(Xz) !in fetch.ops && Remove(Raw) !in fetch.ops
  {
    if ans.reply.Complete? {
      MatchMeans(codec.sha(Concat(ans.reply.chunks)), want);
      CommitDecides(codec, req, want, ans, Concat(ans.reply.chunks));
    }
    if !ans.reply.NotOpened? { assert Write(Tmp, ans.reply)[0] == Create(Tmp); }
  }

  lemma CommitDecides(codec: Codec, req: Request, want: string, ans: Answers, body: Bytes)
    ensures var commit := Commit(codec, req, want, ans, body);
      && (Rename in commit.ops <==> ans.chmodOk && ans.renameOk)
      && (forall g :: Record(g) in commit.ops <==>
          ans.chmodOk && ans.renameOk && want == "" && req.store && ans.recordOk && g == "sha256:" + codec.sha(body))
      && Remove(Xz) !in commit.ops && Remove(Raw) !in commit.ops
  {
    var ops := Commit(codec, req, want, ans, body).ops;
    if ans.chmodOk && ans.renameOk {
      assert ops[0] == Rename;
      if want == "" && req.store && ans.recordOk { assert ops[1] == Record("sha256:" + codec.sha(body)); }
    }
  }

  // When a call succeeds, downloads, renames, records and removes, from the answers, the request and the
  // files alone.
  lemma EnsureDecides(codec: Codec, req: Request, ans: Answers, d: Disk)
    ensures var plan, s, want := Ensure(codec, req, ans, d), SlotOf(d, req.key), Wanted(req, d);
      var bad := Known(req, ans, d) && s.xz.Some? && s.xz.value != [] && !CachedFits(codec, want, ans, s);
      var fetched := Known(req, ans, d) && !Serves(codec, want, ans, s);
      var placed := fetched && BodyFits(codec, want, ans) && ans.chmodOk && ans.renameOk;
      var landed := placed && (want != "" || !req.store || ans.recordOk) && ans.freshCopy.Complete?;
      && (plan.ok <==> Known(req, ans, d) && (Serves(codec, want, ans, s) || landed))
      && (plan.fetched <==> fetched)
      && (Create(Tmp) in plan.ops <==> fetched && !ans.reply.NotOpened?)
      && (Rename in plan.ops <==> placed)
      && (forall g :: Record(g) in plan.ops <==>
          placed && want == "" && req.store && ans.recordOk && g == "sha256:" + codec.sha(Concat(ans.reply.chunks)))
      && (Remove(Xz) in plan.ops <==> bad) && (Remove(Raw) in plan.ops <==> bad && ans.hashOk)
  {
    var s, want := SlotOf(d, req.key), Wanted(req, d);
    if Known(req, ans, d) {
      assert Expected(req, ans.storeReadOk, d) == Some(want);
      ServeDecides(codec, req, want, ans, s.(tmp := None));
    }
  }

  lemma ServeDecides(codec: Codec, req: Request, want: string, ans: Answers, s: Slot)
    ensures var serve := Serve(codec, req, want, ans, s);
      var bad := s.xz.Some? && s.xz.value != [] && !CachedFits(codec, want, ans, s);
      var fetched := !Serves(codec, want, ans, s);
      var placed := fetched && BodyFits(codec, want, ans) && ans.chmodOk && ans.renameOk;
      && (serve.ok <==> !fetched || (placed && (want != "" || !req.store || ans.recordOk) && ans.freshCopy.Complete?))
      && (serve.fetched <==> fetched)
      && (Create(Tmp) in serve.ops <==> fetched && !ans.reply.NotOpened?)
      && (Rename in serve.ops <==> placed)
      && (forall g :: Record(g) in serve.ops <==>
          placed && want == "" && req.store && ans.recordOk && g == "sha256:" + codec.sha(Concat(ans.reply.chunks)))
      && (Remove(Xz) in serve.ops <==> bad) && (Remove(Raw) in serve.ops <==> bad && ans.hashOk)
  {
    HitDecides(codec, want, ans, s);
    FetchDecides(codec, req, want, ans);
    var hit, fetch := Hit(codec, want, ans, s), Fetch(codec, req, want, ans);
    forall op ensures op in hit.ops + fetch.ops <==> op in hit.ops || op in fetch.ops {}
  }

  // A body whose hash is not the expected one, in any character, is never moved into place; with no cached
  // file that is the expected one the call then fails.
  lemma WrongBodyIsRefused(codec: Codec, req: Request, ans: Answers, d: Disk)
    requires Wanted(req, d) != "" && (ans.reply.Complete? ==> !NamesHash(Wanted(req, d), codec.sha(Concat(ans.reply.chunks))))
    ensures Rename !in Ensure(codec, req, ans, d).ops
    ensures !CachedFits(codec, Wanted(req, d), ans, SlotOf(d, req.key)) ==> !Ensure(codec, req, ans, d).ok
  {
    EnsureDecides(codec, req, ans, d);
  }

  // A call that returns leaves a temporary file behind exactly when it found one and could not
  // even make its directory.
  lemma ReturnLeavesNoTmp(codec: Codec, d: Disk, c: Call)
    requires Returned(codec, d, c)
    ensures SlotOf(After(codec, d, c), c.req.key).tmp.Some? <==> SlotOf(d, c.req.key).tmp.Some? && !c.ans.dirOk
  {
    var k, want := c.req.key, Expected(c.req, c.ans.storeReadOk, d);
    assert After(codec, d, c) == ApplyOps(d, k, Ensure(codec, c.req, c.ans, d).ops);
    if c.ans.dirOk {
      if want.Some? {
        EnsureDropsTmp(codec, d, c.req, c.ans, want.value);
      } else {
        RecoveryDropsTmp(d, k);
      }
    }
  }

  lemma RecoveryDropsTmp(d: Disk, k: string)
    ensures SlotOf(ApplyOps(d, k, Recovery(SlotOf(d, k))), k).tmp.None?
  {
    assert [Remove(Tmp)][1..] == [];
    assert ApplyOps(d, k, [Remove(Tmp)]) == ApplyOp(d, k, Remove(Tmp));
  }

  lemma EnsureDropsTmp(codec: Codec, d: Disk, req: Request, ans: Answers, expected: string)
    requires ans.dirOk && Expected(req, ans.storeReadOk, d) == Some(expected)
    ensures SlotOf(ApplyOps(d, req.key, Ensure(codec, req, ans, d).ops), req.key).tmp.None?
  {
    EnsureEffect(codec, d, req, ans, expected);
  }

  // If nothing goes wrong outside and the body is the expected one, the call succeeds, whatever
  // earlier calls and crashes left on the disk.
  lemma CooperativeWorldSucceeds(codec: Codec, d: Disk, req: Request, ans: Answers)
    requires ans.dirOk && ans.storeReadOk && ans.chmodOk && ans.renameOk && ans.recordOk
    requires ans.reply.Complete? && ans.freshCopy.Complete?
    requires var want := Expected(req, true, d); want.Some? && (want.value != "" ==> Verified(codec, want.value, Concat(ans.reply.chunks)))
    ensures Ensure(codec, req, ans, d).ok
  {
  }

  // The same request again, right after a success: it downloads exactly when there is no digest
  // to check the cached file against (or the cached file is empty), and otherwise touches nothing.
  lemma RepeatIsFree(codec: Codec, d: Disk, c: Call, again: Answers)
    requires Returned(codec, d, c) && Ensure(codec, c.req, c.ans, d).ok
    requires again.dirOk && again.storeReadOk && again.hashOk
    ensures var e := After(codec, d, c);
      var plan := Ensure(codec, c.req, again, e);
      && (plan.fetched <==> (TrimSpace(c.req.pinned) == "" && !c.req.store) || SlotOf(e, c.req.key).xz == Some([]))
      && (!plan.fetched ==> plan.ok && plan.ops == [])
  {
    SuccessIsVerified(codec, d, c);
  }

  // ---------------------------------------------------------------- the raw file

  predicate Decodes(codec: Codec, body: Bytes, copy: Copy) {
    copy.Complete? && codec.unxz(body) == Some(Concat(copy.chunks))
  }

  // The decompressions a call gets to, from the cached or from the downloaded file, produce the
  // decoded file.  Reads, downloads, digests, pins, chmod, rename and the digest store may all fail.
  ghost predicate CopiesDecode(codec: Codec, d: Disk, c: Call) {
    var s, want := SlotOf(d, c.req.key), Expected(c.req, c.ans.storeReadOk, d);
    && (want.Some? && s.xz.Some? && s.raw.None? && Verified(codec, want.value, s.xz.value) ==> Decodes(codec, s.xz.value, c.ans.hitCopy))
    && (want.Some? && c.ans.reply.Complete? && (want.value == "" || Verified(codec, want.value, Concat(c.ans.reply.chunks)))
        ==> Decodes(codec, Concat(c.ans.reply.chunks), c.ans.freshCopy))
  }

  // The download lands: all of it arrives, is what was expected, is moved into place, and its digest is
  // recorded if it is to be.
  predicate Lands(codec: Codec, req: Request, want: string, ans: Answers) {
    && ans.reply.Complete? && (want == "" || Verified(codec, want, Concat(ans.reply.chunks)))
    && ans.chmodOk && ans.renameOk && (want != "" || !req.store || ans.recordOk)
  }

  // The cached file is there, not empty, can be read back, and is what was expected.
  predicate ServedFromCache(codec: Codec, want: Option<string>, ans: Answers, s: Slot) {
    want.Some? && s.xz.Some? && s.xz.value != [] && ans.hashOk && Verified(codec, want.value, s.xz.value)
  }

  // When the cached file cannot be read back it is removed, and its raw file is not; a download that
  // then does not land leaves that raw file without the file it came from.
  predicate LeavesStale(codec: Codec, d: Disk, c: Call) {
    var s, want := SlotOf(d, c.req.key), Expected(c.req, c.ans.storeReadOk, d);
    && c.ans.dirOk && want.Some? && !c.ans.hashOk && s.raw.Some?
    && !Lands(codec, c.req, want.value, c.ans)
    && !(want.value == "" && c.ans.reply.Complete? && c.ans.chmodOk && c.ans.renameOk
         && codec.unxz(Concat(c.ans.reply.chunks)) == s.raw)
  }

  // A call that is not cut, decompresses well, and leaves nothing stale.
  ghost predicate Clean(codec: Codec, d: Disk, c: Call) {
    c.crash.None? && CopiesDecode(codec, d, c) && !LeavesStale(codec, d, c)
  }

  ghost predicate CleanRun(codec: Codec, d: Disk, calls: seq<Call>)
    decreases |calls|
  {
    calls == [] || (Clean(codec, d, calls[0]) && CleanRun(codec, After(codec, d, calls[0]), calls[1..]))
  }

  // Every raw file is the decoded final file beside it.
  ghost predicate RawMatches(codec: Codec, d: Disk) {
    forall k :: SlotMatches(codec, SlotOf(d, k))
  }

  predicate SlotMatches(codec: Codec, s: Slot) {
    s.raw.Some? ==> s.xz.Some? && codec.unxz(s.xz.value) == s.raw
  }

  // The two blocks of an uncut call, on the values of the slot: one that serves the cached file, and
  // one that downloads.
  lemma HitKeepsRaw(codec: Codec, want: string, ans: Answers, s: Slot)
    requires codec.unxz([]) == None && SlotMatches(codec, s)
    requires s.xz.Some? && s.raw.None? && Verified(codec, want, s.xz.value) ==> Decodes(codec, s.xz.value, ans.hitCopy)
    ensures var h := HitSlot(codec, want, ans, s);
      if ans.hashOk then SlotMatches(codec, h) && (!Hit(codec, want, ans, s).ok ==> h.raw.None?)
      else !Hit(codec, want, ans, s).ok && h.raw == s.raw && (h.raw.Some? ==> h.xz.None?)
  {
  }

  lemma FetchKeepsRaw(codec: Codec, req: Request, want: string, ans: Answers, h: Slot)
    requires h.raw.Some? ==> h.xz.None?
    requires ans.reply.Complete? && (want == "" || Verified(codec, want, Concat(ans.reply.chunks)))
      ==> Decodes(codec, Concat(ans.reply.chunks), ans.freshCopy)
    ensures SlotMatches(codec, FetchSlot(codec, req, want, ans, h))
      <==> Lands(codec, req, want, ans) || h.raw.None?
           || (want == "" && ans.reply.Complete? && ans.chmodOk && ans.renameOk && codec.unxz(Concat(ans.reply.chunks)) == h.raw)
  {
  }

  // What an uncut call that decompresses well makes of a slot whose raw file was right.
  lemma SlotKeepsRawExactlyWhen(codec: Codec, d: Disk, c: Call)
    requires codec.unxz([]) == None && SlotMatches(codec, SlotOf(d, c.req.key)) && Returned(codec, d, c) && CopiesDecode(codec, d, c)
    ensures SlotMatches(codec, SlotOf(After(codec, d, c), c.req.key)) <==> !LeavesStale(codec, d, c)
  {
    var k, want := c.req.key, Expected(c.req, c.ans.storeReadOk, d);
    assert After(codec, d, c) == ApplyOps(d, k, Ensure(codec, c.req, c.ans, d).ops);
    if c.ans.dirOk {
      if want.Some? {
        EnsureEffect(codec, d, c.req, c.ans, want.value);
        var s := Recovered(SlotOf(d, k));
        HitKeepsRaw(codec, want.value, c.ans, s);
        if !Hit(codec, want.value, c.ans, s).ok {
          FetchKeepsRaw(codec, c.req, want.value, c.ans, HitSlot(codec, want.value, c.ans, s));
        }
      } else {
        assert [Remove(Tmp)][1..] == [];
        assert ApplyOps(d, k, [Remove(Tmp)]) == ApplyOp(d, k, Remove(Tmp));
      }
    }
  }

  // An uncut call that decompresses well keeps every raw file right exactly when it leaves none stale.
  lemma CallKeepsRawExactlyWhen(codec: Codec, d: Disk, c: Call)
    requires codec.unxz([]) == None && RawMatches(codec, d) && Returned(codec, d, c) && CopiesDecode(codec, d, c)
    ensures RawMatches(codec, After(codec, d, c)) <==> !LeavesStale(codec, d, c)
  {
    assert SlotMatches(codec, SlotOf(d, c.req.key));
    SlotKeepsRawExactlyWhen(codec, d, c);
    forall j | j != c.req.key ensures SlotMatches(codec, SlotOf(After(codec, d, c), j)) {
      OtherKeysUntouched(codec, d, c, j);
      assert SlotMatches(codec, SlotOf(d, j));
    }
  }

  lemma {:induction false} CleanRunKeepsRaw(codec: Codec, d: Disk, calls: seq<Call>)
    requires codec.unxz([]) == None && RawMatches(codec, d) && CleanRun(codec, d, calls)
    ensures RawMatches(codec, Run(codec, d, calls))
    decreases |calls|
  {
    if calls != [] {
      CallKeepsRawExactlyWhen(codec, d, calls[0]);
      CleanRunKeepsRaw(codec, After(codec, d, calls[0]), calls[1..]);
    }
  }

  // After any clean run, a clean call that succeeds returns the decoded form of a verified file.
  lemma ReturnedRawIsDecoded(codec: Codec, d: Disk, calls: seq<Call>, c: Call)
    requires codec.unxz([]) == None && Untouched(d) && CleanRun(codec, d, calls)
    requires Clean(codec, Run(codec, d, calls), c) && Ensure(codec, c.req, c.ans, Run(codec, d, calls)).ok
    ensures var e := After(codec, Run(codec, d, calls), c);
      var s, want := SlotOf(e, c.req.key), Expected(c.req, true, e);
      && s.raw.Some? && s.xz.Some? && codec.unxz(s.xz.value) == s.raw
      && want.Some? && (want.value != "" ==> Verified(codec, want.value, s.xz.value))
  {
    CleanRunKeepsRaw(codec, d, calls);
    CallKeepsRawExactlyWhen(codec, Run(codec, d, calls), c);
    assert SlotMatches(codec, SlotOf(After(codec, Run(codec, d, calls), c), c.req.key));
    SuccessIsVerified(codec, Run(codec, d, calls), c);
  }

  // For any disk at all: a success whose decompressions work returns the decoded final file exactly
  // when it was not served from the cache, or there was no raw file, or the raw file was already the
  // decoded one.
  lemma RawIsDecodedExactlyWhen(codec: Codec, d: Disk, c: Call)
    requires Returned(codec, d, c) && Ensure(codec, c.req, c.ans, d).ok && CopiesDecode(codec, d, c)
    ensures var s, e := SlotOf(d, c.req.key), SlotOf(After(codec, d, c), c.req.key);
      && e.xz.Some? && e.raw.Some?
      && (codec.unxz(e.xz.value) == e.raw <==>
          !ServedFromCache(codec, Expected(c.req, c.ans.storeReadOk, d), c.ans, s) || s.raw.None? || (s.xz.Some? && codec.unxz(s.xz.value) == s.raw))
  {
    SuccessIsVerified(codec, d, c);
    EnsureEffect(codec, d, c.req, c.ans, Expected(c.req, c.ans.storeReadOk, d).value);
  }

  // Whatever raw file lies beside a verified .xz is returned as it is.
  lemma AnyRawIsReturned(codec: Codec, d: Disk, k: string, ans: Answers, body: Bytes, raw: Bytes)
    requires ans.dirOk && ans.storeReadOk && ans.hashOk && body != []
    requires SlotOf(d, k) == Slot(None, Some(body), Some(raw))
    requires !d.store.Corrupt? && Recorded(d, k) == "sha256:" + codec.sha(body)
    ensures Ensure(codec, Request(k, "", true), ans, d).ok && Ensure(codec, Request(k, "", true), ans, d).ops == []
  {
    var want := "sha256:" + codec.sha(body);
    assert TrimSpace("") == "";
    assert TrimPrefix(want, "sha256:") == codec.sha(body);
    assert Verified(codec, want, body);
  }

  // A first download that gets as far as creating the raw file.
  lemma StoppedAtRaw(codec: Codec, body: Bytes)
    requires body != []
    ensures var ops := Write(Tmp, Complete([body])) + [Rename, Record("sha256:" + codec.sha(body)), Create(Raw)];
      var d := ApplyOps(EMPTY_DISK, "k", ops);
      && SlotOf(d, "k") == Slot(None, Some(body), Some([]))
      && !d.store.Corrupt? && Recorded(d, "k") == "sha256:" + codec.sha(body)
  {
    assert Concat([body]) == body;
    var written, commit := Write(Tmp, Complete([body])), [Rename, Record("sha256:" + codec.sha(body)), Create(Raw)];
    var d1 := ApplyOps(EMPTY_DISK, "k", written);
    WriteWrites(EMPTY_DISK, "k", Tmp, Complete([body]));
    ApplyOpsConcat(EMPTY_DISK, "k", written, commit);
    assert SlotOf(d1, "k") == Slot(Some(body), None, None);
    var d2 := ApplyOp(d1, "k", Rename);
    assert SlotOf(d2, "k") == Slot(None, Some(body), None);
    var d3 := ApplyOp(d2, "k", commit[1]);
    assert Recorded(d3, "k") == "sha256:" + codec.sha(body);
    var d4 := ApplyOp(d3, "k", commit[2]);
    assert SlotOf(d4, "k") == Slot(None, Some(body), Some([]));
    assert commit[1..] == [commit[1], commit[2]] && [commit[1], commit[2]][1..] == [commit[2]] && [commit[2]][1..] == [];
    assert ApplyOps(d2, "k", [commit[1], commit[2]]) == ApplyOps(d3, "k", [commit[2]]) == d4;
  }

  // An answer to a call that is not cut: whether the cached file can be read back, the body that
  // arrives, if one does, whether its digest can be recorded, and what it decodes to.
  function Answer(hashOk: bool, body: Option<Bytes>, recordOk: bool, image: Bytes): Answers {
    Answers(true, true, hashOk, if body.Some? then Complete([body.value]) else NotOpened, true, true, recordOk, NotOpened, Complete([image]))
  }

  lemma OneChunk(b: Bytes)
    ensures Concat([b]) == b
  {
    assert [b][1..] == [];
  }

  // Pinned, downloaded, decoded; then the cached file cannot be read back and the download fails.
  lemma RawLeftAlone(codec: Codec, pin: string, body: Bytes, image: Bytes)
    requires body != [] && TrimSpace(pin) == pin && Verified(codec, pin, body)
    ensures var req := Request("k", pin, true);
      var d := After(codec, EMPTY_DISK, Call(req, Answer(true, Some(body), true, image), None));
      var e := After(codec, d, Call(req, Answer(false, None, true, image), None));
      && SlotOf(d, "k") == Slot(None, Some(body), Some(image)) && SlotOf(e, "k") == Slot(None, None, Some(image))
      && e.store == Missing && LeavesStale(codec, d, Call(req, Answer(false, None, true, image), None))
  {
    var req := Request("k", pin, true);
    var first, second := Answer(true, Some(body), true, image), Answer(false, None, true, image);
    OneChunk(body);
    OneChunk(image);
    EnsureEffect(codec, EMPTY_DISK, req, first, pin);
    var d := After(codec, EMPTY_DISK, Call(req, first, None));
    EnsureEffect(codec, d, req, second, pin);
  }

  // Unpinned, another body is renamed into place but its digest cannot be recorded; pinned to it, the
  // cache then returns it with the raw file of the first.
  lemma StaleRawServed(codec: Codec, d: Disk, pin: string, body: Bytes, image: Bytes, stale: Bytes)
    requires body != [] && TrimSpace(pin) == pin && Verified(codec, pin, body)
    requires SlotOf(d, "k") == Slot(None, None, Some(stale)) && d.store == Missing
    ensures var e := After(codec, d, Call(Request("k", "", true), Answer(true, Some(body), false, image), None));
      var plan := Ensure(codec, Request("k", pin, true), Answer(true, None, true, image), e);
      SlotOf(e, "k") == Slot(None, Some(body), Some(stale)) && plan.ok && plan.ops == []
  {
    var open, third := Request("k", "", true), Answer(true, Some(body), false, image);
    OneChunk(body);
    assert TrimSpace("") == "";
    EnsureEffect(codec, d, open, third, "");
  }

  // With no crash and every decompression exact, a read of the cached file that fails is enough: a
  // later success returns the raw file of another image.
  lemma StaleRawIsReturned(codec: Codec, pin: string, body: Bytes, image: Bytes, pin': string, body': Bytes, image': Bytes)
    requires body != [] && TrimSpace(pin) == pin && Verified(codec, pin, body) && codec.unxz(body) == Some(image)
    requires body' != [] && TrimSpace(pin') == pin' && Verified(codec, pin', body') && codec.unxz(body') == Some(image')
    requires image != image'
    ensures var calls := [Call(Request("k", pin, true), Answer(true, Some(body), true, image), None),
                          Call(Request("k", pin, true), Answer(false, None, true, image), None),
                          Call(Request("k", "", true), Answer(true, Some(body'), false, image'), None)];
      var d := Run(codec, EMPTY_DISK, calls);
      var last := Ensure(codec, Request("k", pin', true), Answer(true, None, true, image'), d);
      && last.ok && last.ops == []
      && SlotOf(d, "k").raw == Some(image) && codec.unxz(SlotOf(d, "k").xz.value) == Some(image')
  {
    var a, b := Call(Request("k", pin, true), Answer(true, Some(body), true, image), None),
      Call(Request("k", pin, true), Answer(false, None, true, image), None);
    var c := Call(Request("k", "", true), Answer(true, Some(body'), false, image'), None);
    RawLeftAlone(codec, pin, body, image);
    var e := After(codec, After(codec, EMPTY_DISK, a), b);
    StaleRawServed(codec, e, pin', body', image', image);
    RunOfThree(codec, EMPTY_DISK, a, b, c);
  }

  lemma RunCons(codec: Codec, d: Disk, a: Call, rest: seq<Call>)
    ensures Run(codec, d, [a] + rest) == Run(codec, After(codec, d, a), rest)
  {
    assert ([a] + rest)[1..] == rest;
  }

  lemma RunOfThree(codec: Codec, d: Disk, a: Call, b: Call, c: Call)
    ensures Run(codec, d, [a, b, c]) == After(codec, After(codec, After(codec, d, a), b), c)
  {
    var e := After(codec, d, a);
    RunCons(codec, d, a, [b] + ([c] + []));
    RunCons(codec, e, b, [c] + []);
    RunCons(codec, After(codec, e, b), c, []);
    assert [a] + ([b] + ([c] + [])) == [a, b, c];
  }

  // Nor can a crash or a failed decompression be left out: a first call that downloads a good file, is
  // then cut (or fails) while decompressing, and a second that succeeds and returns the torn raw file.
  lemma TornRawIsReturned(codec: Codec, body: Bytes, image: Bytes, cut: bool)
    requires body != [] && image != [] && codec.unxz(body) == Some(image)
    ensures var req := Request("k", "", true);
      var copy := if cut then Complete([image]) else Broken([]);
      var ans := Answers(true, true, true, Complete([body]), true, true, true, NotOpened, copy);
      // download: create, append; then rename, record, create the raw file, and no further
      var first := Call(req, ans, if cut then Some(5) else None);
      var d := Run(codec, EMPTY_DISK, [first]);
      && !(Returned(codec, EMPTY_DISK, first) && Ensure(codec, req, ans, EMPTY_DISK).ok)
      && Ensure(codec, req, ans, d).ok && Ensure(codec, req, ans, d).ops == []
      && SlotOf(d, "k").raw == Some([]) && codec.unxz(SlotOf(d, "k").xz.value) == Some(image)
  {
    var req := Request("k", "", true);
    var copy := if cut then Complete([image]) else Broken([]);
    var ans := Answers(true, true, true, Complete([body]), true, true, true, NotOpened, copy);
    var first := Call(req, ans, if cut then Some(5) else None);
    assert Concat([body]) == body;
    var written, commit := Write(Tmp, Complete([body])), [Rename, Record("sha256:" + codec.sha(body)), Create(Raw)];
    assert Ensure(codec, req, ans, EMPTY_DISK).ops == written + commit + if cut then [Append(Raw, image)] else [];
    assert Performed(codec, EMPTY_DISK, first) == written + commit;
    assert [first][1..] == [];
    StoppedAtRaw(codec, body);
    assert Run(codec, EMPTY_DISK, [first]) == ApplyOps(EMPTY_DISK, "k", written + commit);
    AnyRawIsReturned(codec, Run(codec, EMPTY_DISK, [first]), "k", ans, body, []);
  }
}
