/**
 Ensure as the program it is: branches and copy loops that perform one file operation at a time.
 The method is proved to perform exactly the operations of ImageCache.Ensure, in that order, so
 what a crash after the n-th operation leaves behind is what ImageCache studies.
 */
module ImageCacheHost {
  import opened Options
  import opened Text
  import opened ImageCache

  class Host {
    const codec: Codec
    const key: string
    var disk: Disk
    ghost var start: Disk     // the disk when the current call began
    ghost var log: seq<Op>    // what the current call has done since

    ghost predicate Valid()
      reads this
    {
      disk == ApplyOps(start, key, log)
    }

    constructor (codec: Codec, key: string, disk: Disk)
      ensures this.codec == codec && this.key == key && this.disk == disk && Valid()
    {
      this.codec, this.key, this.disk, this.start, this.log := codec, key, disk, disk, [];
    }

    method Do(op: Op)
      requires Valid()
      modifies this`disk, this`log
      ensures Valid() && log == old(log) + [op] && disk == ApplyOp(old(disk), key, op)
    {
      ApplyOpsConcat(start, key, log, [op]);
      assert [op][1..] == [];
      disk, log := ApplyOp(disk, key, op), log + [op];
    }

    // io.Copy into a file opened with O_TRUNC.
    method CopyInto(f: File, copy: Copy)
      requires Valid()
      modifies this`disk, this`log
      ensures Valid() && log == old(log) + Write(f, copy)
    {
      if copy.NotOpened? {
        return;
      }
      ghost var ops := Write(f, copy);
      Do(Create(f));
      for i := 0 to |copy.chunks|
        invariant Valid() && log == old(log) + ops[..i + 1]
      {
        Do(Append(f, copy.chunks[i]));
        assert ops[..i + 1] + [ops[i + 1]] == ops[..i + 2];
      }
      assert ops[..|ops|] == ops;
    }

    method Ensure(req: Request, ans: Answers) returns (ok: bool)
      requires req.key == key
      modifies this
      ensures var plan := ImageCache.Ensure(codec, req, ans, old(disk));
        Valid() && start == old(disk) && log == plan.ops && ok == plan.ok
    {
      start, log := disk, [];
      if !ans.dirOk {
        return false;
      }
      DropOrphan();
      var expected := ReadExpected(req, ans);
      assert Recorded(disk, key) == Recorded(start, key);
      if expected.None? {
        return false;
      }
      ok := Serve(req, ans, expected.value);
    }

    // With the expected digest known: the cached file, or else a download.
    method Serve(req: Request, ans: Answers, expected: string) returns (ok: bool)
      requires Valid()
      modifies this`disk, this`log
      ensures var plan := ImageCache.Serve(codec, req, expected, ans, old(SlotOf(disk, key)));
        Valid() && ok == plan.ok && log == old(log) + plan.ops
    {
      ok := TryCached(ans, expected);
      if !ok {
        ok := Download(req, ans, expected);
      }
    }

    // Crash recovery: an orphan .tmp is never trusted.
    method DropOrphan()
      requires Valid()
      modifies this`disk, this`log
      ensures Valid() && log == old(log) + Recovery(old(SlotOf(disk, key)))
      ensures SlotOf(disk, key) == old(SlotOf(disk, key)).(tmp := None) && disk.store == old(disk).store
    {
      if SlotOf(disk, key).tmp.Some? {
        Do(Remove(Tmp));
      }
    }

    // The pinned digest, or the recorded one; None when the store cannot be read.
    method ReadExpected(req: Request, ans: Answers) returns (expected: Option<string>)
      requires req.key == key
      ensures expected == Expected(req, ans.storeReadOk, disk)
    {
      expected := Some(TrimSpace(req.pinned));
      var tofu := expected.value == "";
      if tofu && req.store {
        if !ans.storeReadOk || disk.store.Corrupt? {
          return None;
        }
        if key in Digests(disk.store) {
          expected := Some(Digests(disk.store)[key]);
        }
      }
    }

    // The cache-hit block.
    method TryCached(ans: Answers, expected: string) returns (hit: bool)
      requires Valid()
      modifies this`disk, this`log
      ensures var plan := Hit(codec, expected, ans, old(SlotOf(disk, key)));
        Valid() && hit == plan.ok && log == old(log) + plan.ops
    {
      var s := SlotOf(disk, key);
      hit := false;
      if s.xz.Some? && s.xz.value != [] {
        if ans.hashOk {
          if Verified(codec, expected, s.xz.value) {
            if s.raw.Some? {
              return true;
            }
            CopyInto(Raw, ans.hitCopy);
            hit := ans.hitCopy.Complete?;
          } else {
            Do(Remove(Xz));
            Do(Remove(Raw));
          }
        } else {
          Do(Remove(Xz));
        }
      }
    }

    // Everything from the HTTP request on.
    method Download(req: Request, ans: Answers, expected: string) returns (ok: bool)
      requires Valid()
      modifies this`disk, this`log
      ensures var plan := Fetch(codec, req, expected, ans);
        Valid() && ok == plan.ok && log == old(log) + plan.ops
    {
      CopyInto(Tmp, ans.reply);
      if !ans.reply.Complete? || (expected != "" && !Verified(codec, expected, Concat(ans.reply.chunks))) {
        Do(Remove(Tmp));
        return false;
      }
      ok := CommitBody(req, ans, expected, Concat(ans.reply.chunks));
    }

    // The verified body is in the temporary file.
    method CommitBody(req: Request, ans: Answers, expected: string, body: Bytes) returns (ok: bool)
      requires Valid()
      modifies this`disk, this`log
      ensures var plan := Commit(codec, req, expected, ans, body);
        Valid() && ok == plan.ok && log == old(log) + plan.ops
    {
      if !ans.chmodOk || !ans.renameOk {
        Do(Remove(Tmp));
        return false;
      }
      Do(Rename);
      // Only after the rename is the digest recorded.
      if expected == "" && req.store {
        if !ans.recordOk {
          return false;
        }
        Do(Record("sha256:" + codec.sha(body)));
      }
      CopyInto(Raw, ans.freshCopy);
      ok := ans.freshCopy.Complete?;
    }
  }
}
