/**
 The queue of one-shot wipes: a JSON object on disk, loaded, changed and saved as a whole by each call.
 A file that cannot be read or parsed loads as an empty queue.
 */
module WipeQueue {
  import opened Text

  // What is on disk; `Garbled` is anything that does not parse.
  datatype QueueFile = Missing | Garbled | Table(macs: set<string>)

  // How one call goes: whether the file can be read, and what a failed write leaves of it.
  datatype Access = Access(readOk: bool, write: Write<QueueFile>)

  datatype Write<T> = Done | Failed(left: T)

  function Load(f: QueueFile, readOk: bool): set<string> { if readOk && f.Table? then f.macs else {} }

  // The MACs queued, as anyone reads them who can.
  function Pending(f: QueueFile): set<string> { Load(f, true) }

  function Save(macs: set<string>, w: Write<QueueFile>): QueueFile {
    match w case Done => Table(macs) case Failed(left) => left
  }

  function Queued(f: QueueFile, mac: string, a: Access): QueueFile { Save(Load(f, a.readOk) + {ToLower(mac)}, a.write) }

  function Consumed(f: QueueFile, mac: string, a: Access): QueueFile { Save(Load(f, a.readOk) - {ToLower(mac)}, a.write) }

  // ---------------------------------------------------------------- what the queue promises

  predicate Works(a: Access) { a.readOk && a.write.Done? }

  // A wipe that was queued is there to be consumed, however its MAC is spelled; consuming it leaves the
  // wipes of the other nodes as they were before both calls.
  lemma QueueThenConsume(f: QueueFile, mac: string, again: string, a: Access, b: Access)
    requires Works(a) && Works(b) && EqualFold(mac, again)
    ensures ToLower(again) in Load(Queued(f, mac, a), b.readOk)
    ensures Pending(Consumed(Queued(f, mac, a), again, b)) == Pending(f) - {ToLower(mac)}
  {
  }

  // The wipe of another node survives a write that succeeds exactly when the file could be read first.
  lemma OthersKeptExactlyWhen(f: QueueFile, mac: string, other: string, a: Access)
    requires a.write.Done? && other in Pending(f) && other != ToLower(mac)
    ensures other in Pending(Queued(f, mac, a)) <==> a.readOk
    ensures other in Pending(Consumed(f, mac, a)) <==> a.readOk
  {
  }

  datatype Op = Queue(mac: string) | Consume(mac: string)

  function After(f: QueueFile, ops: seq<Op>, how: seq<Access>): QueueFile
    requires |ops| == |how|
  {
    if ops == [] then f
    else
      var n := |ops| - 1;
      var was := After(f, ops[..n], how[..n]);
      match ops[n] case Queue(mac) => Queued(was, mac, how[n]) case Consume(mac) => Consumed(was, mac, how[n])
  }

  // The last thing done about a MAC; none if nothing was.
  function LastOp(ops: seq<Op>, mac: string): seq<Op> {
    if ops == [] then []
    else if ToLower(ops[|ops| - 1].mac) == mac then [ops[|ops| - 1]]
    else LastOp(ops[..|ops| - 1], mac)
  }

  // Over any calls that work, a MAC is pending exactly when it was last queued, or nothing was done
  // about it and it was pending before.
  lemma {:induction false} LastOpDecides(f: QueueFile, ops: seq<Op>, how: seq<Access>, mac: string)
    requires |ops| == |how| && forall i :: 0 <= i < |how| ==> Works(how[i])
    ensures mac in Pending(After(f, ops, how))
      <==> var last := LastOp(ops, mac); if last == [] then mac in Pending(f) else last[0].Queue?
  {
    if ops != [] {
      var n := |ops| - 1;
      LastOpDecides(f, ops[..n], how[..n], mac);
    }
  }

  // ---------------------------------------------------------------- the program

  method LoadWipes(f: QueueFile, readOk: bool) returns (data: set<string>)
    ensures forall m :: m in data <==> readOk && m in Pending(f)
  {
    data := {};
    if !readOk {
      return;
    }
    if f.Table? {
      data := f.macs;
    }
  }

  method QueueWipe(f: QueueFile, mac: string, a: Access) returns (after: QueueFile, ok: bool)
    ensures after == Queued(f, mac, a) && (ok <==> a.write.Done?)
  {
    var data := LoadWipes(f, a.readOk);
    data := data + {ToLower(mac)};
    assert data == Load(f, a.readOk) + {ToLower(mac)};
    after, ok := Save(data, a.write), a.write.Done?;
  }

  method ConsumeWipe(f: QueueFile, mac: string, a: Access) returns (after: QueueFile, had: bool, ok: bool)
    ensures after == Consumed(f, mac, a) && (ok <==> a.write.Done?)
    ensures had <==> ToLower(mac) in Load(f, a.readOk)
  {
    var data := LoadWipes(f, a.readOk);
    had := ToLower(mac) in data;
    data := data - {ToLower(mac)};
    assert data == Load(f, a.readOk) - {ToLower(mac)};
    after, ok := Save(data, a.write), a.write.Done?;
  }
}
