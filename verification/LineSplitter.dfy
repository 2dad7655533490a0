/** The streaming line splitter: bytes arrive in any chunks, whole lines go to the parser. */
module LineSplitter {
  import opened Sequences

  type Byte = bv8
  const NEWLINE: Byte := 10

  // ---------------------------------------------------------------- lines of a stream

  // The newline-terminated lines of a stream, without their newlines, and what follows the last one.
  datatype Cut = Cut(lines: seq<seq<Byte>>, rest: seq<Byte>)

  function Glue(lines: seq<seq<Byte>>): seq<Byte> {
    if lines == [] then [] else lines[0] + [NEWLINE] + Glue(lines[1..])
  }

  ghost predicate CutsTo(s: seq<Byte>, c: Cut) {
    && s == Glue(c.lines) + c.rest
    && NEWLINE !in c.rest && forall i :: 0 <= i < |c.lines| ==> NEWLINE !in c.lines[i]
  }

  lemma {:induction false} GlueConcat(a: seq<seq<Byte>>, b: seq<seq<Byte>>)
    ensures Glue(a + b) == Glue(a) + Glue(b)
  {
    if a == [] {
      assert a + b == b;
    } else {
      assert (a + b)[1..] == a[1..] + b;
      GlueConcat(a[1..], b);
    }
  }

  // A stream can be cut in one way only.
  lemma {:induction false} CutIsUnique(s: seq<Byte>, c: Cut, d: Cut)
    requires CutsTo(s, c) && CutsTo(s, d)
    ensures c == d
    decreases |c.lines|
  {
    if c.lines == [] {
      HasNewline(s, d);
    } else {
      NewlineAt(s, c);
      if d.lines != [] {
        NewlineAt(s, d);
        var n := |c.lines[0]|;
        assert c.lines[0] == s[..n] == d.lines[0];
        var t := s[n + 1..];
        CutIsUnique(t, Cut(c.lines[1..], c.rest), Cut(d.lines[1..], d.rest));
        assert c.lines == [c.lines[0]] + c.lines[1..] && d.lines == [d.lines[0]] + d.lines[1..];
      }
    }
  }

  lemma HasNewline(s: seq<Byte>, c: Cut)
    requires CutsTo(s, c)
    ensures c.lines != [] ==> NEWLINE in s
    ensures c.lines == [] ==> c.rest == s
  {
    if c.lines != [] { NewlineAt(s, c); } else { assert s == c.rest; }
  }

  lemma NewlineAt(s: seq<Byte>, c: Cut)
    requires CutsTo(s, c) && c.lines != []
    ensures var n := |c.lines[0]|;
      n < |s| && s[n] == NEWLINE && s[..n] == c.lines[0] && CutsTo(s[n + 1..], Cut(c.lines[1..], c.rest))
    ensures forall k :: 0 <= k < |c.lines[0]| ==> k < |s| && s[k] != NEWLINE
  {
    assert s == c.lines[0] + [NEWLINE] + (Glue(c.lines[1..]) + c.rest);
    forall i | 0 <= i < |c.lines[1..]| ensures NEWLINE !in c.lines[1..][i] {
      assert c.lines[1..][i] == c.lines[i + 1];
    }
  }

  // ---------------------------------------------------------------- the recorder

  class Recorder {
    var buf: seq<Byte>
    // Every line handed to the parser so far, and every byte ever written.
    var handed: seq<seq<Byte>>
    ghost var stream: seq<Byte>

    // The state is a function of the bytes written, whatever the chunks were.
    ghost predicate Valid()
      reads this
    {
      CutsTo(stream, Cut(handed, buf))
    }

    constructor ()
      ensures Valid() && stream == []
    {
      buf, handed, stream := [], [], [];
    }

    // One write under the lock.
    method Write(p: seq<Byte>) returns (n: nat)
      requires Valid()
      modifies this
      ensures Valid() && stream == old(stream) + p && n == |p|
      ensures old(handed) <= handed
    {
      stream := stream + p;
      buf := buf + p;
      while true
        invariant stream == Glue(handed) + buf && old(handed) <= handed
        invariant forall i :: 0 <= i < |handed| ==> NEWLINE !in handed[i]
        invariant stream == old(stream) + p
        decreases |buf|
      {
        var idx := IndexByte(buf, NEWLINE);
        if idx < 0 {
          break;
        }
        var line := buf[..idx];
        HandOver(handed, line, buf);
        buf := buf[idx + 1..];
        handed := handed + [line];
      }
      n := |p|;
    }
  }

  lemma HandOver(handed: seq<seq<Byte>>, line: seq<Byte>, buf: seq<Byte>)
    requires |line| < |buf| && line == buf[..|line|] && buf[|line|] == NEWLINE
    ensures Glue(handed + [line]) + buf[|line| + 1..] == Glue(handed) + buf
  {
    var rest := buf[|line| + 1..];
    assert buf == (line + [NEWLINE]) + rest;
    GlueConcat(handed, [line]);
    assert Glue([line]) == line + [NEWLINE];
    Regroup(Glue(handed), line + [NEWLINE], rest);
  }

  method IndexByte(b: seq<Byte>, c: Byte) returns (i: int)
    ensures i < 0 ==> c !in b
    ensures i >= 0 ==> i < |b| && b[i] == c && c !in b[..i]
  {
    i := 0;
    while i < |b|
      invariant 0 <= i <= |b| && c !in b[..i]
    {
      if b[i] == c {
        return i;
      }
      i := i + 1;
    }
    i := -1;
  }

  function Concat(chunks: seq<seq<Byte>>): seq<Byte> {
    if chunks == [] then [] else Concat(chunks[..|chunks| - 1]) + chunks[|chunks| - 1]
  }

  // Feeding a recorder chunk by chunk. Whatever the chunks, the parser gets exactly the lines of the
  // whole stream, in order, and the buffer holds exactly what follows the last newline.
  method WriteAll(chunks: seq<seq<Byte>>, ghost c: Cut) returns (lines: seq<seq<Byte>>, left: seq<Byte>)
    requires CutsTo(Concat(chunks), c)
    ensures lines == c.lines && left == c.rest
  {
    var r := new Recorder();
    for i := 0 to |chunks|
      invariant r.Valid() && r.stream == Concat(chunks[..i]) && fresh(r)
    {
      var _ := r.Write(chunks[i]);
      assert chunks[..i + 1][..i] == chunks[..i];
    }
    assert chunks[..|chunks|] == chunks;
    CutIsUnique(r.stream, c, Cut(r.handed, r.buf));
    return r.handed, r.buf;
  }

  // Two ways of chunking one stream hand over the same lines.
  lemma ChunksDoNotMatter(a: seq<seq<Byte>>, b: seq<seq<Byte>>, c: Cut, d: Cut)
    requires Concat(a) == Concat(b) && CutsTo(Concat(a), c) && CutsTo(Concat(b), d)
    ensures c == d
  {
    CutIsUnique(Concat(a), c, d);
  }

  // Every stream can be cut.
  lemma {:induction false} CutExists(s: seq<Byte>) returns (c: Cut)
    ensures CutsTo(s, c)
  {
    if s == [] {
      c := Cut([], []);
    } else {
      var front := CutExists(s[..|s| - 1]);
      var last := s[|s| - 1];
      assert s == s[..|s| - 1] + [last];
      if last == NEWLINE {
        GlueConcat(front.lines, [front.rest]);
        assert Glue([front.rest]) == front.rest + [NEWLINE];
        c := Cut(front.lines + [front.rest], []);
      } else {
        c := Cut(front.lines, front.rest + [last]);
      }
    }
  }
}
