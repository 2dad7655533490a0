/**
 The managed block of a hosts file. A file is text; underneath it is a list of items, plain lines and
 managed blocks, and rewriting a host is an operation on items.
 */
module ManagedHosts {
  import opened Text
  import opened TextLines

  const BEGIN_PREFIX: string := "# BEGIN nostos-managed: "
  const END_PREFIX: string := "# END nostos-managed: "

  function Begin(host: string): string { BEGIN_PREFIX + host }

  function End(host: string): string { END_PREFIX + host }

  // ---------------------------------------------------------------- the program, on text

  predicate LineMaps(line: string, host: string) {
    var s := TrimSpace(line);
    s != "" && !("#" <= s) && var fields := Fields(s); fields != [] && host in fields[1..]
  }

  // A line maps a name exactly when it is no comment and the name is one of its words after the first.
  lemma LineMapsMeans(words: seq<string>, gaps: seq<string>, host: string)
    requires Apart(words, gaps)
    ensures LineMaps(Spelled(words, gaps), host) <==> words != [] && words[0][0] != '#' && host in words[1..]
  {
    TrimKeepsFields(words, gaps);
  }

  function AddressLines(host: string, addrs: seq<string>): seq<string> {
    if addrs == [] then [] else [addrs[0] + "\t" + host] + AddressLines(host, addrs[1..])
  }

  function BlockLines(host: string, addrs: seq<string>): seq<string> {
    [Begin(host)] + AddressLines(host, addrs) + [End(host)]
  }

  // The managed block, each line with its newline.
  function ManagedBlock(host: string, addrs: seq<string>): string { Join(BlockLines(host, addrs) + [""]) }

  // The lines that survive: those outside the host's block that do not map the host.
  function Keep(lines: seq<string>, host: string, inBlock: bool): seq<string> {
    if lines == [] then []
    else
      var trimmed := TrimSpace(lines[0]);
      if trimmed == Begin(host) then Keep(lines[1..], host, true)
      else if inBlock then Keep(lines[1..], host, trimmed != End(host))
      else (if LineMaps(lines[0], host) then [] else [lines[0]]) + Keep(lines[1..], host, false)
  }

  function Rewritten(existing: string, host: string, addrs: seq<string>): string {
    TrimNewlines(Join(Keep(Lines(existing), host, false))) + "\n\n" + ManagedBlock(host, addrs)
  }

  method RewriteManagedHosts(existing: string, host: string, addrs: seq<string>) returns (out: string)
    ensures out == Rewritten(existing, host, addrs)
  {
    var kept, inBlock, left := [], false, Lines(existing);
    while left != []
      invariant Keep(Lines(existing), host, false) == kept + Keep(left, host, inBlock)
      decreases |left|
    {
      var line, trimmed := left[0], TrimSpace(left[0]);
      left := left[1..];
      if trimmed == Begin(host) {
        inBlock := true;
        continue;
      }
      if inBlock {
        if trimmed == End(host) {
          inBlock := false;
        }
        continue;
      }
      if LineMaps(line, host) {
        continue;
      }
      kept := kept + [line];
    }
    assert kept == Keep(Lines(existing), host, false);
    out := TrimNewlines(Join(kept)) + "\n\n" + ManagedBlock(host, addrs);
  }

  // ---------------------------------------------------------------- lines of the result

  // Hosts and addresses are single words, as an endpoint name and node addresses are.
  predicate Words(addrs: seq<string>) { forall i :: 0 <= i < |addrs| ==> Solid(addrs[i]) && addrs[i][0] != '#' }

  lemma SolidIsOneLine(s: string)
    requires forall i :: 0 <= i < |s| ==> !IsSpace(s[i])
    ensures OneLine(s)
  {
  }

  lemma {:induction false} BlockIsLines(host: string, addrs: seq<string>)
    requires Solid(host) && Words(addrs)
    ensures forall i :: 0 <= i < |AddressLines(host, addrs)| ==> OneLine(AddressLines(host, addrs)[i])
  {
    if addrs != [] {
      BlockIsLines(host, addrs[1..]);
      SolidIsOneLine(addrs[0]);
      SolidIsOneLine(host);
    }
  }

  lemma ManagedBlockLines(host: string, addrs: seq<string>)
    requires Solid(host) && Words(addrs)
    ensures Lines(ManagedBlock(host, addrs)) == BlockLines(host, addrs) + [""]
  {
    BlockIsLines(host, addrs);
    SolidIsOneLine(host);
    LinesOfJoin(BlockLines(host, addrs) + [""]);
  }

  function Body(existing: string, host: string): string { TrimNewlines(Join(Keep(Lines(existing), host, false))) }

  lemma ResultLines(existing: string, host: string, addrs: seq<string>)
    requires Solid(host) && Words(addrs)
    ensures Lines(Rewritten(existing, host, addrs)) == Lines(Body(existing, host)) + ([""] + BlockLines(host, addrs) + [""])
  {
    var body, block := Body(existing, host), ManagedBlock(host, addrs);
    ManagedBlockLines(host, addrs);
    LinesConcat("", block);
    assert "" + "\n" + block == "\n" + block;
    LinesConcat(body, "\n" + block);
    assert Rewritten(existing, host, addrs) == body + "\n" + ("\n" + block);
    assert [""] + (BlockLines(host, addrs) + [""]) == [""] + BlockLines(host, addrs) + [""];
  }

  lemma {:induction false} KeptLines(lines: seq<string>, host: string, inBlock: bool)
    requires forall i :: 0 <= i < |lines| ==> OneLine(lines[i])
    ensures forall i :: 0 <= i < |Keep(lines, host, inBlock)| ==> OneLine(Keep(lines, host, inBlock)[i])
  {
    if lines != [] {
      var b := if TrimSpace(lines[0]) == Begin(host) then true else inBlock && TrimSpace(lines[0]) != End(host);
      KeptLines(lines[1..], host, b);
    }
  }

  // The kept lines are the lines of the body, but for blank ones at the end.
  lemma BodyLines(existing: string, host: string) returns (k: nat)
    ensures var kept := Keep(Lines(existing), host, false);
      if kept == [] then Lines(Body(existing, host)) == [""] && k == 0
      else kept == Lines(Body(existing, host)) + Blanks(k)
  {
    var kept := Keep(Lines(existing), host, false);
    LinesAreLines(existing);
    KeptLines(Lines(existing), host, false);
    if kept == [] {
      k := 0;
    } else {
      LinesOfJoin(kept);
      k := TrimDropsBlanks(Join(kept));
    }
  }

  // ---------------------------------------------------------------- rewriting twice

  lemma {:induction false} KeepConcat(a: seq<string>, b: seq<string>, host: string)
    requires Clear(a, host)
    ensures Keep(a + b, host, false) == a + Keep(b, host, false)
  {
    if a == [] {
      assert a + b == b;
    } else {
      assert (a + b)[1..] == a[1..] + b;
      KeepConcat(a[1..], b, host);
    }
  }

  // No line of the host: neither its begin marker nor a mapping of it.
  predicate Clear(lines: seq<string>, host: string) {
    forall i :: 0 <= i < |lines| ==> TrimSpace(lines[i]) != Begin(host) && !LineMaps(lines[i], host)
  }

  lemma {:induction false} KeptIsClear(lines: seq<string>, host: string, inBlock: bool)
    ensures Clear(Keep(lines, host, inBlock), host)
  {
    if lines != [] {
      var b := if TrimSpace(lines[0]) == Begin(host) then true else inBlock && TrimSpace(lines[0]) != End(host);
      KeptIsClear(lines[1..], host, b);
    }
  }

  lemma MarkersTrimmed(host: string)
    requires Solid(host)
    ensures TrimSpace(Begin(host)) == Begin(host) && TrimSpace(End(host)) == End(host) && Begin(host) != End(host)
  {
    TrimSolidEnds(Begin(host));
    TrimSolidEnds(End(host));
    assert Begin(host)[2] == 'B' && End(host)[2] == 'E';
  }

  lemma AddressLineTrimmed(addr: string, host: string)
    requires Solid(host) && Solid(addr) && addr[0] != '#'
    ensures var line := addr + "\t" + host; TrimSpace(line) == line && line[0] != '#' && Fields(line) == [addr, host]
  {
    TrimSolidEnds(addr + "\t" + host);
    FieldsOfPair(addr, host);
  }

  // Inside its block, a host's address lines and end marker are skipped.
  lemma {:induction false} BlockSkipped(host: string, addrs: seq<string>, rest: seq<string>)
    requires Solid(host) && Words(addrs)
    ensures Keep(AddressLines(host, addrs) + [End(host)] + rest, host, true) == Keep(rest, host, false)
  {
    var lines := AddressLines(host, addrs) + [End(host)] + rest;
    MarkersTrimmed(host);
    if addrs == [] {
      assert lines[1..] == rest;
    } else {
      AddressLineTrimmed(addrs[0], host);
      assert lines[1..] == AddressLines(host, addrs[1..]) + [End(host)] + rest;
      BlockSkipped(host, addrs[1..], rest);
    }
  }

  lemma OwnBlockDropped(host: string, addrs: seq<string>, rest: seq<string>)
    requires Solid(host) && Words(addrs)
    ensures Keep(BlockLines(host, addrs) + rest, host, false) == Keep(rest, host, false)
  {
    MarkersTrimmed(host);
    var lines := BlockLines(host, addrs) + rest;
    assert lines[1..] == AddressLines(host, addrs) + [End(host)] + rest;
    BlockSkipped(host, addrs, rest);
  }

  lemma BlankIsClear(host: string)
    ensures Clear([""], host)
  {
    assert TrimSpace("") == "";
    assert Begin(host) != "";
  }

  // Rewriting a host to the same addresses again changes nothing, whatever the file was.
  lemma Idempotent(existing: string, host: string, addrs: seq<string>)
    requires Solid(host) && Words(addrs)
    ensures var once := Rewritten(existing, host, addrs); Rewritten(once, host, addrs) == once
  {
    var once, body := Rewritten(existing, host, addrs), Body(existing, host);
    ResultLines(existing, host, addrs);
    BodyIsClear(existing, host);
    BlankIsClear(host);
    var front := Lines(body) + [""];
    assert Lines(once) == front + (BlockLines(host, addrs) + [""]);
    KeepConcat(front, BlockLines(host, addrs) + [""], host);
    OwnBlockDropped(host, addrs, [""]);
    KeepConcat([""], [], host);
    assert [""] + [] == [""];
    var kept := Keep(Lines(once), host, false);
    assert kept == Lines(body) + ["", ""];
    TwoBlanks(body);
    TrimIsTrimmed(Join(Keep(Lines(existing), host, false)));
    TrimTwoNewlines(body);
  }

  lemma TwoBlanks(body: string)
    ensures Join(Lines(body) + ["", ""]) == body + "\n\n"
  {
    LinesConcat(body, "");
    LinesConcat(body + "\n", "");
    assert body + "\n" + "" == body + "\n";
    assert body + "\n" + "\n" + "" == body + "\n\n";
    assert Lines(body + "\n\n") == Lines(body) + ["", ""];
    JoinOfLines(body + "\n\n");
  }

  lemma BodyIsClear(existing: string, host: string)
    ensures Clear(Lines(Body(existing, host)), host)
  {
    var kept, lines := Keep(Lines(existing), host, false), Lines(Body(existing, host));
    var k := BodyLines(existing, host);
    KeptIsClear(Lines(existing), host, false);
    BlankIsClear(host);
    if kept != [] {
      forall i | 0 <= i < |lines| ensures lines[i] == kept[i] {
      }
    }
  }

  // ---------------------------------------------------------------- exactly what survives

  // Whether a block of the host is open after these lines.
  predicate OpenAfter(lines: seq<string>, host: string, open: bool) {
    if lines == [] then open
    else
      var trimmed := TrimSpace(lines[0]);
      OpenAfter(lines[1..], host, trimmed == Begin(host) || (open && trimmed != End(host)))
  }

  lemma {:induction false} KeepSplit(a: seq<string>, b: seq<string>, host: string, open: bool)
    ensures Keep(a + b, host, open) == Keep(a, host, open) + Keep(b, host, OpenAfter(a, host, open))
    ensures OpenAfter(a + b, host, open) == OpenAfter(b, host, OpenAfter(a, host, open))
  {
    if a == [] {
      assert a + b == b;
    } else {
      assert (a + b)[1..] == a[1..] + b && (a + b)[0] == a[0];
      var trimmed := TrimSpace(a[0]);
      KeepSplit(a[1..], b, host, trimmed == Begin(host) || (open && trimmed != End(host)));
    }
  }

  predicate Foreign(line: string, host: string) {
    line != "" && TrimSpace(line) != Begin(host) && TrimSpace(line) != End(host) && !LineMaps(line, host)
  }

  // A line of another host that stands once in a file is in the rewritten file exactly when no block of
  // the rewritten host is open at it.
  lemma SurvivesExactlyWhen(existing: string, host: string, addrs: seq<string>, a: seq<string>, line: string, b: seq<string>)
    requires Solid(host) && Words(addrs) && Lines(existing) == a + [line] + b
    requires Foreign(line, host) && line !in a && line !in b
    ensures line in Lines(Rewritten(existing, host, addrs)) <==> !OpenAfter(a, host, false)
  {
    var open := OpenAfter(a, host, false);
    var kept := Keep(Lines(existing), host, false);
    assert a + [line] + b == a + ([line] + b);
    KeepSplit(a, [line] + b, host, false);
    KeepSplit([line], b, host, open);
    assert [line][1..] == [];
    KeptIn(a, host, false, line);
    KeptIn(b, host, OpenAfter([line], host, open), line);
    assert line in kept <==> !open;
    InBodyOrBlank(existing, host, line);
    ResultLines(existing, host, addrs);
    NotInBlock(line, host, addrs);
  }

  lemma {:induction false} KeptIn(lines: seq<string>, host: string, open: bool, line: string)
    ensures line in Keep(lines, host, open) ==> line in lines
  {
    if lines != [] {
      var trimmed := TrimSpace(lines[0]);
      KeptIn(lines[1..], host, trimmed == Begin(host) || (open && trimmed != End(host)), line);
    }
  }

  lemma {:induction false} OnlyBlanks(k: nat)
    ensures forall i :: 0 <= i < |Blanks(k)| ==> Blanks(k)[i] == ""
  {
    if k > 0 {
      OnlyBlanks(k - 1);
    }
  }

  lemma InBodyOrBlank(existing: string, host: string, line: string)
    requires line != ""
    ensures line in Keep(Lines(existing), host, false) <==> line in Lines(Body(existing, host))
  {
    var k := BodyLines(existing, host);
    OnlyBlanks(k);
  }

  lemma {:induction false} NotAnAddress(line: string, host: string, addrs: seq<string>)
    requires Solid(host) && Words(addrs) && !LineMaps(line, host)
    ensures line !in AddressLines(host, addrs)
  {
    if addrs != [] {
      AddressLineTrimmed(addrs[0], host);
      NotAnAddress(line, host, addrs[1..]);
    }
  }

  lemma NotInBlock(line: string, host: string, addrs: seq<string>)
    requires Solid(host) && Words(addrs) && Foreign(line, host)
    ensures line !in [""] + BlockLines(host, addrs) + [""]
  {
    MarkersTrimmed(host);
    NotAnAddress(line, host, addrs);
  }

  // So a begin marker with no end marker takes the rest of the file with it: the rewritten file is that
  // of the part before the marker.
  lemma UnclosedBlockTakesAll(before: string, after: string, host: string, addrs: seq<string>)
    requires Solid(host) && forall i :: 0 <= i < |Lines(after)| ==> TrimSpace(Lines(after)[i]) != End(host)
    ensures Rewritten(before + "\n" + (Begin(host) + "\n" + after), host, addrs) == Rewritten(before, host, addrs)
  {
    LinesAroundBegin(before, after, host);
    KeepBeforeBegin(Lines(before), Lines(after), host);
  }

  lemma LinesAroundBegin(before: string, after: string, host: string)
    requires Solid(host)
    ensures Lines(before + "\n" + (Begin(host) + "\n" + after)) == Lines(before) + ([Begin(host)] + Lines(after))
  {
    LinesConcat(before, Begin(host) + "\n" + after);
    LinesConcat(Begin(host), after);
    SolidIsOneLine(host);
    LinesOfLine(Begin(host));
  }

  lemma KeepBeforeBegin(a: seq<string>, b: seq<string>, host: string)
    requires Solid(host) && forall i :: 0 <= i < |b| ==> TrimSpace(b[i]) != End(host)
    ensures Keep(a + ([Begin(host)] + b), host, false) == Keep(a, host, false)
  {
    MarkersTrimmed(host);
    KeepSplit(a, [Begin(host)] + b, host, false);
    assert ([Begin(host)] + b)[1..] == b;
    NothingKeptInside(b, host);
  }

  lemma {:induction false} NothingKeptInside(lines: seq<string>, host: string)
    requires forall i :: 0 <= i < |lines| ==> TrimSpace(lines[i]) != End(host)
    ensures Keep(lines, host, true) == []
  {
    if lines != [] {
      NothingKeptInside(lines[1..], host);
    }
  }
}
