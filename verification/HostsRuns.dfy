/** Any sequence of rewrites of a hosts file: what each host resolves to, and what survives. */
module HostsRuns {
  import opened Text
  import opened TextLines
  import opened ManagedHosts

  datatype Write = Write(host: string, addrs: seq<string>)

  datatype Item = Line(text: string) | Block(write: Write)

  function ItemLines(x: Item): seq<string> {
    match x case Line(text) => [text] case Block(w) => BlockLines(w.host, w.addrs)
  }

  function Flatten(items: seq<Item>): seq<string> {
    if items == [] then [] else ItemLines(items[0]) + Flatten(items[1..])
  }

  predicate Sound(w: Write) { Solid(w.host) && Words(w.addrs) }

  // A line that begins no managed block, of whatever host.
  predicate Plain(line: string) { !(BEGIN_PREFIX <= TrimSpace(line)) }

  predicate Good(x: Item) { match x case Line(text) => Plain(text) case Block(w) => Sound(w) }

  predicate WellFormed(items: seq<Item>) { forall i :: 0 <= i < |items| ==> Good(items[i]) }

  lemma {:induction false} FlattenConcat(a: seq<Item>, b: seq<Item>)
    ensures Flatten(a + b) == Flatten(a) + Flatten(b)
  {
    if a == [] {
      assert a + b == b;
    } else {
      assert (a + b)[1..] == a[1..] + b;
      FlattenConcat(a[1..], b);
    }
  }

  // ---------------------------------------------------------------- one rewrite, on items

  predicate Stays(x: Item, host: string) {
    match x case Line(text) => !LineMaps(text, host) case Block(w) => w.host != host
  }

  function Filter(items: seq<Item>, host: string): seq<Item> {
    if items == [] then [] else (if Stays(items[0], host) then [items[0]] else []) + Filter(items[1..], host)
  }

  lemma BeginsDiffer(host: string, other: string)
    requires host != other
    ensures Begin(host) != Begin(other)
  {
    assert Begin(host)[|BEGIN_PREFIX|..] == host && Begin(other)[|BEGIN_PREFIX|..] == other;
  }

  // Another host's block has nothing of this one.
  lemma {:induction false} AddressesClear(w: Write, host: string)
    requires Sound(w) && w.host != host
    ensures Clear(AddressLines(w.host, w.addrs), host)
    decreases |w.addrs|
  {
    if w.addrs != [] {
      AddressLineTrimmed(w.addrs[0], w.host);
      assert Begin(host)[0] == '#';
      AddressesClear(Write(w.host, w.addrs[1..]), host);
    }
  }

  lemma BlockClear(w: Write, host: string)
    requires Sound(w) && w.host != host
    ensures Clear(BlockLines(w.host, w.addrs), host)
  {
    MarkersTrimmed(w.host);
    BeginsDiffer(w.host, host);
    AddressesClear(w, host);
    assert End(w.host)[2] == 'E' && Begin(host)[2] == 'B';
  }

  lemma KeepItem(x: Item, rest: seq<string>, host: string)
    requires Good(x) && Solid(host)
    ensures Keep(ItemLines(x) + rest, host, false) == (if Stays(x, host) then ItemLines(x) else []) + Keep(rest, host, false)
  {
    match x {
      case Line(text) =>
        assert BEGIN_PREFIX <= Begin(host);
        assert ([text] + rest)[1..] == rest;
      case Block(w) =>
        if w.host == host {
          OwnBlockDropped(host, w.addrs, rest);
        } else {
          BlockClear(w, host);
          KeepConcat(BlockLines(w.host, w.addrs), rest, host);
        }
    }
  }

  lemma FilterCons(x: Item, rest: seq<Item>, host: string)
    ensures Flatten(Filter([x] + rest, host)) == (if Stays(x, host) then ItemLines(x) else []) + Flatten(Filter(rest, host))
  {
    var now := if Stays(x, host) then [x] else [];
    assert ([x] + rest)[1..] == rest;
    assert Filter([x] + rest, host) == now + Filter(rest, host);
    FlattenConcat(now, Filter(rest, host));
    FlattenOne(x);
  }

  lemma {:induction false} KeepFlatten(items: seq<Item>, host: string)
    requires WellFormed(items) && Solid(host)
    ensures Keep(Flatten(items), host, false) == Flatten(Filter(items, host))
  {
    if items != [] {
      var x, rest := items[0], items[1..];
      KeepFlatten(rest, host);
      assert Good(x);
      KeepItem(x, Flatten(rest), host);
      FilterCons(x, rest, host);
      assert items == [x] + rest;
    }
  }

  function BlankItems(k: nat): seq<Item> { if k == 0 then [] else BlankItems(k - 1) + [Line("")] }

  lemma FlattenSnoc(items: seq<Item>) returns (front: seq<Item>, x: Item)
    requires items != []
    ensures items == front + [x] && Flatten(items) == Flatten(front) + ItemLines(x)
  {
    front, x := items[..|items| - 1], items[|items| - 1];
    assert items == front + [x];
    FlattenConcat(front, [x]);
    FlattenOne(x);
  }

  lemma BlankTail(a: seq<string>, b: seq<string>, c: seq<string>)
    requires a + b == c + [""] && b != []
    ensures b[|b| - 1] == "" && (|b| == 1 ==> a == c)
  {
    assert (a + b)[|a + b| - 1] == b[|b| - 1];
    assert |b| == 1 ==> (a + b)[..|a|] == a && (c + [""])[..|c|] == c;
  }

  // A last line that is blank is a plain line of its own: no block ends with one.
  lemma LastIsBlank(items: seq<Item>, lines: seq<string>) returns (front: seq<Item>, x: Item)
    requires WellFormed(items) && Flatten(items) == lines + [""]
    ensures items == front + [Line("")] && x == Line("") && WellFormed(front) && Flatten(front) == lines
  {
    front, x := FlattenSnoc(items);
    BlankTail(Flatten(front), ItemLines(x), lines);
    assert x.Block? ==> ItemLines(x)[|ItemLines(x)| - 1] == End(x.write.host);
    assert Flatten(front) == lines;
    forall i | 0 <= i < |front| ensures Good(front[i]) {
      assert front[i] == items[i];
    }
  }

  lemma {:induction false} DropBlanks(items: seq<Item>, lines: seq<string>, k: nat) returns (base: seq<Item>)
    requires WellFormed(items) && Flatten(items) == lines + Blanks(k)
    ensures WellFormed(base) && Flatten(base) == lines && items == base + BlankItems(k)
    decreases k
  {
    if k == 0 {
      base := items;
    } else {
      assert lines + Blanks(k) == lines + Blanks(k - 1) + [""];
      var front, x := LastIsBlank(items, lines + Blanks(k - 1));
      base := DropBlanks(front, lines, k - 1);
      assert base + BlankItems(k - 1) + [Line("")] == base + (BlankItems(k - 1) + [Line("")]);
    }
  }

  // The non-blank plain lines, and the managed blocks, in order.
  function Texts(items: seq<Item>): seq<string> {
    if items == [] then []
    else (if items[0].Line? && items[0].text != "" then [items[0].text] else []) + Texts(items[1..])
  }

  function Blocks(items: seq<Item>): seq<Write> {
    if items == [] then [] else (if items[0].Block? then [items[0].write] else []) + Blocks(items[1..])
  }

  function Unmapped(lines: seq<string>, host: string): seq<string> {
    if lines == [] then [] else (if LineMaps(lines[0], host) then [] else [lines[0]]) + Unmapped(lines[1..], host)
  }

  function Without(writes: seq<Write>, host: string): seq<Write> {
    if writes == [] then [] else (if writes[0].host == host then [] else [writes[0]]) + Without(writes[1..], host)
  }

  lemma {:induction false} TextsConcat(a: seq<Item>, b: seq<Item>)
    ensures Texts(a + b) == Texts(a) + Texts(b)
  {
    if a == [] {
      assert a + b == b;
    } else {
      assert (a + b)[1..] == a[1..] + b && (a + b)[0] == a[0];
      TextsConcat(a[1..], b);
      var now := if a[0].Line? && a[0].text != "" then [a[0].text] else [];
      assert now + (Texts(a[1..]) + Texts(b)) == now + Texts(a[1..]) + Texts(b);
    }
  }

  lemma {:induction false} BlocksConcat(a: seq<Item>, b: seq<Item>)
    ensures Blocks(a + b) == Blocks(a) + Blocks(b)
  {
    if a == [] {
      assert a + b == b;
    } else {
      assert (a + b)[1..] == a[1..] + b && (a + b)[0] == a[0];
      BlocksConcat(a[1..], b);
      var now := if a[0].Block? then [a[0].write] else [];
      assert now + (Blocks(a[1..]) + Blocks(b)) == now + Blocks(a[1..]) + Blocks(b);
    }
  }

  lemma ViewOne(x: Item)
    ensures Texts([x]) == (if x.Line? && x.text != "" then [x.text] else [])
    ensures Blocks([x]) == if x.Block? then [x.write] else []
  {
    assert [x][1..] == [];
  }

  lemma {:induction false} UnmappedConcat(a: seq<string>, b: seq<string>, host: string)
    ensures Unmapped(a + b, host) == Unmapped(a, host) + Unmapped(b, host)
  {
    if a == [] {
      assert a + b == b;
    } else {
      assert (a + b)[1..] == a[1..] + b;
      UnmappedConcat(a[1..], b, host);
    }
  }

  lemma {:induction false} WithoutConcat(a: seq<Write>, b: seq<Write>, host: string)
    ensures Without(a + b, host) == Without(a, host) + Without(b, host)
  {
    if a == [] {
      assert a + b == b;
    } else {
      assert (a + b)[1..] == a[1..] + b;
      WithoutConcat(a[1..], b, host);
    }
  }

  lemma {:induction false} TextsOfFilter(items: seq<Item>, host: string)
    ensures Texts(Filter(items, host)) == Unmapped(Texts(items), host)
  {
    if items != [] {
      var x, rest := items[0], items[1..];
      TextsOfFilter(rest, host);
      var now := if x.Line? && x.text != "" then [x.text] else [];
      UnmappedConcat(now, Texts(rest), host);
      TextsConcat(if Stays(x, host) then [x] else [], Filter(rest, host));
      ViewOne(x);
    }
  }

  lemma {:induction false} BlocksOfFilter(items: seq<Item>, host: string)
    ensures Blocks(Filter(items, host)) == Without(Blocks(items), host)
  {
    if items != [] {
      var x, rest := items[0], items[1..];
      BlocksOfFilter(rest, host);
      var now := if x.Block? then [x.write] else [];
      WithoutConcat(now, Blocks(rest), host);
      BlocksConcat(if Stays(x, host) then [x] else [], Filter(rest, host));
      ViewOne(x);
    }
  }

  lemma {:induction false} FilterWellFormed(items: seq<Item>, host: string)
    requires WellFormed(items)
    ensures WellFormed(Filter(items, host))
  {
    if items != [] {
      FilterWellFormed(items[1..], host);
    }
  }

  lemma {:induction false} BlankViews(k: nat)
    ensures Texts(BlankItems(k)) == [] && Blocks(BlankItems(k)) == []
  {
    if k > 0 {
      BlankViews(k - 1);
      TextsConcat(BlankItems(k - 1), [Line("")]);
      BlocksConcat(BlankItems(k - 1), [Line("")]);
      ViewOne(Line(""));
      assert BlankItems(k) == BlankItems(k - 1) + [Line("")];
    }
  }

  lemma BlankTailViews(base: seq<Item>, k: nat)
    ensures Texts(base + BlankItems(k)) == Texts(base) && Blocks(base + BlankItems(k)) == Blocks(base)
  {
    BlankViews(k);
    TextsConcat(base, BlankItems(k));
    BlocksConcat(base, BlankItems(k));
  }

  lemma OneBlankItem()
    ensures WellFormed([Line("")]) && Flatten([Line("")]) == [""] && Texts([Line("")]) == [] && Blocks([Line("")]) == []
  {
    assert TrimSpace("") == "" && Plain("");
    FlattenOne(Line(""));
    ViewOne(Line(""));
  }

  lemma KeptItems(existing: string, items: seq<Item>, host: string) returns (base: seq<Item>)
    requires WellFormed(items) && Flatten(items) == Keep(Lines(existing), host, false)
    ensures WellFormed(base) && Flatten(base) == Lines(Body(existing, host))
    ensures Texts(base) == Texts(items) && Blocks(base) == Blocks(items)
  {
    var k := BodyLines(existing, host);
    if Flatten(items) == [] {
      NothingLeft(items);
      OneBlankItem();
      base := [Line("")];
    } else {
      base := DropBlanks(items, Lines(Body(existing, host)), k);
      BlankTailViews(base, k);
    }
  }

  // The items of the body a rewrite keeps.
  lemma BodyItems(existing: string, items: seq<Item>, host: string) returns (base: seq<Item>)
    requires WellFormed(items) && Flatten(items) == Lines(existing) && Solid(host)
    ensures WellFormed(base) && Flatten(base) == Lines(Body(existing, host))
    ensures Texts(base) == Unmapped(Texts(items), host) && Blocks(base) == Without(Blocks(items), host)
  {
    KeepFlatten(items, host);
    FilterWellFormed(items, host);
    base := KeptItems(existing, Filter(items, host), host);
    TextsOfFilter(items, host);
    BlocksOfFilter(items, host);
  }

  // One rewrite: the host's block is replaced, lines that map the host go, all else stays in order.
  lemma RewriteItems(existing: string, items: seq<Item>, w: Write) returns (next: seq<Item>)
    requires WellFormed(items) && Flatten(items) == Lines(existing) && Sound(w)
    ensures WellFormed(next) && Flatten(next) == Lines(Rewritten(existing, w.host, w.addrs))
    ensures Texts(next) == Unmapped(Texts(items), w.host)
    ensures Blocks(next) == Without(Blocks(items), w.host) + [w]
  {
    var base := BodyItems(existing, items, w.host);
    next := base + TailOf(w);
    TailItems(w);
    FlattenConcat(base, TailOf(w));
    TextsConcat(base, TailOf(w));
    BlocksConcat(base, TailOf(w));
    ResultLines(existing, w.host, w.addrs);
  }

  function TailOf(w: Write): seq<Item> { [Line("")] + ([Block(w)] + [Line("")]) }

  lemma NothingLeft(items: seq<Item>)
    requires Flatten(items) == []
    ensures items == []
  {
  }

  lemma FlattenOne(x: Item)
    ensures Flatten([x]) == ItemLines(x)
  {
    assert [x][1..] == [];
  }

  lemma TailItems(w: Write)
    ensures Flatten(TailOf(w)) == [""] + BlockLines(w.host, w.addrs) + [""]
    ensures Texts(TailOf(w)) == [] && Blocks(TailOf(w)) == [w]
    ensures Sound(w) ==> WellFormed(TailOf(w))
  {
    assert TrimSpace("") == "" && Plain("");
    var a, b := [Line("")], [Block(w)];
    FlattenConcat(a, b + a);
    FlattenConcat(b, a);
    FlattenOne(a[0]);
    FlattenOne(b[0]);
    TextsConcat(a, b + a);
    TextsConcat(b, a);
    BlocksConcat(a, b + a);
    BlocksConcat(b, a);
    ViewOne(a[0]);
    ViewOne(b[0]);
  }

  // ---------------------------------------------------------------- any sequence of rewrites

  function After(file: string, writes: seq<Write>): string {
    if writes == [] then file
    else
      var w := writes[|writes| - 1];
      Rewritten(After(file, writes[..|writes| - 1]), w.host, w.addrs)
  }

  // The last write of each host, in the order of those last writes.
  function LastWrites(writes: seq<Write>): seq<Write> {
    if writes == [] then []
    else
      var w := writes[|writes| - 1];
      Without(LastWrites(writes[..|writes| - 1]), w.host) + [w]
  }

  function UnmappedByAll(lines: seq<string>, writes: seq<Write>): seq<string> {
    if writes == [] then lines
    else Unmapped(UnmappedByAll(lines, writes[..|writes| - 1]), writes[|writes| - 1].host)
  }

  function NonBlank(lines: seq<string>): seq<string> {
    if lines == [] then [] else (if lines[0] != "" then [lines[0]] else []) + NonBlank(lines[1..])
  }

  function AsItems(lines: seq<string>): seq<Item> {
    if lines == [] then [] else [Line(lines[0])] + AsItems(lines[1..])
  }

  lemma {:induction false} PlainItems(lines: seq<string>)
    requires forall i :: 0 <= i < |lines| ==> Plain(lines[i])
    ensures WellFormed(AsItems(lines)) && Flatten(AsItems(lines)) == lines
    ensures Texts(AsItems(lines)) == NonBlank(lines) && Blocks(AsItems(lines)) == []
  {
    if lines != [] {
      PlainItems(lines[1..]);
    }
  }

  // After any rewrites of a file with no managed block: every non-blank line that maps none of the
  // written hosts is still there, in order; and there is exactly one block for each written host, with
  // the addresses it was last written.
  lemma {:induction false} AnyRun(file: string, writes: seq<Write>) returns (items: seq<Item>)
    requires forall i :: 0 <= i < |Lines(file)| ==> Plain(Lines(file)[i])
    requires forall i :: 0 <= i < |writes| ==> Sound(writes[i])
    ensures WellFormed(items) && Flatten(items) == Lines(After(file, writes))
    ensures Texts(items) == UnmappedByAll(NonBlank(Lines(file)), writes)
    ensures Blocks(items) == LastWrites(writes)
  {
    if writes == [] {
      items := AsItems(Lines(file));
      PlainItems(Lines(file));
    } else {
      var front, w := writes[..|writes| - 1], writes[|writes| - 1];
      var before := AnyRun(file, front);
      items := RewriteItems(After(file, front), before, w);
    }
  }

  // ---------------------------------------------------------------- what a host resolves to

  // The addresses of the lines that map a host, in order.
  function Resolve(lines: seq<string>, host: string): seq<string> {
    if lines == [] then []
    else (if LineMaps(lines[0], host) then [Fields(TrimSpace(lines[0]))[0]] else []) + Resolve(lines[1..], host)
  }

  lemma {:induction false} ResolveConcat(a: seq<string>, b: seq<string>, host: string)
    ensures Resolve(a + b, host) == Resolve(a, host) + Resolve(b, host)
  {
    if a == [] {
      assert a + b == b;
    } else {
      assert (a + b)[1..] == a[1..] + b && (a + b)[0] == a[0];
      ResolveConcat(a[1..], b, host);
      var now := if LineMaps(a[0], host) then [Fields(TrimSpace(a[0]))[0]] else [];
      assert now + (Resolve(a[1..], host) + Resolve(b, host)) == now + Resolve(a[1..], host) + Resolve(b, host);
    }
  }

  lemma {:induction false} ResolveAddresses(w: Write)
    requires Sound(w)
    ensures Resolve(AddressLines(w.host, w.addrs), w.host) == w.addrs
    decreases |w.addrs|
  {
    if w.addrs != [] {
      AddressLineTrimmed(w.addrs[0], w.host);
      ResolveAddresses(Write(w.host, w.addrs[1..]));
      assert w.addrs == [w.addrs[0]] + w.addrs[1..];
    }
  }

  lemma ResolveClear(lines: seq<string>, host: string)
    requires Clear(lines, host)
    ensures Resolve(lines, host) == []
  {
    if lines != [] {
      ResolveClear(lines[1..], host);
    }
  }

  lemma ResolveBlock(w: Write, host: string)
    requires Sound(w)
    ensures Resolve(BlockLines(w.host, w.addrs), host) == if w.host == host then w.addrs else []
  {
    if w.host == host {
      MarkersTrimmed(host);
      ResolveAddresses(w);
      CommentMapsNothing(Begin(host), host);
      CommentMapsNothing(End(host), host);
      ResolveInside([Begin(host)], AddressLines(host, w.addrs), [End(host)], host);
    } else {
      BlockClear(w, host);
      ResolveClear(BlockLines(w.host, w.addrs), host);
    }
  }

  lemma ResolveInside(a: seq<string>, b: seq<string>, c: seq<string>, host: string)
    requires Resolve(a, host) == [] && Resolve(c, host) == []
    ensures Resolve(a + b + c, host) == Resolve(b, host)
  {
    ResolveConcat(a + b, c, host);
    ResolveConcat(a, b, host);
  }

  lemma CommentMapsNothing(line: string, host: string)
    requires TrimSpace(line) == line && line != "" && line[0] == '#'
    ensures Resolve([line], host) == []
  {
    assert "#" <= line;
    assert [line][1..] == [];
  }

  lemma ResolveItem(x: Item, host: string)
    requires Good(x) && (x.Line? ==> !LineMaps(x.text, host))
    ensures Resolve(ItemLines(x), host) == Given(if x.Block? then [x.write] else [], host)
  {
    match x {
      case Line(text) => assert [text][1..] == [];
      case Block(w) =>
        ResolveBlock(w, host);
        assert [w][1..] == [];
    }
  }

  lemma {:induction false} ResolveItems(items: seq<Item>, host: string)
    requires WellFormed(items) && forall i :: 0 <= i < |items| && items[i].Line? ==> !LineMaps(items[i].text, host)
    ensures Resolve(Flatten(items), host) == Given(Blocks(items), host)
  {
    if items != [] {
      var x, rest := items[0], items[1..];
      assert Good(x);
      ResolveItem(x, host);
      ResolveItems(rest, host);
      ResolveConcat(ItemLines(x), Flatten(rest), host);
      GivenConcat(if x.Block? then [x.write] else [], Blocks(rest), host);
    }
  }

  // The addresses the blocks of a host give it, in order.
  function Given(writes: seq<Write>, host: string): seq<string> {
    if writes == [] then [] else (if writes[0].host == host then writes[0].addrs else []) + Given(writes[1..], host)
  }

  lemma {:induction false} GivenConcat(a: seq<Write>, b: seq<Write>, host: string)
    ensures Given(a + b, host) == Given(a, host) + Given(b, host)
  {
    if a == [] {
      assert a + b == b;
    } else {
      assert (a + b)[1..] == a[1..] + b && (a + b)[0] == a[0];
      GivenConcat(a[1..], b, host);
    }
  }

  lemma {:induction false} GivenWithout(writes: seq<Write>, host: string, other: string)
    ensures Given(Without(writes, other), host) == if host == other then [] else Given(writes, host)
  {
    if writes != [] {
      GivenWithout(writes[1..], host, other);
      var now := if writes[0].host == other then [] else [writes[0]];
      GivenConcat(now, Without(writes[1..], other), host);
      assert [writes[0]][1..] == [];
    }
  }

  // The addresses a host was last written; none if it never was.
  function LastAddrs(writes: seq<Write>, host: string): seq<string> {
    if writes == [] then []
    else if writes[|writes| - 1].host == host then writes[|writes| - 1].addrs
    else LastAddrs(writes[..|writes| - 1], host)
  }

  lemma {:induction false} LastIsGiven(writes: seq<Write>, host: string)
    ensures Given(LastWrites(writes), host) == LastAddrs(writes, host)
  {
    if writes != [] {
      var front, w := writes[..|writes| - 1], writes[|writes| - 1];
      LastIsGiven(front, host);
      GivenConcat(Without(LastWrites(front), w.host), [w], host);
      GivenWithout(LastWrites(front), host, w.host);
      assert [w][1..] == [];
    }
  }

  lemma {:induction false} NoneMap(lines: seq<string>, writes: seq<Write>, host: string)
    requires exists i :: 0 <= i < |writes| && writes[i].host == host
    ensures forall i :: 0 <= i < |UnmappedByAll(lines, writes)| ==> !LineMaps(UnmappedByAll(lines, writes)[i], host)
  {
    var front, w := writes[..|writes| - 1], writes[|writes| - 1];
    var before := UnmappedByAll(lines, front);
    if w.host == host {
      UnmappedMapsNot(before, host);
    } else {
      var i :| 0 <= i < |writes| && writes[i].host == host;
      assert front[i].host == host;
      NoneMap(lines, front, host);
      UnmappedSubset(before, w.host, host);
    }
  }

  lemma {:induction false} UnmappedMapsNot(lines: seq<string>, host: string)
    ensures forall i :: 0 <= i < |Unmapped(lines, host)| ==> !LineMaps(Unmapped(lines, host)[i], host)
  {
    if lines != [] {
      UnmappedMapsNot(lines[1..], host);
    }
  }

  lemma {:induction false} UnmappedSubset(lines: seq<string>, other: string, host: string)
    requires forall i :: 0 <= i < |lines| ==> !LineMaps(lines[i], host)
    ensures forall i :: 0 <= i < |Unmapped(lines, other)| ==> !LineMaps(Unmapped(lines, other)[i], host)
  {
    if lines != [] {
      UnmappedSubset(lines[1..], other, host);
    }
  }

  lemma {:induction false} TextsCover(items: seq<Item>, i: nat)
    requires i < |items| && items[i].Line? && items[i].text != ""
    ensures items[i].text in Texts(items)
  {
    if i > 0 {
      TextsCover(items[1..], i - 1);
    }
  }

  // Every host ever written resolves to exactly the addresses it was last written, in order.
  lemma HostResolvesToLast(file: string, writes: seq<Write>, host: string)
    requires forall i :: 0 <= i < |Lines(file)| ==> Plain(Lines(file)[i])
    requires forall i :: 0 <= i < |writes| ==> Sound(writes[i])
    requires exists i :: 0 <= i < |writes| && writes[i].host == host
    ensures Resolve(Lines(After(file, writes)), host) == LastAddrs(writes, host)
  {
    var items := AnyRun(file, writes);
    NoneMap(NonBlank(Lines(file)), writes, host);
    forall i | 0 <= i < |items| && items[i].Line? ensures !LineMaps(items[i].text, host) {
      if items[i].text != "" { TextsCover(items, i); }
    }
    ResolveItems(items, host);
    LastIsGiven(writes, host);
  }

  // ---------------------------------------------------------------- what a rewrite does to other names

  lemma {:induction false} BlanksResolveNothing(k: nat, name: string)
    ensures Resolve(Blanks(k), name) == []
  {
    if k > 0 {
      BlanksResolveNothing(k - 1, name);
      ResolveConcat(Blanks(k - 1), [""], name);
      BlankResolvesNothing(name);
    }
  }

  lemma BlankResolvesNothing(name: string)
    ensures Resolve([""], name) == []
  {
    assert TrimSpace("") == "";
    assert [""][1..] == [];
  }

  lemma TailResolvesNothing(w: Write, name: string)
    requires Sound(w) && name != w.host
    ensures Resolve([""] + BlockLines(w.host, w.addrs) + [""], name) == []
  {
    ResolveConcat([""] + BlockLines(w.host, w.addrs), [""], name);
    ResolveConcat([""], BlockLines(w.host, w.addrs), name);
    BlankResolvesNothing(name);
    ResolveBlock(w, name);
  }

  lemma BodyResolves(file: string, host: string, name: string)
    ensures Resolve(Lines(Body(file, host)), name) == Resolve(Keep(Lines(file), host, false), name)
  {
    var k := BodyLines(file, host);
    BlanksResolveNothing(k, name);
    BlankResolvesNothing(name);
    ResolveConcat(Lines(Body(file, host)), Blanks(k), name);
  }

  // Line i is stripped: it maps the host, or a block of the host is open at it.
  predicate Stripped(lines: seq<string>, host: string, open: bool, i: nat)
    requires i < |lines|
  {
    LineMaps(lines[i], host) || OpenAfter(lines[..i], host, open)
  }

  predicate NoneStripped(lines: seq<string>, host: string, open: bool, name: string) {
    forall i :: 0 <= i < |lines| && LineMaps(lines[i], name) ==> !Stripped(lines, host, open, i)
  }

  predicate OpenNext(line: string, host: string, open: bool) {
    TrimSpace(line) == Begin(host) || (open && TrimSpace(line) != End(host))
  }

  lemma StrippedLater(lines: seq<string>, host: string, open: bool, i: nat)
    requires 0 < i < |lines|
    ensures Stripped(lines, host, open, i) <==> Stripped(lines[1..], host, OpenNext(lines[0], host, open), i - 1)
  {
    assert lines[..i][1..] == lines[1..][..i - 1];
  }

  // A line that maps a name is no marker, and is kept exactly when it is not stripped.
  lemma KeepFirst(line: string, rest: seq<string>, host: string, open: bool, name: string)
    ensures Resolve(Keep([line] + rest, host, open), name) ==
      Resolve(if open || LineMaps(line, host) then [] else [line], name) + Resolve(Keep(rest, host, OpenNext(line, host, open)), name)
  {
    assert ([line] + rest)[1..] == rest && [line][1..] == [];
    assert Begin(host)[0] == '#';
    var kept := Keep(rest, host, OpenNext(line, host, open));
    ResolveConcat([line], kept, name);
    assert [] + kept == kept;
  }

  lemma {:induction false} KeepResolves(lines: seq<string>, host: string, open: bool, name: string)
    ensures |Resolve(Keep(lines, host, open), name)| <= |Resolve(lines, name)|
    ensures Resolve(Keep(lines, host, open), name) == Resolve(lines, name) <==> NoneStripped(lines, host, open, name)
    decreases |lines|
  {
    if lines != [] {
      var first, rest, next := lines[0], lines[1..], OpenNext(lines[0], host, open);
      KeepResolves(rest, host, next, name);
      assert lines == [first] + rest;
      KeepFirst(first, rest, host, open, name);
      ResolveConcat([first], rest, name);
      assert [first][1..] == [];
      SameFront(Resolve([first], name), Resolve(Keep(rest, host, next), name), Resolve(rest, name));
      FirstAndLater(lines, host, open, name);
    }
  }

  lemma FirstAndLater(lines: seq<string>, host: string, open: bool, name: string)
    requires lines != []
    ensures NoneStripped(lines, host, open, name) <==>
      (LineMaps(lines[0], name) ==> !LineMaps(lines[0], host) && !open) && NoneStripped(lines[1..], host, OpenNext(lines[0], host, open), name)
  {
    var rest, next := lines[1..], OpenNext(lines[0], host, open);
    assert lines[..0] == [];
    assert Stripped(lines, host, open, 0) <==> LineMaps(lines[0], host) || open;
    forall i | 0 <= i < |rest| ensures Stripped(lines, host, open, i + 1) <==> Stripped(rest, host, next, i) {
      StrippedLater(lines, host, open, i + 1);
    }
    forall i | 0 <= i < |rest| ensures rest[i] == lines[i + 1] {}
  }

  lemma SameFront(x: seq<string>, a: seq<string>, b: seq<string>)
    ensures x + a == x + b <==> a == b
  {
    assert (x + a)[|x|..] == a && (x + b)[|x|..] == b;
  }

  lemma OtherNameAfter(file: string, w: Write, name: string)
    requires Sound(w) && name != w.host
    ensures Resolve(Lines(Rewritten(file, w.host, w.addrs)), name) == Resolve(Keep(Lines(file), w.host, false), name)
  {
    ResultLines(file, w.host, w.addrs);
    TailResolvesNothing(w, name);
    BodyResolves(file, w.host, name);
    ResolveConcat(Lines(Body(file, w.host)), [""] + BlockLines(w.host, w.addrs) + [""], name);
  }

  // Lines are stripped whole: whatever the file, another name keeps its addresses exactly when none of its
  // lines maps the host as well or stands where a block of the host is open.
  lemma OtherNameKeepsExactlyWhen(file: string, w: Write, name: string)
    requires Sound(w) && name != w.host
    ensures Resolve(Lines(Rewritten(file, w.host, w.addrs)), name) == Resolve(Lines(file), name)
      <==> forall i :: 0 <= i < |Lines(file)| && LineMaps(Lines(file)[i], name) ==> !Stripped(Lines(file), w.host, false, i)
  {
    OtherNameAfter(file, w, name);
    KeepResolves(Lines(file), w.host, false, name);
  }

  // A file in which it does not: its block of the host was never closed.
  lemma OpenBlockLosesName(w: Write, addr: string, name: string)
    requires Sound(w) && Words([addr]) && Solid(name) && name != w.host
    ensures var file := Join([Begin(w.host), addr + "\t" + name]);
      Resolve(Lines(file), name) == [addr] && Resolve(Lines(Rewritten(file, w.host, w.addrs)), name) == []
  {
    var line := addr + "\t" + name;
    assert Solid([addr][0]);
    AddressLineTrimmed(addr, name);
    SolidIsOneLine(addr);
    SolidIsOneLine(name);
    SolidIsOneLine(w.host);
    LinesOfJoin([Begin(w.host), line]);
    OpenBlockLines(w.host, line, addr, name);
    OtherNameAfter(Join([Begin(w.host), line]), w, name);
  }

  lemma OpenBlockLines(host: string, line: string, addr: string, name: string)
    requires Solid(host) && line != "" && line[0] != '#' && TrimSpace(line) == line && Fields(line) == [addr, name]
    ensures Resolve([Begin(host), line], name) == [addr] && Keep([Begin(host), line], host, false) == []
  {
    MarkersTrimmed(host);
    CommentMapsNothing(Begin(host), name);
    assert [Begin(host)] + [line] == [Begin(host), line];
    ResolveConcat([Begin(host)], [line], name);
    PairResolves(line, addr, name);
    KeepBegin(host, [line]);
    KeepInside(line, host);
  }

  lemma PairResolves(line: string, addr: string, name: string)
    requires line != "" && line[0] != '#' && TrimSpace(line) == line && Fields(line) == [addr, name]
    ensures Resolve([line], name) == [addr]
  {
    assert [line][1..] == [];
    assert name == Fields(line)[1..][0];
  }

  lemma KeepBegin(host: string, rest: seq<string>)
    requires TrimSpace(Begin(host)) == Begin(host)
    ensures Keep([Begin(host)] + rest, host, false) == Keep(rest, host, true)
  {
    assert ([Begin(host)] + rest)[1..] == rest;
  }

  lemma KeepInside(line: string, host: string)
    ensures Keep([line], host, true) == []
  {
    assert [line][1..] == [];
  }
}
