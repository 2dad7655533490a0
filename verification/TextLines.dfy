/** Lines and fields of a text: splitting, joining, and trimming trailing newlines. */
module TextLines {
  import opened Text

  function Lines(s: string): (lines: seq<string>)
    ensures lines != []
  {
    Split(s, '\n')
  }

  function Join(lines: seq<string>): string {
    if lines == [] then ""
    else if |lines| == 1 then lines[0]
    else lines[0] + "\n" + Join(lines[1..])
  }

  predicate OneLine(s: string) { '\n' !in s }

  lemma {:induction false} LinesAreLines(s: string)
    ensures forall i :: 0 <= i < |Lines(s)| ==> OneLine(Lines(s)[i])
  {
    if s != "" {
      LinesAreLines(s[1..]);
      var rest := Lines(s[1..]);
      assert OneLine(rest[0]);
      forall i | 0 <= i < |Lines(s)| ensures OneLine(Lines(s)[i]) {
        if i > 0 { assert Lines(s)[i] == if s[0] == '\n' then rest[i - 1] else rest[i]; }
      }
    }
  }

  lemma {:induction false} LinesOfLine(s: string)
    requires OneLine(s)
    ensures Lines(s) == [s]
  {
    if s != "" {
      LinesOfLine(s[1..]);
      assert [s[0]] + s[1..] == s;
    }
  }

  // A newline between two texts separates their lines.
  lemma {:induction false} LinesConcat(a: string, b: string)
    ensures Lines(a + "\n" + b) == Lines(a) + Lines(b)
  {
    var s := a + "\n" + b;
    if a == "" {
      assert s[1..] == b;
    } else {
      assert s[1..] == a[1..] + "\n" + b;
      LinesConcat(a[1..], b);
      assert s[0] == a[0];
    }
  }

  lemma {:induction false} LinesOfJoin(lines: seq<string>)
    requires lines != [] && forall i :: 0 <= i < |lines| ==> OneLine(lines[i])
    ensures Lines(Join(lines)) == lines
  {
    LinesOfLine(lines[0]);
    if |lines| > 1 {
      LinesOfJoin(lines[1..]);
      LinesConcat(lines[0], Join(lines[1..]));
      assert lines == [lines[0]] + lines[1..];
    }
  }

  lemma {:induction false} JoinOfLines(s: string)
    ensures Join(Lines(s)) == s
  {
    if s != "" {
      JoinOfLines(s[1..]);
      var rest := Lines(s[1..]);
      if s[0] == '\n' {
        assert ([""] + rest)[1..] == rest;
        assert "" + "\n" + Join(rest) == s;
      } else {
        var lines := [[s[0]] + rest[0]] + rest[1..];
        assert lines[1..] == rest[1..];
        assert s == [s[0]] + s[1..];
      }
    }
  }

  // ---------------------------------------------------------------- trailing newlines

  function TrimNewlines(s: string): string {
    if s != "" && s[|s| - 1] == '\n' then TrimNewlines(s[..|s| - 1]) else s
  }

  function Blanks(k: nat): seq<string> { if k == 0 then [] else Blanks(k - 1) + [""] }

  // Trimming a text's newlines drops blank lines from its end, and nothing else.
  lemma {:induction false} TrimDropsBlanks(s: string) returns (k: nat)
    ensures Lines(s) == Lines(TrimNewlines(s)) + Blanks(k)
  {
    if s != "" && s[|s| - 1] == '\n' {
      var front := s[..|s| - 1];
      k := TrimDropsBlanks(front);
      assert s == front + "\n" + "";
      LinesConcat(front, "");
      k := k + 1;
    } else {
      k := 0;
    }
  }

  lemma {:induction false} TrimIsTrimmed(s: string)
    ensures TrimNewlines(s) == "" || TrimNewlines(s)[|TrimNewlines(s)| - 1] != '\n'
  {
    if s != "" && s[|s| - 1] == '\n' {
      TrimIsTrimmed(s[..|s| - 1]);
    }
  }

  lemma TrimTwoNewlines(s: string)
    requires s == "" || s[|s| - 1] != '\n'
    ensures TrimNewlines(s + "\n\n") == s
  {
    var one, two := s + "\n", s + "\n\n";
    assert two[|two| - 1] == '\n' && two[..|two| - 1] == one;
    assert one[|one| - 1] == '\n' && one[..|one| - 1] == s;
    assert TrimNewlines(s) == s;
    assert TrimNewlines(one) == s;
  }

  // ---------------------------------------------------------------- fields

  function Word(s: string): (w: string)
    ensures |w| <= |s|
    ensures s != "" && !IsSpace(s[0]) ==> w != ""
  {
    if s == "" || IsSpace(s[0]) then "" else [s[0]] + Word(s[1..])
  }

  lemma {:induction false} TrimLeftShrinks(s: string)
    ensures |TrimLeft(s)| <= |s| && (TrimLeft(s) != "" ==> !IsSpace(TrimLeft(s)[0]))
  {
    if s != "" && IsSpace(s[0]) {
      TrimLeftShrinks(s[1..]);
    }
  }

  // The words of a text, in order.
  function Fields(s: string): seq<string>
    decreases |s|
  {
    TrimLeftShrinks(s);
    var t := TrimLeft(s);
    if t == "" then [] else [Word(t)] + Fields(t[|Word(t)|..])
  }

  predicate Solid(s: string) { s != "" && forall i :: 0 <= i < |s| ==> !IsSpace(s[i]) }

  lemma {:induction false} WordOf(s: string, rest: string)
    requires (forall i :: 0 <= i < |s| ==> !IsSpace(s[i])) && (rest == "" || IsSpace(rest[0]))
    ensures Word(s + rest) == s
  {
    if s == "" {
      assert s + rest == rest;
    } else {
      assert (s + rest)[1..] == s[1..] + rest;
      WordOf(s[1..], rest);
      assert [s[0]] + s[1..] == s;
    }
  }

  lemma FieldsOfPair(a: string, b: string)
    requires Solid(a) && Solid(b)
    ensures Fields(a + "\t" + b) == [a, b]
  {
    var s := a + ("\t" + b);
    assert a + "\t" + b == s;
    assert TrimLeft(s) == s;
    WordOf(a, "\t" + b);
    assert s[|a|..] == "\t" + b;
    assert ("\t" + b)[1..] == b;
    assert TrimLeft("\t" + b) == b;
    WordOf(b, "");
    assert b + "" == b;
    assert b[|b|..] == "";
    assert Fields("\t" + b) == [b] + Fields("");
  }

  lemma TrimSolidEnds(s: string)
    requires s != "" && !IsSpace(s[0]) && !IsSpace(s[|s| - 1])
    ensures TrimSpace(s) == s
  {
  }

  // ---------------------------------------------------------------- what the fields of a text are

  // Words with gaps around them.
  function Spelled(words: seq<string>, gaps: seq<string>): string
    requires |gaps| == |words| + 1
  {
    gaps[0] + if words == [] then "" else words[0] + Spelled(words[1..], gaps[1..])
  }

  // The gaps are white space, and there is some between any two words.
  predicate Apart(words: seq<string>, gaps: seq<string>) {
    && |gaps| == |words| + 1
    && (forall i :: 0 <= i < |words| ==> Solid(words[i]))
    && (forall i :: 0 <= i < |gaps| ==> Blank(gaps[i]))
    && forall i :: 0 < i < |words| ==> gaps[i] != ""
  }

  lemma {:induction false} TrimLeftGap(gap: string, rest: string)
    requires Blank(gap)
    ensures TrimLeft(gap + rest) == TrimLeft(rest)
  {
    if gap == "" {
      assert gap + rest == rest;
    } else {
      assert (gap + rest)[1..] == gap[1..] + rest && IsSpace(gap[0]);
      TrimLeftGap(gap[1..], rest);
    }
  }

  lemma WordThenRest(word: string, rest: string)
    requires Solid(word) && (rest == "" || IsSpace(rest[0]))
    ensures Fields(word + rest) == [word] + Fields(rest)
  {
    var t := word + rest;
    assert t[0] == word[0] && TrimLeft(t) == t;
    WordOf(word, rest);
    assert t[|word|..] == rest;
  }

  // The fields of a text are its words, however far apart they are.
  lemma {:induction false} FieldsMean(words: seq<string>, gaps: seq<string>)
    requires Apart(words, gaps)
    ensures Fields(Spelled(words, gaps)) == words
    decreases |words|
  {
    if words == [] {
      TrimLeftGap(gaps[0], "");
      assert gaps[0] + "" == gaps[0];
    } else {
      var rest := Spelled(words[1..], gaps[1..]);
      assert Apart(words[1..], gaps[1..]);
      FieldsMean(words[1..], gaps[1..]);
      assert rest == "" || IsSpace(rest[0]) by {
        if |words| > 1 { assert gaps[1] != "" && rest[0] == gaps[1][0]; } else { assert rest == gaps[1] + ""; }
      }
      WordThenRest(words[0], rest);
      FieldsPastGap(gaps[0], words[0] + rest);
      assert words == [words[0]] + words[1..];
    }
  }

  lemma FieldsPastGap(gap: string, rest: string)
    requires Blank(gap)
    ensures Fields(gap + rest) == Fields(rest)
  {
    TrimLeftGap(gap, rest);
  }

  // Every text is words with gaps.
  lemma {:induction false} EveryText(s: string) returns (words: seq<string>, gaps: seq<string>)
    ensures Apart(words, gaps) && s == Spelled(words, gaps)
    decreases |s|
  {
    if s == "" {
      words, gaps := [], [""];
    } else {
      var w, g := EveryText(s[1..]);
      words, gaps := OneMoreChar(s[0], w, g);
      assert s == [s[0]] + s[1..];
    }
  }

  lemma OneMoreChar(c: char, w: seq<string>, g: seq<string>) returns (words: seq<string>, gaps: seq<string>)
    requires Apart(w, g)
    ensures Apart(words, gaps) && Spelled(words, gaps) == [c] + Spelled(w, g)
  {
    if IsSpace(c) {
      words, gaps := w, [[c] + g[0]] + g[1..];
      assert gaps[1..] == g[1..];
    } else if w == [] || g[0] != "" {
      words, gaps := [[c]] + w, [""] + g;
      assert words[1..] == w && gaps[1..] == g;
    } else {
      words, gaps := [[c] + w[0]] + w[1..], g;
      assert words[1..] == w[1..];
    }
  }

  lemma SpelledBefore(a: string, words: seq<string>, gaps: seq<string>)
    requires Apart(words, gaps) && Blank(a)
    ensures Apart(words, [a + gaps[0]] + gaps[1..]) && Spelled(words, [a + gaps[0]] + gaps[1..]) == a + Spelled(words, gaps)
  {
    assert ([a + gaps[0]] + gaps[1..])[1..] == gaps[1..];
  }

  lemma {:induction false} SpelledAfter(words: seq<string>, gaps: seq<string>, b: string)
    requires Apart(words, gaps) && Blank(b)
    ensures var n := |words|; Apart(words, gaps[..n] + [gaps[n] + b]) && Spelled(words, gaps[..n] + [gaps[n] + b]) == Spelled(words, gaps) + b
    decreases |words|
  {
    var n := |words|;
    var next := gaps[..n] + [gaps[n] + b];
    if n > 0 {
      assert Apart(words[1..], gaps[1..]);
      SpelledAfter(words[1..], gaps[1..], b);
      assert next[1..] == gaps[1..][..n - 1] + [gaps[1..][n - 1] + b];
    }
  }

  // Trimming a text keeps its words.
  lemma TrimKeepsFields(words: seq<string>, gaps: seq<string>)
    requires Apart(words, gaps)
    ensures var t := TrimSpace(Spelled(words, gaps));
      Fields(t) == words && (t == "" <==> words == []) && (words != [] ==> t != "" && t[0] == words[0][0])
  {
    var s := Spelled(words, gaps);
    var a, b := TrimSpaceMeans(s);
    var w, g := EveryText(TrimSpace(s));
    SpelledBefore(a, w, g);
    SpelledAfter(w, [a + g[0]] + g[1..], b);
    FieldsMean(words, gaps);
    FieldsMean(w, g);
    var h := [a + g[0]] + g[1..];
    FieldsMean(w, h[..|w|] + [h[|w|] + b]);
    assert w == words;
    FirstOfTrimmed(TrimSpace(s), w, g);
  }

  lemma FirstOfTrimmed(t: string, w: seq<string>, g: seq<string>)
    requires Apart(w, g) && t == Spelled(w, g) && (t != "" ==> !IsSpace(t[0]))
    ensures (t == "" <==> w == []) && (w != [] ==> t[0] == w[0][0])
  {
    GapFirst(w, g);
  }

  lemma GapFirst(w: seq<string>, g: seq<string>)
    requires Apart(w, g)
    ensures g[0] != "" ==> Spelled(w, g) != "" && IsSpace(Spelled(w, g)[0])
  {
  }
}
