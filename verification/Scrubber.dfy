/** The secret scrubber: a table of secrets, longest first, each replaced by one marker. */
module Scrubber {
  import opened Sequences

  const MARKER: string := "[REDACTED]"

  // ---------------------------------------------------------------- replacing

  // Leftmost, non-overlapping replacement of `sec` by the marker.
  function ReplaceAll(s: string, sec: string): string
    requires sec != ""
  {
    if s == "" then ""
    else if sec <= s then MARKER + ReplaceAll(s[|sec|..], sec)
    else [s[0]] + ReplaceAll(s[1..], sec)
  }

  function ScrubAll(secrets: seq<string>, text: string): string {
    if secrets == [] then text
    else ScrubAll(secrets[1..], if secrets[0] == "" then text else ReplaceAll(text, secrets[0]))
  }

  ghost predicate Occurs(x: string, s: string) {
    exists i :: 0 <= i <= |s| - |x| && s[i..][..|x|] == x
  }

  lemma OccursAt(x: string, s: string, i: nat)
    requires i <= |s| && x <= s[i..]
    ensures Occurs(x, s)
  {
    assert s[i..][..|x|] == x;
  }

  lemma InTail(s: string, i: nat, n: nat)
    requires i + 1 + n <= |s|
    ensures s[1..][i..][..n] == s[i + 1..][..n]
  {
  }

  lemma InMiddle(l: char, m: string, r: char, i: nat, n: nat)
    requires i + n <= |m|
    ensures ([l] + m + [r])[i + 1..][..n] == m[i..][..n]
  {
  }

  lemma OccursCons(x: string, s: string)
    requires s != ""
    ensures Occurs(x, s) <==> x <= s || Occurs(x, s[1..])
  {
    if Occurs(x, s) { OccursHere(x, s); }
    if Occurs(x, s[1..]) { OccursLater(x, s); }
    if x <= s {
      assert s[0..] == s;
      OccursAt(x, s, 0);
    }
  }

  lemma OccursHere(x: string, s: string)
    requires s != "" && Occurs(x, s)
    ensures x <= s || Occurs(x, s[1..])
  {
    var i :| 0 <= i <= |s| - |x| && s[i..][..|x|] == x;
    if i > 0 {
      InTail(s, i - 1, |x|);
      OccursAt(x, s[1..], i - 1);
    } else {
      assert s[0..] == s;
    }
  }

  lemma OccursLater(x: string, s: string)
    requires s != "" && Occurs(x, s[1..])
    ensures Occurs(x, s)
  {
    var i :| 0 <= i <= |s[1..]| - |x| && s[1..][i..][..|x|] == x;
    InTail(s, i, |x|);
    OccursAt(x, s, i + 1);
  }

  lemma {:induction false} OccursDrop(x: string, s: string, n: nat)
    requires n <= |s| && Occurs(x, s[n..])
    ensures Occurs(x, s)
  {
    var i :| 0 <= i <= |s[n..]| - |x| && s[n..][i..][..|x|] == x;
    assert s[n..][i..] == s[n + i..];
    OccursAt(x, s, n + i);
  }

  // ---------------------------------------------------------------- no secret survives

  // The text and the marker share no seam: x neither lies in the marker nor holds it, does not begin
  // with an end of the marker, and does not end with a beginning of it.
  ghost predicate Clear(x: string) {
    x != "" && !Occurs(x, MARKER) && Open(x)
    && forall k :: 0 < k <= |MARKER| && k <= |x| ==> x[..k] != MARKER[|MARKER| - k..]
  }

  ghost predicate Open(x: string) {
    && !Occurs(MARKER, x)
    && forall i :: 0 <= i < |x| ==> !(x[i..] <= MARKER)
  }

  lemma OpenTail(x: string)
    requires x != "" && Open(x)
    ensures Open(x[1..])
  {
    OccursCons(MARKER, x);
    forall i | 0 <= i < |x[1..]| ensures !(x[1..][i..] <= MARKER) {
      assert x[1..][i..] == x[i + 1..];
    }
  }

  lemma EndOfFirst(a: string, u: string, i: nat, n: nat)
    requires i <= |a| <= i + n <= |a + u|
    ensures (a + u)[i..][..n][..|a| - i] == a[i..]
  {
  }

  lemma NotAcrossMarker(x: string, u: string, i: nat)
    requires Clear(x) && i < |MARKER| && i + |x| <= |MARKER + u|
    ensures (MARKER + u)[i..][..|x|] != x
  {
    if i + |x| <= |MARKER| {
      assert (MARKER + u)[i..][..|x|] == MARKER[i..][..|x|];
    } else {
      assert x[..|MARKER| - i] != MARKER[i..];
      EndOfFirst(MARKER, u, i, |x|);
    }
  }

  // Past a marker, a clear text can only occur in what follows.
  lemma OnlyBehindMarker(x: string, u: string)
    requires Clear(x) && Occurs(x, MARKER + u)
    ensures Occurs(x, u)
  {
    var s := MARKER + u;
    var i :| 0 <= i <= |s| - |x| && s[i..][..|x|] == x;
    if i < |MARKER| {
      NotAcrossMarker(x, u, i);
    } else {
      assert s[i..] == u[i - |MARKER|..];
      OccursAt(x, u, i - |MARKER|);
    }
  }

  lemma NotAtMarker(x: string, u: string)
    requires x != "" && Open(x)
    ensures !(x <= MARKER + u)
  {
    if |x| <= |MARKER| {
      assert x[0..] == x;
      assert (MARKER + u)[..|x|] == MARKER[..|x|];
    } else {
      assert x[0..][..|MARKER|] == x[..|MARKER|];
      assert (MARKER + u)[..|MARKER|] == MARKER;
      assert x[..|MARKER|] != MARKER;
    }
  }

  // A text with an open end at the front of the result was at the front of the input.
  lemma {:induction false} FrontWasThere(x: string, t: string, y: string)
    requires y != "" && Open(x) && x <= ReplaceAll(t, y)
    ensures x <= t
  {
    if x != "" && t != "" {
      NotAtMarker(x, if y <= t then ReplaceAll(t[|y|..], y) else "");
      OpenTail(x);
      assert ReplaceAll(t, y)[1..] == ReplaceAll(t[1..], y);
      FrontWasThere(x[1..], t[1..], y);
    }
  }

  // Replacing anything never brings a clear text into being.
  lemma {:induction false} NothingNew(x: string, t: string, y: string)
    requires y != "" && Clear(x) && Occurs(x, ReplaceAll(t, y))
    ensures Occurs(x, t)
    decreases |t|
  {
    if t == "" {
    } else if y <= t {
      OnlyBehindMarker(x, ReplaceAll(t[|y|..], y));
      NothingNew(x, t[|y|..], y);
      OccursDrop(x, t, |y|);
    } else {
      OccursCons(x, ReplaceAll(t, y));
      OccursCons(x, t);
      if x <= ReplaceAll(t, y) {
        FrontWasThere(x, t, y);
      } else {
        assert ReplaceAll(t, y)[1..] == ReplaceAll(t[1..], y);
        NothingNew(x, t[1..], y);
      }
    }
  }

  // Replacing a clear text leaves none of it.
  lemma {:induction false} AllGone(x: string, t: string)
    requires Clear(x)
    ensures !Occurs(x, ReplaceAll(t, x))
    decreases |t|
  {
    if t == "" {
    } else if x <= t {
      AllGone(x, t[|x|..]);
      if Occurs(x, MARKER + ReplaceAll(t[|x|..], x)) {
        OnlyBehindMarker(x, ReplaceAll(t[|x|..], x));
      }
    } else {
      AllGone(x, t[1..]);
      OccursCons(x, ReplaceAll(t, x));
      assert ReplaceAll(t, x)[1..] == ReplaceAll(t[1..], x);
      if x <= ReplaceAll(t, x) {
        FrontWasThere(x, t, x);
      }
    }
  }

  lemma {:induction false} StaysGone(secrets: seq<string>, x: string, t: string)
    requires Clear(x) && !Occurs(x, t)
    ensures !Occurs(x, ScrubAll(secrets, t))
  {
    if secrets != [] {
      var next := if secrets[0] == "" then t else ReplaceAll(t, secrets[0]);
      if secrets[0] != "" && Occurs(x, next) {
        NothingNew(x, t, secrets[0]);
      }
      StaysGone(secrets[1..], x, next);
    }
  }

  // For every input and every table, in whatever order: a clear secret never survives.
  lemma {:induction false} NoClearSecretLeaks(secrets: seq<string>, text: string, x: string)
    requires x in secrets && Clear(x)
    ensures !Occurs(x, ScrubAll(secrets, text))
  {
    if secrets[0] == x {
      AllGone(x, text);
      StaysGone(secrets[1..], x, ReplaceAll(text, x));
    } else {
      NoClearSecretLeaks(secrets[1..], if secrets[0] == "" then text else ReplaceAll(text, secrets[0]), x);
    }
  }

  // ---------------------------------------------------------------- exactly when

  predicate BracketFree(x: string) { '[' !in x && ']' !in x }

  const INSIDE: string := "REDACTED"

  lemma InsideBrackets(x: string, l: char, m: string, r: char)
    requires x != "" && l !in x && r !in x
    ensures Occurs(x, [l] + m + [r]) <==> Occurs(x, m)
  {
    var s := [l] + m + [r];
    if Occurs(x, s) {
      var i :| 0 <= i <= |s| - |x| && s[i..][..|x|] == x;
      assert x[0] == s[i] && x[|x| - 1] == s[i + |x| - 1];
      InMiddle(l, m, r, i - 1, |x|);
      OccursAt(x, m, i - 1);
    }
    if Occurs(x, m) {
      var i :| 0 <= i <= |m| - |x| && m[i..][..|x|] == x;
      InMiddle(l, m, r, i, |x|);
      OccursAt(x, s, i + 1);
    }
  }

  lemma InsideMarker(x: string)
    requires BracketFree(x) && x != ""
    ensures Occurs(x, MARKER) <==> Occurs(x, INSIDE)
  {
    assert MARKER == ['['] + INSIDE + [']'];
    InsideBrackets(x, '[', INSIDE, ']');
  }

  lemma BracketFreeIsOpen(x: string)
    requires BracketFree(x)
    ensures Open(x)
  {
    forall i | 0 <= i <= |x| - |MARKER| ensures x[i..][..|MARKER|] != MARKER {
      assert x[i..][..|MARKER|][0] == x[i];
    }
    forall i | 0 <= i < |x| ensures !(x[i..] <= MARKER) {
      assert x[i..][0] == x[i];
    }
  }

  lemma BracketFreeIsClear(x: string)
    requires BracketFree(x) && x != ""
    ensures Clear(x) <==> !Occurs(x, INSIDE)
  {
    InsideMarker(x);
    BracketFreeIsOpen(x);
    forall k | 0 < k <= |MARKER| && k <= |x| ensures x[..k] != MARKER[|MARKER| - k..] {
      assert x[..k][k - 1] == x[k - 1];
      assert MARKER[|MARKER| - k..][k - 1] == ']';
    }
  }

  // A marker in the text is still there, or there again, after any replacement.
  lemma {:induction false} MarkerStays(t: string, y: string)
    requires y != "" && Occurs(MARKER, t)
    ensures Occurs(MARKER, ReplaceAll(t, y))
    decreases |t|
  {
    if y <= t {
      OccursAt(MARKER, ReplaceAll(t, y), 0);
    } else {
      OccursCons(MARKER, t);
      assert ReplaceAll(t, y)[1..] == ReplaceAll(t[1..], y);
      OccursCons(MARKER, ReplaceAll(t, y));
      if Occurs(MARKER, t[1..]) {
        MarkerStays(t[1..], y);
      } else {
        assert t == MARKER + t[|MARKER|..];
        PassesOver(MARKER, t[|MARKER|..], y);
        OccursAt(MARKER, MARKER + ReplaceAll(t[|MARKER|..], y), 0);
      }
    }
  }

  lemma {:induction false} PassesOver(w: string, u: string, y: string)
    requires y != ""
    ensures Occurs(MARKER, ReplaceAll(w + u, y)) || ReplaceAll(w + u, y) == w + ReplaceAll(u, y)
  {
    if w == "" {
      assert w + u == u;
    } else if y <= w + u {
      OccursAt(MARKER, ReplaceAll(w + u, y), 0);
    } else {
      assert (w + u)[1..] == w[1..] + u;
      PassesOver(w[1..], u, y);
      var out := ReplaceAll(w + u, y);
      assert out[1..] == ReplaceAll(w[1..] + u, y);
      if Occurs(MARKER, ReplaceAll(w[1..] + u, y)) {
        OccursCons(MARKER, out);
      } else {
        assert out == [w[0]] + (w[1..] + ReplaceAll(u, y)) == w + ReplaceAll(u, y);
      }
    }
  }

  lemma {:induction false} MarkerSurvives(secrets: seq<string>, t: string)
    requires Occurs(MARKER, t)
    ensures Occurs(MARKER, ScrubAll(secrets, t))
  {
    if secrets != [] {
      if secrets[0] != "" { MarkerStays(t, secrets[0]); }
      MarkerSurvives(secrets[1..], if secrets[0] == "" then t else ReplaceAll(t, secrets[0]));
    }
  }

  ghost predicate Leaks(secrets: seq<string>, text: string) {
    exists x :: x in secrets && Occurs(x, ScrubAll(secrets, text))
  }

  lemma OccursTrans(x: string, y: string, s: string)
    requires Occurs(x, y) && Occurs(y, s)
    ensures Occurs(x, s)
  {
    var j :| 0 <= j <= |y| - |x| && y[j..][..|x|] == x;
    var i :| 0 <= i <= |s| - |y| && s[i..][..|y|] == y;
    var from := s[i..][..|y|][j..][..|x|];
    assert from == x && |s[i + j..][..|x|]| == |x|;
    forall k | 0 <= k < |x| ensures s[i + j..][..|x|][k] == from[k] {
    }
    OccursAt(x, s, i + j);
  }

  lemma MarkerIsLeak(secrets: seq<string>, x: string)
    requires x in secrets && Occurs(x, MARKER)
    ensures Leaks(secrets, MARKER)
  {
    OccursAt(MARKER, MARKER, 0);
    MarkerSurvives(secrets, MARKER);
    OccursTrans(x, MARKER, ScrubAll(secrets, MARKER));
  }

  lemma NoLeak(secrets: seq<string>, text: string)
    requires forall x :: x in secrets ==> Clear(x)
    ensures !Leaks(secrets, text)
  {
    forall x | x in secrets ensures !Occurs(x, ScrubAll(secrets, text)) {
      NoClearSecretLeaks(secrets, text, x);
    }
  }

  // A table of bracket-free secrets leaks on no input at all exactly when none lies in "REDACTED".
  lemma SafeExactlyWhen(secrets: seq<string>)
    requires forall x :: x in secrets ==> x != "" && BracketFree(x)
    ensures (forall text :: !Leaks(secrets, text)) <==> (forall x :: x in secrets ==> !Occurs(x, INSIDE))
  {
    if x :| x in secrets && Occurs(x, INSIDE) {
      InsideMarker(x);
      MarkerIsLeak(secrets, x);
    } else {
      forall x | x in secrets ensures Clear(x) {
        BracketFreeIsClear(x);
      }
      forall text ensures !Leaks(secrets, text) {
        NoLeak(secrets, text);
      }
    }
  }

  lemma OneSecret(x: string, text: string)
    requires x != ""
    ensures ScrubAll([x], text) == ReplaceAll(text, x)
  {
    assert [x][1..] == [];
  }

  lemma EndOccurs(front: string, tail: string, c: string)
    ensures Occurs(tail + c, front + tail + c)
  {
    var out := front + tail + c;
    assert out[|front|..] == tail + c;
    OccursAt(tail + c, out, |front|);
  }

  // With brackets: a secret that begins with an end of the marker leaks, whatever follows in it.
  lemma SeamLeaks(front: string, tail: string, c: string)
    requires MARKER == front + tail && tail != ""
    ensures Leaks([tail + c], tail + c + c)
  {
    var x := tail + c;
    assert (x + c)[|x|..] == c && x <= x + c;
    TooShort(c, x);
    OneSecret(x, x + c);
    EndOccurs(front, tail, c);
  }

  lemma {:induction false} TooShort(s: string, sec: string)
    requires |s| < |sec|
    ensures ReplaceAll(s, sec) == s
  {
    if s != "" {
      TooShort(s[1..], sec);
    }
  }

  // ---------------------------------------------------------------- what is left of the text

  // Pieces of text with one text between each two.
  function Glued(pieces: seq<string>, between: string): string {
    if pieces == [] then "" else if |pieces| == 1 then pieces[0] else pieces[0] + between + Glued(pieces[1..], between)
  }

  // Before its end, `piece + sec` has no `sec`: it is the first that follows the piece.
  ghost predicate UpToFirst(piece: string, sec: string) {
    forall k :: 0 <= k < |piece| ==> !(sec <= (piece + sec)[k..])
  }

  // The pieces between the secrets of a text, each secret the first since the one before.
  ghost predicate CutAt(s: string, sec: string, pieces: seq<string>) {
    && pieces != [] && s == Glued(pieces, sec) && !Occurs(sec, pieces[|pieces| - 1])
    && forall i :: 0 <= i < |pieces| - 1 ==> UpToFirst(pieces[i], sec)
  }

  lemma CutHere(rest: string, sec: string, pieces: seq<string>)
    requires sec != "" && CutAt(rest, sec, pieces)
    ensures CutAt(sec + rest, sec, [""] + pieces) && Glued([""] + pieces, MARKER) == MARKER + Glued(pieces, MARKER)
  {
    var next := [""] + pieces;
    assert next[1..] == pieces;
    assert "" + sec + rest == sec + rest && "" + MARKER + Glued(pieces, MARKER) == MARKER + Glued(pieces, MARKER);
  }

  lemma GluedFirst(c: char, pieces: seq<string>, between: string)
    requires pieces != []
    ensures Glued([[c] + pieces[0]] + pieces[1..], between) == [c] + Glued(pieces, between)
  {
    var next := [[c] + pieces[0]] + pieces[1..];
    assert next[1..] == pieces[1..];
    if |pieces| > 1 {
      assert [c] + pieces[0] + between + Glued(pieces[1..], between) == [c] + (pieces[0] + between + Glued(pieces[1..], between));
    }
  }

  lemma CutLater(c: char, rest: string, sec: string, pieces: seq<string>)
    requires sec != "" && CutAt(rest, sec, pieces) && !(sec <= [c] + rest)
    ensures CutAt([c] + rest, sec, [[c] + pieces[0]] + pieces[1..])
  {
    var first, next := [c] + pieces[0], [[c] + pieces[0]] + pieces[1..];
    GluedFirst(c, pieces, sec);
    if |pieces| == 1 {
      OccursCons(sec, first);
      assert first[1..] == pieces[0] && first == [c] + rest;
    } else {
      FirstLater(c, pieces[0], sec, Glued(pieces[1..], sec));
      assert next[|next| - 1] == pieces[|pieces| - 1];
      forall i | 0 <= i < |next| - 1 ensures UpToFirst(next[i], sec) {
        assert i > 0 ==> next[i] == pieces[i];
      }
    }
  }

  lemma PrefixStays(x: string, a: string, b: string)
    ensures x <= a ==> x <= a + b
  {
  }

  lemma FirstLater(c: char, piece: string, sec: string, tail: string)
    requires sec != "" && UpToFirst(piece, sec) && !(sec <= [c] + (piece + sec + tail))
    ensures UpToFirst([c] + piece, sec)
  {
    var whole := [c] + piece + sec;
    assert [c] + (piece + sec + tail) == whole + tail;
    forall k | 0 <= k < |[c] + piece| ensures !(sec <= whole[k..]) {
      if k == 0 {
        assert whole[0..] == whole;
        PrefixStays(sec, whole, tail);
      } else {
        assert whole[k..] == (piece + sec)[k - 1..];
      }
    }
  }

  // Replacing takes out exactly the secrets, from left to right, and keeps all the text between them.
  lemma {:induction false} ReplaceAllMeans(s: string, sec: string) returns (pieces: seq<string>)
    requires sec != ""
    ensures CutAt(s, sec, pieces) && ReplaceAll(s, sec) == Glued(pieces, MARKER)
    decreases |s|
  {
    if s == "" {
      pieces := [""];
    } else if sec <= s {
      var rest := ReplaceAllMeans(s[|sec|..], sec);
      CutHere(s[|sec|..], sec, rest);
      assert s == sec + s[|sec|..];
      pieces := [""] + rest;
      assert ReplaceAll(s, sec) == MARKER + ReplaceAll(s[|sec|..], sec);
    } else {
      var rest := ReplaceAllMeans(s[1..], sec);
      assert s == [s[0]] + s[1..];
      CutLater(s[0], s[1..], sec, rest);
      GluedFirst(s[0], rest, MARKER);
      assert ReplaceAll(s, sec) == [s[0]] + ReplaceAll(s[1..], sec);
      pieces := [[s[0]] + rest[0]] + rest[1..];
    }
  }

  // A text with no secret in it stays as it is.
  lemma {:induction false} PlainTextStays(secrets: seq<string>, text: string)
    requires forall x :: x in secrets && x != "" ==> !Occurs(x, text)
    ensures ScrubAll(secrets, text) == text
  {
    if secrets != [] {
      if secrets[0] != "" { Untouched(text, secrets[0]); }
      PlainTextStays(secrets[1..], text);
    }
  }

  // ---------------------------------------------------------------- longest first

  ghost predicate Table(secrets: seq<string>) {
    && "" !in secrets
    && forall i, j :: 0 <= i < j < |secrets| ==> |secrets[i]| >= |secrets[j]| && secrets[i] != secrets[j]
  }

  lemma {:induction false} Untouched(s: string, sec: string)
    requires sec != "" && !Occurs(sec, s)
    ensures ReplaceAll(s, sec) == s
  {
    if s != "" {
      OccursCons(sec, s);
      Untouched(s[1..], sec);
    }
  }

  lemma {:induction false} MarkerAlone(secrets: seq<string>)
    requires forall x :: x in secrets ==> Clear(x)
    ensures ScrubAll(secrets, MARKER) == MARKER
  {
    if secrets != [] {
      assert secrets[0] in secrets;
      Untouched(MARKER, secrets[0]);
      MarkerAlone(secrets[1..]);
    }
  }

  lemma NotInShorter(y: string, x: string)
    requires |y| >= |x| && y != x
    ensures !Occurs(y, x)
  {
    forall i | 0 <= i <= |x| - |y| ensures x[i..][..|y|] != y {
      assert x[i..][..|y|] == x;
    }
  }

  // What the order is for: a secret that holds shorter ones still becomes one marker, not a mix.
  lemma {:induction false} SecretBecomesOneMarker(secrets: seq<string>, x: string)
    requires Table(secrets) && x in secrets && forall y :: y in secrets ==> Clear(y)
    ensures ScrubAll(secrets, x) == MARKER
  {
    var y, rest := secrets[0], secrets[1..];
    assert secrets == [y] + rest;
    if y == x {
      assert x[|x|..] == "" && ReplaceAll(x, x) == MARKER;
      MarkerAlone(rest);
    } else {
      var j :| 0 <= j < |rest| && rest[j] == x;
      assert secrets[j + 1] == x;
      NotInShorter(y, x);
      Untouched(x, y);
      SecretBecomesOneMarker(rest, x);
    }
  }

  // ---------------------------------------------------------------- the program

  class Scrubber {
    var secrets: seq<string>

    ghost predicate Valid() reads this { Table(secrets) }

    constructor ()
      ensures Valid() && secrets == []
    {
      secrets := [];
    }

    method AddAll(values: seq<string>)
      requires Valid()
      modifies this
      ensures Valid()
      ensures forall x :: x in secrets <==> x in old(secrets) || (x in values && x != "")
    {
      var seen := set x | x in secrets;
      var all := secrets;
      for i := 0 to |values|
        invariant NoRepeats(all) && "" !in all
        invariant forall x :: x in seen <==> x in all
        invariant forall x :: x in all <==> x in old(secrets) || (x in values[..i] && x != "")
      {
        if values[i] != "" && values[i] !in seen {
          seen := seen + {values[i]};
          all := all + [values[i]];
        }
      }
      assert values[..|values|] == values;
      secrets := SortByLength(all);
    }

    method Scrub(text: string) returns (out: string)
      ensures out == ScrubAll(secrets, text)
    {
      if |secrets| == 0 || text == "" {
        NothingToScrub(secrets);
        return text;
      }
      out := text;
      for i := 0 to |secrets|
        invariant ScrubAll(secrets[i..], out) == ScrubAll(secrets, text)
      {
        assert secrets[i..][1..] == secrets[i + 1..];
        if secrets[i] != "" {
          out := Replace(out, secrets[i]);
        }
      }
    }
  }

  lemma {:induction false} NothingToScrub(secrets: seq<string>)
    ensures ScrubAll(secrets, "") == ""
  {
    if secrets != [] {
      NothingToScrub(secrets[1..]);
    }
  }

  // strings.ReplaceAll, as a scan.
  method Replace(s: string, sec: string) returns (out: string)
    requires sec != ""
    ensures out == ReplaceAll(s, sec)
  {
    out := "";
    var rest := s;
    while rest != ""
      invariant ReplaceAll(s, sec) == out + ReplaceAll(rest, sec)
      decreases |rest|
    {
      var n := if sec <= rest then |sec| else 1;
      var piece := if sec <= rest then MARKER else [rest[0]];
      Regroup(out, piece, ReplaceAll(rest[n..], sec));
      out, rest := out + piece, rest[n..];
    }
  }

  ghost predicate NoRepeats(s: seq<string>) {
    forall i, j :: 0 <= i < j < |s| ==> s[i] != s[j]
  }

  // Some order by falling length; which of two equally long secrets comes first is left open.
  method SortByLength(s: seq<string>) returns (out: seq<string>)
    requires NoRepeats(s) && "" !in s
    ensures Table(out) && forall x :: x in out <==> x in s
  {
    out := [];
    for i := 0 to |s|
      invariant Table(out) && forall x :: x in out <==> x in s[..i]
    {
      var k := 0;
      while k < |out| && |out[k]| >= |s[i]|
        invariant 0 <= k <= |out|
        invariant forall j :: 0 <= j < k ==> |out[j]| >= |s[i]|
      {
        k := k + 1;
      }
      assert s[i] !in s[..i];
      assert s[..i + 1] == s[..i] + [s[i]];
      assert out == out[..k] + out[k..];
      InsertKeeps(out[..k], s[i], out[k..]);
      out := out[..k] + [s[i]] + out[k..];
    }
    assert s[..|s|] == s;
  }

  lemma InsertKeeps(a: seq<string>, x: string, b: seq<string>)
    requires Table(a + b) && x != "" && x !in a + b
    requires (forall j :: 0 <= j < |a| ==> |a[j]| >= |x|) && (b != [] ==> |b[0]| < |x|)
    ensures Table(a + [x] + b)
    ensures forall y :: y in a + [x] + b <==> y in a + b || y == x
  {
    var was, out := a + b, a + [x] + b;
    forall j | 0 <= j < |b| ensures |b[j]| <= |x| {
      assert was[|a| + j] == b[j] && was[|a|] == b[0];
    }
    forall i, j | 0 <= i < j < |out| ensures |out[i]| >= |out[j]| && out[i] != out[j] {
      if i != |a| && j != |a| {
        assert out[i] == was[if i < |a| then i else i - 1] && out[j] == was[if j < |a| then j else j - 1];
      } else {
        assert out[if i == |a| then j else i] in was;
      }
    }
  }
}
