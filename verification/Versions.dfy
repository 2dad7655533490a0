/** Versions: their order, their canonical text, and the parser that reads it back. */
module Versions {
  import opened Options
  import opened Text

  datatype Version = Version(major: nat, minor: nat, patch: nat) {
    predicate Less(o: Version) {
      if major != o.major then major < o.major
      else if minor != o.minor then minor < o.minor
      else patch < o.patch
    }

    // Each part fits the 64-bit integers the program keeps it in.
    predicate Fits() { major <= MAX_INT && minor <= MAX_INT && patch <= MAX_INT }

    function Text(): string { "v" + Decimal(major) + "." + Decimal(minor) + "." + Decimal(patch) }
  }

  const MAX_INT: nat := 0x7fff_ffff_ffff_ffff
  const ZERO := Version(0, 0, 0)

  lemma LessIsStrictOrder(a: Version, b: Version, c: Version)
    ensures !a.Less(a)
    ensures a == b || a.Less(b) || b.Less(a)
    ensures a.Less(b) ==> !b.Less(a)
    ensures a.Less(b) && b.Less(c) ==> a.Less(c)
  {
  }

  function Parts(v: Version): seq<nat> { [v.major, v.minor, v.patch] }

  // One version is less than another when its part is the smaller in the first place they differ.
  lemma LessMeans(a: Version, b: Version)
    ensures a.Less(b) <==> exists k :: 0 <= k < 3 && Parts(a)[..k] == Parts(b)[..k] && Parts(a)[k] < Parts(b)[k]
  {
    var s, t := Parts(a), Parts(b);
    assert s[..0] == t[..0];
    assert s[..1] == [a.major] && t[..1] == [b.major];
    assert s[..2] == [a.major, a.minor] && t[..2] == [b.major, b.minor];
    assert [a.major, a.minor][0] == a.major && [a.major, a.minor][1] == a.minor;
    assert [b.major, b.minor][0] == b.major && [b.major, b.minor][1] == b.minor;
    if a.major < b.major {
      assert s[0] < t[0];
    } else if a.major == b.major && a.minor < b.minor {
      assert s[1] < t[1];
    } else if a.major == b.major && a.minor == b.minor && a.patch < b.patch {
      assert s[2] < t[2];
    }
  }

  // ---------------------------------------------------------------- decimal numbers

  function Digit(d: nat): char requires d < 10 { ('0' as int + d) as char }

  predicate IsDigit(c: char) { '0' <= c <= '9' }

  function Decimal(n: nat): string {
    if n < 10 then [Digit(n)] else Decimal(n / 10) + [Digit(n % 10)]
  }

  predicate AllDigits(s: string) { forall i :: 0 <= i < |s| ==> IsDigit(s[i]) }

  function DigitsValue(s: string): nat
    requires AllDigits(s)
  {
    if s == "" then 0 else 10 * DigitsValue(s[..|s| - 1]) + (s[|s| - 1] as int - '0' as int)
  }

  // strconv.Atoi: an optional sign, decimal digits, and a range check.
  function Atoi(s: string): Option<int> {
    var negative := s != "" && s[0] == '-';
    var digits := if s != "" && (s[0] == '-' || s[0] == '+') then s[1..] else s;
    if digits == "" || !AllDigits(digits) then None
    else
      var n: int := DigitsValue(digits);
      if negative then (if n > MAX_INT + 1 then None else Some(-n))
      else if n > MAX_INT then None else Some(n)
  }

  lemma {:induction false} DecimalDigits(n: nat)
    ensures Decimal(n) != "" && AllDigits(Decimal(n)) && DigitsValue(Decimal(n)) == n
  {
    if n >= 10 {
      DecimalDigits(n / 10);
      assert Decimal(n)[..|Decimal(n)| - 1] == Decimal(n / 10);
    }
  }

  // ---------------------------------------------------------------- parsing

  function ParseParts(parts: seq<string>): Option<Version> {
    if |parts| != 3 then None
    else
      var a, b, c := Atoi(parts[0]), Atoi(parts[1]), Atoi(parts[2]);
      if a.None? || b.None? || c.None? || a.value < 0 || b.value < 0 || c.value < 0 then None
      else Some(Version(a.value, b.value, c.value))
  }

  function ParseVersion(s: string): Option<Version> {
    var raw := TrimPrefix(TrimSpace(s), "v");
    if raw == "" then None else ParseParts(Split(raw, '.'))
  }

  lemma {:induction false} SplitAtFirst(a: string, sep: char, rest: string)
    requires sep !in a
    ensures Split(a, sep) == [a]
    ensures Split(a + [sep] + rest, sep) == [a] + Split(rest, sep)
  {
    var s := a + [sep] + rest;
    if a == "" {
      assert s[1..] == rest;
    } else {
      assert s[1..] == a[1..] + [sep] + rest;
      SplitAtFirst(a[1..], sep, rest);
      assert [a[0]] + a[1..] == a;
    }
  }

  lemma TrimKeepsTight(s: string)
    requires s != "" && !IsSpace(s[0]) && !IsSpace(s[|s| - 1])
    ensures TrimSpace(s) == s
  {
  }

  lemma AtoiDecimal(n: nat)
    ensures Atoi(Decimal(n)) == (if n <= MAX_INT then Some(n) else None)
    ensures '.' !in Decimal(n)
  {
    DecimalDigits(n);
    assert IsDigit(Decimal(n)[0]);
  }

  lemma SplitText(a: string, b: string, c: string)
    requires '.' !in a && '.' !in b && '.' !in c
    ensures Split(a + "." + b + "." + c, '.') == [a, b, c]
  {
    assert a + "." + b + "." + c == a + "." + (b + "." + c);
    SplitAtFirst(a, '.', b + "." + c);
    SplitAtFirst(b, '.', c);
    SplitAtFirst(c, '.', "");
  }

  lemma RawText(v: Version)
    ensures TrimPrefix(TrimSpace(v.Text()), "v") == Decimal(v.major) + "." + Decimal(v.minor) + "." + Decimal(v.patch)
  {
    DecimalDigits(v.patch);
    var s, c := v.Text(), Decimal(v.patch);
    assert IsDigit(c[|c| - 1]) && s[|s| - 1] == c[|c| - 1];
    TrimKeepsTight(s);
    assert s == "v" + (Decimal(v.major) + "." + Decimal(v.minor) + "." + Decimal(v.patch));
  }

  // Reading back the canonical text gives the version itself, exactly when it fits.
  lemma ParseText(v: Version)
    ensures ParseVersion(v.Text()) == if v.Fits() then Some(v) else None
  {
    RawText(v);
    AtoiDecimal(v.major);
    AtoiDecimal(v.minor);
    AtoiDecimal(v.patch);
    SplitText(Decimal(v.major), Decimal(v.minor), Decimal(v.patch));
  }

  // Whatever parses fits.
  lemma ParsedFits(s: string)
    ensures ParseVersion(s).Some? ==> ParseVersion(s).value.Fits()
  {
  }

  // ---------------------------------------------------------------- exactly what parses

  predicate Zeros(s: string) { forall i :: 0 <= i < |s| ==> s[i] == '0' }

  // The digits of a number, perhaps with zeros in front.
  ghost predicate Spells(digits: string, n: nat) {
    exists zeros: string :: Zeros(zeros) && digits == zeros + Decimal(n)
  }

  // A text of a number that is no less than zero: digits, perhaps after a plus, or after a minus if it is zero.
  ghost predicate Numeral(s: string, n: nat) {
    Spells(s, n) || (s != "" && s[0] == '+' && Spells(s[1..], n)) || (s != "" && s[0] == '-' && Spells(s[1..], 0) && n == 0)
  }

  lemma {:induction false} DigitsSpell(s: string)
    requires s != "" && AllDigits(s)
    ensures Spells(s, DigitsValue(s))
    decreases |s|
  {
    var front, c := s[..|s| - 1], s[|s| - 1];
    assert s == front + [c];
    if front != "" { DigitsSpell(front); }
    OneMoreDigit(front, c);
  }

  lemma OneMoreDigit(front: string, c: char)
    requires AllDigits(front) && IsDigit(c) && (front != "" ==> Spells(front, DigitsValue(front)))
    ensures Spells(front + [c], DigitsValue(front + [c]))
  {
    var s, m, d: nat := front + [c], DigitsValue(front), c as int - '0' as int;
    assert s[..|s| - 1] == front && DigitsValue(s) == 10 * m + d;
    assert Decimal(d) == [c];
    if front == "" {
      SpellsBy("", s, d);
    } else {
      var zeros :| Zeros(zeros) && front == zeros + Decimal(m);
      if m == 0 {
        SpellsBy(front, s, d);
      } else {
        DecimalStep(m, d);
        assert s == zeros + (Decimal(m) + [c]);
        SpellsBy(zeros, s, 10 * m + d);
      }
    }
  }

  lemma SpellsBy(zeros: string, s: string, n: nat)
    requires Zeros(zeros) && s == zeros + Decimal(n)
    ensures Spells(s, n)
  {
  }

  lemma DecimalStep(m: nat, d: nat)
    requires m > 0 && d < 10
    ensures Decimal(10 * m + d) == Decimal(m) + [Digit(d)]
  {
    assert (10 * m + d) / 10 == m && (10 * m + d) % 10 == d;
  }

  lemma {:induction false} SpellsValue(s: string, n: nat)
    requires Spells(s, n)
    ensures s != "" && AllDigits(s) && DigitsValue(s) == n
  {
    var zeros :| Zeros(zeros) && s == zeros + Decimal(n);
    DecimalDigits(n);
    LeadingZeros(zeros, Decimal(n));
  }

  lemma {:induction false} LeadingZeros(zeros: string, digits: string)
    requires Zeros(zeros) && AllDigits(digits)
    ensures AllDigits(zeros + digits) && DigitsValue(zeros + digits) == DigitsValue(digits)
    decreases |zeros| + |digits|
  {
    var s := zeros + digits;
    if digits != "" {
      assert s[..|s| - 1] == zeros + digits[..|digits| - 1];
      LeadingZeros(zeros, digits[..|digits| - 1]);
    } else if zeros != "" {
      assert s == zeros && s[..|s| - 1] == zeros[..|zeros| - 1] + "";
      LeadingZeros(zeros[..|zeros| - 1], "");
    }
  }

  lemma SpellsExactlyWhen(s: string, n: nat)
    ensures Spells(s, n) <==> s != "" && AllDigits(s) && DigitsValue(s) == n
  {
    if Spells(s, n) { SpellsValue(s, n); }
    if s != "" && AllDigits(s) { DigitsSpell(s); }
  }

  lemma AtoiMeans(s: string, n: nat)
    ensures Atoi(s) == Some(n) <==> Numeral(s, n) && n <= MAX_INT
  {
    SpellsExactlyWhen(s, n);
    if s != "" {
      SpellsExactlyWhen(s[1..], n);
      SpellsExactlyWhen(s[1..], 0);
      SignIsNoDigit(s);
    }
  }

  lemma SignIsNoDigit(s: string)
    requires s != ""
    ensures s[0] == '+' || s[0] == '-' ==> !AllDigits(s)
  {
    assert AllDigits(s) ==> IsDigit(s[0]);
  }

  // A text parses as a version exactly when, with white space around it and one v in front of it or not,
  // it is three such numbers with a dot between them, each of which fits.
  lemma ParsesExactlyWhen(s: string, v: Version)
    ensures ParseVersion(s) == Some(v) <==> v.Fits() && exists a, b, c ::
      Numeral(a, v.major) && Numeral(b, v.minor) && Numeral(c, v.patch) && TrimPrefix(TrimSpace(s), "v") == a + "." + b + "." + c
  {
    var raw := TrimPrefix(TrimSpace(s), "v");
    if ParseVersion(s) == Some(v) {
      SplitMeans(raw, '.');
      ThreeBetween(Split(raw, '.'));
      PartsParse(Split(raw, '.'), v);
    }
    if a, b, c :| Numeral(a, v.major) && Numeral(b, v.minor) && Numeral(c, v.patch) && raw == a + "." + b + "." + c {
      NumeralHasNoDot(a, v.major);
      NumeralHasNoDot(b, v.minor);
      NumeralHasNoDot(c, v.patch);
      SplitText(a, b, c);
      PartsParse([a, b, c], v);
    }
  }

  lemma PartsParse(parts: seq<string>, v: Version)
    requires |parts| == 3
    ensures ParseParts(parts) == Some(v)
      <==> v.Fits() && Numeral(parts[0], v.major) && Numeral(parts[1], v.minor) && Numeral(parts[2], v.patch)
  {
    AtoiMeans(parts[0], v.major);
    AtoiMeans(parts[1], v.minor);
    AtoiMeans(parts[2], v.patch);
  }

  lemma ThreeBetween(parts: seq<string>)
    requires |parts| == 3
    ensures Between(parts, '.') == parts[0] + "." + parts[1] + "." + parts[2]
  {
    assert Between(parts[1..][1..], '.') == parts[2];
    assert Between(parts[1..], '.') == parts[1] + ['.'] + parts[2];
  }

  lemma NumeralHasNoDot(s: string, n: nat)
    requires Numeral(s, n)
    ensures '.' !in s
  {
    if Spells(s, n) {
      SpellsValue(s, n);
    } else {
      SpellsValue(s[1..], n);
      assert s == [s[0]] + s[1..];
    }
  }

  lemma TwoDigits(a: nat, b: nat)
    requires 0 < a < 10 && b < 10
    ensures Decimal(10 * a + b) == [Digit(a), Digit(b)]
  {
    DecimalStep(a, b);
  }

  lemma TextOf(v: Version, a: string, b: string, c: string)
    requires Decimal(v.major) == a && Decimal(v.minor) == b && Decimal(v.patch) == c
    ensures v.Text() == "v" + a + "." + b + "." + c
  {
  }

  // The texts are the usual ones.
  lemma UsualTexts()
    ensures Version(1, 32, 10).Text() == "v1.32.10" && Version(4, 56, 789).Text() == "v4.56.789"
  {
    TwoDigits(3, 2);
    TwoDigits(1, 0);
    TextOf(Version(1, 32, 10), "1", "32", "10");
    TwoDigits(5, 6);
    TwoDigits(7, 8);
    DecimalStep(78, 9);
    TextOf(Version(4, 56, 789), "4", "56", "789");
  }
}
