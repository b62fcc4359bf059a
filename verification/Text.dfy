/** Decimal integers, splitting at a separator, and white space. */
module Text {
  import opened Prelude

  // ---------------------------------------------------------------------------
  // Decimal

  const DIGITS := "0123456789"

  predicate Digit(c: char) { '0' <= c <= '9' }

  function PrintNat(n: nat): (s: string)
    ensures s != ""
  {
    if n < 10 then [DIGITS[n]] else PrintNat(n / 10) + [DIGITS[n % 10]]
  }

  function PrintInt(n: int): string { if n < 0 then "-" + PrintNat(-n) else PrintNat(n) }

  function ParseNat(s: string): Option<nat> {
    if s == "" || !Digit(s[|s| - 1]) then None
    else
      var d := s[|s| - 1] as int - '0' as int;
      if |s| == 1 then Some(d)
      else
        match ParseNat(s[..|s| - 1])
        case None => None
        case Some(n) => Some(n * 10 + d)
  }

  const I64_MIN: int := -0x8000_0000_0000_0000
  const I64_MAX: int := 0x7fff_ffff_ffff_ffff

  /** `str::parse::<i64>`: an optional sign, digits, and a value in range. */
  function ParseI64(s: string): Option<int> {
    if s == "" then None
    else
      var magnitude := ParseNat(if s[0] == '-' || s[0] == '+' then s[1..] else s);
      if magnitude.None? then None
      else
        var n := if s[0] == '-' then 0 - magnitude.value else magnitude.value;
        if I64_MIN <= n <= I64_MAX then Some(n) else None
  }

  lemma {:induction false} NatRoundTrip(n: nat)
    ensures ParseNat(PrintNat(n)) == Some(n) && forall c | c in PrintNat(n) :: Digit(c)
  {
    var s, d := PrintNat(n), n % 10;
    assert Digit(DIGITS[d]) && DIGITS[d] as int - '0' as int == d by {
      assert DIGITS[d] == '0' + d as char;
    }
    if n >= 10 {
      NatRoundTrip(n / 10);
      assert s[..|s| - 1] == PrintNat(n / 10);
    }
  }

  lemma NegativeRoundTrip(m: nat)
    requires 0 < m <= -I64_MIN
    ensures ParseI64("-" + PrintNat(m)) == Some(0 - m)
  {
    var s := "-" + PrintNat(m);
    NatRoundTrip(m);
    assert s[1..] == PrintNat(m);
  }

  lemma I64RoundTrip(n: int)
    requires I64_MIN <= n <= I64_MAX
    ensures ParseI64(PrintInt(n)) == Some(n)
    ensures forall c | c in PrintInt(n) :: Digit(c) || c == '-'
  {
    if n < 0 {
      NatRoundTrip(-n);
      NegativeRoundTrip(-n);
    } else {
      NatRoundTrip(n);
      assert PrintNat(n)[0] in PrintNat(n);
    }
  }

  function Pow10(k: nat): nat { if k == 0 then 1 else 10 * Pow10(k - 1) }

  lemma {:induction false} PrintNatLength(n: nat, k: nat)
    requires k > 0 && n < Pow10(k)
    ensures |PrintNat(n)| <= k
  {
    if n >= 10 { PrintNatLength(n / 10, k - 1); }
  }

  /** A printed i64 has at most twenty characters. */
  lemma PrintIntLength(n: int)
    requires I64_MIN <= n <= I64_MAX
    ensures |PrintInt(n)| <= 20
  {
    assert Pow10(5) == 100_000;
    assert Pow10(10) == 10_000_000_000;
    assert Pow10(15) == 1_000_000_000_000_000;
    assert Pow10(19) == 10_000_000_000_000_000_000;
    PrintNatLength(if n < 0 then -n else n, 19);
  }

  // ---------------------------------------------------------------------------
  // Splitting and joining

  /** `split(sep)`: the pieces between separators, at least one. */
  function Split(s: string, sep: char): (parts: seq<string>)
    ensures parts != []
  {
    if s == "" then [""]
    else
      var rest := Split(s[1..], sep);
      if s[0] == sep then [""] + rest else [[s[0]] + rest[0]] + rest[1..]
  }

  function Join(parts: seq<string>, sep: char): string {
    if parts == [] then "" else if |parts| == 1 then parts[0] else parts[0] + [sep] + Join(parts[1..], sep)
  }

  ghost predicate NoSep(parts: seq<string>, sep: char) {
    forall p | p in parts :: sep !in p
  }

  lemma {:induction false} SplitFirst(a: string, rest: string, sep: char)
    requires sep !in a
    ensures Split(a + [sep] + rest, sep) == [a] + Split(rest, sep)
  {
    var s := a + [sep] + rest;
    if a == "" {
      assert s[1..] == rest;
    } else {
      SplitFirst(a[1..], rest, sep);
      assert s[1..] == a[1..] + [sep] + rest && s[0] == a[0] && a[0] in a;
      assert a == [a[0]] + a[1..] && ([a[1..]] + Split(rest, sep))[1..] == Split(rest, sep);
    }
  }

  lemma {:induction false} SplitNone(a: string, sep: char)
    requires sep !in a
    ensures Split(a, sep) == [a]
  {
    if a != "" {
      assert a[0] in a && forall c | c in a[1..] :: c in a;
      SplitNone(a[1..], sep);
      assert a == [a[0]] + a[1..] && [a[1..]][1..] == [];
    }
  }

  /** Splitting undoes joining, for pieces that do not contain the separator. */
  lemma {:induction false} SplitJoin(parts: seq<string>, sep: char)
    requires parts != [] && NoSep(parts, sep)
    ensures Split(Join(parts, sep), sep) == parts
  {
    var a := parts[0];
    assert a in parts;
    if |parts| == 1 {
      SplitNone(a, sep);
      assert parts == [a];
    } else {
      var rest := parts[1..];
      assert NoSep(rest, sep) by { assert forall p | p in rest :: p in parts; }
      SplitJoin(rest, sep);
      SplitFirst(a, Join(rest, sep), sep);
      assert parts == [a] + rest;
    }
  }

  /** Prepending a character that is no separator extends the first piece. */
  lemma JoinExtend(c: char, parts: seq<string>, sep: char)
    requires parts != []
    ensures Join([[c] + parts[0]] + parts[1..], sep) == [c] + Join(parts, sep)
  {
    var longer := [[c] + parts[0]] + parts[1..];
    assert longer[1..] == parts[1..];
    if |parts| > 1 {
      assert [c] + (parts[0] + [sep] + Join(parts[1..], sep)) == ([c] + parts[0]) + [sep] + Join(parts[1..], sep);
    }
  }

  lemma JoinEmptyFirst(parts: seq<string>, sep: char)
    requires parts != []
    ensures Join([""] + parts, sep) == [sep] + Join(parts, sep)
  {
    assert ([""] + parts)[1..] == parts;
    assert "" + [sep] + Join(parts, sep) == [sep] + Join(parts, sep);
  }

  lemma NoSepExtend(c: char, parts: seq<string>, sep: char)
    requires parts != [] && NoSep(parts, sep) && c != sep
    ensures NoSep([[c] + parts[0]] + parts[1..], sep)
  {
    assert parts[0] in parts && forall p | p in parts[1..] :: p in parts;
  }

  /** Joining undoes splitting, always. */
  lemma {:induction false} JoinSplit(s: string, sep: char)
    ensures Join(Split(s, sep), sep) == s && NoSep(Split(s, sep), sep)
  {
    if s != "" {
      JoinSplit(s[1..], sep);
      var rest := Split(s[1..], sep);
      assert s == [s[0]] + s[1..];
      if s[0] == sep {
        JoinEmptyFirst(rest, sep);
      } else {
        JoinExtend(s[0], rest, sep);
        NoSepExtend(s[0], rest, sep);
      }
    }
  }

  // ---------------------------------------------------------------------------
  // White space as Python's `str.strip` and `\s` have it

  predicate PySpace(c: char) {
    || '\t' <= c <= '\r' || '\U{1c}' <= c <= ' ' || c == '\U{85}' || c == '\U{a0}' || c == '\U{1680}'
    || '\U{2000}' <= c <= '\U{200a}' || c == '\U{2028}' || c == '\U{2029}' || c == '\U{202f}' || c == '\U{205f}'
    || c == '\U{3000}'
  }

  /** The ASCII part of it, by code. */
  lemma AsciiSpaces(c: char)
    requires c as int < 128
    ensures PySpace(c) <==> c as int in {9, 10, 11, 12, 13, 28, 29, 30, 31, 32}
  {
  }

  predicate Solid(s: string) { s != "" ==> !PySpace(s[0]) && !PySpace(s[|s| - 1]) }

  predicate AllSpace(s: string) { forall c | c in s :: PySpace(c) }

  /** Stripping takes white space away at both ends, all of it and nothing else. */
  lemma {:induction false} StripSplits(s: string) returns (before: string, behind: string)
    ensures s == before + PyStrip(s) + behind && Solid(PyStrip(s)) && AllSpace(before) && AllSpace(behind)
    decreases |s|
  {
    before, behind := "", "";
    if s != "" && PySpace(s[0]) {
      var front, back := StripSplits(s[1..]);
      SplitsFront(s, front, PyStrip(s[1..]), back);
      before, behind := [s[0]] + front, back;
    } else if s != "" && PySpace(s[|s| - 1]) {
      var n := |s| - 1;
      var front, back := StripSplits(s[..n]);
      SplitsBack(s, front, PyStrip(s[..n]), back);
      before, behind := front, back + [s[n]];
    }
  }

  lemma SplitsFront(s: string, before: string, middle: string, behind: string)
    requires s != "" && PySpace(s[0]) && s[1..] == before + middle + behind && AllSpace(before)
    ensures s == [s[0]] + before + middle + behind && AllSpace([s[0]] + before)
  {
    assert s == [s[0]] + s[1..];
  }

  lemma SplitsBack(s: string, before: string, middle: string, behind: string)
    requires s != "" && PySpace(s[|s| - 1]) && s[..|s| - 1] == before + middle + behind && AllSpace(behind)
    ensures s == before + middle + (behind + [s[|s| - 1]]) && AllSpace(behind + [s[|s| - 1]])
  {
    assert s == s[..|s| - 1] + [s[|s| - 1]];
  }

  function PyStrip(s: string): string
    decreases |s|
  {
    if s == "" then s
    else if PySpace(s[0]) then PyStrip(s[1..])
    else if PySpace(s[|s| - 1]) then PyStrip(s[..|s| - 1])
    else s
  }
}
