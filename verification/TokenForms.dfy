/** Which of the tokens that `verify_token` accepts are the ones that `sign_token` prints. */
module TokenForms {
  import opened Prelude
  import opened Bytes
  import opened Text
  import opened ConcertToken

  predicate NoUpper(s: string) { forall c | c in s :: !('A' <= c <= 'F') }

  /** Canonical text: a lower-case hyphenated UUID; digits with no plus sign, no needless
      zero and no minus in front of zero; lower-case hex. */
  predicate PlainUuid(s: string) { |s| == 36 && NoUpper(s) }

  predicate PlainInt(s: string) {
    s != "" && s[0] != '+' && (s[0] == '0' ==> s == "0") && (s[0] == '-' ==> |s| > 1 && s[1] != '0')
  }

  // ---------------------------------------------------------------------------
  // Hex

  lemma DigitForm(c: char)
    requires HexDigit(c)
    ensures HEX[DigitValue(c)] == c <==> !('A' <= c <= 'F')
  {
    var d := DigitValue(c);
    if d < 10 { assert HEX[d] == '0' + d as char; } else { assert HEX[d] == 'a' + (d - 10) as char; }
  }

  lemma {:induction false} HexForm(s: string)
    requires HexDecode(s).Some?
    ensures s == HexEncode(HexDecode(s).value) <==> NoUpper(s)
    decreases |s|
  {
    if s != "" {
      var b, rest := HexDecode(s).value, s[2..];
      HexForm(rest);
      DigitForm(s[0]);
      DigitForm(s[1]);
      assert b[1..] == HexDecode(rest).value;
      var hi, lo := HEX[b[0] / 16], HEX[b[0] % 16];
      assert b[0] / 16 == DigitValue(s[0]) && b[0] % 16 == DigitValue(s[1]);
      assert HexEncode(b) == [hi, lo] + HexEncode(b[1..]);
      assert s == [s[0], s[1]] + rest;
      UpperCons(s[0], s[1], rest);
    }
  }

  lemma UpperCons(a: char, b: char, rest: string)
    ensures NoUpper([a, b] + rest) <==> NoUpper([a, b]) && NoUpper(rest)
    ensures NoUpper([a, b]) <==> !('A' <= a <= 'F') && !('A' <= b <= 'F')
  {
    UpperConcat([a, b], rest);
    assert a in [a, b] && b in [a, b];
  }

  lemma UpperConcat(a: string, b: string)
    ensures NoUpper(a + b) <==> NoUpper(a) && NoUpper(b)
  {
    if NoUpper(a + b) {
      forall c | c in a ensures !('A' <= c <= 'F') { assert c in a + b; }
      forall c | c in b ensures !('A' <= c <= 'F') { assert c in a + b; }
    }
  }

  lemma HexIsLower(b: seq<byte>)
    ensures NoUpper(HexEncode(b))
  {
    HexRoundTrip(b);
    HexForm(HexEncode(b));
  }

  // ---------------------------------------------------------------------------
  // UUIDs

  lemma Hyphens(a: string, b: string, c: string, d: string, e: string)
    ensures NoUpper(a + "-" + b + "-" + c + "-" + d + "-" + e)
            <==> NoUpper(a) && NoUpper(b) && NoUpper(c) && NoUpper(d) && NoUpper(e)
  {
    UpperConcat(a + "-" + b + "-" + c + "-" + d + "-", e);
    UpperConcat(a + "-" + b + "-" + c + "-" + d, "-");
    UpperConcat(a + "-" + b + "-" + c + "-", d);
    UpperConcat(a + "-" + b + "-" + c, "-");
    UpperConcat(a + "-" + b + "-", c);
    UpperConcat(a + "-" + b, "-");
    UpperConcat(a + "-", b);
    UpperConcat(a, "-");
  }

  lemma NoHyphens(a: string, b: string, c: string, d: string, e: string)
    requires NoUpper(a) && NoUpper(b) && NoUpper(c) && NoUpper(d) && NoUpper(e)
    ensures NoUpper(a + b + c + d + e)
  {
    UpperConcat(a, b);
    UpperConcat(a + b, c);
    UpperConcat(a + b + c, d);
    UpperConcat(a + b + c + d, e);
  }

  lemma PrintedIsLower(u: Uuid)
    ensures NoUpper(PrintUuid(u))
  {
    HexIsLower(u[..4]);
    HexIsLower(u[4..6]);
    HexIsLower(u[6..8]);
    HexIsLower(u[8..10]);
    HexIsLower(u[10..]);
    Hyphens(HexEncode(u[..4]), HexEncode(u[4..6]), HexEncode(u[6..8]), HexEncode(u[8..10]), HexEncode(u[10..]));
  }

  /** Texts of five parts of fixed lengths agree part by part. */
  lemma SameParts(a: string, b: string, c: string, d: string, e: string, a': string, b': string, c': string, d': string, e': string)
    requires |a| == |a'| && |b| == |b'| && |c| == |c'| && |d| == |d'|
    requires a + b + c + d + e == a' + b' + c' + d' + e'
    ensures a == a' && b == b' && c == c' && d == d' && e == e'
  {
    SameSplit(a + b + c + d, e, a' + b' + c' + d', e');
    SameSplit(a + b + c, d, a' + b' + c', d');
    SameSplit(a + b, c, a' + b', c');
    SameSplit(a, b, a', b');
  }

  lemma SameSplit(a: string, b: string, a': string, b': string)
    requires |a| == |a'| && a + b == a' + b'
    ensures a == a' && b == b'
  {
    assert (a + b)[..|a|] == a && (a' + b')[..|a|] == a';
    assert (a + b)[|a|..] == b && (a' + b')[|a|..] == b';
  }

  lemma Hyphenated(s: string)
    requires |s| == 36 && s[8] == '-' && s[13] == '-' && s[18] == '-' && s[23] == '-'
    ensures s == s[..8] + "-" + s[9..13] + "-" + s[14..18] + "-" + s[19..23] + "-" + s[24..]
  {
  }

  lemma UuidForm(s: string)
    requires ParseUuid(s).Some?
    ensures s == PrintUuid(ParseUuid(s).value) <==> PlainUuid(s)
  {
    var u := ParseUuid(s).value;
    PrintedIsLower(u);
    if PlainUuid(s) {
      var a, b, c, d, e := s[..8], s[9..13], s[14..18], s[19..23], s[24..];
      Hyphenated(s);
      Hyphens(a, b, c, d, e);
      NoHyphens(a, b, c, d, e);
      HexForm(a + b + c + d + e);
      GroupsEncode(u);
      SameParts(a, b, c, d, e, HexEncode(u[..4]), HexEncode(u[4..6]), HexEncode(u[6..8]), HexEncode(u[8..10]), HexEncode(u[10..]));
    }
  }

  // ---------------------------------------------------------------------------
  // Integers

  lemma ZeroText()
    ensures PrintNat(0) == "0" && ParseNat("0") == Some(0)
  {
    assert DIGITS[0] == '0';
  }

  lemma {:induction false} NatForm(s: string)
    requires ParseNat(s).Some?
    ensures s == PrintNat(ParseNat(s).value) <==> s[0] != '0' || s == "0"
    decreases |s|
  {
    var n, k := ParseNat(s).value, |s| - 1;
    if k == 0 {
      assert s == [DIGITS[n]] by { assert DIGITS[n] == '0' + n as char; }
    } else {
      var rest := s[..k];
      NatForm(rest);
      assert s == rest + [s[k]] && rest[0] == s[0];
      var m := ParseNat(rest).value;
      assert n / 10 == m && DIGITS[n % 10] == s[k] by { assert DIGITS[n % 10] == '0' + (n % 10) as char; }
      if m == 0 {
        assert s[0] == '0';
        assert |PrintNat(n)| == 1;
      } else {
        assert PrintNat(n) == PrintNat(m) + [s[k]];
        SameSnoc(rest, PrintNat(m), s[k]);
        ZeroText();
      }
    }
  }

  lemma SameSnoc(a: string, b: string, c: char)
    ensures a + [c] == b + [c] <==> a == b
  {
    if a + [c] == b + [c] { assert (a + [c])[..|a|] == a && (b + [c])[..|b|] == b; }
  }

  lemma IntForm(s: string)
    requires ParseI64(s).Some?
    ensures s == PrintInt(ParseI64(s).value) <==> PlainInt(s)
  {
    var n := ParseI64(s).value;
    if s[0] == '-' || s[0] == '+' {
      SignedForm(s);
    } else {
      NatForm(s);
    }
  }

  lemma SignedForm(s: string)
    requires ParseI64(s).Some? && (s[0] == '-' || s[0] == '+')
    ensures s == PrintInt(ParseI64(s).value) <==> s[0] == '-' && |s| > 1 && s[1] != '0'
  {
    var n, digits := ParseI64(s).value, s[1..];
    var m := ParseNat(digits).value;
    NatForm(digits);
    NatRoundTrip(m);
    assert s == [s[0]] + digits;
    if s[0] == '+' {
      assert PrintInt(n)[0] in PrintInt(n);
      assert !Digit('+');
    } else if m == 0 {
      assert PrintInt(n) == PrintNat(0);
      ZeroText();
      assert PrintInt(n)[0] in PrintNat(0);
    } else {
      assert PrintInt(n) == "-" + PrintNat(m);
      assert digits == "0" ==> m == 0;
      assert PrintInt(n)[1..] == PrintNat(m);
    }
  }

  /** Other texts of the same numbers: a plus sign, and zeros in front; and what is no text
      of any. */
  lemma OtherNumbers(s: string, n: nat)
    requires ParseNat(s) == Some(n)
    ensures ParseI64("+" + s) == ParseI64("0" + s) == if n <= 0x7fff_ffff_ffff_ffff then Some(n) else None
    ensures var m: int := n; ParseI64("-" + s) == if n <= 0x8000_0000_0000_0000 then Some(-m) else None
  {
    assert ("+" + s)[1..] == s && ("-" + s)[1..] == s;
    ZerosInFront(s, n);
  }

  lemma {:induction false} ZerosInFront(s: string, n: nat)
    requires ParseNat(s) == Some(n)
    ensures ParseNat("0" + s) == Some(n)
    decreases |s|
  {
    var t, k := "0" + s, |s| - 1;
    assert t[..|t| - 1] == "0" + s[..k] && t[|t| - 1] == s[k];
    if k == 0 {
      ZeroText();
      assert t[..1] == "0";
    } else {
      ZerosInFront(s[..k], ParseNat(s[..k]).value);
    }
  }

  /** Other texts of the same UUID: without hyphens, in braces, and as a URN. */
  lemma OtherUuids(u: Uuid)
    ensures ParseUuid(HexEncode(u)) == Some(u)
    ensures ParseUuid("{" + PrintUuid(u) + "}") == Some(u)
    ensures ParseUuid("urn:uuid:" + PrintUuid(u)) == Some(u)
  {
    UuidRoundTrip(u);
    BracedUuid(u);
    HexRoundTrip(u);
    var urn := "urn:uuid:" + PrintUuid(u);
    assert urn[..9] == "urn:uuid:" && urn[9..] == PrintUuid(u);
  }

  // ---------------------------------------------------------------------------
  // Tokens

  predicate Canonical(parts: seq<string>) {
    |parts| == 5 && PlainUuid(parts[1]) && PlainUuid(parts[2]) && PlainInt(parts[3]) && NoUpper(parts[4])
  }

  lemma SignedSplits(mac: Mac, key: Hash, c: Claims)
    requires I64_MIN <= c.expiresAt <= I64_MAX
    ensures Split(SignToken(mac, key, c), '.') == Parts(mac, key, c)
  {
    UuidCharacters(c.campaign);
    UuidCharacters(c.event);
    I64RoundTrip(c.expiresAt);
    HexEncodeDigits(mac(key, Unsigned(c)));
    SignTokenJoins(mac, key, c);
    SplitJoin(Parts(mac, key, c), '.');
  }

  /** An accepted token is the one `sign_token` prints for its claims if and only if its
      parts are in canonical form. */
  lemma AcceptedIsSignedIff(mac: Mac, key: Hash, token: string)
    requires VerifyToken(mac, key, token).Some?
    ensures token == SignToken(mac, key, VerifyToken(mac, key, token).value) <==> Canonical(Split(token, '.'))
  {
    var c := VerifyToken(mac, key, token).value;
    AcceptedParts(mac, key, token);
    SignedSplits(mac, key, c);
    SplitDetermines(token, SignToken(mac, key, c));
    CanonicalIff(mac, key, Split(token, '.'), c);
  }

  /** The parts of a token and what they read as. */
  ghost predicate PartsRead(mac: Mac, key: Hash, p: seq<string>, c: Claims) {
    && |p| == 5 && p[0] == "v1"
    && ParseUuid(p[1]) == Some(c.campaign) && ParseUuid(p[2]) == Some(c.event) && ParseI64(p[3]) == Some(c.expiresAt)
    && HexDecode(p[4]) == Some(mac(key, Unsigned(c)))
  }

  lemma AcceptedParts(mac: Mac, key: Hash, token: string)
    requires VerifyToken(mac, key, token).Some?
    ensures PartsRead(mac, key, Split(token, '.'), VerifyToken(mac, key, token).value)
    ensures I64_MIN <= VerifyToken(mac, key, token).value.expiresAt <= I64_MAX
  {
  }

  lemma CanonicalIff(mac: Mac, key: Hash, p: seq<string>, c: Claims)
    requires PartsRead(mac, key, p, c)
    ensures p == Parts(mac, key, c) <==> Canonical(p)
  {
    UuidForm(p[1]);
    UuidForm(p[2]);
    IntForm(p[3]);
    HexForm(p[4]);
    SamePartsIff(p, Parts(mac, key, c));
  }

  lemma SplitDetermines(s: string, t: string)
    ensures s == t <==> Split(s, '.') == Split(t, '.')
  {
    JoinSplit(s, '.');
    JoinSplit(t, '.');
  }

  lemma SamePartsIff(p: seq<string>, q: seq<string>)
    requires |p| == |q| == 5 && p[0] == q[0]
    ensures p == q <==> p[1] == q[1] && p[2] == q[2] && p[3] == q[3] && p[4] == q[4]
  {
  }
}
