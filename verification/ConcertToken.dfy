/** Signed concert check-in tokens (`sign_token` and `verify_token`,
    crates/crowdrelay-api/src/concert_qr.rs). */
module ConcertToken {
  import opened Prelude
  import opened Bytes
  import opened Text

  type Uuid = s: seq<byte> | |s| == 16 witness seq(16, i => 0)

  datatype Claims = Claims(campaign: Uuid, event: Uuid, expiresAt: int)

  /** HMAC-SHA-256 is any function from a key and a message to 32 bytes. */
  type Mac = (Hash, string) -> Hash

  const MAX_TOKEN_BYTES := 256

  // ---------------------------------------------------------------------------
  // UUID text

  /** `Display`: lower-case hex in groups of 8, 4, 4, 4 and 12. */
  function PrintUuid(u: Uuid): (s: string)
    ensures |s| == 36
  {
    HexEncode(u[..4]) + "-" + HexEncode(u[4..6]) + "-" + HexEncode(u[6..8]) + "-" + HexEncode(u[8..10]) + "-" + HexEncode(u[10..])
  }

  function ParseHyphenated(s: string): Option<Uuid>
    requires |s| == 36
  {
    if s[8] != '-' || s[13] != '-' || s[18] != '-' || s[23] != '-' then None
    else ParseSimple(s[..8] + s[9..13] + s[14..18] + s[19..23] + s[24..])
  }

  function ParseSimple(s: string): Option<Uuid>
    requires |s| == 32
  {
    HexDecodeLength(s);
    HexDecode(s)
  }

  /** `Uuid::parse_str`: simple, hyphenated, braced or URN form, digits of either case. */
  function ParseUuid(s: string): Option<Uuid> {
    if |s| == 32 then ParseSimple(s)
    else if |s| == 36 then ParseHyphenated(s)
    else if |s| == 38 && s[0] == '{' && s[37] == '}' then ParseHyphenated(s[1..37])
    else if |s| == 45 && s[..9] == "urn:uuid:" then ParseHyphenated(s[9..])
    else None
  }

  lemma {:induction false} HexEncodeConcat(a: seq<byte>, b: seq<byte>)
    ensures HexEncode(a + b) == HexEncode(a) + HexEncode(b)
  {
    if a == [] {
      assert a + b == b;
    } else {
      HexEncodeConcat(a[1..], b);
      assert (a + b)[1..] == a[1..] + b;
    }
  }

  /** Five groups joined by hyphens fall apart into the same five groups. */
  lemma Groups(a: string, b: string, c: string, d: string, e: string)
    requires |a| == 8 && |b| == 4 && |c| == 4 && |d| == 4 && |e| == 12
    ensures var s := a + "-" + b + "-" + c + "-" + d + "-" + e;
            && s[8] == '-' && s[13] == '-' && s[18] == '-' && s[23] == '-'
            && s[..8] == a && s[9..13] == b && s[14..18] == c && s[19..23] == d && s[24..] == e
  {
  }

  lemma GroupsEncode(u: Uuid)
    ensures HexEncode(u[..4]) + HexEncode(u[4..6]) + HexEncode(u[6..8]) + HexEncode(u[8..10]) + HexEncode(u[10..]) == HexEncode(u)
  {
    HexEncodeConcat(u[..4], u[4..6]);
    HexEncodeConcat(u[..6], u[6..8]);
    HexEncodeConcat(u[..8], u[8..10]);
    HexEncodeConcat(u[..10], u[10..]);
    assert u[..4] + u[4..6] == u[..6];
    assert u[..6] + u[6..8] == u[..8];
    assert u[..8] + u[8..10] == u[..10];
    assert u[..10] + u[10..] == u;
  }

  lemma UuidRoundTrip(u: Uuid)
    ensures ParseUuid(PrintUuid(u)) == Some(u)
  {
    Groups(HexEncode(u[..4]), HexEncode(u[4..6]), HexEncode(u[6..8]), HexEncode(u[8..10]), HexEncode(u[10..]));
    GroupsEncode(u);
    HexRoundTrip(u);
    assert ParseHyphenated(PrintUuid(u)) == ParseSimple(HexEncode(u));
  }

  lemma {:induction false} HexEncodeDigits(b: seq<byte>)
    ensures forall c | c in HexEncode(b) :: HexDigit(c)
  {
    if b != [] {
      HexEncodeDigits(b[1..]);
      DigitRoundTrip(b[0] / 16);
      DigitRoundTrip(b[0] % 16);
    }
  }

  lemma UuidCharacters(u: Uuid)
    ensures forall c | c in PrintUuid(u) :: HexDigit(c) || c == '-'
  {
    HexEncodeDigits(u[..4]);
    HexEncodeDigits(u[4..6]);
    HexEncodeDigits(u[6..8]);
    HexEncodeDigits(u[8..10]);
    HexEncodeDigits(u[10..]);
  }

  // ---------------------------------------------------------------------------
  // Tokens

  /** The canonical print of the claims, which is what the MAC covers. */
  function Unsigned(c: Claims): string {
    Join(["v1", PrintUuid(c.campaign), PrintUuid(c.event), PrintInt(c.expiresAt)], '.')
  }

  function SignToken(mac: Mac, key: Hash, c: Claims): string {
    Unsigned(c) + "." + HexEncode(mac(key, Unsigned(c)))
  }

  predicate Ascii(s: string) { forall c | c in s :: c < 128 as char }

  function VerifyToken(mac: Mac, key: Hash, token: string): Option<Claims> {
    if |token| > MAX_TOKEN_BYTES || !Ascii(token) then None
    else
      var parts := Split(token, '.');
      if |parts| != 5 || parts[0] != "v1" then None
      else
        var campaign, event, expiry, signature := ParseUuid(parts[1]), ParseUuid(parts[2]), ParseI64(parts[3]), HexDecode(parts[4]);
        if campaign.None? || event.None? || expiry.None? || signature.None? || |signature.value| != 32 then None
        else
          var c := Claims(campaign.value, event.value, expiry.value);
          if mac(key, Unsigned(c)) == signature.value then Some(c) else None
  }

  /** The five parts of a signed token. */
  function Parts(mac: Mac, key: Hash, c: Claims): seq<string> {
    ["v1", PrintUuid(c.campaign), PrintUuid(c.event), PrintInt(c.expiresAt), HexEncode(mac(key, Unsigned(c)))]
  }

  lemma SignTokenJoins(mac: Mac, key: Hash, c: Claims)
    ensures SignToken(mac, key, c) == Join(Parts(mac, key, c), '.')
  {
    var p := Parts(mac, key, c);
    var u := ["v1", PrintUuid(c.campaign), PrintUuid(c.event), PrintInt(c.expiresAt)];
    JoinSnoc(u, p[4]);
    assert u + [p[4]] == p;
  }

  lemma {:induction false} JoinSnoc(parts: seq<string>, last: string)
    requires parts != []
    ensures Join(parts + [last], '.') == Join(parts, '.') + "." + last
  {
    if |parts| > 1 {
      JoinSnoc(parts[1..], last);
      assert (parts + [last])[1..] == parts[1..] + [last];
    } else {
      assert (parts + [last])[1..] == [last];
    }
  }

  lemma FivePartsJoin(a: string, b: string, e: string, s: string)
    ensures Join(["v1", a, b, e, s], '.') == "v1." + a + "." + b + "." + e + "." + s
  {
    assert ["v1", a, b, e, s][1..] == [a, b, e, s];
    assert [a, b, e, s][1..] == [b, e, s];
    assert [b, e, s][1..] == [e, s];
    assert Join([e, s], '.') == e + "." + s by { assert [e, s][1..] == [s]; }
    assert Join([b, e, s], '.') == b + "." + (e + "." + s);
    assert Join([a, b, e, s], '.') == a + "." + (b + "." + (e + "." + s));
    assert "v1" + "." + (a + "." + (b + "." + (e + "." + s))) == "v1." + a + "." + b + "." + e + "." + s;
  }

  /** What a token looks like: five parts that read as the claims and as their MAC. */
  ghost predicate Reads(mac: Mac, key: Hash, token: string, c: Claims, campaign: string, event: string, expiry: string, signature: string) {
    && token == "v1." + campaign + "." + event + "." + expiry + "." + signature
    && ParseUuid(campaign) == Some(c.campaign) && ParseUuid(event) == Some(c.event)
    && ParseI64(expiry) == Some(c.expiresAt) && HexDecode(signature) == Some(mac(key, Unsigned(c)))
  }

  /** Printable ASCII other than the separator. */
  ghost predicate Plain(s: string) { forall c | c in s :: c < 128 as char && c != '.' }

  lemma HexTextIsPlain(s: string)
    requires HexDecode(s).Some?
    ensures Plain(s)
  {
    HexDecodeLength(s);
  }

  lemma PlainSplits(a: string, b: string)
    ensures Plain(a + b) <==> Plain(a) && Plain(b)
  {
    if Plain(a + b) {
      forall c | c in a ensures c < 128 as char && c != '.' { assert c in a + b; }
      forall c | c in b ensures c < 128 as char && c != '.' { assert c in a + b; }
    }
  }

  lemma HyphenatedIsPlain(h: string)
    requires |h| == 36 && ParseHyphenated(h).Some?
    ensures Plain(h)
  {
    var a, b, c, d, e := h[..8], h[9..13], h[14..18], h[19..23], h[24..];
    HexTextIsPlain(a + b + c + d + e);
    PlainSplits(a + b + c + d, e);
    PlainSplits(a + b + c, d);
    PlainSplits(a + b, c);
    PlainSplits(a, b);
    assert h == a + ['-'] + b + ['-'] + c + ['-'] + d + ['-'] + e;
  }

  lemma UuidTextIsPlain(s: string)
    requires ParseUuid(s).Some?
    ensures Plain(s)
  {
    if |s| == 32 {
      HexTextIsPlain(s);
    } else if |s| == 36 {
      HyphenatedIsPlain(s);
    } else if |s| == 38 {
      HyphenatedIsPlain(s[1..37]);
      assert s == ['{'] + s[1..37] + ['}'];
    } else {
      HyphenatedIsPlain(s[9..]);
      assert s == "urn:uuid:" + s[9..];
    }
  }

  lemma {:induction false} NatTextIsPlain(s: string)
    requires ParseNat(s).Some?
    ensures Plain(s)
  {
    assert s == s[..|s| - 1] + [s[|s| - 1]];
    if |s| > 1 { NatTextIsPlain(s[..|s| - 1]); }
  }

  lemma I64TextIsPlain(s: string)
    requires ParseI64(s).Some?
    ensures Plain(s)
  {
    if s[0] == '-' || s[0] == '+' {
      NatTextIsPlain(s[1..]);
      assert s == [s[0]] + s[1..];
    } else {
      NatTextIsPlain(s);
    }
  }

  /** Exactly which tokens are accepted, and with which claims. */
  lemma AcceptsExactly(mac: Mac, key: Hash, token: string, c: Claims)
    ensures VerifyToken(mac, key, token) == Some(c) <==>
            |token| <= 256
            && exists campaign, event, expiry, signature :: Reads(mac, key, token, c, campaign, event, expiry, signature)
  {
    if VerifyToken(mac, key, token) == Some(c) {
      var p := Split(token, '.');
      JoinSplit(token, '.');
      assert p == ["v1", p[1], p[2], p[3], p[4]];
      FivePartsJoin(p[1], p[2], p[3], p[4]);
      assert Reads(mac, key, token, c, p[1], p[2], p[3], p[4]);
    }
    forall a, b, e, s | |token| <= MAX_TOKEN_BYTES && Reads(mac, key, token, c, a, b, e, s)
      ensures VerifyToken(mac, key, token) == Some(c)
    {
      ReadingIsAccepted(mac, key, token, c, a, b, e, s);
    }
  }

  lemma PlainConcat(a: string, b: string, e: string, s: string)
    requires Plain(a) && Plain(b) && Plain(e) && Plain(s)
    ensures Ascii("v1." + a + "." + b + "." + e + "." + s)
  {
  }

  lemma ReadingIsAccepted(mac: Mac, key: Hash, token: string, c: Claims, a: string, b: string, e: string, s: string)
    requires |token| <= MAX_TOKEN_BYTES && Reads(mac, key, token, c, a, b, e, s)
    ensures VerifyToken(mac, key, token) == Some(c)
  {
    UuidTextIsPlain(a);
    UuidTextIsPlain(b);
    I64TextIsPlain(e);
    HexTextIsPlain(s);
    PlainConcat(a, b, e, s);
    var parts := ["v1", a, b, e, s];
    FivePartsJoin(a, b, e, s);
    assert Split(token, '.') == parts by {
      assert NoSep(parts, '.');
      SplitJoin(parts, '.');
    }
  }

  /** A signed token reads back as its claims, and is far from the length limit. */
  lemma SignVerifyRoundTrip(mac: Mac, key: Hash, c: Claims)
    requires I64_MIN <= c.expiresAt <= I64_MAX
    ensures |SignToken(mac, key, c)| <= 162
    ensures VerifyToken(mac, key, SignToken(mac, key, c)) == Some(c)
  {
    var p := Parts(mac, key, c);
    SignedReads(mac, key, c);
    PrintIntLength(c.expiresAt);
    ReadingIsAccepted(mac, key, SignToken(mac, key, c), c, p[1], p[2], p[3], p[4]);
  }

  /** The message under the MAC determines the claims. */
  lemma UnsignedInjective(c: Claims, d: Claims)
    requires I64_MIN <= c.expiresAt <= I64_MAX && I64_MIN <= d.expiresAt <= I64_MAX
    requires Unsigned(c) == Unsigned(d)
    ensures c == d
  {
    UnsignedSplits(c);
    UnsignedSplits(d);
    UuidRoundTrip(c.campaign);
    UuidRoundTrip(d.campaign);
    UuidRoundTrip(c.event);
    UuidRoundTrip(d.event);
    I64RoundTrip(c.expiresAt);
    I64RoundTrip(d.expiresAt);
  }

  lemma UnsignedSplits(c: Claims)
    requires I64_MIN <= c.expiresAt <= I64_MAX
    ensures Split(Unsigned(c), '.') == ["v1", PrintUuid(c.campaign), PrintUuid(c.event), PrintInt(c.expiresAt)]
  {
    UuidCharacters(c.campaign);
    UuidCharacters(c.event);
    I64RoundTrip(c.expiresAt);
    SplitJoin(["v1", PrintUuid(c.campaign), PrintUuid(c.event), PrintInt(c.expiresAt)], '.');
  }

  /** An accepted token carries the MAC of the canonical print of the claims it is read
      as; so one signature under one key vouches for one set of claims, unless the MAC
      itself gives two different messages the same value. */
  lemma SignatureVouchesForClaims(mac: Mac, key: Hash, token: string, token': string)
    requires VerifyToken(mac, key, token).Some? && VerifyToken(mac, key, token').Some?
    requires HexDecode(Split(token, '.')[|Split(token, '.')| - 1]) == HexDecode(Split(token', '.')[|Split(token', '.')| - 1])
    ensures var c, d := VerifyToken(mac, key, token).value, VerifyToken(mac, key, token').value;
            c == d || (Unsigned(c) != Unsigned(d) && mac(key, Unsigned(c)) == mac(key, Unsigned(d)))
  {
    var c, d := VerifyToken(mac, key, token).value, VerifyToken(mac, key, token').value;
    if Unsigned(c) == Unsigned(d) { UnsignedInjective(c, d); }
  }

  lemma SignedReads(mac: Mac, key: Hash, c: Claims)
    requires I64_MIN <= c.expiresAt <= I64_MAX
    ensures var p := Parts(mac, key, c);
            Reads(mac, key, SignToken(mac, key, c), c, p[1], p[2], p[3], p[4])
  {
    var p := Parts(mac, key, c);
    SignTokenJoins(mac, key, c);
    FivePartsJoin(p[1], p[2], p[3], p[4]);
    UuidRoundTrip(c.campaign);
    UuidRoundTrip(c.event);
    I64RoundTrip(c.expiresAt);
    HexRoundTrip(mac(key, Unsigned(c)));
  }

  lemma BracedUuid(u: Uuid)
    ensures ParseUuid("{" + PrintUuid(u) + "}") == Some(u)
  {
    var s := "{" + PrintUuid(u) + "}";
    UuidRoundTrip(u);
    assert s[1..37] == PrintUuid(u);
  }

  function BracedToken(mac: Mac, key: Hash, c: Claims): string {
    var p := Parts(mac, key, c);
    "v1." + ("{" + p[1] + "}") + "." + p[2] + "." + p[3] + "." + p[4]
  }

  lemma BracedReads(mac: Mac, key: Hash, c: Claims)
    requires I64_MIN <= c.expiresAt <= I64_MAX
    ensures var p := Parts(mac, key, c);
            Reads(mac, key, BracedToken(mac, key, c), c, "{" + p[1] + "}", p[2], p[3], p[4])
  {
    SignedReads(mac, key, c);
    BracedUuid(c.campaign);
  }

  lemma BracedLength(mac: Mac, key: Hash, c: Claims)
    ensures |BracedToken(mac, key, c)| == |SignToken(mac, key, c)| + 2
  {
    var p := Parts(mac, key, c);
    SignTokenJoins(mac, key, c);
    FivePartsJoin(p[1], p[2], p[3], p[4]);
  }

  /** Tokens are not unique, for any claims: a UUID may stand in braces. */
  lemma AnotherTokenAccepted(mac: Mac, key: Hash, c: Claims)
    requires I64_MIN <= c.expiresAt <= I64_MAX
    ensures exists token :: token != SignToken(mac, key, c) && VerifyToken(mac, key, token) == Some(c)
  {
    var p, token := Parts(mac, key, c), BracedToken(mac, key, c);
    SignVerifyRoundTrip(mac, key, c);
    BracedReads(mac, key, c);
    BracedLength(mac, key, c);
    ReadingIsAccepted(mac, key, token, c, "{" + p[1] + "}", p[2], p[3], p[4]);
  }
}
