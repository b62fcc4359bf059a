/** Bytes, hashes, hex text and big-endian integers. */
module Bytes {
  import opened Prelude

  type byte = x: int | 0 <= x < 256

  type Hash = s: seq<byte> | |s| == 32 witness seq(32, i => 0)

  /** SHA-256 is any function with 32-byte values; results that need more name a collision. */
  type Sha256 = seq<byte> -> Hash

  // ---------------------------------------------------------------------------
  // Hex

  const HEX := "0123456789abcdef"

  /** The value of a hex digit of either case, or 16. */
  function DigitValue(c: char): nat {
    if '0' <= c <= '9' then c as int - '0' as int
    else if 'a' <= c <= 'f' then c as int - 'a' as int + 10
    else if 'A' <= c <= 'F' then c as int - 'A' as int + 10
    else 16
  }

  predicate HexDigit(c: char) { DigitValue(c) < 16 }

  function HexEncode(b: seq<byte>): (s: string)
    ensures |s| == 2 * |b|
  {
    if b == [] then "" else [HEX[b[0] / 16], HEX[b[0] % 16]] + HexEncode(b[1..])
  }

  /** `hex::decode`: pairs of hex digits and nothing else. */
  function HexDecode(s: string): Option<seq<byte>> {
    if s == [] then Some([])
    else if |s| == 1 || !HexDigit(s[0]) || !HexDigit(s[1]) then None
    else
      match HexDecode(s[2..])
      case None => None
      case Some(rest) => Some([DigitValue(s[0]) * 16 + DigitValue(s[1])] + rest)
  }

  lemma {:induction false} HexDecodeLength(s: string)
    ensures HexDecode(s).Some? ==> |s| == 2 * |HexDecode(s).value|
    ensures HexDecode(s).Some? <==> |s| % 2 == 0 && forall c | c in s :: HexDigit(c)
  {
    if |s| >= 2 {
      HexDecodeLength(s[2..]);
      assert s == [s[0], s[1]] + s[2..];
    }
  }

  lemma DigitRoundTrip(d: nat)
    requires d < 16
    ensures DigitValue(HEX[d]) == d
  {
    assert HEX[d] == if d < 10 then '0' + d as char else 'a' + (d - 10) as char;
  }

  lemma {:induction false} HexRoundTrip(b: seq<byte>)
    ensures HexDecode(HexEncode(b)) == Some(b)
  {
    if b != [] {
      HexRoundTrip(b[1..]);
      DecodePair(b[0], HexEncode(b[1..]), b[1..]);
      HeadAndTail(b);
    }
  }

  lemma DecodePair(x: byte, s: string, rest: seq<byte>)
    requires HexDecode(s) == Some(rest)
    ensures HexDecode([HEX[x / 16], HEX[x % 16]] + s) == Some([x] + rest)
  {
    DigitRoundTrip(x / 16);
    DigitRoundTrip(x % 16);
    assert ([HEX[x / 16], HEX[x % 16]] + s)[2..] == s;
  }

  lemma HeadAndTail<T>(s: seq<T>)
    requires s != []
    ensures s == [s[0]] + s[1..]
  {
  }

  /** The hex digits in order, in either case. */
  lemma DigitsAre(c: char)
    ensures HexDigit(c) <==> (exists d | 0 <= d < 16 :: c == HEX[d]) || (exists d | 0 <= d < 6 :: c == UPPER[d])
    ensures forall d | 0 <= d < 16 && c == HEX[d] :: DigitValue(c) == d
    ensures forall d | 0 <= d < 6 && c == UPPER[d] :: DigitValue(c) == 10 + d
  {
    forall d | 0 <= d < 16 ensures HEX[d] == if d < 10 then '0' + d as char else 'a' + (d - 10) as char {}
    forall d | 0 <= d < 6 ensures UPPER[d] == 'A' + d as char {}
    if '0' <= c <= '9' { assert c == HEX[c as int - '0' as int]; }
    if 'a' <= c <= 'f' { assert c == HEX[c as int - 'a' as int + 10]; }
    if 'A' <= c <= 'F' { assert c == UPPER[c as int - 'A' as int]; }
  }

  const UPPER := "ABCDEF"

  // ---------------------------------------------------------------------------
  // Big-endian integers

  function Pow256(k: nat): nat { if k == 0 then 1 else 256 * Pow256(k - 1) }

  lemma {:induction false} Pow256Positive(k: nat)
    ensures Pow256(k) > 0
  {
    if k > 0 { Pow256Positive(k - 1); }
  }

  /** `n.to_bytes(k, "big")` for an n that fits. */
  function BigEndian(n: nat, k: nat): (b: seq<byte>)
    ensures |b| == k
  {
    if k == 0 then [] else BigEndian(n / 256, k - 1) + [n % 256]
  }

  function FromBigEndian(b: seq<byte>): nat {
    if b == [] then 0 else FromBigEndian(b[..|b| - 1]) * 256 + b[|b| - 1]
  }

  lemma {:induction false} BigEndianRoundTrip(n: nat, k: nat)
    requires n < Pow256(k)
    ensures FromBigEndian(BigEndian(n, k)) == n
  {
    if k > 0 {
      BigEndianRoundTrip(n / 256, k - 1);
      assert BigEndian(n, k)[..k - 1] == BigEndian(n / 256, k - 1);
    }
  }

  lemma {:induction false} FromBigEndianRoundTrip(b: seq<byte>)
    ensures FromBigEndian(b) < Pow256(|b|) && BigEndian(FromBigEndian(b), |b|) == b
  {
    if b != [] {
      FromBigEndianRoundTrip(b[..|b| - 1]);
      assert b == b[..|b| - 1] + [b[|b| - 1]];
    }
  }
}
