/** The preimage of a public draw receipt (`verify_draw`, scripts/verify-external-proof.py)
    and its decoder. */
module DrawReceipt {
  import opened Prelude
  import opened Bytes
  import opened ProofVerifier

  const PREFIX: seq<byte> := // b"crowdrelay/draw-receipt/v1\x00"
    [99, 114, 111, 119, 100, 114, 101, 108, 97, 121, 47, 100, 114, 97, 119, 45,
     114, 101, 99, 101, 105, 112, 116, 47, 118, 49, 0]

  type Uuid = s: seq<byte> | |s| == 16 witness seq(16, i => 0)

  /** A receipt's fields; the two texts are their UTF-8 bytes. */
  datatype Draw = Draw(runId: Uuid, algorithm: seq<byte>, seedHash: Hash, revealedSeed: seq<byte>,
                       eligible: int, total: int, requested: int, selected: int,
                       candidates: Hash, winners: Hash)

  // ---------------------------------------------------------------------------
  // Encoding

  /** `len(value).to_bytes(8, "big") + value`, which overflows past 2^64 - 1. */
  function LengthPrefixed(value: seq<byte>): Option<seq<byte>> {
    if |value| < Pow256(8) then Some(BigEndian(|value|, 8) + value) else None
  }

  /** `int(value).to_bytes(size, "big", signed=True)` */
  function Signed(v: int, size: nat): Option<seq<byte>> {
    if 2 * v + Pow256(size) < 0 || 2 * v >= Pow256(size) then None
    else Some(BigEndian(if v < 0 then v + Pow256(size) else v, size))
  }

  function Encode(d: Draw): Option<seq<byte>> {
    var algorithm := LengthPrefixed(d.algorithm);
    var revealed := LengthPrefixed(d.revealedSeed);
    var eligible := Signed(d.eligible, 4);
    var total := Signed(d.total, 8);
    var requested := Signed(d.requested, 4);
    var selected := Signed(d.selected, 4);
    if algorithm.None? || revealed.None? || eligible.None? || total.None? || requested.None? || selected.None? then None
    else Some(PREFIX + (d.runId + (algorithm.value + (d.seedHash + (revealed.value + (eligible.value + (total.value
              + (requested.value + (selected.value + (d.candidates + d.winners))))))))))
  }

  // ---------------------------------------------------------------------------
  // Decoding, one field at a time

  /** A field read off the front of the input, and what follows it. */
  datatype Read<T> = Read(field: T, rest: seq<byte>) | Bad

  function TakeBytes(s: seq<byte>, n: nat): Read<seq<byte>> {
    if n <= |s| then Read(s[..n], s[n..]) else Bad
  }

  function TakePrefixed(s: seq<byte>): Read<seq<byte>> {
    match TakeBytes(s, 8)
    case Bad => Bad
    case Read(n, rest) => TakeBytes(rest, FromBigEndian(n))
  }

  function TakeSigned(s: seq<byte>, size: nat): Read<int> {
    match TakeBytes(s, size)
    case Bad => Bad
    case Read(b, rest) =>
      var u := FromBigEndian(b);
      Read(if 2 * u >= Pow256(size) then u - Pow256(size) else u, rest)
  }

  function Decode(s: seq<byte>): Option<Draw> {
    var r0 := TakeBytes(s, 27);
    if r0.Bad? || r0.field != PREFIX then None else
    var r1 := TakeBytes(r0.rest, 16);
    if r1.Bad? then None else
    var r2 := TakePrefixed(r1.rest);
    if r2.Bad? then None else
    var r3 := TakeBytes(r2.rest, 32);
    if r3.Bad? then None else
    var r4 := TakePrefixed(r3.rest);
    if r4.Bad? then None else
    var r5 := TakeSigned(r4.rest, 4);
    if r5.Bad? then None else
    var r6 := TakeSigned(r5.rest, 8);
    if r6.Bad? then None else
    var r7 := TakeSigned(r6.rest, 4);
    if r7.Bad? then None else
    var r8 := TakeSigned(r7.rest, 4);
    if r8.Bad? then None else
    var r9 := TakeBytes(r8.rest, 32);
    if r9.Bad? || |r9.rest| != 32 then None else
    Some(Draw(r1.field, r2.field, r3.field, r4.field, r5.field, r6.field, r7.field, r8.field, r9.field, r9.rest))
  }

  lemma TakesBytesBack(b: seq<byte>, rest: seq<byte>)
    ensures TakeBytes(b + rest, |b|) == Read(b, rest)
  {
  }

  lemma TakesPrefixedBack(value: seq<byte>, rest: seq<byte>)
    requires LengthPrefixed(value).Some?
    ensures TakePrefixed(LengthPrefixed(value).value + rest) == Read(value, rest)
  {
    var n := BigEndian(|value|, 8);
    assert LengthPrefixed(value).value + rest == n + (value + rest);
    TakesBytesBack(n, value + rest);
    BigEndianRoundTrip(|value|, 8);
    TakesBytesBack(value, rest);
  }

  lemma TakesSignedBack(v: int, size: nat, rest: seq<byte>)
    requires Signed(v, size).Some?
    ensures TakeSigned(Signed(v, size).value + rest, size) == Read(v, rest)
  {
    Pow256Positive(size);
    var u := if v < 0 then v + Pow256(size) else v;
    BigEndianRoundTrip(u, size);
    TakesBytesBack(Signed(v, size).value, rest);
  }

  /** The decoder recovers every field of every receipt in range. */
  lemma DecodeEncode(d: Draw)
    requires Encode(d).Some?
    ensures Decode(Encode(d).value) == Some(d)
  {
    var s9 := d.candidates + d.winners;
    var s8 := Signed(d.selected, 4).value + s9;
    var s7 := Signed(d.requested, 4).value + s8;
    var s6 := Signed(d.total, 8).value + s7;
    var s5 := Signed(d.eligible, 4).value + s6;
    var s4 := LengthPrefixed(d.revealedSeed).value + s5;
    var s3 := d.seedHash + s4;
    var s2 := LengthPrefixed(d.algorithm).value + s3;
    var s1 := d.runId + s2;
    TakesBytesBack(PREFIX, s1);
    TakesBytesBack(d.runId, s2);
    TakesPrefixedBack(d.algorithm, s3);
    TakesBytesBack(d.seedHash, s4);
    TakesPrefixedBack(d.revealedSeed, s5);
    TakesSignedBack(d.eligible, 4, s6);
    TakesSignedBack(d.total, 8, s7);
    TakesSignedBack(d.requested, 4, s8);
    TakesSignedBack(d.selected, 4, s9);
    TakesBytesBack(d.candidates, d.winners);
    DecodeOf(d, PREFIX + s1, s1, s2, s3, s4, s5, s6, s7, s8, s9);
  }

  predicate TakesField(s: seq<byte>, b: seq<byte>, rest: seq<byte>) { TakeBytes(s, |b|) == Read(b, rest) }

  /** Decoding field by field. */
  lemma DecodeOf(d: Draw, s0: seq<byte>, s1: seq<byte>, s2: seq<byte>, s3: seq<byte>, s4: seq<byte>, s5: seq<byte>,
                 s6: seq<byte>, s7: seq<byte>, s8: seq<byte>, s9: seq<byte>)
    requires TakesField(s0, PREFIX, s1) && TakesField(s1, d.runId, s2)
    requires TakePrefixed(s2) == Read(d.algorithm, s3) && TakesField(s3, d.seedHash, s4)
    requires TakePrefixed(s4) == Read(d.revealedSeed, s5)
    requires TakeSigned(s5, 4) == Read(d.eligible, s6) && TakeSigned(s6, 8) == Read(d.total, s7)
    requires TakeSigned(s7, 4) == Read(d.requested, s8) && TakeSigned(s8, 4) == Read(d.selected, s9)
    requires TakesField(s9, d.candidates, d.winners)
    ensures Decode(s0) == Some(d)
  {
  }

  lemma TakesSplit(s: seq<byte>, n: nat)
    ensures var r := TakeBytes(s, n); r.Read? ==> s == r.field + r.rest && |r.field| == n
  {
  }

  lemma PrefixedSplit(s: seq<byte>)
    ensures var r := TakePrefixed(s);
            r.Read? ==> LengthPrefixed(r.field).Some? && s == LengthPrefixed(r.field).value + r.rest
  {
    var r, n := TakePrefixed(s), TakeBytes(s, 8);
    if r.Read? {
      TakesSplit(s, 8);
      TakesSplit(n.rest, FromBigEndian(n.field));
      FromBigEndianRoundTrip(n.field);
      Regroup(n.field, r.field, r.rest);
    }
  }

  lemma Regroup(a: seq<byte>, b: seq<byte>, c: seq<byte>)
    ensures a + (b + c) == (a + b) + c
  {
  }

  lemma SignedSplit(s: seq<byte>, size: nat)
    ensures var r := TakeSigned(s, size);
            r.Read? ==> Signed(r.field, size).Some? && s == Signed(r.field, size).value + r.rest
  {
    var b := TakeBytes(s, size);
    if b.Read? { FromBigEndianRoundTrip(b.field); }
  }

  /** The decoder accepts nothing but receipts: what it reads encodes to its input. */
  lemma EncodeDecode(s: seq<byte>)
    requires Decode(s).Some?
    ensures Encode(Decode(s).value) == Some(s)
  {
    var r0 := TakeBytes(s, 27);
    var r1 := TakeBytes(r0.rest, 16);
    var r2 := TakePrefixed(r1.rest);
    var r3 := TakeBytes(r2.rest, 32);
    var r4 := TakePrefixed(r3.rest);
    var r5 := TakeSigned(r4.rest, 4);
    var r6 := TakeSigned(r5.rest, 8);
    var r7 := TakeSigned(r6.rest, 4);
    var r8 := TakeSigned(r7.rest, 4);
    TakesSplit(s, 27);
    TakesSplit(r0.rest, 16);
    PrefixedSplit(r1.rest);
    TakesSplit(r2.rest, 32);
    PrefixedSplit(r3.rest);
    SignedSplit(r4.rest, 4);
    SignedSplit(r5.rest, 8);
    SignedSplit(r6.rest, 4);
    SignedSplit(r7.rest, 4);
    TakesSplit(r8.rest, 32);
  }

  // ---------------------------------------------------------------------------
  // Verification

  /** A receipt document; hashes are hex text. */
  datatype WireDraw = WireDraw(runId: Uuid, algorithm: seq<byte>, seedHash: string, revealedSeed: seq<byte>,
                               eligible: int, total: int, requested: int, selected: int,
                               candidates: string, winners: string, receipt: string)

  function DecodeDraw(w: WireDraw): Result<Draw, Error> {
    var seed, candidates, winners := DecodeHash(w.seedHash), DecodeHash(w.candidates), DecodeHash(w.winners);
    if seed.Err? || candidates.Err? || winners.Err? then Err(BadHash)
    else Ok(Draw(w.runId, w.algorithm, seed.value, w.revealedSeed, w.eligible, w.total, w.requested, w.selected,
                 candidates.value, winners.value))
  }

  /** `verify_draw`: the "valid" field, or the exception. */
  function VerifyDraw(sha: Sha256, w: WireDraw): Result<bool, Error> {
    match DecodeDraw(w)
    case Err(e) => Err(e)
    case Ok(d) =>
      if Encode(d).None? then Err(OutOfRange)
      else
        match DecodeHash(w.receipt)
        case Err(e) => Err(e)
        case Ok(expected) => Ok(sha(Encode(d).value) == expected)
  }

  /** One receipt hash vouches for one set of fields, unless the two preimages collide. */
  lemma ReceiptBindsFields(sha: Sha256, w: WireDraw, w': WireDraw)
    requires VerifyDraw(sha, w) == Ok(true) && VerifyDraw(sha, w') == Ok(true)
    requires DecodeHash(w.receipt) == DecodeHash(w'.receipt)
    ensures DecodeDraw(w) == DecodeDraw(w')
            || (var x, y := Encode(DecodeDraw(w).value).value, Encode(DecodeDraw(w').value).value;
                x != y && sha(x) == sha(y))
  {
    var d, d' := DecodeDraw(w).value, DecodeDraw(w').value;
    if Encode(d).value == Encode(d').value {
      DecodeEncode(d);
      DecodeEncode(d');
    }
  }

  // ---------------------------------------------------------------------------
  // The API's side (crates/crowdrelay-api/src/proofs/support.rs)

  /** Rust's `to_be_bytes` of a signed integer of `size` bytes: two's complement. */
  function ToBeBytes(v: int, size: nat): seq<byte> {
    Pow256Positive(size);
    BigEndian(v % Pow256(size), size)
  }

  /** The values the API's integer types and slices can hold. */
  predicate InRange(d: Draw) {
    && -0x8000_0000 <= d.eligible < 0x8000_0000 && -0x8000_0000_0000_0000 <= d.total < 0x8000_0000_0000_0000
    && -0x8000_0000 <= d.requested < 0x8000_0000 && -0x8000_0000 <= d.selected < 0x8000_0000
    && |d.algorithm| < 0x1_0000_0000_0000_0000 && |d.revealedSeed| < 0x1_0000_0000_0000_0000
  }

  /** What `draw_receipt_hash` feeds to the hasher. */
  function HasherInput(d: Draw): seq<byte> {
    PREFIX + (d.runId + (BigEndian(|d.algorithm|, 8) + d.algorithm + (d.seedHash + (BigEndian(|d.revealedSeed|, 8) + d.revealedSeed
    + (ToBeBytes(d.eligible, 4) + (ToBeBytes(d.total, 8) + (ToBeBytes(d.requested, 4) + (ToBeBytes(d.selected, 4)
    + (d.candidates + d.winners)))))))))
  }

  lemma TwosComplement(v: int, m: int)
    requires m > 0 && -m <= 2 * v < m
    ensures v % m == if v < 0 then v + m else v
  {
    if v < 0 { assert (v + m) % m == v + m; }
  }

  lemma SignedIsToBeBytes(v: int, size: nat, m: int)
    requires m == Pow256(size) && m > 0 && 0 <= 2 * v + m && 2 * v < m
    ensures Signed(v, size) == Some(ToBeBytes(v, size))
  {
    TwosComplement(v, m);
  }

  lemma Widths()
    ensures Pow256(4) == 0x1_0000_0000 && Pow256(8) == 0x1_0000_0000_0000_0000
  {
    assert Pow256(2) == 0x1_0000 && Pow256(4) == 256 * (256 * Pow256(2));
    assert Pow256(6) == 256 * (256 * Pow256(4)) && Pow256(8) == 256 * (256 * Pow256(6));
  }

  /** The API hashes exactly what the verifier does, for every value its types hold. */
  lemma SamePreimage(d: Draw)
    requires InRange(d)
    ensures Encode(d) == Some(HasherInput(d))
  {
    Widths();
    SignedIsToBeBytes(d.eligible, 4, 0x1_0000_0000);
    SignedIsToBeBytes(d.total, 8, 0x1_0000_0000_0000_0000);
    SignedIsToBeBytes(d.requested, 4, 0x1_0000_0000);
    SignedIsToBeBytes(d.selected, 4, 0x1_0000_0000);
  }

  /** The document of a receipt hash. */
  function Published(d: Draw, receipt: Hash): WireDraw {
    WireDraw(d.runId, d.algorithm, HexEncode(d.seedHash), d.revealedSeed, d.eligible, d.total, d.requested, d.selected,
             HexEncode(d.candidates), HexEncode(d.winners), HexEncode(receipt))
  }

  /** The verifier accepts the published receipt of a draw exactly when its hash is the
      one the API computes. */
  lemma PublishedReceiptVerifiesIff(sha: Sha256, d: Draw, receipt: Hash)
    requires InRange(d)
    ensures VerifyDraw(sha, Published(d, receipt)) == Ok(receipt == sha(HasherInput(d)))
  {
    SamePreimage(d);
    DecodeHashOfEncoded(d.seedHash);
    DecodeHashOfEncoded(d.candidates);
    DecodeHashOfEncoded(d.winners);
    DecodeHashOfEncoded(receipt);
  }
}
