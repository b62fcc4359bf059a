/** The offline verifier (scripts/verify-external-proof.py): hex decoding as Python
    does it, Merkle inclusion documents and draw receipts. */
module ProofVerifier {
  import opened Prelude
  import opened Bytes
  import opened Merkle

  datatype Error = BadHash | BadSide | OutOfRange

  // ---------------------------------------------------------------------------
  // Hashes as hex text

  predicate AsciiSpace(c: char) { c == ' ' || c == '\t' || c == '\n' || c == '\r' || c == 0xb as char || c == 0xc as char }

  /** `bytes.fromhex`: hex pairs, with ASCII whitespace allowed between pairs. */
  function FromHex(s: string): Option<seq<byte>> {
    if s == [] then Some([])
    else if AsciiSpace(s[0]) then FromHex(s[1..])
    else if |s| == 1 || !HexDigit(s[0]) || !HexDigit(s[1]) then None
    else
      match FromHex(s[2..])
      case None => None
      case Some(rest) => Some([DigitValue(s[0]) * 16 + DigitValue(s[1])] + rest)
  }

  function DecodeHash(value: string): Result<Hash, Error> {
    if |value| != 64 then Err(BadHash)
    else
      match FromHex(value)
      case None => Err(BadHash)
      case Some(decoded) => if |decoded| != 32 then Err(BadHash) else Ok(decoded)
  }

  /** Whitespace shortens the result; without it `fromhex` is plain hex decoding. */
  lemma {:induction false} FromHexLength(s: string)
    ensures FromHex(s).Some? ==> 2 * |FromHex(s).value| <= |s|
    ensures FromHex(s).Some? && 2 * |FromHex(s).value| == |s| ==> HexDecode(s) == FromHex(s)
    ensures HexDecode(s).Some? ==> FromHex(s) == HexDecode(s)
    decreases |s|
  {
    if s != [] {
      if AsciiSpace(s[0]) { FromHexLength(s[1..]); } else if |s| > 1 { FromHexLength(s[2..]); }
    }
  }

  /** The two length checks together admit exactly the 64-digit hex strings. */
  lemma DecodeHashAcceptsExactly(value: string)
    ensures DecodeHash(value).Ok? <==> |value| == 64 && forall c | c in value :: HexDigit(c)
    ensures DecodeHash(value).Ok? ==> HexDecode(value) == Some(DecodeHash(value).value)
  {
    FromHexLength(value);
    HexDecodeLength(value);
  }

  lemma DecodeHashOfEncoded(h: Hash)
    ensures DecodeHash(HexEncode(h)) == Ok(h)
  {
    HexRoundTrip(h);
    FromHexLength(HexEncode(h));
  }

  // ---------------------------------------------------------------------------
  // Inclusion documents

  datatype WireStep = WireStep(side: string, sha256: string)

  datatype Inclusion = Inclusion(leaf: string, proof: seq<WireStep>, root: string)

  datatype Verdict = Verdict(valid: bool, computed: string, expected: string)

  function DecodeStep(step: WireStep): Result<Step, Error> {
    match DecodeHash(step.sha256)
    case Err(e) => Err(e)
    case Ok(sibling) =>
      if step.side == "left" then Ok(Step(true, sibling))
      else if step.side == "right" then Ok(Step(false, sibling))
      else Err(BadSide)
  }

  /** The steps of a proof, or the error of the first step that has one. */
  function DecodeSteps(proof: seq<WireStep>): Result<seq<Step>, Error> {
    if proof == [] then Ok([]) else
      match DecodeStep(proof[0])
      case Err(e) => Err(e)
      case Ok(step) =>
        match DecodeSteps(proof[1..])
        case Err(e) => Err(e)
        case Ok(rest) => Ok([step] + rest)
  }

  /** The verifier's own `node_hash`, of three parts one after the other. */
  function HashParts(sha: Sha256, left: Hash, right: Hash): Hash { sha([0x01] + (left + right)) }

  /** It is the API's. */
  lemma NodesAgree(sha: Sha256, left: Hash, right: Hash)
    ensures HashParts(sha, left, right) == NodeHash(sha, left, right)
  {
    assert [0x01] + (left + right) == NodePreimage(left, right);
  }

  /** The verdict on a document: what its hex text decodes to, folded. */
  function VerdictOf(sha: Sha256, doc: Inclusion): Result<Verdict, Error> {
    var leaf := DecodeHash(doc.leaf);
    var steps := DecodeSteps(doc.proof);
    var root := DecodeHash(doc.root);
    if leaf.Err? then Err(leaf.error)
    else if steps.Err? then Err(steps.error)
    else if root.Err? then Err(root.error)
    else
      var computed := Fold(sha, leaf.value, steps.value);
      Ok(Verdict(computed == root.value, HexEncode(computed), HexEncode(root.value)))
  }

  method VerifyInclusion(sha: Sha256, doc: Inclusion) returns (result: Result<Verdict, Error>)
    ensures result == VerdictOf(sha, doc)
  {
    var leaf := DecodeHash(doc.leaf);
    if leaf.Err? { return Err(leaf.error); }
    var current := leaf.value;
    for k := 0 to |doc.proof|
      invariant DecodeSteps(doc.proof).Err? <==> DecodeSteps(doc.proof[k..]).Err?
      invariant DecodeSteps(doc.proof).Err? ==> DecodeSteps(doc.proof) == DecodeSteps(doc.proof[k..])
      invariant DecodeSteps(doc.proof).Ok? ==>
                  Fold(sha, leaf.value, DecodeSteps(doc.proof).value) == Fold(sha, current, DecodeSteps(doc.proof[k..]).value)
    {
      var step := doc.proof[k];
      assert doc.proof[k..] == [step] + doc.proof[k + 1..];
      var sibling := DecodeHash(step.sha256);
      if sibling.Err? { return Err(sibling.error); }
      NodesAgree(sha, sibling.value, current);
      NodesAgree(sha, current, sibling.value);
      if step.side == "left" {
        current := HashParts(sha, sibling.value, current);
      } else if step.side == "right" {
        current := HashParts(sha, current, sibling.value);
      } else {
        return Err(BadSide);
      }
    }
    var expected := DecodeHash(doc.root);
    if expected.Err? { return Err(expected.error); }
    return Ok(Verdict(current == expected.value, HexEncode(current), HexEncode(expected.value)));
  }

  /** A verdict shows the root that the proof leads to and the document's own, and is valid
      exactly if they are the same. */
  lemma VerdictShows(sha: Sha256, doc: Inclusion, v: Verdict)
    requires VerdictOf(sha, doc) == Ok(v)
    ensures DecodeHash(doc.leaf).Ok? && DecodeSteps(doc.proof).Ok? && DecodeHash(doc.root).Ok?
    ensures DecodeHash(v.computed) == Ok(Fold(sha, DecodeHash(doc.leaf).value, DecodeSteps(doc.proof).value))
    ensures DecodeHash(v.expected) == DecodeHash(doc.root)
    ensures v.valid <==> DecodeHash(v.computed) == DecodeHash(v.expected)
  {
    DecodeHashOfEncoded(Fold(sha, DecodeHash(doc.leaf).value, DecodeSteps(doc.proof).value));
    DecodeHashOfEncoded(DecodeHash(doc.root).value);
  }

  /** A document whose text cannot be decoded gets no verdict. */
  lemma VerdictIff(sha: Sha256, doc: Inclusion)
    ensures VerdictOf(sha, doc).Ok? <==>
              DecodeHash(doc.leaf).Ok? && DecodeHash(doc.root).Ok?
              && forall step | step in doc.proof :: DecodeHash(step.sha256).Ok? && (step.side == "left" || step.side == "right")
  {
    StepsIff(doc.proof);
  }

  lemma {:induction false} StepsIff(proof: seq<WireStep>)
    ensures DecodeSteps(proof).Ok? <==>
              forall step | step in proof :: DecodeHash(step.sha256).Ok? && (step.side == "left" || step.side == "right")
  {
    if proof != [] {
      StepsIff(proof[1..]);
      assert proof == [proof[0]] + proof[1..];
    }
  }

  /** The document the proof API serves for leaf i of a batch. */
  function Served(sha: Sha256, leaves: seq<Hash>, i: nat): Inclusion
    requires i < |leaves|
  {
    Inclusion(HexEncode(leaves[i]), WireSteps(Path(sha, leaves, i)), HexEncode(Root(sha, leaves)))
  }

  function WireSteps(path: seq<Step>): seq<WireStep> {
    if path == [] then []
    else [WireStep(if path[0].siblingLeft then "left" else "right", HexEncode(path[0].hash))] + WireSteps(path[1..])
  }

  lemma {:induction false} WireRoundTrip(path: seq<Step>)
    ensures DecodeSteps(WireSteps(path)) == Ok(path)
  {
    if path != [] {
      DecodeHashOfEncoded(path[0].hash);
      WireRoundTrip(path[1..]);
      assert WireSteps(path)[1..] == WireSteps(path[1..]);
      assert path == [path[0]] + path[1..];
    }
  }

  /** The verifier accepts every document the API serves. */
  lemma ServedDocumentsVerify(sha: Sha256, leaves: seq<Hash>, i: nat)
    requires i < |leaves|
    ensures VerdictOf(sha, Served(sha, leaves, i)).Ok? && VerdictOf(sha, Served(sha, leaves, i)).value.valid
  {
    DecodeHashOfEncoded(leaves[i]);
    DecodeHashOfEncoded(Root(sha, leaves));
    WireRoundTrip(Path(sha, leaves, i));
    EveryLeafHasPath(sha, leaves, i);
  }

  /** A document it accepts for a record, under the root of a batch of records, names a
      record of that batch, or exhibits a collision of SHA-256. */
  lemma AcceptedDocumentIsInBatch(sha: Sha256, records: seq<seq<byte>>, record: seq<byte>, doc: Inclusion) returns (f: Finding)
    requires records != []
    requires DecodeHash(doc.leaf) == Ok(LeafHash(sha, record))
    requires DecodeHash(doc.root) == Ok(Root(sha, Leaves(sha, records)))
    requires VerdictOf(sha, doc).Ok? && VerdictOf(sha, doc).value.valid
    ensures if f.Collision? then Collides(sha, f, CheckInputs(sha, record, DecodeSteps(doc.proof).value), BatchInputs(sha, records))
            else (f.At? && f.index < |records| && records[f.index] == record)
  {
    f := AcceptedRecordIsInBatch(sha, records, record, DecodeSteps(doc.proof).value);
  }
}
