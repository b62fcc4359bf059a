/** The Merkle trees of the proof API (crates/crowdrelay-api/src/proofs/support.rs),
    levels of hashes with an odd last one paired with itself, and what an accepted
    path says about them. */
module Merkle {
  import opened Prelude
  import opened Bytes

  datatype Step = Step(siblingLeft: bool, hash: Hash)

  function LeafPreimage(canonical: seq<byte>): seq<byte> { [0] + BigEndian(|canonical|, 8) + canonical }

  function LeafHash(sha: Sha256, canonical: seq<byte>): Hash { sha(LeafPreimage(canonical)) }

  function NodePreimage(left: Hash, right: Hash): seq<byte> { [1] + left + right }

  function NodeHash(sha: Sha256, left: Hash, right: Hash): Hash { sha(NodePreimage(left, right)) }

  function CombinePreimage(current: Hash, step: Step): seq<byte> {
    if step.siblingLeft then NodePreimage(step.hash, current) else NodePreimage(current, step.hash)
  }

  function Combine(sha: Sha256, current: Hash, step: Step): Hash { sha(CombinePreimage(current, step)) }

  /** A leaf is hashed behind a zero byte and its length in eight bytes, a node behind a one
      byte. */
  lemma Layouts(canonical: seq<byte>, left: Hash, right: Hash)
    requires |canonical| < Pow256(8)
    ensures var p := LeafPreimage(canonical);
            |p| == 9 + |canonical| && p[0] == 0 && FromBigEndian(p[1..9]) == |canonical| && p[9..] == canonical
    ensures var p := NodePreimage(left, right); |p| == 65 && p[0] == 1 && p[1..33] == left && p[33..] == right
  {
    BigEndianRoundTrip(|canonical|, 8);
    assert LeafPreimage(canonical)[1..9] == BigEndian(|canonical|, 8);
  }

  /** The root a path leads to from `leaf`. */
  function Fold(sha: Sha256, leaf: Hash, path: seq<Step>): Hash
    decreases |path|
  {
    if path == [] then leaf else Fold(sha, Combine(sha, leaf, path[0]), path[1..])
  }

  /** The index in the pair (2j, 2j+1) on the right, which is 2j again for an odd last one. */
  function RightOf(j: nat, n: nat): nat
    requires 2 * j < n
  {
    if 2 * j + 1 < n then 2 * j + 1 else 2 * j
  }

  function NextLevel(sha: Sha256, level: seq<Hash>): (next: seq<Hash>)
    ensures |next| == (|level| + 1) / 2
  {
    seq((|level| + 1) / 2, j requires 0 <= j < (|level| + 1) / 2 =>
      NodeHash(sha, level[2 * j], level[RightOf(j, |level|)]))
  }

  function Depth(n: nat): nat
    requires n > 0
  {
    if n == 1 then 0 else 1 + Depth((n + 1) / 2)
  }

  function Root(sha: Sha256, level: seq<Hash>): Hash
    requires level != []
    decreases |level|
  {
    if |level| == 1 then level[0] else Root(sha, NextLevel(sha, level))
  }

  function Sibling(i: nat, n: nat): nat
    requires i < n
  {
    if i % 2 == 1 then i - 1 else if i + 1 < n then i + 1 else n - 1
  }

  function Path(sha: Sha256, level: seq<Hash>, i: nat): seq<Step>
    requires i < |level|
    decreases |level|
  {
    if |level| == 1 then [] else
      var s := Sibling(i, |level|);
      [Step(s < i, level[s])] + Path(sha, NextLevel(sha, level), i / 2)
  }

  // ---------------------------------------------------------------------------
  // The code

  method Pairs(sha: Sha256, level: seq<Hash>) returns (next: seq<Hash>)
    ensures next == NextLevel(sha, level)
  {
    next := [];
    var at := 0;
    while at + 1 < |level|
      invariant at <= |level| && at == 2 * |next|
      invariant next == NextLevel(sha, level)[..|next|]
    {
      next := next + [NodeHash(sha, level[at], level[at + 1])];
      at := at + 2;
    }
    if at < |level| {
      next := next + [NodeHash(sha, level[at], level[at])];
    }
  }

  method MerkleRoot(sha: Sha256, leaves: seq<Hash>) returns (root: Option<Hash>)
    ensures root == if leaves == [] then None else Some(Root(sha, leaves))
  {
    if leaves == [] { return None; }
    var level := leaves;
    while |level| > 1
      invariant level != [] && Root(sha, level) == Root(sha, leaves)
      decreases |level|
    {
      level := Pairs(sha, level);
    }
    return Some(level[0]);
  }

  lemma Prepend<T>(a: seq<T>, x: T, b: seq<T>)
    ensures a + ([x] + b) == (a + [x]) + b
  {
  }

  /** The sibling of a leaf is the first step of its path, and its parent's path the rest. */
  lemma PathGrows(sha: Sha256, level: seq<Hash>, cursor: nat, steps: seq<Step>)
    requires cursor < |level| && |level| > 1
    ensures var sibling := Sibling(cursor, |level|);
            (steps + [Step(sibling < cursor, level[sibling])]) + Path(sha, NextLevel(sha, level), cursor / 2)
            == steps + Path(sha, level, cursor)
  {
    var sibling := Sibling(cursor, |level|);
    Prepend(steps, Step(sibling < cursor, level[sibling]), Path(sha, NextLevel(sha, level), cursor / 2));
  }

  method MerklePath(sha: Sha256, leaves: seq<Hash>, index: nat) returns (path: Option<seq<Step>>)
    ensures path == if index < |leaves| then Some(Path(sha, leaves, index)) else None
  {
    if index >= |leaves| { return None; }
    var steps, level, cursor := [], leaves, index;
    while |level| > 1
      invariant 0 <= cursor < |level|
      invariant steps + Path(sha, level, cursor) == Path(sha, leaves, index)
      decreases |level|
    {
      var sibling := if cursor % 2 == 0 then (if cursor + 1 <= |level| - 1 then cursor + 1 else |level| - 1) else cursor - 1;
      PathGrows(sha, level, cursor, steps);
      steps := steps + [Step(sibling < cursor, level[sibling])];
      level := Pairs(sha, level);
      cursor := cursor / 2;
    }
    assert steps + [] == steps;
    return Some(steps);
  }

  method VerifyPath(sha: Sha256, leaf: Hash, path: seq<Step>, expectedRoot: Hash) returns (ok: bool)
    ensures ok <==> Fold(sha, leaf, path) == expectedRoot
  {
    var current := leaf;
    for k := 0 to |path|
      invariant Fold(sha, current, path[k..]) == Fold(sha, leaf, path)
    {
      current := Combine(sha, current, path[k]);
    }
    return current == expectedRoot;
  }

  // ---------------------------------------------------------------------------
  // Completeness

  /** Every leaf of every batch gets a path that folds up to the root. */
  lemma {:induction false} EveryLeafHasPath(sha: Sha256, level: seq<Hash>, i: nat)
    requires i < |level|
    ensures Fold(sha, level[i], Path(sha, level, i)) == Root(sha, level)
    ensures |Path(sha, level, i)| == Depth(|level|)
    decreases |level|
  {
    if |level| > 1 {
      var next, s := NextLevel(sha, level), Sibling(i, |level|);
      EveryLeafHasPath(sha, next, i / 2);
      StepUp(sha, level, i);
      FoldCons(sha, level[i], Step(s < i, level[s]), Path(sha, next, i / 2));
    }
  }

  /** Combining a node with its sibling gives the node above them. */
  lemma StepUp(sha: Sha256, level: seq<Hash>, i: nat)
    requires |level| > 1 && i < |level|
    ensures var s := Sibling(i, |level|);
            Combine(sha, level[i], Step(s < i, level[s])) == NextLevel(sha, level)[i / 2]
  {
    var s, j := Sibling(i, |level|), i / 2;
    assert NextLevel(sha, level)[j] == NodeHash(sha, level[2 * j], level[RightOf(j, |level|)]);
    assert if i == 2 * j then s == RightOf(j, |level|) else s == 2 * j && i == RightOf(j, |level|);
  }

  lemma FoldCons(sha: Sha256, leaf: Hash, first: Step, rest: seq<Step>)
    ensures Fold(sha, leaf, [first] + rest) == Fold(sha, Combine(sha, leaf, first), rest)
  {
    assert ([first] + rest)[1..] == rest;
  }

  // ---------------------------------------------------------------------------
  // Soundness, up to a collision between two inputs that were really hashed

  /** Everything the verifier hashes while it folds a path. */
  ghost function FoldInputs(sha: Sha256, leaf: Hash, path: seq<Step>): set<seq<byte>>
    decreases |path|
  {
    if path == [] then {}
    else {CombinePreimage(leaf, path[0])} + FoldInputs(sha, Combine(sha, leaf, path[0]), path[1..])
  }

  function PairPreimage(level: seq<Hash>, j: nat): seq<byte>
    requires 2 * j < |level|
  {
    NodePreimage(level[2 * j], level[RightOf(j, |level|)])
  }

  /** Everything hashed to build the tree above `level`. */
  ghost function TreeInputs(sha: Sha256, level: seq<Hash>): set<seq<byte>>
    requires level != []
    decreases |level|
  {
    if |level| == 1 then {}
    else (set j | 0 <= j < (|level| + 1) / 2 :: PairPreimage(level, j)) + TreeInputs(sha, NextLevel(sha, level))
  }

  datatype Finding = At(index: nat) | Collision(x: seq<byte>, y: seq<byte>)

  /** An input from each side, different, with one hash. */
  ghost predicate Collides(sha: Sha256, f: Finding, xs: set<seq<byte>>, ys: set<seq<byte>>) {
    f.Collision? && f.x in xs && f.y in ys && f.x != f.y && sha(f.x) == sha(f.y)
  }

  /** The leaf index that the sides of a path of full length select. */
  function Selected(path: seq<Step>, n: nat): (i: nat)
    requires n > 0 && |path| == Depth(n)
    ensures i < n
    decreases n
  {
    if n == 1 then 0 else
      var j := Selected(path[1..], (n + 1) / 2);
      if path[0].siblingLeft then RightOf(j, n) else 2 * j
  }

  lemma NodePreimageInjective(a: Hash, b: Hash, c: Hash, d: Hash)
    requires NodePreimage(a, b) == NodePreimage(c, d)
    ensures a == c && b == d
  {
    var x, y := NodePreimage(a, b), NodePreimage(c, d);
    assert a == x[1..33] && c == y[1..33] && b == x[33..] && d == y[33..];
  }

  lemma LeafNeverNode(canonical: seq<byte>, a: Hash, b: Hash)
    ensures LeafPreimage(canonical) != NodePreimage(a, b)
  {
    assert LeafPreimage(canonical)[0] != NodePreimage(a, b)[0];
  }

  lemma PairIsTreeInput(sha: Sha256, level: seq<Hash>, j: nat)
    requires |level| > 1 && 2 * j < |level|
    ensures PairPreimage(level, j) in TreeInputs(sha, level) && sha(PairPreimage(level, j)) == NextLevel(sha, level)[j]
  {
  }

  /** An accepted path as long as the tree is deep proves the leaf its sides select. */
  lemma {:induction false} FullPathProvesLeaf(sha: Sha256, level: seq<Hash>, leaf: Hash, path: seq<Step>) returns (f: Finding)
    requires level != [] && |path| == Depth(|level|) && Fold(sha, leaf, path) == Root(sha, level)
    ensures if f.Collision? then Collides(sha, f, FoldInputs(sha, leaf, path), TreeInputs(sha, level))
            else (f == At(Selected(path, |level|)) && level[f.index] == leaf)
    decreases |level|
  {
    if |level| == 1 { return At(0); }
    var next := NextLevel(sha, level);
    f := FullPathProvesLeaf(sha, next, Combine(sha, leaf, path[0]), path[1..]);
    if f.At? {
      var j := f.index;
      PairIsTreeInput(sha, level, j);
      var x, y := CombinePreimage(leaf, path[0]), PairPreimage(level, j);
      if x != y { return Collision(x, y); }
      var l, r := level[2 * j], level[RightOf(j, |level|)];
      if path[0].siblingLeft { NodePreimageInjective(path[0].hash, leaf, l, r); }
      else { NodePreimageInjective(leaf, path[0].hash, l, r); }
      f := At(Selected(path, |level|));
    }
  }

  /** Two accepted paths with the same sides and root carry the same leaf and siblings. */
  lemma {:induction false} SameSidesSameProof(sha: Sha256, leaf: Hash, path: seq<Step>, leaf': Hash, path': seq<Step>)
    returns (f: Finding)
    requires |path| == |path'| && Fold(sha, leaf, path) == Fold(sha, leaf', path')
    requires forall k | 0 <= k < |path| :: path[k].siblingLeft == path'[k].siblingLeft
    ensures if f.Collision? then Collides(sha, f, FoldInputs(sha, leaf, path), FoldInputs(sha, leaf', path'))
            else (leaf == leaf' && path == path')
    decreases |path|
  {
    f := At(0);
    if path == [] { return; }
    var p, p' := path[0], path'[0];
    f := SameSidesSameProof(sha, Combine(sha, leaf, p), path[1..], Combine(sha, leaf', p'), path'[1..]);
    if f.At? {
      var x, y := CombinePreimage(leaf, p), CombinePreimage(leaf', p');
      if x != y { return Collision(x, y); }
      if p.siblingLeft { NodePreimageInjective(p.hash, leaf, p'.hash, leaf'); }
      else { NodePreimageInjective(leaf, p.hash, leaf', p'.hash); }
      assert path == [p] + path[1..] && path' == [p'] + path'[1..];
    }
  }

  lemma {:induction false} FoldSplits(sha: Sha256, leaf: Hash, path: seq<Step>, k: nat)
    requires k <= |path|
    ensures Fold(sha, leaf, path) == Fold(sha, Fold(sha, leaf, path[..k]), path[k..])
    ensures FoldInputs(sha, Fold(sha, leaf, path[..k]), path[k..]) <= FoldInputs(sha, leaf, path)
    decreases k
  {
    if k > 0 {
      FoldSplits(sha, Combine(sha, leaf, path[0]), path[1..], k - 1);
      assert path[1..][..k - 1] == path[..k][1..] && path[1..][k - 1..] == path[k..];
    }
  }

  /** A path shorter than the tree is deep proves an inner node, never a record. */
  lemma {:induction false} ShortPathCollides(sha: Sha256, level: seq<Hash>, record: seq<byte>, path: seq<Step>) returns (f: Finding)
    requires level != [] && |path| < Depth(|level|)
    requires Fold(sha, LeafHash(sha, record), path) == Root(sha, level)
    ensures Collides(sha, f, FoldInputs(sha, LeafHash(sha, record), path) + {LeafPreimage(record)}, TreeInputs(sha, level))
    decreases |level|
  {
    var next := NextLevel(sha, level);
    if |path| < Depth(|next|) {
      f := ShortPathCollides(sha, next, record, path);
    } else {
      f := FullPathProvesLeaf(sha, next, LeafHash(sha, record), path);
      if f.At? {
        PairIsTreeInput(sha, level, f.index);
        LeafNeverNode(record, level[2 * f.index], level[RightOf(f.index, |level|)]);
        f := Collision(LeafPreimage(record), PairPreimage(level, f.index));
      }
    }
  }

  function Leaves(sha: Sha256, records: seq<seq<byte>>): (leaves: seq<Hash>)
    ensures |leaves| == |records|
  {
    seq(|records|, i requires 0 <= i < |records| => LeafHash(sha, records[i]))
  }

  /** Everything hashed to check a path for a record, and to build a batch. */
  ghost function CheckInputs(sha: Sha256, record: seq<byte>, path: seq<Step>): set<seq<byte>> {
    FoldInputs(sha, LeafHash(sha, record), path) + {LeafPreimage(record)}
  }

  ghost function BatchInputs(sha: Sha256, records: seq<seq<byte>>): set<seq<byte>>
    requires records != []
  {
    TreeInputs(sha, Leaves(sha, records)) + set i | 0 <= i < |records| :: LeafPreimage(records[i])
  }

  lemma LeafPreimageInjective(a: seq<byte>, b: seq<byte>)
    requires LeafPreimage(a) == LeafPreimage(b)
    ensures a == b
  {
    assert a == LeafPreimage(a)[9..] && b == LeafPreimage(b)[9..];
  }

  /** Whatever its length, a path accepted for a record proves that the record is in
      the batch, at the place its sides select, or exhibits a collision of SHA-256. */
  lemma AcceptedRecordIsInBatch(sha: Sha256, records: seq<seq<byte>>, record: seq<byte>, path: seq<Step>) returns (f: Finding)
    requires records != [] && Fold(sha, LeafHash(sha, record), path) == Root(sha, Leaves(sha, records))
    ensures if f.Collision? then Collides(sha, f, CheckInputs(sha, record, path), BatchInputs(sha, records))
            else (|path| == Depth(|records|) && f == At(Selected(path, |records|)) && records[f.index] == record)
  {
    var leaves, d := Leaves(sha, records), Depth(|records|);
    if |path| < d {
      f := ShortPathCollides(sha, leaves, record, path);
      return;
    }
    var extra := |path| - d;
    FoldSplits(sha, LeafHash(sha, record), path, extra);
    f := FullPathProvesLeaf(sha, leaves, Fold(sha, LeafHash(sha, record), path[..extra]), path[extra..]);
    if f.At? {
      var leaf := LeafPreimage(records[f.index]);
      if extra > 0 {
        var x := LongPathCollides(sha, record, path, extra, leaf);
        f := Collision(x, leaf);
      } else {
        assert path[..0] == [] && path[0..] == path;
        if LeafPreimage(record) == leaf {
          LeafPreimageInjective(record, records[f.index]);
        } else {
          f := Collision(LeafPreimage(record), leaf);
        }
      }
    }
  }

  /** Folding at least one step gives the hash of a node, which no leaf preimage is. */
  lemma LongPathCollides(sha: Sha256, record: seq<byte>, path: seq<Step>, k: nat, leaf: seq<byte>) returns (x: seq<byte>)
    requires 0 < k <= |path| && leaf != [] && leaf[0] == 0
    ensures x in CheckInputs(sha, record, path) && x != leaf && sha(x) == Fold(sha, LeafHash(sha, record), path[..k])
  {
    var start := LeafHash(sha, record);
    var below, s := Fold(sha, start, path[..k - 1]), path[k - 1];
    FoldSplits(sha, start, path, k - 1);
    FoldSplits(sha, start, path[..k], k - 1);
    assert path[..k][..k - 1] == path[..k - 1] && path[..k][k - 1..] == [s] && [s][1..] == [];
    assert path[k - 1..][0] == s;
    x := CombinePreimage(below, s);
    assert x[0] == 1;
    assert Fold(sha, below, [s]) == Combine(sha, below, s);
  }

  // ---------------------------------------------------------------------------
  // What the root commits to

  /** For batches of one size the root determines every leaf. */
  lemma {:induction false} RootDeterminesLeaves(sha: Sha256, level: seq<Hash>, level': seq<Hash>) returns (f: Finding)
    requires level != [] && |level| == |level'| && Root(sha, level) == Root(sha, level')
    ensures if f.Collision? then Collides(sha, f, TreeInputs(sha, level), TreeInputs(sha, level')) else level == level'
    decreases |level|
  {
    f := At(0);
    if |level| == 1 { return; }
    var next, next' := NextLevel(sha, level), NextLevel(sha, level');
    f := RootDeterminesLeaves(sha, next, next');
    if f.At? { f := SamePairs(sha, level, level', |next|); }
  }

  /** Levels whose first k pairs hash alike agree on those pairs. */
  lemma {:induction false} SamePairs(sha: Sha256, level: seq<Hash>, level': seq<Hash>, k: nat) returns (f: Finding)
    requires |level| == |level'| > 1 && NextLevel(sha, level) == NextLevel(sha, level') && k <= (|level| + 1) / 2
    ensures if f.Collision? then Collides(sha, f, TreeInputs(sha, level), TreeInputs(sha, level'))
            else forall i | 0 <= i < |level| && i < 2 * k :: level[i] == level'[i]
  {
    f := At(0);
    if k == 0 { return; }
    f := SamePairs(sha, level, level', k - 1);
    if f.At? { f := SamePair(sha, level, level', k - 1); }
  }

  lemma SamePair(sha: Sha256, level: seq<Hash>, level': seq<Hash>, j: nat) returns (f: Finding)
    requires |level| == |level'| > 1 && 2 * j < |level| && NextLevel(sha, level)[j] == NextLevel(sha, level')[j]
    ensures if f.Collision? then Collides(sha, f, TreeInputs(sha, level), TreeInputs(sha, level'))
            else level[2 * j] == level'[2 * j] && level[RightOf(j, |level|)] == level'[RightOf(j, |level|)]
  {
    PairIsTreeInput(sha, level, j);
    PairIsTreeInput(sha, level', j);
    var x, y := PairPreimage(level, j), PairPreimage(level', j);
    if x != y { return Collision(x, y); }
    NodePreimageInjective(level[2 * j], level[RightOf(j, |level|)], level'[2 * j], level'[RightOf(j, |level|)]);
    f := At(j);
  }

  lemma RepeatedPair(level: seq<Hash>, j: nat)
    requires |level| % 2 == 1 && 2 * j < |level|
    ensures var longer := level + [level[|level| - 1]];
            longer[2 * j] == level[2 * j] && longer[RightOf(j, |level| + 1)] == level[RightOf(j, |level|)]
  {
  }

  lemma RepeatedNextLevel(sha: Sha256, level: seq<Hash>, longer: seq<Hash>)
    requires |level| % 2 == 1 && longer == level + [level[|level| - 1]]
    ensures NextLevel(sha, longer) == NextLevel(sha, level)
  {
    forall j | 0 <= j < (|level| + 1) / 2 ensures NextLevel(sha, longer)[j] == NextLevel(sha, level)[j] {
      RepeatedPair(level, j);
    }
  }

  /** It does not determine their number: an odd batch has the root of the batch that
      repeats its last leaf. */
  lemma RepeatedLastLeafHasSameRoot(sha: Sha256, level: seq<Hash>)
    requires |level| % 2 == 1 && |level| > 1
    ensures Root(sha, level + [level[|level| - 1]]) == Root(sha, level)
  {
    var longer := level + [level[|level| - 1]];
    RepeatedNextLevel(sha, level, longer);
    assert Root(sha, longer) == Root(sha, NextLevel(sha, longer));
  }
}
