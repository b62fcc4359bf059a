/** Which batches of records share a Merkle root, and paths in trees of any shape. */
module MerkleBatches {
  import opened Prelude
  import opened Bytes
  import opened Merkle

  // ---------------------------------------------------------------------------
  // Which batches share a root

  /** The leaves under a level of n, an odd last node counted twice at every level: which
      of the n each of them is. */
  function Slots(n: nat): (slots: seq<nat>)
    requires n > 0
    ensures slots != [] && forall i | 0 <= i < |slots| :: slots[i] < n
  {
    if n == 1 then [0] else Children(Slots((n + 1) / 2), n)
  }

  /** Both children of each of the given nodes of the next level. */
  function Children(up: seq<nat>, n: nat): (slots: seq<nat>)
    requires n > 0 && forall i | 0 <= i < |up| :: 2 * up[i] < n
    ensures |slots| == 2 * |up|
    ensures forall i | 0 <= i < |up| :: slots[2 * i] == 2 * up[i] && slots[2 * i + 1] == RightOf(up[i], n)
    ensures forall i | 0 <= i < |slots| :: slots[i] < n
  {
    if up == [] then []
    else
      var k := |up| - 1;
      Children(up[..k], n) + [2 * up[k], RightOf(up[k], n)]
  }

  /** The items of a batch as its full tree has them. */
  function Filled<T>(items: seq<T>): (all: seq<T>)
    requires items != []
    ensures |all| == |Slots(|items|)|
  {
    var slots := Slots(|items|);
    seq(|slots|, i requires 0 <= i < |slots| => items[slots[i]])
  }

  function Pow2(d: nat): nat { if d == 0 then 1 else 2 * Pow2(d - 1) }

  lemma {:induction false} SlotCount(n: nat)
    requires n > 0
    ensures |Slots(n)| == Pow2(Depth(n))
  {
    if n > 1 { SlotCount((n + 1) / 2); }
  }

  /** A pair of the filled level is a pair of the level. */
  lemma FilledPair(level: seq<Hash>, i: nat)
    requires |level| > 1 && i < |Slots((|level| + 1) / 2)|
    ensures |Filled(level)| == 2 * |Slots((|level| + 1) / 2)|
    ensures var j := Slots((|level| + 1) / 2)[i];
            2 * j < |level| && PairPreimage(Filled(level), i) == PairPreimage(level, j)
  {
    var n, up := |level|, Slots((|level| + 1) / 2);
    assert Slots(n) == Children(up, n);
    assert RightOf(i, 2 * |up|) == 2 * i + 1;
  }

  lemma FilledNextLevel(sha: Sha256, level: seq<Hash>)
    requires |level| > 1
    ensures NextLevel(sha, Filled(level)) == Filled(NextLevel(sha, level))
  {
    var a, b := NextLevel(sha, Filled(level)), Filled(NextLevel(sha, level));
    FilledPair(level, 0);
    forall i | 0 <= i < |a| ensures a[i] == b[i] { FilledNextAt(sha, level, i); }
    assert a == b;
  }

  lemma FilledNextAt(sha: Sha256, level: seq<Hash>, i: nat)
    requires |level| > 1 && i < |Slots((|level| + 1) / 2)|
    ensures i < |NextLevel(sha, Filled(level))| && NextLevel(sha, Filled(level))[i] == Filled(NextLevel(sha, level))[i]
  {
    var j := Slots((|level| + 1) / 2)[i];
    FilledPair(level, i);
    PairHashed(sha, level, j);
    PairHashed(sha, Filled(level), i);
  }

  lemma PairHashed(sha: Sha256, level: seq<Hash>, j: nat)
    requires 2 * j < |level|
    ensures j < |NextLevel(sha, level)| && NextLevel(sha, level)[j] == sha(PairPreimage(level, j))
  {
  }

  /** Filling changes neither the root nor what is hashed on the way to it. */
  lemma {:induction false} FilledKeepsRoot(sha: Sha256, level: seq<Hash>)
    requires level != []
    ensures |Filled(level)| > 0 && Root(sha, Filled(level)) == Root(sha, level)
    ensures TreeInputs(sha, Filled(level)) <= TreeInputs(sha, level)
    decreases |level|
  {
    if |level| == 1 {
      assert Filled(level) == level;
    } else {
      FilledKeepsRoot(sha, NextLevel(sha, level));
      FilledNextLevel(sha, level);
      FilledPair(level, 0);
      FilledInputs(sha, level);
    }
  }

  lemma FilledInputs(sha: Sha256, level: seq<Hash>)
    requires |level| > 1 && Filled(level) != []
    requires NextLevel(sha, Filled(level)) == Filled(NextLevel(sha, level))
    requires Filled(NextLevel(sha, level)) != []
    requires TreeInputs(sha, Filled(NextLevel(sha, level))) <= TreeInputs(sha, NextLevel(sha, level))
    ensures TreeInputs(sha, Filled(level)) <= TreeInputs(sha, level)
  {
    var filled := Filled(level);
    FilledPair(level, 0);
    forall i | 0 <= i < (|filled| + 1) / 2 ensures PairPreimage(filled, i) in TreeInputs(sha, level) {
      FilledPair(level, i);
      PairIsTreeInput(sha, level, Slots((|level| + 1) / 2)[i]);
    }
  }

  /** The first step of a leaf's path hashes the leaf's own pair. */
  lemma FirstStep(level: seq<Hash>, i: nat, j: nat)
    requires |level| > 1 && i < |level| && (i == 2 * j || i == 2 * j + 1)
    ensures var s := Sibling(i, |level|);
            2 * j < |level| && CombinePreimage(level[i], Step(s < i, level[s])) == PairPreimage(level, j)
  {
    if i == 2 * j {
      assert Sibling(i, |level|) == RightOf(j, |level|);
    } else {
      assert Sibling(i, |level|) == 2 * j;
    }
  }

  lemma {:induction false} PathInputs(sha: Sha256, level: seq<Hash>, i: nat)
    requires i < |level|
    ensures FoldInputs(sha, level[i], Path(sha, level, i)) <= TreeInputs(sha, level)
    decreases |level|
  {
    if |level| > 1 {
      var next, s := NextLevel(sha, level), Sibling(i, |level|);
      var first, rest := Step(s < i, level[s]), Path(sha, next, i / 2);
      PathInputs(sha, next, i / 2);
      FirstStep(level, i, i / 2);
      PairIsTreeInput(sha, level, i / 2);
      InputsOfCons(sha, level[i], first, rest);
    }
  }

  lemma InputsOfCons(sha: Sha256, leaf: Hash, first: Step, rest: seq<Step>)
    ensures FoldInputs(sha, leaf, [first] + rest) == {CombinePreimage(leaf, first)} + FoldInputs(sha, Combine(sha, leaf, first), rest)
  {
    assert ([first] + rest)[1..] == rest;
  }

  /** A batch whose tree is less deep than another's cannot have its root. */
  lemma DepthsCollide(sha: Sha256, records: seq<seq<byte>>, records': seq<seq<byte>>) returns (f: Finding)
    requires records != [] && records' != [] && Depth(|records|) < Depth(|records'|)
    requires Root(sha, Leaves(sha, records)) == Root(sha, Leaves(sha, records'))
    ensures Collides(sha, f, BatchInputs(sha, records), BatchInputs(sha, records'))
  {
    var leaves := Leaves(sha, records);
    var path := Path(sha, leaves, 0);
    EveryLeafHasPath(sha, leaves, 0);
    PathInputs(sha, leaves, 0);
    f := ShortPathCollides(sha, Leaves(sha, records'), records[0], path);
  }

  lemma FilledLeaves(sha: Sha256, records: seq<seq<byte>>)
    requires records != []
    ensures Filled(Leaves(sha, records)) == Leaves(sha, Filled(records))
  {
  }

  /** Two batches of one depth with one root agree once filled, or collide. */
  lemma SameRootSameFilled(sha: Sha256, records: seq<seq<byte>>, records': seq<seq<byte>>) returns (f: Finding)
    requires records != [] && records' != [] && Depth(|records|) == Depth(|records'|)
    requires Root(sha, Leaves(sha, records)) == Root(sha, Leaves(sha, records'))
    ensures if f.Collision? then Collides(sha, f, BatchInputs(sha, records), BatchInputs(sha, records'))
            else Filled(records) == Filled(records')
  {
    var leaves, leaves' := Leaves(sha, records), Leaves(sha, records');
    SlotCount(|records|);
    SlotCount(|records'|);
    FilledKeepsRoot(sha, leaves);
    FilledKeepsRoot(sha, leaves');
    f := RootDeterminesLeaves(sha, Filled(leaves), Filled(leaves'));
    if f.At? { f := FilledRecords(sha, records, records'); }
  }

  lemma FilledRecords(sha: Sha256, records: seq<seq<byte>>, records': seq<seq<byte>>) returns (f: Finding)
    requires records != [] && records' != [] && Filled(Leaves(sha, records)) == Filled(Leaves(sha, records'))
    ensures if f.Collision? then Collides(sha, f, BatchInputs(sha, records), BatchInputs(sha, records'))
            else Filled(records) == Filled(records')
  {
    var slots, slots' := Slots(|records|), Slots(|records'|);
    if i :| 0 <= i < |slots| && records[slots[i]] != records'[slots'[i]] {
      var x, y := records[slots[i]], records'[slots'[i]];
      assert Filled(Leaves(sha, records))[i] == LeafHash(sha, x) && Filled(Leaves(sha, records'))[i] == LeafHash(sha, y);
      if LeafPreimage(x) == LeafPreimage(y) { LeafPreimageInjective(x, y); }
      f := Collision(LeafPreimage(x), LeafPreimage(y));
    } else {
      f := At(0);
      assert |Filled(records)| == |Filled(Leaves(sha, records))|;
    }
  }

  /** Two batches of records share a root if and only if they are the same once every odd
      last node is repeated at every level, or two inputs they really hash collide. */
  lemma SameRootIff(sha: Sha256, records: seq<seq<byte>>, records': seq<seq<byte>>) returns (f: Finding)
    requires records != [] && records' != []
    ensures Filled(records) == Filled(records') ==> Root(sha, Leaves(sha, records)) == Root(sha, Leaves(sha, records'))
    ensures Root(sha, Leaves(sha, records)) == Root(sha, Leaves(sha, records')) ==>
              if f.Collision?
              then Collides(sha, f, BatchInputs(sha, records), BatchInputs(sha, records'))
                   || Collides(sha, f, BatchInputs(sha, records'), BatchInputs(sha, records))
              else Filled(records) == Filled(records')
  {
    f := At(0);
    if Filled(records) == Filled(records') {
      FilledLeaves(sha, records);
      FilledLeaves(sha, records');
      FilledKeepsRoot(sha, Leaves(sha, records));
      FilledKeepsRoot(sha, Leaves(sha, records'));
    } else if Root(sha, Leaves(sha, records)) == Root(sha, Leaves(sha, records')) {
      if Depth(|records|) < Depth(|records'|) {
        f := DepthsCollide(sha, records, records');
      } else if Depth(|records|) > Depth(|records'|) {
        f := DepthsCollide(sha, records', records);
      } else {
        f := SameRootSameFilled(sha, records, records');
      }
    }
  }

  // ---------------------------------------------------------------------------
  // Any binary tree

  /** A tree built with `node_hash` in any shape. */
  datatype Tree = Leaf(hash: Hash) | Node(left: Tree, right: Tree)

  function TreeRoot(sha: Sha256, t: Tree): Hash {
    match t
    case Leaf(hash) => hash
    case Node(left, right) => NodeHash(sha, TreeRoot(sha, left), TreeRoot(sha, right))
  }

  /** The leaf reached by going down, and its siblings from the bottom up. */
  predicate HasLeaf(t: Tree, turns: seq<bool>) {
    match t
    case Leaf(_) => turns == []
    case Node(left, right) => turns != [] && HasLeaf(if turns[0] then right else left, turns[1..])
  }

  function LeafAt(t: Tree, turns: seq<bool>): Hash
    requires HasLeaf(t, turns)
  {
    match t
    case Leaf(hash) => hash
    case Node(left, right) => LeafAt(if turns[0] then right else left, turns[1..])
  }

  function Siblings(sha: Sha256, t: Tree, turns: seq<bool>): seq<Step>
    requires HasLeaf(t, turns)
  {
    match t
    case Leaf(_) => []
    case Node(left, right) =>
      if turns[0] then Siblings(sha, right, turns[1..]) + [Step(true, TreeRoot(sha, left))]
      else Siblings(sha, left, turns[1..]) + [Step(false, TreeRoot(sha, right))]
  }

  lemma FoldSnoc(sha: Sha256, leaf: Hash, path: seq<Step>, last: Step)
    ensures Fold(sha, leaf, path + [last]) == Combine(sha, Fold(sha, leaf, path), last)
  {
    FoldSplits(sha, leaf, path + [last], |path|);
    assert (path + [last])[..|path|] == path && (path + [last])[|path|..] == [last] && [last][1..] == [];
  }

  /** The sibling path of any leaf of any tree leads to its root. */
  lemma {:induction false} AnyTreeVerifies(sha: Sha256, t: Tree, turns: seq<bool>)
    requires HasLeaf(t, turns)
    ensures Fold(sha, LeafAt(t, turns), Siblings(sha, t, turns)) == TreeRoot(sha, t)
    decreases t
  {
    match t
    case Leaf(_) =>
    case Node(left, right) =>
      var rest := turns[1..];
      if turns[0] {
        AnyTreeVerifies(sha, right, rest);
        FoldSnoc(sha, LeafAt(right, rest), Siblings(sha, right, rest), Step(true, TreeRoot(sha, left)));
      } else {
        AnyTreeVerifies(sha, left, rest);
        FoldSnoc(sha, LeafAt(left, rest), Siblings(sha, left, rest), Step(false, TreeRoot(sha, right)));
      }
  }
}
