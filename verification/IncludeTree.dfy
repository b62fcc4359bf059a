/** The walk over `include!` files in scripts/test-modularity-contract.py. */
module IncludeTree {
  /** The files by path, each with the paths it includes, in order. An include may name a
      path that is not a file, and files may include each other in cycles. */
  type Tree = map<string, seq<string>>

  // ---------------------------------------------------------------------------
  // Reachability

  /** A chain of includes through files, none of them avoided. */
  ghost predicate Trail(tree: Tree, avoid: set<string>, t: seq<string>) {
    && t != []
    && (forall i | 0 <= i < |t| :: t[i] in tree && t[i] !in avoid)
    && (forall i | 0 < i < |t| :: t[i] in tree[t[i - 1]])
  }

  ghost predicate TrailTo(tree: Tree, avoid: set<string>, root: string, f: string, t: seq<string>) {
    Trail(tree, avoid, t) && t[0] == root && t[|t| - 1] == f
  }

  ghost predicate Reaches(tree: Tree, avoid: set<string>, root: string, f: string) {
    exists t :: TrailTo(tree, avoid, root, f, t)
  }

  /** The files reachable from the root without passing an avoided one. */
  ghost function Reachable(tree: Tree, avoid: set<string>, root: string): set<string> {
    set f | f in tree && Reaches(tree, avoid, root, f)
  }

  ghost predicate NoneBroken(tree: Tree, files: set<string>) {
    forall f | f in files && f in tree :: forall child | child in tree[f] :: child in tree
  }

  lemma RootReaches(tree: Tree, avoid: set<string>, root: string)
    requires root in tree && root !in avoid
    ensures Reaches(tree, avoid, root, root)
  {
    assert TrailTo(tree, avoid, root, root, [root]);
  }

  /** What an included file reaches, avoiding more, its parent reaches. */
  lemma ReachesThrough(tree: Tree, avoid: set<string>, more: set<string>, root: string, child: string, f: string)
    requires root in tree && root !in avoid && child in tree[root]
    requires avoid <= more && Reaches(tree, more, child, f)
    ensures Reaches(tree, avoid, root, f)
  {
    var t :| TrailTo(tree, more, child, f, t);
    var t' := [root] + t;
    assert forall i | 0 < i < |t'| :: t'[i] == t[i - 1];
    assert TrailTo(tree, avoid, root, f, t');
  }

  /** Every file that was added has all its includes among the files seen. */
  ghost predicate Closed(tree: Tree, before: set<string>, seen: set<string>) {
    forall f | f in seen && f !in before && f in tree :: forall child | child in tree[f] :: child in seen
  }

  lemma {:induction false} ClosedHoldsTrail(tree: Tree, avoid: set<string>, seen: set<string>, t: seq<string>, n: nat)
    requires Trail(tree, avoid, t) && n < |t| && t[0] in seen && Closed(tree, avoid, seen)
    ensures t[n] in seen
  {
    if n > 0 { ClosedHoldsTrail(tree, avoid, seen, t, n - 1); }
  }

  /** A closed set of reachable files with the root is all that is reachable. */
  lemma ClosedIsReachable(tree: Tree, avoid: set<string>, seen: set<string>, root: string)
    requires root in seen && avoid <= seen && seen <= tree.Keys + avoid && Closed(tree, avoid, seen)
    requires forall f | f in seen && f !in avoid :: Reaches(tree, avoid, root, f)
    ensures seen == avoid + Reachable(tree, avoid, root)
  {
    forall f | f in Reachable(tree, avoid, root) ensures f in seen {
      var t :| TrailTo(tree, avoid, root, f, t);
      ClosedHoldsTrail(tree, avoid, seen, t, |t| - 1);
    }
  }

  lemma AvoidedRootReachesNothing(tree: Tree, avoid: set<string>, root: string)
    requires root in avoid
    ensures Reachable(tree, avoid, root) == {}
  {
    forall f ensures !Reaches(tree, avoid, root, f) {
      if t :| TrailTo(tree, avoid, root, f, t) { assert false; }
    }
  }

  // ---------------------------------------------------------------------------
  // The code

  class Walk {
    const tree: Tree
    var seen: set<string>

    constructor (files: Tree)
      ensures tree == files && seen == {}
    {
      tree, seen := files, {};
    }

    /** Everything added since is reachable from the root. */
    ghost predicate Grown(before: set<string>, root: string)
      reads this
    {
      before <= seen <= tree.Keys + before && forall f | f in seen && f !in before :: Reaches(tree, before, root, f)
    }

    /** Returns false for the process failing on a broken include. */
    method Validate(path: string) returns (ok: bool)
      requires path in tree
      modifies this
      ensures Grown(old(seen), path)
      ensures ok ==> path in seen && Closed(tree, old(seen), seen)
      ensures !ok ==> !NoneBroken(tree, Reachable(tree, old(seen), path))
      decreases tree.Keys - seen
    {
      if path in seen { return true; }
      ghost var before := seen;
      RootReaches(tree, before, path);
      seen := seen + {path};
      var includes := tree[path];
      for i := 0 to |includes|
        invariant path in seen && Grown(before, path)
        invariant forall j | 0 <= j < i :: includes[j] in seen
        invariant Closed(tree, before + {path}, seen)
      {
        var child := includes[i];
        if child !in tree {
          assert path in Reachable(tree, before, path);
          return false;
        }
        ghost var mid := seen;
        ok := Validate(child);
        forall f | Reaches(tree, mid, child, f) ensures Reaches(tree, before, path, f) {
          ReachesThrough(tree, before, mid, path, child, f);
        }
        if !ok {
          assert Reachable(tree, mid, child) <= Reachable(tree, before, path);
          return;
        }
      }
      return true;
    }
  }

  /** The walk returns normally exactly when every include named in a file reachable from
      the root exists, and then the files seen have grown by exactly those files. */
  method ValidateIncludeTree(walk: Walk, root: string) returns (ok: bool)
    requires root in walk.tree && walk.seen <= walk.tree.Keys
    modifies walk
    ensures walk.seen <= walk.tree.Keys
    ensures ok <==> NoneBroken(walk.tree, Reachable(walk.tree, old(walk.seen), root))
    ensures ok ==> walk.seen == old(walk.seen) + Reachable(walk.tree, old(walk.seen), root)
  {
    ghost var before := walk.seen;
    ok := walk.Validate(root);
    if ok {
      if root in before {
        AvoidedRootReachesNothing(walk.tree, before, root);
        assert walk.seen <= before + Reachable(walk.tree, before, root);
      } else {
        ClosedIsReachable(walk.tree, before, walk.seen, root);
      }
    }
  }
}
