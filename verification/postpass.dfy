/** The passes that run over the assembled tree before it is shown:
    `prune_directories` (src/render/tree/mod.rs:284-308), which removes directories left
    without children until none remain, and `filter_directories` (311-323), which keeps
    directories only. */
module PostPass {
  import opened Entries

  // ---------------------------------------------------------------------------
  // Pruning

  /** A directory with no children. */
  predicate EmptyDir(t: Tree) {
    t.node.IsDir() && t.children == []
  }

  /** Some node at or below the roots of `ts` is an empty directory. */
  predicate AnyEmptyDir(ts: seq<Tree>)
    decreases ts
  {
    ts != [] && (EmptyDir(ts[0]) || AnyEmptyDir(ts[0].children) || AnyEmptyDir(ts[1..]))
  }

  /** One round of `prune_directories`: every empty directory below the root is removed at
      once, the rest stays in place. */
  function Pass(t: Tree): Tree
    decreases t
  {
    Tree(t.id, t.node, PassAll(t.children))
  }

  function PassAll(ts: seq<Tree>): seq<Tree>
    decreases ts
  {
    if ts == [] then [] else (if EmptyDir(ts[0]) then [] else [Pass(ts[0])]) + PassAll(ts[1..])
  }

  lemma SizeAllCons(t: Tree, ts: seq<Tree>)
    ensures SizeAll([t] + ts) == Size(t) + SizeAll(ts)
  {
    assert ([t] + ts)[0] == t && ([t] + ts)[1..] == ts;
  }

  /** A round never adds nodes, and removes at least one while an empty directory remains. */
  lemma {:induction false} PassShrinks(t: Tree)
    ensures Size(Pass(t)) <= Size(t)
    ensures AnyEmptyDir(t.children) ==> Size(Pass(t)) < Size(t)
    decreases t, 0
  {
    PassAllShrinks(t.children);
  }

  lemma {:induction false} PassAllShrinks(ts: seq<Tree>)
    ensures SizeAll(PassAll(ts)) <= SizeAll(ts)
    ensures AnyEmptyDir(ts) ==> SizeAll(PassAll(ts)) < SizeAll(ts)
    decreases ts, 1
  {
    if ts != [] {
      PassAllShrinks(ts[1..]);
      if !EmptyDir(ts[0]) {
        PassShrinks(ts[0]);
        SizeAllCons(Pass(ts[0]), PassAll(ts[1..]));
      } else {
        assert PassAll(ts) == PassAll(ts[1..]);
      }
    }
  }

  /** `prune_directories`: repeat rounds until no empty directory is left below the root. */
  function Prune(t: Tree): (r: Tree)
    ensures r.id == t.id && r.node == t.node
    ensures !AnyEmptyDir(r.children)
    decreases Size(t)
  {
    if !AnyEmptyDir(t.children) then
      t
    else
      PassShrinks(t);
      Prune(Pass(t))
  }

  /** Pruning a pruned tree changes nothing. */
  lemma PruneIdempotent(t: Tree)
    ensures Prune(Prune(t)) == Prune(t)
  {
  }

  // ---------------------------------------------------------------------------
  // A reference definition of pruning: keep exactly the subtrees holding a non-directory

  /** `t` is not a directory, or some subtree of it holds a non-directory. */
  predicate HasFile(t: Tree)
    decreases t
  {
    !t.node.IsDir() || AnyHasFile(t.children)
  }

  predicate AnyHasFile(ts: seq<Tree>)
    decreases ts
  {
    ts != [] && (HasFile(ts[0]) || AnyHasFile(ts[1..]))
  }

  /** Drop every child subtree that holds no non-directory. */
  function Strip(t: Tree): Tree
    decreases t
  {
    Tree(t.id, t.node, StripAll(t.children))
  }

  function StripAll(ts: seq<Tree>): seq<Tree>
    decreases ts
  {
    if ts == [] then [] else (if HasFile(ts[0]) then [Strip(ts[0])] else []) + StripAll(ts[1..])
  }

  /** A tree without empty directories already is its own stripped form. */
  lemma {:induction false} StripFixed(t: Tree)
    requires !EmptyDir(t) && !AnyEmptyDir(t.children)
    ensures HasFile(t) && Strip(t) == t
    decreases t, 0
  {
    StripAllFixed(t.children);
  }

  lemma {:induction false} StripAllFixed(ts: seq<Tree>)
    requires !AnyEmptyDir(ts)
    ensures StripAll(ts) == ts
    ensures ts != [] ==> AnyHasFile(ts)
    decreases ts, 1
  {
    if ts != [] {
      StripFixed(ts[0]);
      StripAllFixed(ts[1..]);
      assert StripAll(ts) == [ts[0]] + ts[1..];
    }
  }

  /** A round of pruning removes nothing the reference definition keeps. */
  lemma {:induction false} PassStrip(t: Tree)
    ensures HasFile(Pass(t)) == HasFile(t)
    ensures Strip(Pass(t)) == Strip(t)
    decreases t, 0
  {
    PassAllStrip(t.children);
  }

  lemma {:induction false} PassAllStrip(ts: seq<Tree>)
    ensures AnyHasFile(PassAll(ts)) == AnyHasFile(ts)
    ensures StripAll(PassAll(ts)) == StripAll(ts)
    decreases ts, 1
  {
    if ts != [] {
      PassAllStrip(ts[1..]);
      var rest := PassAll(ts[1..]);
      if EmptyDir(ts[0]) {
        assert !HasFile(ts[0]);
        assert PassAll(ts) == rest;
      } else {
        PassStrip(ts[0]);
        var p := [Pass(ts[0])] + rest;
        assert PassAll(ts) == p;
        assert p[0] == Pass(ts[0]) && p[1..] == rest;
      }
    }
  }

  /** Pruning keeps exactly the child subtrees that hold a non-directory somewhere. */
  lemma {:induction false} PruneIsStrip(t: Tree)
    ensures Prune(t) == Strip(t)
    decreases Size(t)
  {
    if !AnyEmptyDir(t.children) {
      StripAllFixed(t.children);
    } else {
      PassShrinks(t);
      PruneIsStrip(Pass(t));
      PassStrip(t);
    }
  }

  /** The non-directory ids of a tree. */
  function FileIds(t: Tree): set<NodeId>
    decreases t
  {
    (if t.node.IsDir() then {} else {t.id}) + FileIdsAll(t.children)
  }

  function FileIdsAll(ts: seq<Tree>): set<NodeId>
    decreases ts
  {
    if ts == [] then {} else FileIds(ts[0]) + FileIdsAll(ts[1..])
  }

  /** A subtree without a non-directory holds no file id. */
  lemma {:induction false} NoFileNoIds(t: Tree)
    requires !HasFile(t)
    ensures FileIds(t) == {}
    decreases t, 0
  {
    NoFileNoIdsAll(t.children);
  }

  lemma {:induction false} NoFileNoIdsAll(ts: seq<Tree>)
    requires !AnyHasFile(ts)
    ensures FileIdsAll(ts) == {}
    decreases ts, 1
  {
    if ts != [] {
      NoFileNoIds(ts[0]);
      NoFileNoIdsAll(ts[1..]);
    }
  }

  lemma {:induction false} StripKeepsFiles(t: Tree)
    ensures FileIds(Strip(t)) == FileIds(t)
    decreases t, 0
  {
    StripAllKeepsFiles(t.children);
  }

  lemma {:induction false} StripAllKeepsFiles(ts: seq<Tree>)
    ensures FileIdsAll(StripAll(ts)) == FileIdsAll(ts)
    decreases ts, 1
  {
    if ts != [] {
      StripAllKeepsFiles(ts[1..]);
      var rest := StripAll(ts[1..]);
      if HasFile(ts[0]) {
        StripKeepsFiles(ts[0]);
        var s := [Strip(ts[0])] + rest;
        assert StripAll(ts) == s;
        assert s[0] == Strip(ts[0]) && s[1..] == rest;
      } else {
        NoFileNoIds(ts[0]);
        assert StripAll(ts) == rest;
      }
    }
  }

  /** Pruning never removes a file, symlink or other non-directory. */
  lemma PruneKeepsFiles(t: Tree)
    ensures FileIds(Prune(t)) == FileIds(t)
  {
    PruneIsStrip(t);
    StripKeepsFiles(t);
  }

  // ---------------------------------------------------------------------------
  // Keeping directories only

  /** Every node below the roots of `ts`, and the roots themselves, are directories. */
  predicate AllDirs(ts: seq<Tree>)
    decreases ts
  {
    forall i :: 0 <= i < |ts| ==> ts[i].node.IsDir() && AllDirs(ts[i].children)
  }

  /** `filter_directories`: remove every non-directory below the root together with its
      subtree. */
  function FilterDirs(t: Tree): (r: Tree)
    ensures r.id == t.id && r.node == t.node
    ensures AllDirs(r.children)
    decreases t, 0
  {
    Tree(t.id, t.node, FilterAll(t.children))
  }

  function FilterAll(ts: seq<Tree>): (r: seq<Tree>)
    ensures AllDirs(r)
    decreases ts, 1
  {
    if ts == [] then
      []
    else
      var rest := FilterAll(ts[1..]);
      if ts[0].node.IsDir() then
        var r := [FilterDirs(ts[0])] + rest;
        assert r[0] == FilterDirs(ts[0]);
        assert forall i :: 1 <= i < |r| ==> r[i] == rest[i - 1];
        r
      else
        rest
  }

  /** A tree whose descendants are all directories is left as it is; in particular the
      filter is idempotent. */
  lemma {:induction false} FilterFixed(t: Tree)
    requires AllDirs(t.children)
    ensures FilterDirs(t) == t
    decreases t, 0
  {
    FilterAllFixed(t.children);
  }

  lemma {:induction false} FilterAllFixed(ts: seq<Tree>)
    requires AllDirs(ts)
    ensures FilterAll(ts) == ts
    decreases ts, 1
  {
    if ts != [] {
      assert ts[0].node.IsDir() && AllDirs(ts[0].children);
      FilterFixed(ts[0]);
      assert AllDirs(ts[1..]) by {
        forall i | 0 <= i < |ts[1..]|
          ensures ts[1..][i].node.IsDir() && AllDirs(ts[1..][i].children)
        {
          assert ts[1..][i] == ts[i + 1];
        }
      }
      FilterAllFixed(ts[1..]);
      assert FilterAll(ts) == [ts[0]] + ts[1..];
    }
  }

  /** The directory ids of a tree. */
  function DirIds(t: Tree): set<NodeId>
    decreases t
  {
    (if t.node.IsDir() then {t.id} else {}) + DirIdsAll(t.children)
  }

  function DirIdsAll(ts: seq<Tree>): set<NodeId>
    decreases ts
  {
    if ts == [] then {} else DirIds(ts[0]) + DirIdsAll(ts[1..])
  }

  /** In a tree where only directories have children, the filter removes no directory. */
  lemma {:induction false} FilterKeepsDirs(t: Tree)
    requires WellKinded(t)
    ensures DirIds(FilterDirs(t)) == DirIds(t)
    decreases t, 0
  {
    FilterAllKeepsDirs(t.children);
  }

  lemma {:induction false} FilterAllKeepsDirs(ts: seq<Tree>)
    requires forall i :: 0 <= i < |ts| ==> WellKinded(ts[i])
    ensures DirIdsAll(FilterAll(ts)) == DirIdsAll(ts)
    decreases ts, 1
  {
    if ts != [] {
      assert forall i :: 0 <= i < |ts[1..]| ==> ts[1..][i] == ts[i + 1];
      FilterAllKeepsDirs(ts[1..]);
      var rest := FilterAll(ts[1..]);
      if ts[0].node.IsDir() {
        FilterKeepsDirs(ts[0]);
        var r := [FilterDirs(ts[0])] + rest;
        assert FilterAll(ts) == r;
        assert r[0] == FilterDirs(ts[0]) && r[1..] == rest;
      } else {
        assert ts[0].children == [];
        assert DirIds(ts[0]) == {};
        assert FilterAll(ts) == rest;
      }
    }
  }
}
