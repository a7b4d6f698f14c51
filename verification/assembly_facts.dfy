/** What the fold of src/render/tree/mod.rs:200-281 guarantees about sizes, hard links,
    column widths and sibling order. */
module AssemblyFacts {
  import opened Entries
  import opened Assembly

  // ---------------------------------------------------------------------------
  // Hard links

  /** Only a hard link is left out of the total. */
  ghost predicate SkipsOnlyHardLinks(k: FoldedKids) {
    && |k.counted| == |k.trees|
    && forall i :: 0 <= i < |k.trees| && !k.counted[i] ==> k.trees[i].node.IsHardLink()
  }

  /** Every hard link's inode ends up recorded, and a hard link whose inode was recorded
      before the list (in `before`) is never counted. */
  ghost predicate RecordsInodes(k: FoldedKids, before: set<Inode>) {
    && |k.counted| == |k.trees|
    && (forall i :: 0 <= i < |k.trees| && k.trees[i].node.IsHardLink() ==> k.trees[i].node.inode.value in k.state.inodes)
    && (forall i :: 0 <= i < |k.trees| && k.trees[i].node.IsHardLink() && k.trees[i].node.inode.value in before ==> !k.counted[i])
  }

  /** No two counted children share an inode: of several hard links to one file, at most
      one adds its bytes. */
  ghost predicate CountsOnce(k: FoldedKids) {
    && |k.counted| == |k.trees|
    && forall i, j :: 0 <= i < j < |k.trees| && k.counted[i] && k.counted[j] && k.trees[i].node.IsHardLink() ==>
         k.trees[i].node.inode != k.trees[j].node.inode
  }

  lemma ConsTotal(h: Folded, rest: FoldedKids)
    requires |rest.counted| == |rest.trees| && rest.total == CountedBytes(rest.trees, rest.counted)
    ensures Cons(h, rest).total == CountedBytes(Cons(h, rest).trees, Cons(h, rest).counted)
  {
  }

  lemma ConsSkipsOnlyHardLinks(h: Folded, rest: FoldedKids)
    requires SkipsOnlyHardLinks(rest)
    ensures SkipsOnlyHardLinks(Cons(h, rest))
  {
    var k := Cons(h, rest);
    forall i | 1 <= i < |k.trees|
      ensures k.trees[i] == rest.trees[i - 1] && k.counted[i] == rest.counted[i - 1]
    {
    }
  }

  lemma ConsRecordsInodes(h: Folded, rest: FoldedKids, st1: set<Inode>, before: set<Inode>)
    requires before <= h.state.inodes
    requires Dedup(h.state.inodes, h.tree.node).1 <= st1 <= rest.state.inodes
    requires RecordsInodes(rest, st1)
    ensures RecordsInodes(Cons(h, rest), before)
  {
    var k := Cons(h, rest);
    forall i | 0 <= i < |k.trees| && k.trees[i].node.IsHardLink()
      ensures k.trees[i].node.inode.value in k.state.inodes
      ensures k.trees[i].node.inode.value in before ==> !k.counted[i]
    {
      if i > 0 {
        assert k.trees[i] == rest.trees[i - 1] && k.counted[i] == rest.counted[i - 1];
      }
    }
  }

  lemma ConsCountsOnce(h: Folded, rest: FoldedKids, st1: set<Inode>)
    requires Dedup(h.state.inodes, h.tree.node).1 <= st1
    requires RecordsInodes(rest, st1) && CountsOnce(rest)
    ensures CountsOnce(Cons(h, rest))
  {
    var k := Cons(h, rest);
    forall i, j | 0 <= i < j < |k.trees| && k.counted[i] && k.counted[j] && k.trees[i].node.IsHardLink()
      ensures k.trees[i].node.inode != k.trees[j].node.inode
    {
      assert k.trees[j] == rest.trees[j - 1] && k.counted[j] == rest.counted[j - 1];
      if i > 0 {
        assert k.trees[i] == rest.trees[i - 1] && k.counted[i] == rest.counted[i - 1];
      }
    }
  }

  /** Hard-link deduplication over one branch list: the total is the bytes of the counted
      children; only hard links are skipped; every hard link's inode ends up recorded; an
      inode recorded before the list is never counted again; and no two counted children
      share an inode. */
  lemma {:induction false} FoldKidsDedup(ctx: Context, arena: seq<Node>, st: FoldState, kids: seq<NodeId>)
    requires ListsIn(arena, st.branches)
    requires forall j :: 0 <= j < |kids| ==> kids[j] < |arena|
    requires FoldKids(ctx, arena, st, kids).Ok?
    ensures
      var k := FoldKids(ctx, arena, st, kids).value;
      && k.total == CountedBytes(k.trees, k.counted)
      && SkipsOnlyHardLinks(k)
      && RecordsInodes(k, st.inodes)
      && CountsOnce(k)
    decreases |kids|
  {
    if kids != [] {
      FoldKidsCons(ctx, arena, st, kids);
      var h := FoldHead(ctx, arena, st, kids[0]).value;
      var st1 := AfterHead(ctx, h);
      var rest := FoldKids(ctx, arena, st1, kids[1..]).value;
      FoldKidsDedup(ctx, arena, st1, kids[1..]);
      ConsTotal(h, rest);
      ConsSkipsOnlyHardLinks(h, rest);
      ConsRecordsInodes(h, rest, st1.inodes, st.inodes);
      ConsCountsOnce(h, rest, st1.inodes);
    }
  }

  // ---------------------------------------------------------------------------
  // Exactly which children are counted

  /** The inode of a node that is a hard link, as a set. */
  function OwnInode(n: Node): set<Inode> {
    if n.IsHardLink() then {n.inode.value} else {}
  }

  /** The inodes of the hard links in a subtree, its root included. */
  function HardInodes(t: Tree): set<Inode>
    decreases t
  {
    OwnInode(t.node) + HardInodesAll(t.children)
  }

  function HardInodesAll(ts: seq<Tree>): set<Inode>
    decreases ts
  {
    if ts == [] then {} else HardInodes(ts[0]) + HardInodesAll(ts[1..])
  }

  lemma HardInodesAllCons(t: Tree, ts: seq<Tree>)
    ensures HardInodesAll([t] + ts) == HardInodes(t) + HardInodesAll(ts)
  {
    assert ([t] + ts)[1..] == ts;
  }

  lemma {:induction false} HardInodesAllMember(ts: seq<Tree>, x: Inode)
    ensures x in HardInodesAll(ts) <==> exists j :: 0 <= j < |ts| && x in HardInodes(ts[j])
  {
    if ts != [] {
      HardInodesAllMember(ts[1..], x);
      if x in HardInodesAll(ts[1..]) {
        var j :| 0 <= j < |ts[1..]| && x in HardInodes(ts[1..][j]);
        assert ts[1..][j] == ts[j + 1];
      }
      if exists j :: 0 <= j < |ts| && x in HardInodes(ts[j]) {
        var j :| 0 <= j < |ts| && x in HardInodes(ts[j]);
        if j > 0 {
          assert ts[1..][j - 1] == ts[j];
        }
      }
    }
  }

  /** The recorded inodes do not depend on the order of the children. */
  lemma HardInodesAllPermutes(a: seq<Tree>, b: seq<Tree>)
    requires multiset(a) == multiset(b)
    ensures HardInodesAll(a) == HardInodesAll(b)
  {
    forall x | x in HardInodesAll(a)
      ensures x in HardInodesAll(b)
    {
      SubtreeInodeMoves(a, b, x);
    }
    forall x | x in HardInodesAll(b)
      ensures x in HardInodesAll(a)
    {
      SubtreeInodeMoves(b, a, x);
    }
  }

  lemma SubtreeInodeMoves(a: seq<Tree>, b: seq<Tree>, x: Inode)
    requires multiset(a) == multiset(b)
    requires x in HardInodesAll(a)
    ensures x in HardInodesAll(b)
  {
    HardInodesAllMember(a, x);
    HardInodesAllMember(b, x);
    var j :| 0 <= j < |a| && x in HardInodes(a[j]);
    assert a[j] in multiset(b);
    var m :| 0 <= m < |b| && b[m] == a[j];
  }

  /** Once a folded child has been checked, the recorded inodes have grown by the hard
      links of its whole subtree. */
  lemma AfterHeadInodes(ctx: Context, h: Folded, before: set<Inode>)
    requires h.state.inodes == before + HardInodesAll(h.tree.children)
    ensures AfterHead(ctx, h).inodes == before + HardInodes(h.tree)
  {
    var d := Dedup(h.state.inodes, h.tree.node);
  }

  /** The counting rule of the fold, child by child: child `i` of `ts` is counted unless it
      is a hard link whose inode is in `before`, or in the subtree of an earlier child, or
      in its own subtree (folded, and so recorded, before the child itself is checked). */
  ghost predicate ExactlyCounted(before: set<Inode>, ts: seq<Tree>, counted: seq<bool>) {
    && |counted| == |ts|
    && forall i :: 0 <= i < |ts| ==>
         (counted[i] <==>
            !(ts[i].node.IsHardLink() &&
              ts[i].node.inode.value in before + HardInodesAll(ts[..i]) + HardInodesAll(ts[i].children)))
  }

  /** A reference definition of the total of a list of folded children, walked in order
      with the set of inodes seen so far. */
  function DedupTotal(seen: set<Inode>, ts: seq<Tree>): nat
    decreases ts
  {
    if ts == [] then 0
    else
      var t := ts[0];
      var skipped := t.node.IsHardLink() && t.node.inode.value in seen + HardInodesAll(t.children);
      (if skipped then 0 else t.node.Bytes()) + DedupTotal(seen + HardInodes(t), ts[1..])
  }

  lemma ConsExactlyCounted(h: Folded, rest: FoldedKids, before: set<Inode>)
    requires h.state.inodes == before + HardInodesAll(h.tree.children)
    requires ExactlyCounted(before + HardInodes(h.tree), rest.trees, rest.counted)
    ensures ExactlyCounted(before, Cons(h, rest).trees, Cons(h, rest).counted)
  {
    var k := Cons(h, rest);
    forall i | 0 <= i < |k.trees|
      ensures (k.counted[i] <==>
        !(k.trees[i].node.IsHardLink() &&
          k.trees[i].node.inode.value in before + HardInodesAll(k.trees[..i]) + HardInodesAll(k.trees[i].children)))
    {
      if i == 0 {
        assert k.trees[..0] == [];
      } else {
        assert k.trees[i] == rest.trees[i - 1] && k.counted[i] == rest.counted[i - 1];
        assert k.trees[..i] == [h.tree] + rest.trees[..i - 1];
        HardInodesAllCons(h.tree, rest.trees[..i - 1]);
      }
    }
  }

  lemma ConsExact(h: Folded, rest: FoldedKids, before: set<Inode>)
    requires h.state.inodes == before + HardInodesAll(h.tree.children)
    requires rest.state.inodes == before + HardInodes(h.tree) + HardInodesAll(rest.trees)
    requires ExactlyCounted(before + HardInodes(h.tree), rest.trees, rest.counted)
    ensures Cons(h, rest).state.inodes == before + HardInodesAll(Cons(h, rest).trees)
    ensures ExactlyCounted(before, Cons(h, rest).trees, Cons(h, rest).counted)
  {
    ConsExactlyCounted(h, rest, before);
    HardInodesAllCons(h.tree, rest.trees);
  }

  /** Counted by that rule, the counted bytes are the reference total. */
  lemma {:induction false} ExactlyCountedTotal(before: set<Inode>, ts: seq<Tree>, counted: seq<bool>)
    requires ExactlyCounted(before, ts, counted)
    ensures CountedBytes(ts, counted) == DedupTotal(before, ts)
    decreases |ts|
  {
    if ts != [] {
      var b1 := before + HardInodes(ts[0]);
      forall i | 0 <= i < |ts| - 1
        ensures (counted[1..][i] <==>
          !(ts[1..][i].node.IsHardLink() &&
            ts[1..][i].node.inode.value in b1 + HardInodesAll(ts[1..][..i]) + HardInodesAll(ts[1..][i].children)))
      {
        assert ts[1..][i] == ts[i + 1] && counted[1..][i] == counted[i + 1];
        assert ts[..i + 1] == [ts[0]] + ts[1..][..i];
        HardInodesAllCons(ts[0], ts[1..][..i]);
      }
      ExactlyCountedTotal(b1, ts[1..], counted[1..]);
      assert ts[..0] == [];
    }
  }

  /** Assembling a directory records exactly the inodes of the hard links below it (its own
      inode is recorded by the list it belongs to). */
  lemma {:induction false} AssembleInodes(ctx: Context, arena: seq<Node>, st: FoldState, id: NodeId)
    requires ListsIn(arena, st.branches)
    requires id < |arena|
    requires Assemble(ctx, arena, st, id).Ok?
    ensures
      var f := Assemble(ctx, arena, st, id).value;
      f.state.inodes == st.inodes + HardInodesAll(f.tree.children)
    decreases |st.branches|, 0, 0
  {
    var f := Assemble(ctx, arena, st, id).value;
    var node := arena[id];
    var st0 := st.(branches := st.branches - {node.path});
    assert st0.branches.Keys == st.branches.Keys - {node.path};
    ListsKept(arena, st, st0);
    var k := FoldKids(ctx, arena, st0, st.branches[node.path]).value;
    FoldKidsExact(ctx, arena, st0, st.branches[node.path]);
    SortTreesPermutes(ctx.leq, k.trees);
    HardInodesAllPermutes(k.trees, f.tree.children);
  }

  /** Folding one child records the inodes of the hard links below it. */
  lemma {:induction false} FoldHeadInodes(ctx: Context, arena: seq<Node>, st: FoldState, c: NodeId)
    requires ListsIn(arena, st.branches)
    requires c < |arena|
    requires FoldHead(ctx, arena, st, c).Ok?
    ensures
      var h := FoldHead(ctx, arena, st, c).value;
      h.state.inodes == st.inodes + HardInodesAll(h.tree.children)
    decreases |st.branches|, 1, 0
  {
    if arena[c].IsDir() {
      AssembleInodes(ctx, arena, st, c);
    }
  }

  /** Over one branch list, the fold records exactly the inodes of the hard links in the
      children's subtrees, and counts exactly the children the counting rule admits. */
  lemma {:induction false} FoldKidsExact(ctx: Context, arena: seq<Node>, st: FoldState, kids: seq<NodeId>)
    requires ListsIn(arena, st.branches)
    requires forall j :: 0 <= j < |kids| ==> kids[j] < |arena|
    requires FoldKids(ctx, arena, st, kids).Ok?
    ensures
      var k := FoldKids(ctx, arena, st, kids).value;
      && k.state.inodes == st.inodes + HardInodesAll(k.trees)
      && ExactlyCounted(st.inodes, k.trees, k.counted)
    decreases |st.branches|, 1, |kids|
  {
    if kids != [] {
      FoldKidsCons(ctx, arena, st, kids);
      var c := kids[0];
      var h := FoldHead(ctx, arena, st, c).value;
      var st1 := AfterHead(ctx, h);
      var rest := FoldKids(ctx, arena, st1, kids[1..]).value;
      FoldHeadInodes(ctx, arena, st, c);
      AfterHeadInodes(ctx, h, st.inodes);
      FoldKidsExact(ctx, arena, st1, kids[1..]);
      ConsExact(h, rest, st.inodes);
    }
  }

  /** Every node of a folded subtree fits the final widths, and only directories have children. */
  lemma {:induction false} AssembleShape(ctx: Context, arena: seq<Node>, st: FoldState, id: NodeId)
    requires ListsIn(arena, st.branches)
    requires id < |arena|
    requires Assemble(ctx, arena, st, id).Ok?
    ensures Covered(ctx, Assemble(ctx, arena, st, id).value.state.cols, Assemble(ctx, arena, st, id).value.tree)
    ensures arena[id].IsDir() ==> WellKinded(Assemble(ctx, arena, st, id).value.tree)
    decreases |st.branches|, 0, 0
  {
    var f := Assemble(ctx, arena, st, id).value;
    var node := arena[id];
    var st0 := st.(branches := st.branches - {node.path});
    assert st0.branches.Keys == st.branches.Keys - {node.path};
    ListsKept(arena, st, st0);
    var k := FoldKids(ctx, arena, st0, st.branches[node.path]).value;
    FoldKidsShape(ctx, arena, st0, st.branches[node.path]);
    SortTreesPermutes(ctx.leq, k.trees);
    ChildrenCarry(ctx, k.state.cols, f.state.cols, k.trees, f.tree.children);
  }

  lemma {:induction false} FoldKidsShape(ctx: Context, arena: seq<Node>, st: FoldState, kids: seq<NodeId>)
    requires ListsIn(arena, st.branches)
    requires forall j :: 0 <= j < |kids| ==> kids[j] < |arena|
    requires FoldKids(ctx, arena, st, kids).Ok?
    ensures
      var k := FoldKids(ctx, arena, st, kids).value;
      && (forall i :: 0 <= i < |kids| ==> Covered(ctx, k.state.cols, k.trees[i]) && WellKinded(k.trees[i]))
      && (forall i :: 0 <= i < |kids| && !arena[kids[i]].IsDir() ==> k.trees[i] == Tree(kids[i], arena[kids[i]], []))
    decreases |st.branches|, 1, |kids|
  {
    var k := FoldKids(ctx, arena, st, kids).value;
    if kids != [] {
      FoldKidsCons(ctx, arena, st, kids);
      var c := kids[0];
      var h := FoldHead(ctx, arena, st, c).value;
      var st1 := AfterHead(ctx, h);
      var rest := FoldKids(ctx, arena, st1, kids[1..]).value;
      FoldKidsShape(ctx, arena, st1, kids[1..]);
      if arena[c].IsDir() {
        AssembleShape(ctx, arena, st, c);
        CoveredWider(ctx, h.state.cols, st1.cols, h.tree);
      }
      CoveredWider(ctx, st1.cols, rest.state.cols, h.tree);
      assert k.state == rest.state && k.trees[0] == h.tree;
      forall i | 0 <= i < |kids|
        ensures Covered(ctx, k.state.cols, k.trees[i]) && WellKinded(k.trees[i])
      {
        if i > 0 {
          assert k.trees[i] == rest.trees[i - 1];
        }
      }
      forall i | 0 <= i < |kids| && !arena[kids[i]].IsDir()
        ensures k.trees[i] == Tree(kids[i], arena[kids[i]], [])
      {
        if i > 0 {
          assert k.trees[i] == rest.trees[i - 1] && kids[i] == kids[1..][i - 1];
        }
      }
    }
  }

  /** The children end up in comparator order, and they are exactly the directory's branch list. */
  lemma AssembleOrder(ctx: Context, arena: seq<Node>, st: FoldState, id: NodeId)
    requires Total(ctx.leq)
    requires ListsIn(arena, st.branches)
    requires id < |arena|
    requires Assemble(ctx, arena, st, id).Ok?
    ensures Sorted(ctx.leq, Assemble(ctx, arena, st, id).value.tree.children)
    ensures multiset(Roots(Assemble(ctx, arena, st, id).value.tree.children)) == multiset(st.branches[arena[id].path])
  {
    var node := arena[id];
    var st0 := st.(branches := st.branches - {node.path});
    assert st0.branches.Keys == st.branches.Keys - {node.path};
    ListsKept(arena, st, st0);
    var k := FoldKids(ctx, arena, st0, st.branches[node.path]).value;
    SortTreesSorted(ctx.leq, k.trees);
    SortTreesRoots(ctx.leq, k.trees);
  }

  /** The directory's total is the reference total of its children taken in branch-list
      order, starting from the inodes recorded when the directory was reached: a child
      counts unless it is a hard link to an inode already seen. */
  lemma AssembleTotal(ctx: Context, arena: seq<Node>, st: FoldState, id: NodeId)
    requires ListsIn(arena, st.branches)
    requires id < |arena|
    requires Assemble(ctx, arena, st, id).Ok?
    ensures
      var f := Assemble(ctx, arena, st, id).value;
      exists order ::
        && multiset(order) == multiset(f.tree.children)
        && Roots(order) == st.branches[arena[id].path]
        && f.total == DedupTotal(st.inodes, order)
  {
    var node := arena[id];
    var st0 := st.(branches := st.branches - {node.path});
    assert st0.branches.Keys == st.branches.Keys - {node.path};
    ListsKept(arena, st, st0);
    var k := FoldKids(ctx, arena, st0, st.branches[node.path]).value;
    FoldKidsDedup(ctx, arena, st0, st.branches[node.path]);
    FoldKidsExact(ctx, arena, st0, st.branches[node.path]);
    ExactlyCountedTotal(st.inodes, k.trees, k.counted);
    SortTreesPermutes(ctx.leq, k.trees);
  }

  /** Hence the directory's total is at most the bytes of its children, and equals them
      when no child is a hard link. */
  lemma AssembleTotalBounds(ctx: Context, arena: seq<Node>, st: FoldState, id: NodeId)
    requires ListsIn(arena, st.branches)
    requires id < |arena|
    requires Assemble(ctx, arena, st, id).Ok?
    ensures
      var f := Assemble(ctx, arena, st, id).value;
      && f.total <= SumBytes(f.tree.children)
      && (NoHardLinks(f.tree.children) ==> f.total == SumBytes(f.tree.children))
  {
    var f := Assemble(ctx, arena, st, id).value;
    var node := arena[id];
    var st0 := st.(branches := st.branches - {node.path});
    assert st0.branches.Keys == st.branches.Keys - {node.path};
    ListsKept(arena, st, st0);
    var k := FoldKids(ctx, arena, st0, st.branches[node.path]).value;
    FoldKidsDedup(ctx, arena, st0, st.branches[node.path]);
    SortTreesPermutes(ctx.leq, k.trees);
    SortTreesBytes(ctx.leq, k.trees);
    CountedAtMostAll(k.trees, k.counted);
    if NoHardLinks(f.tree.children) {
      forall i | 0 <= i < |k.trees|
        ensures k.counted[i]
      {
        assert k.trees[i] in multiset(f.tree.children);
      }
    }
  }
}
