/** `assemble_tree` (src/render/tree/mod.rs:200-281) and `update_column_properties`
    (src/render/tree/mod.rs:340-374): the depth-first fold that turns the branch map
    into the tree, totals directory sizes, skips duplicate hard links, widens the
    column maxima and orders siblings. */
module Assembly {
  import opened Entries

  /** What the fold threads through its recursion: the branch map it consumes, the
      inodes of the hard links already counted, and the column widths seen so far. */
  datatype FoldState = FoldState(branches: map<Path, seq<NodeId>>, inodes: set<Inode>, cols: Columns)

  /** A folded directory: the state after it, its tree, and the bytes its children added. */
  datatype Folded = Folded(state: FoldState, tree: Tree, total: nat)

  /** A folded list of children, in branch-list order, with whether each was added to the total. */
  datatype FoldedKids = FoldedKids(state: FoldState, trees: seq<Tree>, counted: seq<bool>, total: nat)

  // ---------------------------------------------------------------------------
  // Column widths

  function Widen(w: nat, candidate: Option<nat>): (r: nat)
    ensures r >= w
    ensures candidate.Some? ==> r >= candidate.value
    ensures r == w || (candidate.Some? && r == candidate.value)
  {
    if candidate.Some? && candidate.value > w then candidate.value else w
  }

  function SizeWidth(n: Node): Option<nat> {
    if n.size.Some? then Some(n.size.value.columns) else None
  }

  function InoWidth(ctx: Context, n: Node): Option<nat> {
    if n.inode.Some? then Some(ctx.digits(n.inode.value.ino)) else None
  }

  function NlinkWidth(ctx: Context, n: Node): Option<nat> {
    if n.inode.Some? then Some(ctx.digits(n.inode.value.nlink)) else None
  }

  function BlocksWidth(ctx: Context, n: Node): Option<nat> {
    if n.blocks.Some? then Some(ctx.digits(n.blocks.value)) else None
  }

  predicate ColsLe(a: Columns, b: Columns) {
    a.size <= b.size && a.ino <= b.ino && a.nlink <= b.nlink && a.blocks <= b.blocks
  }

  /** The inode, link and block widths agree. */
  predicate SameLongWidths(a: Columns, b: Columns) {
    a.ino == b.ino && a.nlink == b.nlink && a.blocks == b.blocks
  }

  /** Widths `c` leave room for every column node `n` shows. */
  predicate Fits(ctx: Context, c: Columns, n: Node) {
    && (n.size.Some? ==> c.size >= n.size.value.columns)
    && (ctx.long && n.inode.Some? ==> c.ino >= ctx.digits(n.inode.value.ino))
    && (ctx.long && n.inode.Some? ==> c.nlink >= ctx.digits(n.inode.value.nlink))
    && (ctx.long && n.blocks.Some? ==> c.blocks >= ctx.digits(n.blocks.value))
  }

  /** `update_column_properties`, unix variant. */
  function UpdateColumns(ctx: Context, c: Columns, n: Node): (r: Columns)
    ensures ColsLe(c, r) && Fits(ctx, r, n)
    ensures !ctx.long ==> SameLongWidths(c, r)
    // a maximum only ever moves to the node's own width
    ensures r.size == c.size || (SizeWidth(n).Some? && r.size == SizeWidth(n).value)
    ensures r.ino == c.ino || (InoWidth(ctx, n).Some? && r.ino == InoWidth(ctx, n).value)
    ensures r.nlink == c.nlink || (NlinkWidth(ctx, n).Some? && r.nlink == NlinkWidth(ctx, n).value)
    ensures r.blocks == c.blocks || (BlocksWidth(ctx, n).Some? && r.blocks == BlocksWidth(ctx, n).value)
  {
    Columns(
      Widen(c.size, SizeWidth(n)),
      if ctx.long then Widen(c.ino, InoWidth(ctx, n)) else c.ino,
      if ctx.long then Widen(c.nlink, NlinkWidth(ctx, n)) else c.nlink,
      if ctx.long then Widen(c.blocks, BlocksWidth(ctx, n)) else c.blocks)
  }

  /** Widths `c` fit every node of `t`. */
  predicate Covered(ctx: Context, c: Columns, t: Tree)
    decreases t
  {
    Fits(ctx, c, t.node) && forall i :: 0 <= i < |t.children| ==> Covered(ctx, c, t.children[i])
  }

  lemma {:induction false} CoveredWider(ctx: Context, a: Columns, b: Columns, t: Tree)
    requires ColsLe(a, b) && Covered(ctx, a, t)
    ensures Covered(ctx, b, t)
    decreases t
  {
    forall i | 0 <= i < |t.children|
      ensures Covered(ctx, b, t.children[i])
    {
      CoveredWider(ctx, a, b, t.children[i]);
    }
  }

  // ---------------------------------------------------------------------------
  // Tree shape and sizes

  predicate NoHardLinks(ts: seq<Tree>) {
    forall i :: 0 <= i < |ts| ==> !ts[i].node.IsHardLink()
  }

  /** Bytes of the roots of `ts` whose flag is set. */
  function CountedBytes(ts: seq<Tree>, counted: seq<bool>): nat
    requires |counted| == |ts|
  {
    if ts == [] then 0
    else (if counted[0] then ts[0].node.Bytes() else 0) + CountedBytes(ts[1..], counted[1..])
  }

  lemma {:induction false} CountedAtMostAll(ts: seq<Tree>, counted: seq<bool>)
    requires |counted| == |ts|
    ensures CountedBytes(ts, counted) <= SumBytes(ts)
    ensures (forall i :: 0 <= i < |ts| ==> counted[i]) ==> CountedBytes(ts, counted) == SumBytes(ts)
  {
    if ts != [] {
      CountedAtMostAll(ts[1..], counted[1..]);
    }
  }

  // ---------------------------------------------------------------------------
  // Ordering siblings

  /** Adjacent siblings are in comparator order. */
  predicate Sorted(leq: (Node, Node) -> bool, ts: seq<Tree>) {
    forall i :: 0 <= i < |ts| - 1 ==> leq(ts[i].node, ts[i + 1].node)
  }

  function Insert(leq: (Node, Node) -> bool, t: Tree, ts: seq<Tree>): (r: seq<Tree>)
    ensures |r| == |ts| + 1
  {
    if ts == [] || leq(t.node, ts[0].node) then [t] + ts
    else [ts[0]] + Insert(leq, t, ts[1..])
  }

  /** Sorting the children with the comparator: an insertion sort that places each
      child before the first one it does not follow, which keeps equal children in
      branch-list order, as a stable sort does. */
  function SortTrees(leq: (Node, Node) -> bool, ts: seq<Tree>): (r: seq<Tree>)
    ensures |r| == |ts|
  {
    if ts == [] then [] else Insert(leq, ts[0], SortTrees(leq, ts[1..]))
  }

  lemma {:induction false} InsertPermutes(leq: (Node, Node) -> bool, t: Tree, ts: seq<Tree>)
    ensures multiset(Insert(leq, t, ts)) == multiset(ts) + multiset{t}
  {
    if ts != [] && !leq(t.node, ts[0].node) {
      InsertPermutes(leq, t, ts[1..]);
      assert ts == [ts[0]] + ts[1..];
    }
  }

  lemma {:induction false} InsertRoots(leq: (Node, Node) -> bool, t: Tree, ts: seq<Tree>)
    ensures multiset(Roots(Insert(leq, t, ts))) == multiset(Roots(ts)) + multiset{t.id}
  {
    if ts == [] || leq(t.node, ts[0].node) {
      RootsCons(t, ts);
    } else {
      var rest := Insert(leq, t, ts[1..]);
      InsertRoots(leq, t, ts[1..]);
      RootsCons(ts[0], rest);
      RootsCons(ts[0], ts[1..]);
      assert ts == [ts[0]] + ts[1..];
    }
  }


  lemma {:induction false} InsertBytes(leq: (Node, Node) -> bool, t: Tree, ts: seq<Tree>)
    ensures SumBytes(Insert(leq, t, ts)) == SumBytes(ts) + t.node.Bytes()
  {
    var r := Insert(leq, t, ts);
    if ts == [] || leq(t.node, ts[0].node) {
      assert r[1..] == ts;
    } else {
      InsertBytes(leq, t, ts[1..]);
      assert r[1..] == Insert(leq, t, ts[1..]);
    }
  }

  lemma {:induction false} InsertSorted(leq: (Node, Node) -> bool, t: Tree, ts: seq<Tree>)
    requires Total(leq)
    requires Sorted(leq, ts)
    ensures Sorted(leq, Insert(leq, t, ts))
    ensures Insert(leq, t, ts)[0] == t || (ts != [] && Insert(leq, t, ts)[0] == ts[0])
  {
    if ts == [] || leq(t.node, ts[0].node) {
    } else {
      assert leq(ts[0].node, t.node);
      InsertSorted(leq, t, ts[1..]);
    }
  }

  /** The sorted children are in comparator order. */
  lemma {:induction false} SortTreesSorted(leq: (Node, Node) -> bool, ts: seq<Tree>)
    requires Total(leq)
    ensures Sorted(leq, SortTrees(leq, ts))
  {
    if ts != [] {
      SortTreesSorted(leq, ts[1..]);
      InsertSorted(leq, ts[0], SortTrees(leq, ts[1..]));
    }
  }

  /** The sorted children are the children, rearranged. */
  lemma {:induction false} SortTreesPermutes(leq: (Node, Node) -> bool, ts: seq<Tree>)
    ensures multiset(SortTrees(leq, ts)) == multiset(ts)
  {
    if ts != [] {
      SortTreesPermutes(leq, ts[1..]);
      InsertPermutes(leq, ts[0], SortTrees(leq, ts[1..]));
      assert ts == [ts[0]] + ts[1..];
    }
  }

  lemma {:induction false} SortTreesRoots(leq: (Node, Node) -> bool, ts: seq<Tree>)
    ensures multiset(Roots(SortTrees(leq, ts))) == multiset(Roots(ts))
  {
    if ts != [] {
      SortTreesRoots(leq, ts[1..]);
      InsertRoots(leq, ts[0], SortTrees(leq, ts[1..]));
      assert Roots(ts) == [ts[0].id] + Roots(ts[1..]);
    }
  }

  lemma {:induction false} SortTreesBytes(leq: (Node, Node) -> bool, ts: seq<Tree>)
    ensures SumBytes(SortTrees(leq, ts)) == SumBytes(ts)
  {
    if ts != [] {
      SortTreesBytes(leq, ts[1..]);
      InsertBytes(leq, ts[0], SortTrees(leq, ts[1..]));
    }
  }

  // ---------------------------------------------------------------------------
  // The fold

  /** Whether a child adds its bytes, and the inode set after it: a hard link whose
      inode was already counted adds nothing. */
  function Dedup(inodes: set<Inode>, n: Node): (r: (bool, set<Inode>))
    ensures !r.0 <==> n.IsHardLink() && n.inode.value in inodes
    ensures n.IsHardLink() ==> r.1 == inodes + {n.inode.value}
    ensures !n.IsHardLink() ==> r.1 == inodes
  {
    if n.IsHardLink() then
      if n.inode.value in inodes then (false, inodes) else (true, inodes + {n.inode.value})
    else (true, inodes)
  }

  /** Every pending child id is a node of the arena. */
  ghost predicate ListsIn(arena: seq<Node>, branches: map<Path, seq<NodeId>>) {
    forall p, j :: p in branches && 0 <= j < |branches[p]| ==> branches[p][j] < |arena|
  }

  /** `b` is a state the fold can reach from `a`: branch lists are only taken, counted
      inodes only added, widths only widened (and the long-listing widths left alone
      when `long` is off). */
  ghost predicate Advances(ctx: Context, a: FoldState, b: FoldState) {
    && b.branches.Keys <= a.branches.Keys
    && (forall p :: p in b.branches ==> b.branches[p] == a.branches[p])
    && |b.branches| <= |a.branches|
    && a.inodes <= b.inodes
    && ColsLe(a.cols, b.cols)
    && (!ctx.long ==> SameLongWidths(a.cols, b.cols))
  }

  lemma AdvancesTransitive(ctx: Context, a: FoldState, b: FoldState, c: FoldState)
    requires Advances(ctx, a, b) && Advances(ctx, b, c)
    ensures Advances(ctx, a, c)
  {
  }

  lemma ListsKept(arena: seq<Node>, a: FoldState, b: FoldState)
    requires ListsIn(arena, a.branches)
    requires b.branches.Keys <= a.branches.Keys
    requires forall p :: p in b.branches ==> b.branches[p] == a.branches[p]
    ensures ListsIn(arena, b.branches)
  {
    forall p, j | p in b.branches && 0 <= j < |b.branches[p]|
      ensures b.branches[p][j] < |arena|
    {
      assert b.branches[p] == a.branches[p];
    }
  }

  /** The directory node once its children's total is known: the size is set only when
      the total is positive. */
  function WithTotal(ctx: Context, dir: Node, total: nat): Node {
    dir.(size := if total > 0 then Some(FileSize(total, ctx.sizeColumns(total))) else dir.size)
  }

  /** `assemble_tree` for directory `id`: take its branch list, fold the children,
      set its size from their total, widen the columns for it, and sort the children. */
  function Assemble(ctx: Context, arena: seq<Node>, st: FoldState, id: NodeId): (r: Result<Folded>)
    requires ListsIn(arena, st.branches)
    requires id < |arena|
    ensures arena[id].path !in st.branches ==> r == Err(MissingBranchList)
    ensures r.Err? ==> r.error == MissingBranchList
    ensures r.Ok? ==>
      && arena[id].path in st.branches
      // the directory's branch list is taken, so it is folded at most once
      && arena[id].path !in r.value.state.branches
      && |r.value.state.branches| < |st.branches|
      && Advances(ctx, st, r.value.state)
      // the directory keeps its data, with its size set to the total when that is positive
      && r.value.tree.id == id
      && r.value.tree.node == WithTotal(ctx, arena[id], r.value.total)
    decreases |st.branches|, 0, 0
  {
    var node := arena[id];
    if node.path !in st.branches then Err(MissingBranchList)
    else
      var st0 := st.(branches := st.branches - {node.path});
      assert st0.branches.Keys == st.branches.Keys - {node.path};
      ListsKept(arena, st, st0);
      match FoldKids(ctx, arena, st0, st.branches[node.path])
      case Err(e) => Err(e)
      case Ok(k) =>
        var dir := WithTotal(ctx, node, k.total);
        var cols := UpdateColumns(ctx, k.state.cols, dir);
        Ok(Folded(k.state.(cols := cols), Tree(id, dir, SortTrees(ctx.leq, k.trees)), k.total))
  }

  /** The first child of a list, folded if it is a directory and a leaf otherwise. */
  function FoldHead(ctx: Context, arena: seq<Node>, st: FoldState, c: NodeId): (r: Result<Folded>)
    requires ListsIn(arena, st.branches)
    requires c < |arena|
    ensures r.Ok? ==> Advances(ctx, st, r.value.state) && r.value.tree.id == c
    ensures r.Ok? ==> r.value.tree.node == arena[c].(size := r.value.tree.node.size)
    ensures arena[c].IsDir() ==> r == Assemble(ctx, arena, st, c)
    ensures !arena[c].IsDir() ==> r == Ok(Folded(st, Tree(c, arena[c], []), 0))
    ensures r.Err? ==> r.error == MissingBranchList
    decreases |st.branches|, 1, 0
  {
    if arena[c].IsDir() then Assemble(ctx, arena, st, c) else Ok(Folded(st, Tree(c, arena[c], []), 0))
  }

  /** The state once a folded child has widened the columns and been checked for a duplicate hard link. */
  function AfterHead(ctx: Context, h: Folded): (st1: FoldState)
    ensures Advances(ctx, h.state, st1)
    // the columns are wide enough for the child, and a hard link's inode is now recorded
    ensures Fits(ctx, st1.cols, h.tree.node)
    ensures h.tree.node.IsHardLink() ==> h.tree.node.inode.value in st1.inodes
    ensures !h.tree.node.IsHardLink() ==> st1.inodes == h.state.inodes
  {
    FoldState(h.state.branches, Dedup(h.state.inodes, h.tree.node).1, UpdateColumns(ctx, h.state.cols, h.tree.node))
  }

  /** A folded first child in front of the folded rest of the list: it is counted unless
      it is a hard link whose inode was already recorded when it was reached. */
  function Cons(h: Folded, rest: FoldedKids): (k: FoldedKids)
    ensures k.trees == [h.tree] + rest.trees && k.trees[1..] == rest.trees
    ensures |k.counted| == |rest.counted| + 1 && k.counted[1..] == rest.counted
  {
    var counted := Dedup(h.state.inodes, h.tree.node).0;
    FoldedKids(rest.state, [h.tree] + rest.trees, [counted] + rest.counted,
               (if counted then h.tree.node.Bytes() else 0) + rest.total)
  }

  /** `trees` are the folded `kids`, in order: each has the child's id and the child's
      data, with only its size possibly set. */
  ghost predicate Matches(arena: seq<Node>, kids: seq<NodeId>, trees: seq<Tree>)
    requires forall j :: 0 <= j < |kids| ==> kids[j] < |arena|
  {
    && |trees| == |kids|
    && Roots(trees) == kids
    && forall i :: 0 <= i < |kids| ==> trees[i].node == arena[kids[i]].(size := trees[i].node.size)
  }

  lemma ConsMatches(arena: seq<Node>, kids: seq<NodeId>, h: Folded, rest: FoldedKids)
    requires forall j :: 0 <= j < |kids| ==> kids[j] < |arena|
    requires kids != []
    requires h.tree.id == kids[0] && h.tree.node == arena[kids[0]].(size := h.tree.node.size)
    requires |rest.counted| == |kids| - 1 && Matches(arena, kids[1..], rest.trees)
    ensures |Cons(h, rest).counted| == |kids| && Matches(arena, kids, Cons(h, rest).trees)
  {
    var k := Cons(h, rest);
    assert kids == [kids[0]] + kids[1..];
    forall i | 1 <= i < |kids|
      ensures k.trees[i].node == arena[kids[i]].(size := k.trees[i].node.size)
    {
      assert k.trees[i] == rest.trees[i - 1] && kids[i] == kids[1..][i - 1];
    }
  }

  /** The loop over a directory's branch list, in branch-list order: each child directory
      is folded first, then the child widens the columns and, unless it is a hard link
      already counted, adds its bytes. */
  function FoldKids(ctx: Context, arena: seq<Node>, st: FoldState, kids: seq<NodeId>): (r: Result<FoldedKids>)
    requires ListsIn(arena, st.branches)
    requires forall j :: 0 <= j < |kids| ==> kids[j] < |arena|
    ensures r.Err? ==> r.error == MissingBranchList
    ensures r.Ok? ==>
      && |r.value.counted| == |kids|
      && Matches(arena, kids, r.value.trees)
      && Advances(ctx, st, r.value.state)
    decreases |st.branches|, 1, |kids|
  {
    if kids == [] then Ok(FoldedKids(st, [], [], 0))
    else
      match FoldHead(ctx, arena, st, kids[0])
      case Err(e) => Err(e)
      case Ok(h) =>
        var st1 := AfterHead(ctx, h);
        AdvancesTransitive(ctx, st, h.state, st1);
        ListsKept(arena, st, st1);
        match FoldKids(ctx, arena, st1, kids[1..])
        case Err(e) => Err(e)
        case Ok(rest) =>
          AdvancesTransitive(ctx, st, st1, rest.state);
          ConsMatches(arena, kids, h, rest);
          Ok(Cons(h, rest))
  }

  /** One turn of the loop over a non-empty branch list that succeeded. */
  lemma FoldKidsCons(ctx: Context, arena: seq<Node>, st: FoldState, kids: seq<NodeId>)
    requires ListsIn(arena, st.branches)
    requires forall j :: 0 <= j < |kids| ==> kids[j] < |arena|
    requires kids != [] && FoldKids(ctx, arena, st, kids).Ok?
    ensures FoldHead(ctx, arena, st, kids[0]).Ok?
    ensures
      var h := FoldHead(ctx, arena, st, kids[0]).value;
      var st1 := AfterHead(ctx, h);
      && Advances(ctx, st, st1)
      && ListsIn(arena, st1.branches)
      && FoldKids(ctx, arena, st1, kids[1..]).Ok?
      && FoldKids(ctx, arena, st, kids).value == Cons(h, FoldKids(ctx, arena, st1, kids[1..]).value)
  {
    var h := FoldHead(ctx, arena, st, kids[0]).value;
    AdvancesTransitive(ctx, st, h.state, AfterHead(ctx, h));
    ListsKept(arena, st, AfterHead(ctx, h));
  }

  /** Sorting keeps every child and its subtree, so what held of each still holds. */
  lemma ChildrenCarry(ctx: Context, a: Columns, b: Columns, ts: seq<Tree>, sorted: seq<Tree>)
    requires ColsLe(a, b)
    requires multiset(sorted) == multiset(ts)
    requires forall i :: 0 <= i < |ts| ==> Covered(ctx, a, ts[i]) && WellKinded(ts[i])
    ensures forall i :: 0 <= i < |sorted| ==> Covered(ctx, b, sorted[i]) && WellKinded(sorted[i])
  {
    forall i | 0 <= i < |sorted|
      ensures Covered(ctx, b, sorted[i]) && WellKinded(sorted[i])
    {
      assert sorted[i] in multiset(ts);
      var j :| 0 <= j < |ts| && ts[j] == sorted[i];
      CoveredWider(ctx, a, b, ts[j]);
    }
  }
}
