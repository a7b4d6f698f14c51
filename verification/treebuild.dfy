/** Tree construction end to end (src/render/tree/mod.rs:73-101, 124-197, 328-336):
    receive the entries, assemble from the root, prune and filter as configured, and
    refuse a tree with nothing but its root. */
module TreeBuild {
  import opened Entries
  import Ingest
  import opened Assembly
  import opened PostPass
  import AssemblyFacts

  /** What construction hands to the renderer: the arena, the tree hanging from the root,
      and the final column widths. */
  datatype Built = Built(arena: seq<Node>, tree: Tree, cols: Columns)

  /** `is_stump`: the root's descendants, the root itself skipped, are none. */
  function IsStump(t: Tree): (b: bool)
    ensures b <==> t.children == []
  {
    var ids := Descendants(t);
    assert t.children != [] ==> SizeAll(t.children) >= Size(t.children[0]);
    ids[1..] == []
  }

  /** Every list the ingest loop recorded holds arena ids only. */
  lemma ValidListsIn(s: Ingest.Ingested)
    requires Ingest.Valid(s)
    ensures ListsIn(s.arena, s.branches)
  {
  }

  /** Whether the tree is pruned: with `--prune`, or whenever the walk is not limited to
      directories. */
  predicate Prunes(ctx: Context) {
    ctx.prune || !ctx.dirWalk
  }

  /** The thread of `traverse` that consumes the walk: ingest, assemble from the root,
      prune and filter. */
  function Traverse(ctx: Context, cols0: Columns, events: seq<Ingest.Event>): (r: Result<Built>)
    ensures Ingest.IngestAll(events).Err? ==> r == Err(ExpectedParent)
    ensures Ingest.IngestAll(events).Ok? && Ingest.IngestAll(events).value.root.None? ==> r == Err(MissingRoot)
    // past the root check, the only failure is a branch list already taken
    ensures r.Err? ==> r.error in {ExpectedParent, MissingRoot, MissingBranchList}
    ensures r.Ok? ==>
      var s := Ingest.IngestAll(events).value;
      && s.root.Some?
      && r.value.arena == s.arena == Ingest.Received(events)
      && r.value.tree.id == s.root.value
      && r.value.tree.node.path == s.arena[s.root.value].path
      && r.value.tree.node.IsRoot()
    ensures r.Ok? ==> ColsLe(cols0, r.value.cols) && (!ctx.long ==> SameLongWidths(cols0, r.value.cols))
    ensures r.Ok? && ctx.dirsOnly ==> AllDirs(r.value.tree.children)
    ensures r.Ok? && Prunes(ctx) && !ctx.dirsOnly ==> !AnyEmptyDir(r.value.tree.children)
  {
    match Ingest.IngestAll(events)
    case Err(e) => Err(e)
    case Ok(s) =>
      if s.root.None? then
        Err(MissingRoot)
      else
        ValidListsIn(s);
        var root := s.root.value;
        match Assemble(ctx, s.arena, FoldState(s.branches, {}, cols0), root)
        case Err(e) => Err(e)
        case Ok(f) =>
          var pruned := if Prunes(ctx) then Prune(f.tree) else f.tree;
          var shown := if ctx.dirsOnly then FilterDirs(pruned) else pruned;
          Ok(Built(s.arena, shown, f.state.cols))
  }

  /** `try_init`: construction fails with `NoMatches` when nothing but the root is left. */
  function TryInit(ctx: Context, cols0: Columns, events: seq<Ingest.Event>): (r: Result<Built>)
    ensures r.Ok? <==> Traverse(ctx, cols0, events).Ok? && !IsStump(Traverse(ctx, cols0, events).value.tree)
    ensures r.Ok? ==> r.value == Traverse(ctx, cols0, events).value && r.value.tree.children != []
    ensures r.Err? && r.error == NoMatches <==> Traverse(ctx, cols0, events).Ok? && Traverse(ctx, cols0, events).value.tree.children == []
    ensures Traverse(ctx, cols0, events).Err? ==> r == Traverse(ctx, cols0, events)
  {
    match Traverse(ctx, cols0, events)
    case Err(e) => Err(e)
    case Ok(b) => if IsStump(b.tree) then Err(NoMatches) else Ok(b)
  }

  // ---------------------------------------------------------------------------
  // Column widths survive pruning and filtering

  lemma {:induction false} PassCovered(ctx: Context, c: Columns, t: Tree)
    requires Covered(ctx, c, t)
    ensures Covered(ctx, c, Pass(t))
    decreases t, 0
  {
    PassAllCovered(ctx, c, t.children);
  }

  lemma {:induction false} PassAllCovered(ctx: Context, c: Columns, ts: seq<Tree>)
    requires forall i :: 0 <= i < |ts| ==> Covered(ctx, c, ts[i])
    ensures forall i :: 0 <= i < |PassAll(ts)| ==> Covered(ctx, c, PassAll(ts)[i])
    decreases ts, 1
  {
    if ts != [] {
      assert forall i :: 0 <= i < |ts[1..]| ==> ts[1..][i] == ts[i + 1];
      PassAllCovered(ctx, c, ts[1..]);
      var rest := PassAll(ts[1..]);
      if !EmptyDir(ts[0]) {
        PassCovered(ctx, c, ts[0]);
        var p := [Pass(ts[0])] + rest;
        assert PassAll(ts) == p;
        assert forall i :: 1 <= i < |p| ==> p[i] == rest[i - 1];
      }
    }
  }

  lemma {:induction false} PruneCovered(ctx: Context, c: Columns, t: Tree)
    requires Covered(ctx, c, t)
    ensures Covered(ctx, c, Prune(t))
    decreases Size(t)
  {
    if AnyEmptyDir(t.children) {
      PassShrinks(t);
      PassCovered(ctx, c, t);
      PruneCovered(ctx, c, Pass(t));
    }
  }

  lemma {:induction false} FilterCovered(ctx: Context, c: Columns, t: Tree)
    requires Covered(ctx, c, t)
    ensures Covered(ctx, c, FilterDirs(t))
    decreases t, 0
  {
    FilterAllCovered(ctx, c, t.children);
  }

  lemma {:induction false} FilterAllCovered(ctx: Context, c: Columns, ts: seq<Tree>)
    requires forall i :: 0 <= i < |ts| ==> Covered(ctx, c, ts[i])
    ensures forall i :: 0 <= i < |FilterAll(ts)| ==> Covered(ctx, c, FilterAll(ts)[i])
    decreases ts, 1
  {
    if ts != [] {
      assert forall i :: 0 <= i < |ts[1..]| ==> ts[1..][i] == ts[i + 1];
      FilterAllCovered(ctx, c, ts[1..]);
      var rest := FilterAll(ts[1..]);
      if ts[0].node.IsDir() {
        FilterCovered(ctx, c, ts[0]);
        var p := [FilterDirs(ts[0])] + rest;
        assert FilterAll(ts) == p;
        assert forall i :: 1 <= i < |p| ==> p[i] == rest[i - 1];
      }
    }
  }

  /** Every node of the finished tree fits the final column widths. */
  lemma TraverseCovered(ctx: Context, cols0: Columns, events: seq<Ingest.Event>)
    requires Traverse(ctx, cols0, events).Ok?
    ensures Covered(ctx, Traverse(ctx, cols0, events).value.cols, Traverse(ctx, cols0, events).value.tree)
  {
    var s := Ingest.IngestAll(events).value;
    ValidListsIn(s);
    var st := FoldState(s.branches, {}, cols0);
    var f := Assemble(ctx, s.arena, st, s.root.value).value;
    AssemblyFacts.AssembleShape(ctx, s.arena, st, s.root.value);
    var pruned := if Prunes(ctx) then Prune(f.tree) else f.tree;
    if Prunes(ctx) {
      PruneCovered(ctx, f.state.cols, f.tree);
    }
    if ctx.dirsOnly {
      FilterCovered(ctx, f.state.cols, pruned);
    }
  }

  // ---------------------------------------------------------------------------
  // File counts

  /** Per-kind tally of a directory's entries. */
  datatype FileCount = FileCount(dirs: nat, files: nat, links: nat)

  /** `FileCount::update`: one more entry of the node's kind. */
  function Tally(c: FileCount, n: Node): FileCount {
    match n.kind
    case Directory => c.(dirs := c.dirs + 1)
    case File => c.(files := c.files + 1)
    case Symlink => c.(links := c.links + 1)
  }

  /** How many of the roots of `ts` are of kind `k`. */
  function KindCount(ts: seq<Tree>, k: Kind): nat {
    if ts == [] then 0 else (if ts[0].node.kind == k then 1 else 0) + KindCount(ts[1..], k)
  }

  lemma KindCountSplit(ts: seq<Tree>, n: nat, k: Kind)
    requires n < |ts|
    ensures KindCount(ts[..n + 1], k) == KindCount(ts[..n], k) + (if ts[n].node.kind == k then 1 else 0)
    decreases n
  {
    if n > 0 {
      assert ts[..n + 1][1..] == ts[1..][..n];
      assert ts[..n][1..] == ts[1..][..n - 1];
      KindCountSplit(ts[1..], n - 1, k);
    }
  }

  lemma KindCountTotal(ts: seq<Tree>)
    ensures KindCount(ts, Directory) + KindCount(ts, File) + KindCount(ts, Symlink) == |ts|
  {
  }

  /** `compute_file_count`: tally the immediate children of `t`, one by one. */
  method ComputeFileCount(t: Tree) returns (c: FileCount)
    ensures c.dirs == KindCount(t.children, Directory)
    ensures c.files == KindCount(t.children, File)
    ensures c.links == KindCount(t.children, Symlink)
    ensures c.dirs + c.files + c.links == |t.children|
  {
    c := FileCount(0, 0, 0);
    var i := 0;
    while i < |t.children|
      invariant i <= |t.children|
      invariant c.dirs == KindCount(t.children[..i], Directory)
      invariant c.files == KindCount(t.children[..i], File)
      invariant c.links == KindCount(t.children[..i], Symlink)
    {
      KindCountSplit(t.children, i, Directory);
      KindCountSplit(t.children, i, File);
      KindCountSplit(t.children, i, Symlink);
      c := Tally(c, t.children[i].node);
      i := i + 1;
    }
    assert t.children[..i] == t.children;
    KindCountTotal(t.children);
  }

  /** The count looks at the kinds of the immediate children only: what lies below them
      does not change it. */
  lemma {:induction false} KindCountShallow(ts: seq<Tree>, us: seq<Tree>, k: Kind)
    requires |ts| == |us|
    requires forall i :: 0 <= i < |ts| ==> ts[i].node.kind == us[i].node.kind
    ensures KindCount(ts, k) == KindCount(us, k)
  {
    if ts != [] {
      assert forall i :: 0 <= i < |ts[1..]| ==> ts[1..][i] == ts[i + 1] && us[1..][i] == us[i + 1];
      KindCountShallow(ts[1..], us[1..], k);
    }
  }
}
