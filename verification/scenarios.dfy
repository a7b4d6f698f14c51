/** Small worked instances of tree construction. */
module Scenarios {
  import opened Entries
  import opened Ingest
  import opened Assembly
  import opened PostPass
  import opened TreeBuild

  function Dir(path: Path, parent: Option<Path>, depth: nat): Node {
    Node(path, parent, depth, Directory, None, None, None)
  }

  function FileOf(path: Path, parent: Path, bytes: nat, inode: Option<Inode>): Node {
    Node(path, Some(parent), 1, File, Some(FileSize(bytes, 4)), inode, None)
  }

  function EarlyRoot(): Node { Dir("r", None, 0) }
  function EarlyFile(): Node { Node("r/d/f", Some("r/d"), 2, File, Some(FileSize(10, 2)), None, None) }
  function EarlyDir(): Node { Dir("r/d", Some("r"), 1) }

  /** The root, then a file of `r/d`, then `r/d` itself. */
  function EarlyEvents(): seq<Event> {
    [Ongoing(EarlyRoot()), Ongoing(EarlyFile()), Ongoing(EarlyDir()), Done]
  }

  function EarlyState(n: nat): Ingested
    requires n <= 3
  {
    if n == 0 then Start
    else if n == 1 then Ingested([EarlyRoot()], map["r" := []], Some(0))
    else if n == 2 then Ingested([EarlyRoot(), EarlyFile()], map["r" := [], "r/d" := []], Some(0))
    else Ingested([EarlyRoot(), EarlyFile(), EarlyDir()], map["r" := [2], "r/d" := []], Some(0))
  }

  lemma EarlyStep1()
    ensures Step(EarlyState(0), EarlyRoot()) == Ok(EarlyState(1))
  {
    assert [] + [EarlyRoot()] == [EarlyRoot()];
    assert Start.branches["r" := []] == EarlyState(1).branches;
  }

  lemma EarlyStep2()
    ensures Step(EarlyState(1), EarlyFile()) == Ok(EarlyState(2))
  {
    assert [EarlyRoot()] + [EarlyFile()] == [EarlyRoot(), EarlyFile()];
    var b := EarlyState(1).branches;
    assert "r/d" !in b;
    assert b["r/d" := []] == EarlyState(2).branches;
  }

  lemma EarlyStep3()
    ensures Step(EarlyState(2), EarlyDir()) == Ok(EarlyState(3))
  {
    var s2 := EarlyState(2);
    assert s2.arena + [EarlyDir()] == [EarlyRoot(), EarlyFile(), EarlyDir()];
    assert "r/d" in s2.branches && "r" in s2.branches;
    assert s2.branches["r"] + [2] == [2];
    assert s2.branches["r" := [2]] == map["r" := [2], "r/d" := []];
  }

  /** An entry that arrives before its parent directory is not recorded under it: the
      parent's list is created empty, and the directory itself, arriving later, keeps
      that empty list. */
  lemma EarlyChildIsLost()
    ensures IngestAll(EarlyEvents()) == Ok(EarlyState(3))
    ensures EarlyState(3).arena == Received(EarlyEvents())
  {
    var events := EarlyEvents();
    EarlyStep1();
    EarlyStep2();
    EarlyStep3();
    assert Run(EarlyState(3), [Done]) == Ok(EarlyState(3));
    assert Run(EarlyState(2), events[2..]) == Ok(EarlyState(3)) by {
      assert events[2..][1..] == [Done];
    }
    assert Run(EarlyState(1), events[1..]) == Ok(EarlyState(3)) by {
      assert events[1..][1..] == events[2..];
    }
  }

  /** Assembled from those lists, the root has one child: the directory, left empty. */
  lemma EarlyInner(ctx: Context, cols0: Columns)
    ensures
      var arena := EarlyState(3).arena;
      var st0 := FoldState(map["r/d" := []], {}, cols0);
      && Assemble(ctx, arena, st0, 2).Ok?
      && EmptyDir(Assemble(ctx, arena, st0, 2).value.tree)
  {
    var arena := EarlyState(3).arena;
    var st0 := FoldState(map["r/d" := []], {}, cols0);
    assert arena[2].path == "r/d";
    assert st0.branches - {"r/d"} == map[];
  }

  lemma EarlyAssembly(ctx: Context, cols0: Columns)
    ensures
      var s := EarlyState(3);
      var st := FoldState(s.branches, {}, cols0);
      && Assemble(ctx, s.arena, st, 0).Ok?
      && |Assemble(ctx, s.arena, st, 0).value.tree.children| == 1
      && EmptyDir(Assemble(ctx, s.arena, st, 0).value.tree.children[0])
  {
    var s := EarlyState(3);
    var st := FoldState(s.branches, {}, cols0);
    var st0 := FoldState(map["r/d" := []], {}, cols0);
    assert s.arena[0].path == "r";
    assert st.branches - {"r"} == st0.branches;
    EarlyInner(ctx, cols0);
    var inner := Assemble(ctx, s.arena, st0, 2).value;
    assert FoldHead(ctx, s.arena, st0, 2) == Ok(inner);
    var st1 := AfterHead(ctx, inner);
    assert [2][1..] == [];
    assert FoldKids(ctx, s.arena, st1, []) == Ok(FoldedKids(st1, [], [], 0));
    var k := Cons(inner, FoldedKids(st1, [], [], 0));
    assert FoldKids(ctx, s.arena, st0, [2]) == Ok(k);
    assert k.trees == [inner.tree];
    assert SortTrees(ctx.leq, [inner.tree]) == [inner.tree] by {
      assert [inner.tree][1..] == [];
    }
  }


  /** With pruning on, the same walk ends in `NoMatches` although a file was received:
      the directory holding it is assembled empty and pruned away. */
  lemma EarlyChildEndsInNoMatches(ctx: Context, cols0: Columns)
    requires Prunes(ctx) && !ctx.dirsOnly
    ensures TryInit(ctx, cols0, EarlyEvents()) == Err(NoMatches)
  {
    EarlyChildIsLost();
    EarlyAssembly(ctx, cols0);
    var s := IngestAll(EarlyEvents()).value;
    var f := Assemble(ctx, s.arena, FoldState(s.branches, {}, cols0), 0).value;
    var t := f.tree;
    assert PassAll(t.children) == [] by {
      assert t.children[1..] == [];
    }
    assert Prune(t) == Pass(t);
    var tr := Traverse(ctx, cols0, EarlyEvents());
    assert tr == Ok(Built(s.arena, Prune(t), f.state.cols));
  }

  /** Two hard links to one 1000-byte file under one directory add 1000 bytes, not 2000. */
  lemma HardLinksCountOnce(ctx: Context)
    ensures
      var ino := Some(Inode(1, 7, 2));
      var arena := [Dir("r", None, 0), FileOf("r/a", "r", 1000, ino), FileOf("r/b", "r", 1000, ino)];
      var st := FoldState(map["r" := [1, 2]], {}, Columns(0, 0, 0, 0));
      var f := Assemble(ctx, arena, st, 0);
      && f.Ok?
      && f.value.total == 1000
      && f.value.tree.node.size == Some(FileSize(1000, ctx.sizeColumns(1000)))
      && |f.value.tree.children| == 2
  {
    var ino := Some(Inode(1, 7, 2));
    var arena := [Dir("r", None, 0), FileOf("r/a", "r", 1000, ino), FileOf("r/b", "r", 1000, ino)];
    var st := FoldState(map["r" := [1, 2]], {}, Columns(0, 0, 0, 0));
    var st0 := st.(branches := map[]);
    assert st.branches - {"r"} == map[];
    var k := FoldKids(ctx, arena, st0, [1, 2]);
    var h1 := FoldHead(ctx, arena, st0, 1).value;
    assert h1 == Folded(st0, Tree(1, arena[1], []), 0);
    var st1 := AfterHead(ctx, h1);
    assert st1.inodes == {Inode(1, 7, 2)};
    var h2 := FoldHead(ctx, arena, st1, 2).value;
    assert h2 == Folded(st1, Tree(2, arena[2], []), 0);
    var st2 := AfterHead(ctx, h2);
    var rest := FoldKids(ctx, arena, st1, [2]);
    assert [1, 2][1..] == [2] && [2][1..] == [];
    assert FoldKids(ctx, arena, st2, []) == Ok(FoldedKids(st2, [], [], 0));
    assert rest.Ok? && rest.value.total == 0;
    assert k.Ok? && k.value.total == 1000;
  }

  /** A directory holding one empty directory and one file loses the empty directory to
      pruning, and the file stays. */
  lemma PruneDropsEmptyDir()
    ensures
      var file := Tree(2, FileOf("r/f", "r", 500, None), []);
      var empty := Tree(1, Dir("r/e", Some("r"), 1), []);
      var t := Tree(0, Dir("r", None, 0), [empty, file]);
      Prune(t) == Tree(0, Dir("r", None, 0), [file])
  {
    var file := Tree(2, FileOf("r/f", "r", 500, None), []);
    var empty := Tree(1, Dir("r/e", Some("r"), 1), []);
    var t := Tree(0, Dir("r", None, 0), [empty, file]);
    assert [empty, file][1..] == [file] && [file][1..] == [];
    assert AnyEmptyDir(t.children);
    assert PassAll([file]) == [file];
    assert Pass(t) == Tree(0, t.node, [file]);
    assert !AnyEmptyDir([file]);
  }
}
