/** Entries discovered by the filesystem walk, the assembled tree they end up in,
    and the outcomes of building it (src/render/tree/mod.rs). */
module Entries {

  type Path = string

  /** Handle of a node in the arena: its position in the order entries were received. */
  type NodeId = nat

  datatype Option<T> = None | Some(value: T)

  /** Failures of tree construction. `MissingBranchList` stands for the panic of
      `branches.remove(..).unwrap()` when a directory's branch list is already gone. */
  datatype Error = ExpectedParent | MissingRoot | NoMatches | MissingBranchList

  datatype Result<T> = Ok(value: T) | Err(error: Error)

  datatype Kind = Directory | File | Symlink

  /** Device, inode number and hard-link count of an entry. */
  datatype Inode = Inode(dev: nat, ino: nat, nlink: nat)

  /** A byte count together with the width of its unit-scaled rendering. */
  datatype FileSize = FileSize(bytes: nat, columns: nat)

  datatype Node = Node(
    path: Path,
    parent: Option<Path>,
    depth: nat,
    kind: Kind,
    size: Option<FileSize>,
    inode: Option<Inode>,
    blocks: Option<nat>)
  {
    predicate IsDir() { kind == Directory }

    /** The walk's root: a directory at depth 0. */
    predicate IsRoot() { IsDir() && depth == 0 }

    /** Bytes this node adds to its parent's total when counted. */
    function Bytes(): nat { if size.Some? then size.value.bytes else 0 }

    /** One of several directory entries sharing one inode. */
    predicate IsHardLink() { inode.Some? && inode.value.nlink > 1 }
  }

  /** The running maximum display widths of the size, inode, link-count and block columns. */
  datatype Columns = Columns(size: nat, ino: nat, nlink: nat, blocks: nat)

  /** What the core consumes from the program's configuration. `leq(a, b)` stands for the
      node comparator not answering `Greater`; `sizeColumns` for the width computed by
      `precompute_unpadded_display`; `digits` for `utils::num_integral`. `dirWalk` is
      `file_type == Some(Dir)`. */
  datatype Context = Context(
    long: bool,
    prune: bool,
    dirsOnly: bool,
    dirWalk: bool,
    leq: (Node, Node) -> bool,
    sizeColumns: nat -> nat,
    digits: nat -> nat)

  /** The comparator orders every pair of nodes one way or the other. */
  ghost predicate Total(leq: (Node, Node) -> bool) {
    forall a, b :: leq(a, b) || leq(b, a)
  }

  /** The arena as seen from one node: the node's data and its children in order. */
  datatype Tree = Tree(id: NodeId, node: Node, children: seq<Tree>)

  /** Number of nodes reachable from `t`, `t` included. */
  function Size(t: Tree): (n: nat)
    ensures n >= 1
    decreases t
  {
    1 + SizeAll(t.children)
  }

  function SizeAll(ts: seq<Tree>): nat
    decreases ts
  {
    if ts == [] then 0 else Size(ts[0]) + SizeAll(ts[1..])
  }

  /** The ids `descendants` yields: `t` first, then its subtrees in pre-order. */
  function Descendants(t: Tree): (ids: seq<NodeId>)
    ensures |ids| == Size(t) && ids[0] == t.id
    decreases t
  {
    [t.id] + DescendantsAll(t.children)
  }

  function DescendantsAll(ts: seq<Tree>): (ids: seq<NodeId>)
    ensures |ids| == SizeAll(ts)
    decreases ts
  {
    if ts == [] then [] else Descendants(ts[0]) + DescendantsAll(ts[1..])
  }

  /** The ids of the roots of `ts`, in order. */
  function Roots(ts: seq<Tree>): (ids: seq<NodeId>)
    ensures |ids| == |ts|
    ensures forall i :: 0 <= i < |ts| ==> ids[i] == ts[i].id
  {
    if ts == [] then [] else [ts[0].id] + Roots(ts[1..])
  }

  lemma RootsCons(t: Tree, ts: seq<Tree>)
    ensures Roots([t] + ts) == [t.id] + Roots(ts)
  {
    assert ([t] + ts)[1..] == ts;
  }

  /** Sum of the byte counts of the nodes at the roots of `ts`. */
  function SumBytes(ts: seq<Tree>): nat {
    if ts == [] then 0 else ts[0].node.Bytes() + SumBytes(ts[1..])
  }

  /** Only directories have children. */
  predicate WellKinded(t: Tree)
    decreases t
  {
    && (!t.node.IsDir() ==> t.children == [])
    && forall i :: 0 <= i < |t.children| ==> WellKinded(t.children[i])
  }
}
