# erdtree tree construction, modelled in Dafny

erdtree shows a directory tree together with disk usage. Tree construction has several stages:

- **The walk.** Several walker threads discover entries. They send them over a channel to a single consumer thread.
- **Ingestion.** The consumer stores each entry in an arena. Ids are the positions of entries in arrival order. It also records each entry in the *branch list* of its parent directory's path. The depth-0 directory becomes the root.
- **Assembly.** `assemble_tree` then folds the branch lists into the tree, depth first:
  - every child directory is assembled before its parent;
  - each child widens the running column widths (size, inode, link count, blocks);
  - each child adds its bytes to the parent's total, unless it is a hard link whose inode was already counted anywhere in the assembly;
  - the directory's size becomes the total when the total is positive;
  - the children are sorted with the configured comparator.
- **Pruning and filtering.**
  - Empty directories are pruned repeatedly, with `--prune` or whenever the walk is not restricted to directories.
  - With `--dirs-only`, every non-directory below the root is detached.
- **The stump check.** `try_init` refuses a tree that is left with nothing but its root (`NoMatches`).

A small leaf module chooses the unit prefix for a byte count on the binary scale (B, KiB … TiB) or the SI scale (B, KB … TB). The binary scale is the default (`Units.DefaultKind`).

The files:

| file | module | what |
|---|---|---|
| `entries.dfy` | `Entries` | nodes, inodes, the context, the error kinds, and the tree as seen from a node (`Tree(id, node, children)`) |
| `ingest.dfy` | `Ingest` | the receiving loop: `Step`, `Run`, `IngestAll`, and the invariant `Valid` |
| `assembly.dfy` | `Assembly` | `assemble_tree` as the mutually recursive `Assemble` / `FoldHead` / `FoldKids`; column widths; hard-link dedup; sorting |
| `assembly_facts.dfy` | `AssemblyFacts` | what the fold guarantees about totals, hard links, widths and order |
| `postpass.dfy` | `PostPass` | `prune_directories` with a reference definition, and `filter_directories` |
| `treebuild.dfy` | `TreeBuild` | `traverse`'s consumer, `try_init`, `is_stump`, `compute_file_count` |
| `units.dfy` | `Units` | prefix kinds, base values, prefix choice, labels |
| `scenarios.dfy` | `Scenarios` | worked instances: an early child lost, two hard links, one prune |

Modelling choices:

- **External collaborators are fields of `Context`.** These are:
  - the node comparator, as `leq(a, b)`, meaning the comparator does not answer `Greater`;
  - the width of a size's rendering (`sizeColumns`);
  - `utils::num_integral` (`digits`);
  - the configuration flags.
- **The walk is a parameter.** It is the sequence of `Event`s the channel delivers.
- **The arena is an immutable `seq<Node>`.** The tree the renderer walks is a `Tree` value rooted at the root's id.
- **`remove_subtree` and `detach` both drop the subtree from the root's tree.** They differ only in whether the arena slot is freed, and nothing here reads a detached slot.
- **The `unwrap()` panic becomes an error.** The panic of `branches.remove(..).unwrap()` (a directory's list already taken) is modelled as the error `MissingBranchList`.

Three behaviours of the code that are easy to misread, each followed by the model:

- **An entry whose parent list does not exist yet is not recorded.** When an entry arrives before its parent directory, the parent's list is created empty and the entry's id is put in no list (mod.rs:151-158), so the entry never joins the tree (`Ingest.Step`, `Scenarios.EarlyChildIsLost`). With pruning on, such a walk can end in `NoMatches` although a file was received (`Scenarios.EarlyChildEndsInNoMatches`).
- **Pruning runs when `prune` is set or the walk's file type is anything but "directory".** The condition at mod.rs:176-178 is `prune || file_type != Dir`, so every walk not restricted to directories is pruned, with or without `--prune`.
- **A negative value would get the largest prefix.** The logarithm of a negative number is NaN and every comparison with NaN is false, so `From<f64>` (units.rs:67-102) falls through to `Tebi` / `Tera`. Sizes are `u64`, so no size reaches this case; `Units.BinFrom` and `Units.SiFrom` record it only to state what the comparisons do.

## Model

| member | source | states |
|---|---|---|
| Ingest.Received | src/render/tree/mod.rs:135 | the loop consumes exactly the entries before the first `Done` or the end of the stream, in order |
| Ingest.Step | src/render/tree/mod.rs:135-159 | fails with `ExpectedParent` exactly when a non-root entry has no parent path; otherwise appends the entry to the arena and never removes a branch list; a directory's path always gets a list; the depth-0 directory becomes the root and joins no list; any other entry goes at the end of its parent's existing list, or, when that list is missing, an empty list is created and the entry is not recorded; every other list is unchanged |
| Ingest.StepKeys | src/render/tree/mod.rs:136-158 | the only keys a turn adds are the entry's own path, if it is a directory, and its parent's path; a directory seen for the first time starts with an empty list unless it names itself as its parent |
| Ingest.StepValid | src/render/tree/mod.rs:135-159 | one turn keeps the loop invariant: recorded ids are arena ids whose parent path is the list's key and which are not the root; every directory has a list; the root is a depth-0 directory and the last one received |
| Ingest.Run | src/render/tree/mod.rs:135-160 | the arena ends as the received entries in order; lists are never dropped; the loop fails, with `ExpectedParent`, exactly when some received entry is an orphan |
| Ingest.RunValid | src/render/tree/mod.rs:135-160 | the whole loop keeps the invariant |
| Ingest.AnyOrphanExists | src/render/tree/mod.rs:149 | the recursive orphan test holds exactly when some entry is an orphan |
| Ingest.IngestAll | src/render/tree/mod.rs:131-162 | from an empty state: the arena is the received entries, the invariant holds, failure happens exactly when some entry is an orphan, and no root is recorded exactly when no depth-0 directory was received |
| Assembly.UpdateColumns | src/render/tree/mod.rs:340-374 | widths only grow and fit the node afterwards; each width either stays or becomes the node's own width; the inode, link and block widths do not change unless `long` |
| Assembly.CoveredWider | src/render/tree/mod.rs:340-374 | widths that fit every node of a subtree still fit it after widening |
| Assembly.Dedup | src/render/tree/mod.rs:243-248 | a child is left out of the total exactly when it is a hard link whose inode is already recorded; a hard link's inode is recorded afterwards, and nothing else is |
| Assembly.CountedAtMostAll | src/render/tree/mod.rs:243-252 | the bytes of the counted children are at most the bytes of all children, and equal when every child is counted |
| Assembly.InsertSorted | src/render/tree/mod.rs:271-275 | under a comparator that orders every pair, inserting into a sorted list keeps it sorted |
| Assembly.SortTreesSorted | src/render/tree/mod.rs:271-275 | `SortTrees`, the model of the `sort_by`: under a comparator that orders every pair, the sorted children are in comparator order |
| Assembly.SortTreesPermutes | src/render/tree/mod.rs:271-275 | `SortTrees` is a permutation of the children (as a multiset) |
| Assembly.SortTreesRoots | src/render/tree/mod.rs:271-280 | sorting keeps the multiset of child ids that get appended |
| Assembly.SortTreesBytes | src/render/tree/mod.rs:271-275 | sorting keeps the sum of the children's bytes |
| Assembly.Assemble | src/render/tree/mod.rs:200-281 | fails with `MissingBranchList` when the directory's list is already taken, and fails only that way; on success the list is taken and the map strictly shrinks (each list is folded once); lists only disappear, inodes are only added, widths only grow (and the long-listing widths stay unless `long`); the node keeps its data, with its size set to the total exactly when the total is positive |
| Assembly.FoldHead | src/render/tree/mod.rs:215-233 | a child directory is assembled first (the result is exactly `Assemble` of that child); any other child becomes a leaf with its data unchanged and the state untouched |
| Assembly.AfterHead | src/render/tree/mod.rs:235-248 | after a child, the state has advanced and the widths fit the child; a hard link's inode is now recorded, and for any other child the recorded inodes are unchanged |
| Assembly.FoldKids | src/render/tree/mod.rs:215-253 | the folded children are the list's ids in list order, each with its arena data and only the size changed; the state advances; the only failure is `MissingBranchList` |
| AssemblyFacts.FoldKidsDedup | src/render/tree/mod.rs:243-252 | the total is the bytes of the counted children; only hard links are skipped; every hard link's inode is recorded; an inode recorded before the list is never counted again; no two counted children share an inode |
| AssemblyFacts.AfterHeadInodes | src/render/tree/mod.rs:243-248 | once a folded child is checked, the recorded inodes have grown by exactly the hard-link inodes of its whole subtree |
| AssemblyFacts.FoldHeadInodes | src/render/tree/mod.rs:223-233 | folding a child records exactly the hard-link inodes strictly below it |
| AssemblyFacts.AssembleInodes | src/render/tree/mod.rs:211-253 | assembling a directory records exactly the hard-link inodes of its children's subtrees, in any order of the children |
| AssemblyFacts.FoldKidsExact | src/render/tree/mod.rs:215-253 | over a branch list, the recorded inodes end as those before plus every hard-link inode in the children's subtrees; child `i` is counted exactly when it is not a hard link whose inode was recorded before the list, in an earlier sibling's subtree, or in its own subtree |
| AssemblyFacts.ExactlyCountedTotal | src/render/tree/mod.rs:243-252 | under that counting rule the counted bytes equal the reference total `DedupTotal`, which walks the children in order with the set of inodes seen |
| AssemblyFacts.HardInodesAllPermutes | src/render/tree/mod.rs:271-275 | reordering the children does not change the hard-link inodes they hold |
| AssemblyFacts.AssembleShape | src/render/tree/mod.rs:215-238 | every node of the assembled subtree fits the final widths, and only directories have children |
| AssemblyFacts.FoldKidsShape | src/render/tree/mod.rs:215-253 | every folded child fits the widths at the end of the list and has children only if it is a directory; a non-directory child is a leaf carrying its arena data |
| AssemblyFacts.AssembleOrder | src/render/tree/mod.rs:271-280 | the appended children are in comparator order and are exactly the ids of the directory's branch list |
| AssemblyFacts.AssembleTotal | src/render/tree/mod.rs:213-261 | the directory's total is exactly `DedupTotal` of its children taken in branch-list order, starting from the inodes recorded when the directory was reached |
| AssemblyFacts.AssembleTotalBounds | src/render/tree/mod.rs:213-261 | so the total is at most the bytes of its children, and equals them when no child is a hard link |
| PostPass.PassShrinks | src/render/tree/mod.rs:284-307 | `Pass`, one round of pruning (mod.rs:287-305), never adds nodes and removes at least one while an empty directory remains below the root |
| PostPass.Prune | src/render/tree/mod.rs:284-308 | the root keeps its id and data, and no empty directory is left below it |
| PostPass.PruneIdempotent | src/render/tree/mod.rs:299-301 | pruning a pruned tree changes nothing |
| PostPass.StripFixed | src/render/tree/mod.rs:299-301 | a tree with no empty directory below it is its own reference form |
| PostPass.PassStrip | src/render/tree/mod.rs:287-305 | one round of pruning (`Pass`) removes nothing the reference definition keeps |
| PostPass.PruneIsStrip | src/render/tree/mod.rs:284-308 | pruning keeps exactly the child subtrees that hold a non-directory somewhere |
| PostPass.StripKeepsFiles | src/render/tree/mod.rs:290-292 | the reference form keeps every non-directory id |
| PostPass.PruneKeepsFiles | src/render/tree/mod.rs:290-292 | pruning never removes a file or symlink |
| PostPass.FilterDirs | src/render/tree/mod.rs:311-323 | the root keeps its id and data, and every node below it is a directory |
| PostPass.FilterFixed | src/render/tree/mod.rs:311-323 | a tree whose descendants are all directories is unchanged by the filter, so the filter is idempotent |
| PostPass.FilterKeepsDirs | src/render/tree/mod.rs:311-323 | in a tree where only directories have children, the filter removes no directory |
| TreeBuild.IsStump | src/render/tree/mod.rs:94-101 | the tree is a stump exactly when the root has no children |
| TreeBuild.Traverse | src/render/tree/mod.rs:131-184 | an ingest failure gives `ExpectedParent`; no depth-0 directory gives `MissingRoot`; no other error kinds arise but `MissingBranchList`; on success the tree hangs from the recorded root, widths only grew, and with `--dirs-only` every node below the root is a directory; when pruning applies without `--dirs-only`, no empty directory is left |
| TreeBuild.TryInit | src/render/tree/mod.rs:73-91 | construction succeeds exactly when traversal succeeds with a tree that is not a stump; it fails with `NoMatches` exactly when traversal succeeded but the root has no children; other failures pass through |
| TreeBuild.PruneCovered | src/render/tree/mod.rs:284-308 | widths that fit every node still fit every node after pruning |
| TreeBuild.FilterCovered | src/render/tree/mod.rs:311-323 | widths that fit every node still fit every node after filtering |
| TreeBuild.TraverseCovered | src/render/tree/mod.rs:166-182 | every node of the finished tree fits the final column widths |
| TreeBuild.ComputeFileCount | src/render/tree/mod.rs:328-336 | the counts are the numbers of immediate children that are directories, files and symlinks, and they add up to the number of children |
| TreeBuild.KindCountShallow | src/render/tree/mod.rs:325-336 | the count depends only on the kinds of the immediate children, not on anything below them |
| Units.BinBaseIsPower | src/render/disk_usage/units.rs:54-64 | `BinBase`, the binary `base_value`, is 2^(10·rank), i.e. successive powers of 1024 |
| Units.SiBaseIsPower | src/render/disk_usage/units.rs:42-52 | `SiBase`, the SI `base_value`, is 10^(3·rank), i.e. successive powers of 1000 |
| Units.BinFrom | src/render/disk_usage/units.rs:67-83 | a negative value (NaN logarithm) falls through to `Tebi` |
| Units.SiFrom | src/render/disk_usage/units.rs:86-102 | a negative value (NaN logarithm) falls through to `Tera` |
| Units.BinFromWithin | src/render/disk_usage/units.rs:67-83 | the binary prefix chosen for a byte count is exactly the one whose base value it reaches and whose successor's it does not |
| Units.SiFromWithin | src/render/disk_usage/units.rs:86-102 | the same on the SI scale |
| Units.BinFromMonotone | src/render/disk_usage/units.rs:67-83 | a larger count never gets a smaller binary prefix |
| Units.SiFromMonotone | src/render/disk_usage/units.rs:86-102 | a larger count never gets a smaller SI prefix |
| Units.Boundaries | src/render/disk_usage/units.rs:67-102 | 0, 999 and 1023 give `Base`; 1024 gives `Kibi`; 2^20 − 1 gives `Kibi`; 2^20 gives `Mebi`; 2^40 gives `Tebi`; 1000 gives `Kilo`; 10^6 gives `Mega`; 10^12 gives `Tera` |
| Units.BinLabelRoundTrip | src/render/disk_usage/units.rs:104-114 | each binary label (`BinLabel`, the `Display`) reads back as its prefix, and is "B" or ends in "iB" |
| Units.SiLabelRoundTrip | src/render/disk_usage/units.rs:116-126 | each SI label (`SiLabel`, the `Display`) reads back as its prefix, ends in "B", and is at most two characters long |
| Units.LabelsDistinct | src/render/disk_usage/units.rs:104-126 | distinct prefixes show distinct labels on each scale |
| Scenarios.EarlyChildIsLost | src/render/tree/mod.rs:135-160 | root, then `r/d/f`, then `r/d`: the file is in the arena but in no list, and `r/d`'s list is empty |
| Scenarios.EarlyChildEndsInNoMatches | src/render/tree/mod.rs:86-88 | with pruning on, that walk ends in `NoMatches` |
| Scenarios.HardLinksCountOnce | src/render/tree/mod.rs:243-252 | two hard links (same inode, link count 2) of 1000 bytes each give their directory a total of 1000 |
| Scenarios.PruneDropsEmptyDir | src/render/tree/mod.rs:284-308 | a root with an empty directory and a file keeps only the file |

## Left out

- The filesystem walk (`WalkParallel::try_from`, mod.rs:389-418) is left out, along with the worker threads, the channel and the thread scope (mod.rs:126-130, 185-194). These are I/O and concurrency. The stream the consumer receives is a parameter.
- The non-unix `update_column_properties` (mod.rs:376-386) is left out: only the unix variant is modelled.
- Storing the widths into the context, `set_window_width` (mod.rs:78-82) and `Tree::new` and its accessors are left out. They copy or display state the model already returns.
- Node ordering, size rendering widths, digit counts and `FileCount::update` belong to count.rs, node.rs, fs/inode.rs and utils, which are not part of this model:
  - the comparator, rendering widths and digit counts are opaque functions in `Context`;
  - `Tally` assumes `update` adds one to the counter of the node's kind;
  - inode equality is assumed to compare device, inode number and link count.
- u64 arithmetic is unbounded here. Sums of sizes and base values do not wrap; the largest base value, 2^40, fits in 64 bits.
- Units.BinFrom: models the floating-point `log2` comparison on whole values only. For an integer `v`, `v.log2() < e` is taken as `0 <= v < 2^e`; fractional inputs and rounding of very large values are not modelled.
- Units.SiFrom: models `log10` on whole values only, in the same way.
- AssemblyFacts.AssembleOrder: proves sortedness and permutation, not the stability of `sort_by`. `SortTrees` is a stable insertion sort, but stability is not stated. Sortedness needs a comparator that orders every pair.
- Assembly.Assemble: `MissingBranchList` stands for the panic of `unwrap()` at mod.rs:211. The model does not prove that a real walk, with unique paths, never reaches it.
- The freeing of arena slots by `remove_subtree`, as opposed to `detach`, is not modelled; both drop the subtree from the tree.
- TreeBuild.Traverse: returns the consumer's `ExpectedParent` error. In the program the consumer's `?` at mod.rs:149 returns and drops the receiver; if the walk has not finished by then, the later `tx.send(TraversalState::Done).unwrap()` at mod.rs:191 panics, so `try_init` panics instead of returning the error. The model has no timing and always returns the error.
- Paths are compared as strings (`Path = string`). `PathBuf` compares by components, so `r/d/` and `r/d` are one key in the program and two keys here; the model assumes the walker gives every path in one normal form.
- The error enum of error.rs is not part of this model beyond the kinds construction uses.
