/** The receiving loop of `traverse` (src/render/tree/mod.rs:131-162): entries arrive one
    by one and are stored in the arena, and each is recorded in the branch list of its
    parent directory's path. */
module Ingest {
  import opened Entries

  /** What the walker threads send: one discovered entry, or the terminal signal. */
  datatype Event = Ongoing(entry: Node) | Done

  /** The arena, the branch map from a directory path to its pending children, and the root. */
  datatype Ingested = Ingested(arena: seq<Node>, branches: map<Path, seq<NodeId>>, root: Option<NodeId>)

  const Start: Ingested := Ingested([], map[], None)

  /** Entries the loop consumes: those before the first `Done`. */
  function Received(events: seq<Event>): (entries: seq<Node>)
    ensures |entries| <= |events|
    ensures forall i :: 0 <= i < |entries| ==> events[i] == Ongoing(entries[i])
    ensures |entries| < |events| ==> events[|entries|] == Done
  {
    if events == [] || events[0].Done? then [] else [events[0].entry] + Received(events[1..])
  }

  /** An entry that is neither the root nor has a parent path. */
  predicate Orphan(n: Node) {
    !n.IsRoot() && n.parent.None?
  }

  /** What the loop keeps true of its state. */
  ghost predicate Valid(s: Ingested) {
    // every recorded child is a node of the arena, whose parent path is the list's key,
    // and which is not the root
    && (forall p, j :: p in s.branches && 0 <= j < |s.branches[p]| ==>
          && s.branches[p][j] < |s.arena|
          && s.arena[s.branches[p][j]].parent == Some(p)
          && !s.arena[s.branches[p][j]].IsRoot())
    // every directory of the arena has a branch list under its own path
    && (forall i :: 0 <= i < |s.arena| && s.arena[i].IsDir() ==> s.arena[i].path in s.branches)
    // the root is the last depth-0 directory received, and no depth-0 directory means no root
    && (s.root.Some? ==> s.root.value < |s.arena| && s.arena[s.root.value].IsRoot())
    && (forall i :: 0 <= i < |s.arena| && s.arena[i].IsRoot() ==> s.root.Some? && i <= s.root.value)
  }

  /** One turn of the loop. */
  function Step(s: Ingested, n: Node): (r: Result<Ingested>)
    ensures r.Err? <==> Orphan(n)
    ensures r.Err? ==> r.error == ExpectedParent
    ensures r.Ok? ==> r.value.arena == s.arena + [n]
    ensures r.Ok? ==> s.branches.Keys <= r.value.branches.Keys
    ensures r.Ok? && n.IsDir() ==> n.path in r.value.branches
    // the root is recorded and attached to no branch list
    ensures r.Ok? && n.IsRoot() ==> r.value.root == Some(|s.arena|)
    ensures r.Ok? && n.IsRoot() ==> forall p :: p in s.branches ==> r.value.branches[p] == s.branches[p]
    // any other entry is appended to the end of its parent's list, if that list exists
    ensures r.Ok? && !n.IsRoot() ==>
      var p := n.parent.value;
      && p in r.value.branches
      && r.value.root == s.root
      && (p in s.branches ==> r.value.branches[p] == s.branches[p] + [|s.arena|])
      && (p !in s.branches && !(n.IsDir() && n.path == p) ==> r.value.branches[p] == [])
      && (forall q :: q in s.branches && q != p ==> r.value.branches[q] == s.branches[q])
  {
    var b := if n.IsDir() && n.path !in s.branches then s.branches[n.path := []] else s.branches;
    if n.IsRoot() then
      Ok(Ingested(s.arena + [n], b, Some(|s.arena|)))
    else if n.parent.None? then
      Err(ExpectedParent)
    else
      var p := n.parent.value;
      var id := |s.arena|;
      Ok(Ingested(s.arena + [n], if p in b then b[p := b[p] + [id]] else b[p := []], s.root))
  }

  /** What else one turn does to the branch map: the only keys it adds are the entry's own
      path, if it is a directory, and its parent's path; and a directory seen for the first
      time starts with an empty list, unless it names itself as its parent. */
  lemma StepKeys(s: Ingested, n: Node)
    requires Step(s, n).Ok?
    ensures forall p :: p in Step(s, n).value.branches ==>
      p in s.branches || (n.IsDir() && p == n.path) || (!n.IsRoot() && p == n.parent.value)
    ensures n.IsDir() && n.path !in s.branches && (n.IsRoot() || n.parent.value != n.path) ==>
      Step(s, n).value.branches[n.path] == []
  {
  }

  lemma {:induction false} StepValid(s: Ingested, n: Node)
    requires Valid(s)
    requires Step(s, n).Ok?
    ensures Valid(Step(s, n).value)
  {
    var r := Step(s, n).value;
    forall p, j | p in r.branches && 0 <= j < |r.branches[p]|
      ensures r.branches[p][j] < |r.arena|
      ensures r.arena[r.branches[p][j]].parent == Some(p)
      ensures !r.arena[r.branches[p][j]].IsRoot()
    {
      if !n.IsRoot() && p == n.parent.value && p in s.branches && j == |s.branches[p]| {
        assert r.branches[p][j] == |s.arena|;
      } else if p in s.branches {
        assert r.branches[p][j] == s.branches[p][j];
      }
    }
  }

  /** Some entry of `ns` is an orphan. */
  predicate AnyOrphan(ns: seq<Node>) {
    ns != [] && (Orphan(ns[0]) || AnyOrphan(ns[1..]))
  }

  /** `AnyOrphan` is the existence of an orphan among the entries. */
  lemma {:induction false} AnyOrphanExists(ns: seq<Node>)
    ensures AnyOrphan(ns) <==> exists i :: 0 <= i < |ns| && Orphan(ns[i])
  {
    if ns != [] {
      AnyOrphanExists(ns[1..]);
      if AnyOrphan(ns[1..]) {
        var i :| 0 <= i < |ns[1..]| && Orphan(ns[1..][i]);
        assert ns[i + 1] == ns[1..][i];
      }
      if !Orphan(ns[0]) && exists i :: 0 <= i < |ns| && Orphan(ns[i]) {
        var i :| 0 <= i < |ns| && Orphan(ns[i]);
        assert ns[1..][i - 1] == ns[i];
      }
    }
  }

  /** The loop: consumes entries until `Done` (or the end of the stream). */
  function Run(s: Ingested, events: seq<Event>): (r: Result<Ingested>)
    ensures r.Ok? ==> r.value.arena == s.arena + Received(events)
    ensures r.Ok? ==> s.branches.Keys <= r.value.branches.Keys
    ensures r.Err? <==> AnyOrphan(Received(events))
    ensures r.Err? ==> r.error == ExpectedParent
    decreases |events|
  {
    if events == [] || events[0].Done? then
      Ok(s)
    else
      ReceivedCons(s.arena, events);
      match Step(s, events[0].entry)
      case Err(e) => Err(e)
      case Ok(s1) => Run(s1, events[1..])
  }

  /** The entries received from a stream that starts with one. */
  lemma ReceivedCons(arena: seq<Node>, events: seq<Event>)
    requires events != [] && events[0].Ongoing?
    ensures AnyOrphan(Received(events)) == (Orphan(events[0].entry) || AnyOrphan(Received(events[1..])))
    ensures arena + [events[0].entry] + Received(events[1..]) == arena + Received(events)
  {
    assert Received(events)[1..] == Received(events[1..]);
  }

  /** The loop keeps its invariant. */
  lemma {:induction false} RunValid(s: Ingested, events: seq<Event>)
    requires Valid(s)
    ensures Run(s, events).Ok? ==> Valid(Run(s, events).value)
    decreases |events|
  {
    if events != [] && events[0].Ongoing? && Step(s, events[0].entry).Ok? {
      StepValid(s, events[0].entry);
      RunValid(Step(s, events[0].entry).value, events[1..]);
    }
  }

  /** The whole loop, from an empty arena. */
  function IngestAll(events: seq<Event>): (r: Result<Ingested>)
    ensures r.Ok? ==> Valid(r.value) && r.value.arena == Received(events)
    ensures r.Err? <==> exists i :: 0 <= i < |Received(events)| && Orphan(Received(events)[i])
    ensures r.Ok? ==> (r.value.root.None? <==> forall i :: 0 <= i < |r.value.arena| ==> !r.value.arena[i].IsRoot())
  {
    RunValid(Start, events);
    AnyOrphanExists(Received(events));
    var r := Run(Start, events);
    assert r.Err? <==> AnyOrphan(Received(events));
    assert r.Ok? ==> r.value.arena == Received(events);
    r
  }
}
