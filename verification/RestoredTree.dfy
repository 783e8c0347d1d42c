/**
 What a restore leaves in its destination
 (crates/fileferry-core/src/lib.rs, `restore_snapshot_to_destination`): in an
 empty destination exactly the pruned source tree, and nothing elsewhere but
 the missing directories above it.
 */
module RestoredTree {
  import opened Common
  import opened Repository
  import opened Manifests
  import opened Readers
  import opened Destination
  import opened DestinationWrites
  import opened FileSystems
  import opened ModTimes
  import opened PartialRestore
  import opened SourceManifests
  import opened RoundTrip
  import opened Protocol
  import Exclusion
  import ReadingRuns
  import Retention
  import Visibility
  import Walker
  import W = WriteSnapshot

  // ---------- Outside the destination ----------

  /** Outside the destination nothing changes, but missing directories above it appear. */
  lemma {:induction false} OutsideIsUntouched(before: Nodes, after: Nodes, behind: Behind, root: Path,
                                              wanted: seq<Wanted>, overwrite: bool, q: Path)
    requires Compatible(wanted) && Preflight(before, behind, root, wanted, overwrite).Ok?
    requires IsOverlay(before, after, Preflight(before, behind, root, wanted, overwrite).value)
    requires !(root <= q)
    ensures q in before ==> q in after && after[q] == before[q]
    ensures q in after && q !in before ==> q < root && after[q] == FsDir
  {
    hide EnsureSafe, Preflight;
    var items := Preflight(before, behind, root, wanted, overwrite).value;
    PreflightMeaning(before, behind, root, wanted, overwrite);
    assert PathOverlaid(before, after, items, q);
    assert forall i :: 0 <= i < |items| ==> root <= items[i].path;
    if AtOrAboveSome(items, q) {
      var i :| 0 <= i < |items| && q <= items[i].path;
      PrefixesOfOnePath(items[i].path, root, q);
    }
  }

  lemma PrefixesOfOnePath(p: Path, a: Path, b: Path)
    requires a <= p && b <= p
    ensures a <= b || b < a
  {
    assert a == p[..|a|] && b == p[..|b|];
  }

  // ---------- An empty destination ----------

  /** Nothing is below the destination, and what is there of it and above it is a directory. */
  ghost predicate EmptyDestination(nodes: Nodes, root: Path) {
    && (forall k :: 0 <= k <= |root| && root[..k] in nodes ==> nodes[root[..k]] == FsDir)
    && (forall q :: q in nodes && root <= q ==> q == root)
  }

  lemma EmptyPrefixIsDirectory(nodes: Nodes, root: Path, p: Path, k: nat)
    requires EmptyDestination(nodes, root) && root <= p && k <= |p| && p[..k] in nodes
    ensures nodes[p[..k]] == FsDir && k <= |root|
  {
    assert k >= |root| ==> root <= p[..k];
    assert p[..k] == root[..k];
  }

  lemma NothingInTheWay(nodes: Nodes, behind: Behind, root: Path, p: Path)
    requires EmptyDestination(nodes, root) && root <= p
    ensures Lstat(nodes, behind, p) == if p in nodes then Present(FsDir) else NotFound
    ensures p in nodes ==> p == root
  {
    assert p[..|p|] == p;
    if p in nodes {
      EmptyPrefixIsDirectory(nodes, root, p, |p|);
    }
    forall k | 0 <= k < |p| && p[..k] in nodes
      ensures nodes[p[..k]] == FsDir
    {
      EmptyPrefixIsDirectory(nodes, root, p, k);
    }
  }

  lemma {:induction false} AncestorsAreClear(nodes: Nodes, behind: Behind, root: Path, dest: Path, k: nat)
    requires EmptyDestination(nodes, root) && root <= dest && k <= |dest|
    ensures CheckAncestors(nodes, behind, root, dest, k).Ok?
    decreases |dest| - k
  {
    hide EmptyDestination, Lstat;
    if k < |dest| {
      AncestorsAreClear(nodes, behind, root, dest, k + 1);
      if root <= dest[..k] {
        NothingInTheWay(nodes, behind, root, dest[..k]);
      }
    }
  }

  lemma ItemIsSafe(nodes: Nodes, behind: Behind, root: Path, w: Wanted, overwrite: bool)
    requires EmptyDestination(nodes, root) && root != [] && IsNormal(w.path) && (w.path == [] ==> w.node == FsDir)
    ensures EnsureSafe(nodes, behind, root, ItemOf(root, w), overwrite).Ok?
  {
    hide EmptyDestination, Lstat, CheckAncestors;
    var dest := ItemOf(root, w).path;
    AncestorsAreClear(nodes, behind, root, dest, 0);
    NothingInTheWay(nodes, behind, root, dest);
    assert dest == root ==> |w.path| == 0;
  }

  lemma {:induction false} PreflightOfEmpty(nodes: Nodes, behind: Behind, root: Path, wanted: seq<Wanted>,
                                            overwrite: bool)
    requires EmptyDestination(nodes, root) && root != [] && Compatible(wanted)
    ensures Preflight(nodes, behind, root, wanted, overwrite).Ok?
  {
    hide EnsureSafe, EmptyDestination, Preflight, ItemOf;
    forall i | 0 <= i < |wanted|
      ensures EnsureSafe(nodes, behind, root, ItemOf(root, wanted[i]), overwrite).Ok?
    {
      ItemIsSafe(nodes, behind, root, wanted[i], overwrite);
    }
    PreflightMeaning(nodes, behind, root, wanted, overwrite);
  }

  /** The root directory of a snapshot cannot be restored onto the root of the file system. */
  lemma {:induction false} RootDestinationIsRefused(nodes: Nodes, behind: Behind, wanted: seq<Wanted>,
                                                    overwrite: bool, i: nat)
    requires Compatible(wanted) && i < |wanted| && wanted[i].path == []
    ensures Preflight(nodes, behind, [], wanted, overwrite).Err?
  {
    PreflightMeaning(nodes, behind, [], wanted, overwrite);
    assert EnsureSafe(nodes, behind, [], ItemOf([], wanted[i]), overwrite).Err?;
  }

  // ---------- The restored tree ----------

  /** What a source node is restored as; special nodes and links whose target was not captured are not restored. */
  function RestoredAs(n: Walker.Node): Option<FsNode> {
    match n
    case File(data, _) => Some(FsFile(data))
    case Dir(_, _) => Some(FsDir)
    case Link(Captured(target), _) => Some(FsSymlink(target))
    case Link(_, _) => None
    case Special(_) => None
  }

  predicate IsWantedFor(w: Wanted, f: Walker.Found) {
    RestoredAs(f.node).Some? && w == Wanted(ToRel(f.path), RestoredAs(f.node).value)
  }

  lemma AddedIsWanted(c: Contents, f: Walker.Found, w: Wanted)
    ensures w in WantedOf(AddFound(c, f)) <==> w in WantedOf(c) || IsWantedFor(w, f)
  {
    var d := AddFound(c, f);
    match f.node
    case Dir(_, _) => assert DirectoriesOf(d) == DirectoriesOf(c) + [Wanted(ToRel(f.path), FsDir)];
    case File(data, _) => assert FilesOf(d) == FilesOf(c) + [Wanted(ToRel(f.path), FsFile(data))];
    case Link(Captured(target), _) =>
      assert SymlinksOf(d) == SymlinksOf(c) + [Wanted(ToRel(f.path), FsSymlink(target))];
    case Link(_, _) => assert WantedOf(d) == WantedOf(c);
    case Special(_) =>
  }

  lemma {:induction false} WantedMeaning(found: seq<Walker.Found>, w: Wanted)
    ensures w in WantedOf(TreeContents(found)) <==> exists i :: 0 <= i < |found| && IsWantedFor(w, found[i])
    decreases |found|
  {
    hide IsWantedFor, AddFound;
    if found != [] {
      var n := |found| - 1;
      hide WantedOf;
      WantedMeaning(found[..n], w);
      AddedIsWanted(TreeContents(found[..n]), found[n], w);
      if i :| 0 <= i < n && IsWantedFor(w, found[..n][i]) {
        assert IsWantedFor(w, found[i]);
      }
      if i :| 0 <= i < |found| && IsWantedFor(w, found[i]) && i < n {
        assert IsWantedFor(w, found[..n][i]);
      }
    }
  }

  lemma NamesComeBack(names: Walker.Names)
    ensures IsNormal(ToRel(names)) && NamesOf(ToRel(names)) == names
  {
  }

  /** Some restored node lies at this path of the source tree, and it is restored as `x`. */
  ghost predicate TreeHas(rules: seq<Exclusion.Rule>, tree: Walker.Node, names: Walker.Names, x: FsNode) {
    exists n :: Walker.At(tree, names, n) && Walker.NotPruned(rules, names, 0) && RestoredAs(n) == Some(x)
  }

  /** A restored node at or below one of the requested paths. */
  ghost predicate Selects(rules: seq<Exclusion.Rule>, tree: Walker.Node, scope: seq<RelPath>, names: Walker.Names,
                          x: FsNode) {
    TreeHas(rules, tree, names, x) && InScope(ToRel(names), scope)
  }

  ghost predicate IsAboveSelected(rules: seq<Exclusion.Rule>, tree: Walker.Node, scope: seq<RelPath>,
                                  names: Walker.Names) {
    exists below, x :: names < below && Selects(rules, tree, scope, below, x)
  }

  /** What restoring these paths leaves at a path: a selected node, or a directory that leads to one. */
  ghost predicate PartHas(rules: seq<Exclusion.Rule>, tree: Walker.Node, scope: seq<RelPath>, names: Walker.Names,
                          x: FsNode) {
    Selects(rules, tree, scope, names, x) || (x == FsDir && IsAboveSelected(rules, tree, scope, names))
  }

  /** Below `root` there is what restoring these paths leaves, and `root` itself if it was there before. */
  ghost predicate HoldsPart(rules: seq<Exclusion.Rule>, tree: Walker.Node, scope: seq<RelPath>, root: Path,
                            before: Nodes, after: Nodes) {
    forall names, x ::
      (root + names in after && after[root + names] == x)
      <==> PartHas(rules, tree, scope, names, x) || (names == [] && x == FsDir && root in before)
  }

  /** Below `root` there is the restored tree. */
  ghost predicate HoldsTree(rules: seq<Exclusion.Rule>, tree: Walker.Node, root: Path, after: Nodes) {
    forall names, x ::
      (root + names in after && after[root + names] == x) <==> TreeHas(rules, tree, names, x)
  }

  /** The items of a restore of these paths of the tree into `root`. */
  ghost predicate ItemsOfPart(rules: seq<Exclusion.Rule>, tree: Walker.Node, scope: seq<RelPath>, root: Path,
                              items: seq<Item>) {
    && (forall i :: 0 <= i < |items| ==>
          root <= items[i].path && Selects(rules, tree, scope, items[i].path[|root|..], items[i].node))
    && (forall names, x :: Selects(rules, tree, scope, names, x) ==> Item(root + names, x) in items)
  }

  lemma WantedWithin(c: Contents, scope: seq<RelPath>, w: Wanted)
    ensures w in WantedOf(Within(c, scope)) <==> w in WantedOf(c) && InScope(w.path, scope)
  {
    hide WantedOf, Within, InScope;
    WantedMembers(c, w);
    WantedMembers(Within(c, scope), w);
    WithinMembers(c, scope);
  }

  lemma {:induction false} PlannedItem(rules: seq<Exclusion.Rule>, tree: Walker.Node, scope: seq<RelPath>, root: Path,
                                       w: Wanted)
    requires Walker.WellFormed(tree) && IsNormal(w.path)
    requires w in WantedOf(Within(TreeContents(Walker.WalkRoot(rules, tree)), scope))
    ensures var item := ItemOf(root, w);
            root <= item.path && Selects(rules, tree, scope, item.path[|root|..], item.node)
  {
    hide Walker.WalkRoot, TreeContents, WantedOf, Within, InScope;
    var found := Walker.WalkRoot(rules, tree);
    WantedWithin(TreeContents(found), scope, w);
    WantedMeaning(found, w);
    var i :| 0 <= i < |found| && IsWantedFor(w, found[i]);
    Walker.WalkIsExact(rules, tree);
    NamesComeBack(found[i].path);
    assert found[i] in found && ItemOf(root, w).path[|root|..] == found[i].path;
  }

  lemma {:induction false} NodeIsWanted(rules: seq<Exclusion.Rule>, tree: Walker.Node, scope: seq<RelPath>,
                                        names: Walker.Names, x: FsNode)
    requires Walker.WellFormed(tree) && Selects(rules, tree, scope, names, x)
    ensures Wanted(ToRel(names), x) in WantedOf(Within(TreeContents(Walker.WalkRoot(rules, tree)), scope))
  {
    hide Walker.WalkRoot, TreeContents, WantedOf, Within, InScope;
    var found := Walker.WalkRoot(rules, tree);
    var n :| Walker.At(tree, names, n) && Walker.NotPruned(rules, names, 0) && RestoredAs(n) == Some(x);
    Walker.WalkIsExact(rules, tree);
    assert Walker.Found(names, n) in found;
    var i :| 0 <= i < |found| && found[i] == Walker.Found(names, n);
    assert IsWantedFor(Wanted(ToRel(names), x), found[i]);
    WantedMeaning(found, Wanted(ToRel(names), x));
    WantedWithin(TreeContents(found), scope, Wanted(ToRel(names), x));
  }

  lemma {:induction false} PlanIsPart(rules: seq<Exclusion.Rule>, tree: Walker.Node, scope: seq<RelPath>, nodes: Nodes,
                                      behind: Behind, root: Path, overwrite: bool)
    requires Walker.WellFormed(tree)
    requires var wanted := WantedOf(Within(TreeContents(Walker.WalkRoot(rules, tree)), scope));
             Compatible(wanted) && Preflight(nodes, behind, root, wanted, overwrite).Ok?
    ensures var wanted := WantedOf(Within(TreeContents(Walker.WalkRoot(rules, tree)), scope));
            ItemsOfPart(rules, tree, scope, root, Preflight(nodes, behind, root, wanted, overwrite).value)
  {
    hide Preflight, EnsureSafe, Selects, WantedOf, Within, TreeContents, Walker.WalkRoot, Walker.WellFormed;
    var wanted := WantedOf(Within(TreeContents(Walker.WalkRoot(rules, tree)), scope));
    var items := Preflight(nodes, behind, root, wanted, overwrite).value;
    PreflightMeaning(nodes, behind, root, wanted, overwrite);
    forall i | 0 <= i < |items|
      ensures root <= items[i].path && Selects(rules, tree, scope, items[i].path[|root|..], items[i].node)
    {
      PlannedItem(rules, tree, scope, root, wanted[i]);
    }
    forall names, x | Selects(rules, tree, scope, names, x)
      ensures Item(root + names, x) in items
    {
      NodeIsWanted(rules, tree, scope, names, x);
      var i :| 0 <= i < |wanted| && wanted[i] == Wanted(ToRel(names), x);
      NamesComeBack(names);
      assert items[i] == Item(root + names, x);
    }
  }

  /** Above a restored node lie restored directories. */
  lemma ParentsAreRestored(rules: seq<Exclusion.Rule>, tree: Walker.Node, names: Walker.Names, x: FsNode, k: nat)
    requires TreeHas(rules, tree, names, x) && k < |names|
    ensures TreeHas(rules, tree, names[..k], FsDir)
  {
    var n :| Walker.At(tree, names, n) && Walker.NotPruned(rules, names, 0) && RestoredAs(n) == Some(x);
    var dir := Walker.AncestorsAreDirs(tree, names, n, k);
    assert forall l :: 0 < l <= k ==> names[..k][..l] == names[..l];
  }

  lemma ItemIsAtItsPath(items: seq<Item>, q: Path, x: FsNode)
    requires Item(q, x) in items
    ensures IsItemPath(items, q) && forall p :: p <= q ==> AtOrAboveSome(items, p)
  {
    var i :| 0 <= i < |items| && items[i] == Item(q, x);
  }

  lemma RootIsRestored(rules: seq<Exclusion.Rule>, tree: Walker.Node)
    requires tree.Dir?
    ensures TreeHas(rules, tree, [], FsDir) && forall x :: TreeHas(rules, tree, [], x) ==> x == FsDir
  {
    assert Walker.At(tree, [], tree) && RestoredAs(tree) == Some(FsDir);
  }

  /** Everything of the overlay below an empty destination is selected or leads to something selected. */
  lemma OverlayIsPart(rules: seq<Exclusion.Rule>, tree: Walker.Node, scope: seq<RelPath>, before: Nodes, after: Nodes,
                      root: Path, items: seq<Item>, names: Walker.Names)
    requires EmptyDestination(before, root) && root + names in after
    requires ItemsOfPart(rules, tree, scope, root, items) && IsOverlay(before, after, items)
    ensures PartHas(rules, tree, scope, names, after[root + names])
            || (names == [] && after[root + names] == FsDir && root in before)
  {
    hide Selects, HoldsItem, EmptyDestination;
    var q := root + names;
    assert PathOverlaid(before, after, items, q);
    OnlyTheRoot(before, root, names);
    if IsItemPath(items, q) {
      var i :| 0 <= i < |items| && items[i].path == q;
      assert HoldsItem(after, items[i]) && items[i].path[|root|..] == names;
      ItemIsHeld(after, items[i]);
    } else if AtOrAboveSome(items, q) {
      var i :| 0 <= i < |items| && q <= items[i].path;
      var below := items[i].path[|root|..];
      assert items[i].path == root + below && names == below[..|names|];
      assert names < below && Selects(rules, tree, scope, below, items[i].node);
    }
  }

  lemma OnlyTheRoot(nodes: Nodes, root: Path, names: Walker.Names)
    requires EmptyDestination(nodes, root)
    ensures root + names in nodes ==> names == [] && nodes[root + names] == FsDir
    ensures root + [] == root
  {
    assert root[..|root|] == root;
    if root + names in nodes {
      assert root <= root + names;
    }
  }

  lemma ItemIsHeld(nodes: Nodes, item: Item)
    requires HoldsItem(nodes, item)
    ensures item.path in nodes && nodes[item.path] == item.node
  {
  }

  /** Everything selected is there, with the directories that lead to it. */
  lemma PartIsInOverlay(rules: seq<Exclusion.Rule>, tree: Walker.Node, scope: seq<RelPath>, before: Nodes, after: Nodes,
                        root: Path, items: seq<Item>, names: Walker.Names, x: FsNode)
    requires Walker.WellFormed(tree) && tree.Dir? && EmptyDestination(before, root)
    requires ItemsOfPart(rules, tree, scope, root, items) && IsOverlay(before, after, items)
    requires PartHas(rules, tree, scope, names, x) || (names == [] && x == FsDir && root in before)
    ensures root + names in after && after[root + names] == x
  {
    hide TreeHas, HoldsItem, Walker.WellFormed, InScope, EmptyDestination;
    var q := root + names;
    assert PathOverlaid(before, after, items, q);
    OnlyTheRoot(before, root, names);
    if Selects(rules, tree, scope, names, x) {
      ItemIsAtItsPath(items, q, x);
    } else if IsAboveSelected(rules, tree, scope, names) {
      var below, y :| names < below && Selects(rules, tree, scope, below, y);
      ItemIsAtItsPath(items, root + below, y);
      assert q <= root + below;
    }
    if IsItemPath(items, q) {
      var i :| 0 <= i < |items| && items[i].path == q;
      assert items[i].path[|root|..] == names && HoldsItem(after, items[i]);
      ItemIsHeld(after, items[i]);
      PartIsUnique(rules, tree, scope, names, x, items[i].node);
    }
  }

  /** One path of a part holds one node. */
  lemma PartIsUnique(rules: seq<Exclusion.Rule>, tree: Walker.Node, scope: seq<RelPath>, names: Walker.Names,
                     x: FsNode, y: FsNode)
    requires Walker.WellFormed(tree) && tree.Dir? && Selects(rules, tree, scope, names, y)
    requires PartHas(rules, tree, scope, names, x) || (names == [] && x == FsDir)
    ensures x == y
  {
    RootIsRestored(rules, tree);
    NodesRestoreUniquely(rules, tree, names);
    hide TreeHas, Walker.WellFormed, InScope;
    if IsAboveSelected(rules, tree, scope, names) {
      var below, z :| names < below && Selects(rules, tree, scope, below, z);
      ParentsAreRestored(rules, tree, below, z, |names|);
      assert below[..|names|] == names;
    }
  }

  lemma NodesRestoreUniquely(rules: seq<Exclusion.Rule>, tree: Walker.Node, names: Walker.Names)
    requires Walker.WellFormed(tree)
    ensures forall x, y :: TreeHas(rules, tree, names, x) && TreeHas(rules, tree, names, y) ==> x == y
  {
    forall x, y | TreeHas(rules, tree, names, x) && TreeHas(rules, tree, names, y)
      ensures x == y
    {
      var m :| Walker.At(tree, names, m) && Walker.NotPruned(rules, names, 0) && RestoredAs(m) == Some(x);
      var n :| Walker.At(tree, names, n) && Walker.NotPruned(rules, names, 0) && RestoredAs(n) == Some(y);
      Walker.NodesAreUnique(tree, names, m, n);
    }
  }

  /**
   If the snapshot holds the tree, restoring some of its paths into an empty
   destination is planned without error, and leaves exactly the nodes at or
   below these paths and the directories that lead to them.
   */
  lemma {:induction false} RestoreRebuildsPart(r: Repo, store: Store, rules: seq<Exclusion.Rule>, tree: Walker.Node,
                                               nodes: Nodes, behind: Behind, request: Request)
    requires Walker.WellFormed(tree) && tree.Dir? && request.absolute && request.destination != []
    requires RestoreContents(r, store, request.snapshotId, []) == Ok(TreeContents(Walker.WalkRoot(rules, tree)))
    requires RestoreContents(r, store, request.snapshotId, request.paths).Ok?
    requires IsFileSystem(nodes) && EmptyDestination(nodes, request.destination)
    ensures PlanRestore(r, store, nodes, behind, request).Ok?
    ensures var scope, root := NormalizePaths(request.paths).value, request.destination;
            forall after :: IsOverlay(nodes, after, PlanRestore(r, store, nodes, behind, request).value) ==>
              HoldsPart(rules, tree, scope, root, nodes, after)
  {
    hide Walker.WellFormed, Walker.WalkRoot, IsFileSystem, EmptyDestination, Preflight, IsOverlay, RestoreContents,
         Compatible, HoldsPart, TreeContents, ItemsOfPart, WantedOf, Within, FirstMissing, NormalizePaths;
    PartialRestoreIsPartOfWhole(r, store, request.snapshotId, request.paths);
    ContentsAreRestorable(r, store, request.snapshotId, request.paths);
    var scope, root := NormalizePaths(request.paths).value, request.destination;
    var wanted := WantedOf(Within(TreeContents(Walker.WalkRoot(rules, tree)), scope));
    PreflightOfEmpty(nodes, behind, root, wanted, request.overwrite);
    PlanIsPart(rules, tree, scope, nodes, behind, root, request.overwrite);
    var items := Preflight(nodes, behind, root, wanted, request.overwrite).value;
    assert PlanRestore(r, store, nodes, behind, request) == Ok(items);
    hide PlanRestore;
    forall after | IsOverlay(nodes, after, items)
      ensures HoldsPart(rules, tree, scope, root, nodes, after)
    {
      OverlayHoldsPart(rules, tree, scope, nodes, after, root, items);
    }
  }

  lemma OverlayHoldsPart(rules: seq<Exclusion.Rule>, tree: Walker.Node, scope: seq<RelPath>, before: Nodes,
                         after: Nodes, root: Path, items: seq<Item>)
    requires Walker.WellFormed(tree) && tree.Dir? && EmptyDestination(before, root)
    requires ItemsOfPart(rules, tree, scope, root, items) && IsOverlay(before, after, items)
    ensures HoldsPart(rules, tree, scope, root, before, after)
  {
    hide Walker.WellFormed, EmptyDestination, ItemsOfPart, IsOverlay, PartHas;
    forall names, x
      ensures (root + names in after && after[root + names] == x)
              <==> PartHas(rules, tree, scope, names, x) || (names == [] && x == FsDir && root in before)
    {
      if root + names in after {
        OverlayIsPart(rules, tree, scope, before, after, root, items, names);
      }
      if PartHas(rules, tree, scope, names, x) || (names == [] && x == FsDir && root in before) {
        PartIsInOverlay(rules, tree, scope, before, after, root, items, names, x);
      }
    }
  }

  /** Without requested paths the part is the whole tree. */
  lemma WholeIsPart(rules: seq<Exclusion.Rule>, tree: Walker.Node, root: Path, before: Nodes, after: Nodes)
    requires tree.Dir? && HoldsPart(rules, tree, [], root, before, after)
    ensures HoldsTree(rules, tree, root, after)
  {
    hide TreeHas, PartHas;
    forall names, x
      ensures (root + names in after && after[root + names] == x) <==> TreeHas(rules, tree, names, x)
    {
      assert (root + names in after && after[root + names] == x)
             <==> PartHas(rules, tree, [], names, x) || (names == [] && x == FsDir && root in before);
      WholeHas(rules, tree, names, x);
      RootIsRestored(rules, tree);
    }
  }

  lemma WholeHas(rules: seq<Exclusion.Rule>, tree: Walker.Node, names: Walker.Names, x: FsNode)
    ensures PartHas(rules, tree, [], names, x) <==> TreeHas(rules, tree, names, x)
  {
    hide TreeHas;
    if IsAboveSelected(rules, tree, [], names) {
      var below, y :| names < below && Selects(rules, tree, [], below, y);
      ParentsAreRestored(rules, tree, below, y, |names|);
      assert below[..|names|] == names;
    }
  }

  /** If the snapshot holds the tree, a full restore into an empty destination rebuilds it. */
  lemma {:induction false} RestoreRebuildsTree(r: Repo, store: Store, rules: seq<Exclusion.Rule>, tree: Walker.Node,
                                               nodes: Nodes, behind: Behind, request: Request)
    requires Walker.WellFormed(tree) && tree.Dir? && request.absolute && request.destination != []
    requires request.paths == []
    requires RestoreContents(r, store, request.snapshotId, []) == Ok(TreeContents(Walker.WalkRoot(rules, tree)))
    requires IsFileSystem(nodes) && EmptyDestination(nodes, request.destination)
    ensures PlanRestore(r, store, nodes, behind, request).Ok?
    ensures forall after :: IsOverlay(nodes, after, PlanRestore(r, store, nodes, behind, request).value) ==>
              HoldsTree(rules, tree, request.destination, after)
  {
    hide Walker.WellFormed, Walker.WalkRoot, IsFileSystem, EmptyDestination, RestoreContents, IsOverlay, HoldsPart,
         HoldsTree, TreeContents, PlanRestore;
    NoPaths();
    RestoreRebuildsPart(r, store, rules, tree, nodes, behind, request);
    forall after | IsOverlay(nodes, after, PlanRestore(r, store, nodes, behind, request).value)
      ensures HoldsTree(rules, tree, request.destination, after)
    {
      WholeIsPart(rules, tree, request.destination, nodes, after);
    }
  }

  lemma EmptyDestinationHasNoSymlink(nodes: Nodes, root: Path)
    requires EmptyDestination(nodes, root)
    ensures NoSymlinkAtOrAbove(nodes, root)
  {
  }

  // ---------- Modification times of the tree ----------

  predicate IsDatedFor(d: Dated, f: Walker.Found) {
    (f.node.File? || f.node.Dir?) && d == Dated(ToRel(f.path), f.node.modified)
  }

  lemma AddedIsDated(c: Contents, f: Walker.Found, d: Dated)
    ensures d in Dates(c) ==> d in Dates(AddFound(c, f))
    ensures IsDatedFor(d, f) ==> d in Dates(AddFound(c, f))
  {
    var more := AddFound(c, f);
    match f.node
    case Dir(_, modified) =>
      assert DirectoryDates(more) == DirectoryDates(c) + [Dated(ToRel(f.path), modified)];
    case File(_, modified) =>
      assert FileDates(more) == FileDates(c) + [Dated(ToRel(f.path), modified)];
    case _ =>
  }

  lemma {:induction false} NodeIsDated(found: seq<Walker.Found>, i: nat, d: Dated)
    requires i < |found| && IsDatedFor(d, found[i])
    ensures d in Dates(TreeContents(found))
    decreases |found|
  {
    hide IsDatedFor, AddFound, Dates;
    var n := |found| - 1;
    AddedIsDated(TreeContents(found[..n]), found[n], d);
    if i < n {
      NodeIsDated(found[..n], i, d);
    }
  }

  lemma DatedWithin(c: Contents, scope: seq<RelPath>, d: Dated)
    requires d in Dates(c) && InScope(d.path, scope)
    ensures d in Dates(Within(c, scope))
  {
    hide Within, InScope;
    var part := Within(c, scope);
    WithinMembers(c, scope);
    if d in FileDates(c) {
      var i :| 0 <= i < |c.files| && FileDates(c)[i] == d;
      var j :| 0 <= j < |part.files| && part.files[j] == c.files[i];
      assert FileDates(part)[j] == d;
    } else {
      var i :| 0 <= i < |c.directories| && DirectoryDates(c)[i] == d;
      var j :| 0 <= j < |part.directories| && part.directories[j] == c.directories[i];
      assert DirectoryDates(part)[j] == d;
    }
  }

  /** Restored files and directories of the tree have their times again. */
  lemma {:induction false} TreeTimesHold(rules: seq<Exclusion.Rule>, tree: Walker.Node, scope: seq<RelPath>,
                                         times: Times, root: Path, names: Walker.Names, n: Walker.Node)
    requires Walker.WellFormed(tree) && Walker.At(tree, names, n) && Walker.NotPruned(rules, names, 0)
    requires (n.File? || n.Dir?) && InScope(ToRel(names), scope)
    requires TimesRestored(times, root, Within(TreeContents(Walker.WalkRoot(rules, tree)), scope))
    ensures HoldsTime(times, root + names, Dated(ToRel(names), n.modified))
  {
    hide Walker.WalkRoot, TreeContents, Dates, Within, InScope, HoldsTime;
    var found, d := Walker.WalkRoot(rules, tree), Dated(ToRel(names), n.modified);
    Walker.WalkIsExact(rules, tree);
    assert Walker.Found(names, n) in found;
    var i :| 0 <= i < |found| && found[i] == Walker.Found(names, n);
    NodeIsDated(found, i, d);
    DatedWithin(TreeContents(found), scope, d);
    NamesComeBack(names);
  }

  /**
   The file system after restoring some or all paths of the tree into an empty
   destination, beside any clients that write to the store meanwhile.
   */
  method RestoreTree(fs: FileSystem, r: Repo, history: nat -> Store, behind: Behind, request: Request,
                     ghost rules: seq<Exclusion.Rule>, ghost tree: Walker.Node)
    returns (result: Result<Report, RestoreError>)
    requires Walker.WellFormed(tree) && tree.Dir? && request.absolute && request.destination != [] && !request.dryRun
    requires Visibility.IsHistory(r, history)
    requires RestoreContents(r, history(0), request.snapshotId, []) == Ok(TreeContents(Walker.WalkRoot(rules, tree)))
    requires RestoreContents(r, history(0), request.snapshotId, request.paths).Ok?
    requires IsFileSystem(fs.nodes) && EmptyDestination(fs.nodes, request.destination)
    modifies fs
    ensures IsFileSystem(fs.nodes) && result.Ok?
    ensures HoldsPart(rules, tree, NormalizePaths(request.paths).value, request.destination, old(fs.nodes), fs.nodes)
    ensures var scope, root := NormalizePaths(request.paths).value, request.destination;
            forall names, n ::
              Walker.At(tree, names, n) && Walker.NotPruned(rules, names, 0) && (n.File? || n.Dir?)
              && InScope(ToRel(names), scope) ==>
                HoldsTime(fs.times, root + names, Dated(ToRel(names), n.modified))
  {
    hide Walker.WellFormed, Walker.WalkRoot, IsFileSystem, EmptyDestination, RestoreContents, PlanOf, IsOverlay,
         HoldsPart, TreeContents, NoSymlinkAtOrAbove, Within, FirstMissing, NormalizePaths, TimesRestored, HoldsTime,
         ReportOf, SelectedEntries, RestoreAlong, Visibility.IsHistory, ReadManifest;
    ghost var before, root := fs.nodes, request.destination;
    EmptyDestinationHasNoSymlink(before, root);
    RestoreRebuildsPart(r, history(0), rules, tree, before, behind, request);
    PartialRestoreIsPartOfWhole(r, history(0), request.snapshotId, request.paths);
    ReadingRuns.RestoreBesideRun(r, history, request.snapshotId, request.paths);
    result := fs.RestoreToDestination(r, history, behind, request);
    ghost var scope := NormalizePaths(request.paths).value;
    forall names, n | Walker.At(tree, names, n) && Walker.NotPruned(rules, names, 0) && (n.File? || n.Dir?)
                      && InScope(ToRel(names), scope)
      ensures HoldsTime(fs.times, root + names, Dated(ToRel(names), n.modified))
    {
      TreeTimesHold(rules, tree, scope, fs.times, root, names, n);
    }
  }

  /**
   From one tree to the next: a backup of an unchanging tree that is done, any
   later steps of any clients, and a restore into an empty destination.
   */
  lemma {:induction false} BackupThenRebuild(r: Repo, policy: Retention.Policy, w0: World, events: seq<Event>,
                                             more: seq<Event>, c: nat, env: W.Env, rules: seq<Exclusion.Rule>,
                                             tree: Walker.Node, nodes: Nodes, behind: Behind, request: Request)
    requires CollisionFree(r) && Init(w0) && HasBackedUp(Run(r, policy, w0, events), c, env, rules, tree)
    requires IsFileSystem(nodes) && EmptyDestination(nodes, request.destination)
    requires request.absolute && request.destination != [] && request.paths == []
    requires request.snapshotId == SnapshotOfClient(r, Run(r, policy, w0, events).clients[c])
    ensures var store := Run(r, policy, Run(r, policy, w0, events), more).store;
            var plan := PlanRestore(r, store, nodes, behind, request);
            plan.Ok?
            && forall after :: IsOverlay(nodes, after, plan.value) ==>
                 HoldsTree(rules, tree, request.destination, after)
  {
    hide CollisionFree, Init, Run, IsFileSystem, EmptyDestination, Walker.WellFormed, W.JobMatches, ReadsTree, SizesFit,
         ChunkerCovers, RestoreContents, IsOverlay, HoldsTree, PlanRestore, Walker.WalkRoot, SnapshotOfClient;
    RestoreReturnsTheTree(r, policy, w0, events, more, c, env, rules, tree);
    RestoreRebuildsTree(r, Run(r, policy, Run(r, policy, w0, events), more).store, rules, tree, nodes, behind, request);
  }

  /** The walk lists this path. */
  ghost predicate WalksTo(rules: seq<Exclusion.Rule>, tree: Walker.Node, path: RelPath) {
    exists names, n :: path == ToRel(names) && Walker.At(tree, names, n) && Walker.NotPruned(rules, names, 0)
  }

  /** Something at or below a path is listed exactly when the path is. */
  lemma {:induction false} UnderMeansWalksTo(rules: seq<Exclusion.Rule>, tree: Walker.Node, entries: seq<Entry>,
                                             path: RelPath)
    requires Walker.WellFormed(tree)
    requires var found := Walker.WalkRoot(rules, tree);
             |entries| == |found| && forall i :: 0 <= i < |found| ==> entries[i].path == ToRel(found[i].path)
    ensures HasEntryUnder(entries, path) <==> WalksTo(rules, tree, path)
  {
    hide Walker.WalkRoot, Walker.WellFormed;
    var found := Walker.WalkRoot(rules, tree);
    Walker.WalkIsExact(rules, tree);
    if HasEntryUnder(entries, path) {
      var i :| 0 <= i < |entries| && path <= entries[i].path;
      assert found[i] in found;
      PrefixWalksTo(rules, tree, found[i].path, found[i].node, path);
    }
    if WalksTo(rules, tree, path) {
      var names, n :| path == ToRel(names) && Walker.At(tree, names, n) && Walker.NotPruned(rules, names, 0);
      assert Walker.Found(names, n) in found;
      var i :| 0 <= i < |found| && found[i] == Walker.Found(names, n);
      assert path <= entries[i].path;
    }
  }

  lemma PrefixWalksTo(rules: seq<Exclusion.Rule>, tree: Walker.Node, names: Walker.Names, n: Walker.Node, path: RelPath)
    requires Walker.At(tree, names, n) && Walker.NotPruned(rules, names, 0) && path <= ToRel(names)
    ensures WalksTo(rules, tree, path)
  {
    var k := |path|;
    assert path == ToRel(names[..k]);
    assert forall l :: 0 < l <= k ==> names[..k][..l] == names[..l];
    if k == |names| {
      assert names[..k] == names;
    } else {
      var dir := Walker.AncestorsAreDirs(tree, names, n, k);
    }
  }

  /**
   The same for requested paths: the restore is planned exactly when they can
   be normalized and the walk lists them all, and leaves what of the tree lies
   at or below them, and the directories that lead there.
   */
  lemma {:induction false} BackupThenRebuildPart(r: Repo, policy: Retention.Policy, w0: World, events: seq<Event>,
                                                 more: seq<Event>, c: nat, env: W.Env, rules: seq<Exclusion.Rule>,
                                                 tree: Walker.Node, nodes: Nodes, behind: Behind, request: Request)
    requires CollisionFree(r) && Init(w0) && HasBackedUp(Run(r, policy, w0, events), c, env, rules, tree)
    requires IsFileSystem(nodes) && EmptyDestination(nodes, request.destination)
    requires request.absolute && request.destination != []
    requires request.snapshotId == SnapshotOfClient(r, Run(r, policy, w0, events).clients[c])
    ensures var store := Run(r, policy, Run(r, policy, w0, events), more).store;
            var scope, root := NormalizePaths(request.paths), request.destination;
            var plan := PlanRestore(r, store, nodes, behind, request);
            && (plan.Ok? <==> scope.Ok? && forall i :: 0 <= i < |scope.value| ==> WalksTo(rules, tree, scope.value[i]))
            && (plan.Ok? ==>
                  forall after :: IsOverlay(nodes, after, plan.value) ==>
                    HoldsPart(rules, tree, scope.value, root, nodes, after))
  {
    hide CollisionFree, Init, Run, IsFileSystem, EmptyDestination, Walker.WellFormed, W.JobMatches, ReadsTree, SizesFit,
         ChunkerCovers, RestoreContents, IsOverlay, HoldsPart, WalksTo, Walker.WalkRoot, SnapshotOfClient,
         NormalizePaths, ReadManifest, FirstMissing, HasEntryUnder, Within;
    var w := Run(r, policy, w0, events);
    var store := Run(r, policy, w, more).store;
    RestoreReturnsTheTree(r, policy, w0, events, more, c, env, rules, tree);
    ManifestListsTheWalk(r, policy, w0, events, more, c, env, rules, tree);
    PartialRestoreIsPartOfWhole(r, store, request.snapshotId, request.paths);
    var scope, entries := NormalizePaths(request.paths), ReadManifest(r, store, request.snapshotId).value.body.entries;
    if scope.Ok? {
      FirstMissingMeaning(entries, scope.value);
      forall i | 0 <= i < |scope.value|
        ensures HasEntryUnder(entries, scope.value[i]) <==> WalksTo(rules, tree, scope.value[i])
      {
        UnderMeansWalksTo(rules, tree, entries, scope.value[i]);
      }
    }
    if RestoreContents(r, store, request.snapshotId, request.paths).Ok? {
      RestoreRebuildsPart(r, store, rules, tree, nodes, behind, request);
    }
  }
}
