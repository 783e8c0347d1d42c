/**
 The writing half of `restore_snapshot_to_destination`
 (crates/fileferry-core/src/lib.rs): for a validated manifest, a successful
 preflight means that no write can fail, and the result is the old file
 system overlaid with the selection.
 */
module DestinationWrites {
  import opened Common
  import opened Repository
  import opened Manifests
  import opened Readers
  import opened Destination
  import opened SteadyReads

  // ---------- What is wanted from a validated manifest ----------

  function KindOf(node: FsNode): Kind {
    match node
    case FsFile(_) => RegularFile
    case FsDir => Directory
    case FsSymlink(_) => Symlink
    case FsOther => Other
  }

  predicate HasEntry(entries: seq<Entry>, p: RelPath, kind: Kind) {
    exists i :: 0 <= i < |entries| && entries[i].path == p && entries[i].metadata.kind == kind
  }

  predicate DistinctWanted(wanted: seq<Wanted>) {
    forall i, j :: 0 <= i < j < |wanted| ==> wanted[i].path != wanted[j].path
  }

  /** Distinct paths that the entries record with this kind. */
  predicate Fits(wanted: seq<Wanted>, entries: seq<Entry>, kind: Kind) {
    DistinctWanted(wanted)
    && forall i :: 0 <= i < |wanted| ==> KindOf(wanted[i].node) == kind && HasEntry(entries, wanted[i].path, kind)
  }

  lemma FitsMore(wanted: seq<Wanted>, entries: seq<Entry>, e: Entry, kind: Kind)
    requires Fits(wanted, entries, kind)
    ensures Fits(wanted, entries + [e], kind)
  {
    forall i | 0 <= i < |wanted|
      ensures HasEntry(entries + [e], wanted[i].path, kind)
    {
      var j :| 0 <= j < |entries| && entries[j].path == wanted[i].path && entries[j].metadata.kind == kind;
      assert (entries + [e])[j] == entries[j];
    }
  }

  lemma FitsOneMore(wanted: seq<Wanted>, entries: seq<Entry>, e: Entry, w: Wanted)
    requires Fits(wanted, entries, e.metadata.kind) && DistinctPaths(entries + [e])
    requires w.path == e.path && KindOf(w.node) == e.metadata.kind
    ensures Fits(wanted + [w], entries + [e], e.metadata.kind)
  {
    FitsMore(wanted, entries, e, e.metadata.kind);
    var all := entries + [e];
    forall i | 0 <= i < |wanted|
      ensures wanted[i].path != w.path
    {
      var j :| 0 <= j < |entries| && entries[j].path == wanted[i].path && entries[j].metadata.kind == e.metadata.kind;
      assert all[j].path != all[|entries|].path;
    }
    assert all[|entries|] == e;
  }

  predicate ContentsFit(c: Contents, entries: seq<Entry>) {
    && Fits(DirectoriesOf(c), entries, Directory)
    && Fits(FilesOf(c), entries, RegularFile)
    && Fits(SymlinksOf(c), entries, Symlink)
  }

  lemma EntryFits(c: Contents, entries: seq<Entry>, e: Entry, data: Data)
    requires ContentsFit(c, entries) && DistinctPaths(entries + [e])
    ensures ContentsFit(AddRestored(c, e.path, e.metadata, data), entries + [e])
  {
    hide Fits;
    var after := AddRestored(c, e.path, e.metadata, data);
    FitsMore(DirectoriesOf(c), entries, e, Directory);
    FitsMore(FilesOf(c), entries, e, RegularFile);
    FitsMore(SymlinksOf(c), entries, e, Symlink);
    match e.metadata.kind
    case Directory =>
      FitsOneMore(DirectoriesOf(c), entries, e, Wanted(e.path, FsDir));
      assert DirectoriesOf(after) == DirectoriesOf(c) + [Wanted(e.path, FsDir)];
    case RegularFile =>
      var w := Wanted(e.path, FsFile(data));
      FitsOneMore(FilesOf(c), entries, e, w);
      assert FilesOf(after) == FilesOf(c) + [w];
    case Symlink =>
      if e.metadata.symlinkTarget.Captured? {
        var w := Wanted(e.path, FsSymlink(e.metadata.symlinkTarget.value));
        FitsOneMore(SymlinksOf(c), entries, e, w);
        assert SymlinksOf(after) == SymlinksOf(c) + [w];
      }
    case Other =>
  }

  lemma NothingFits()
    ensures ContentsFit(NOTHING, [])
  {
  }

  lemma {:induction false} RestoredBefore(r: Repo, history: nat -> Store, index: IndexMap, entries: seq<Entry>, at: nat)
    requires entries != [] && RestoreEntriesAlong(r, history, index, entries, at).Ok?
    ensures RestoreEntriesAlong(r, history, index, entries[..|entries| - 1], at).Ok?
  {
    hide RestoreEntryAlong, Reads;
  }

  lemma {:induction false} RestoredFits(r: Repo, history: nat -> Store, index: IndexMap, entries: seq<Entry>, at: nat)
    requires DistinctPaths(entries) && RestoreEntriesAlong(r, history, index, entries, at).Ok?
    ensures ContentsFit(RestoreEntriesAlong(r, history, index, entries, at).value, entries)
    decreases |entries|
  {
    hide AddRestored, RestoreFileAlong, Reads, RestoreEntryAlong, ContentsFit, RestoreEntriesAlong;
    if entries == [] {
      NothingRestored(r, history, index, at);
      NothingFits();
    } else {
      var n := |entries| - 1;
      var init, e := entries[..n], entries[n];
      assert entries == init + [e] && entries[..n + 1] == entries;
      RestoredBefore(r, history, index, entries, at);
      RestoredFits(r, history, index, init, at);
      RestoreEntriesStep(r, history, index, entries, at, n);
      hide DistinctPaths;
      var before := RestoreEntriesAlong(r, history, index, init, at).value;
      EntryIsAdded(r, history, index, before, e, at + Reads(init));
      var data := if e.metadata.kind == RegularFile then RestoreFileAlong(r, history, index, e.chunks, at + Reads(init))
                  else Ok([]);
      EntryFits(before, init, e, data.value);
    }
  }

  lemma {:induction false} ScopedIsPart(entries: seq<Entry>, scope: seq<RelPath>)
    requires DistinctPaths(entries)
    ensures DistinctPaths(Scoped(entries, scope))
    ensures forall p, kind :: HasEntry(Scoped(entries, scope), p, kind) ==> HasEntry(entries, p, kind)
    decreases |entries|
  {
    if entries != [] {
      var init, e := entries[..|entries| - 1], entries[|entries| - 1];
      ScopedIsPart(init, scope);
      var before, after := Scoped(init, scope), Scoped(entries, scope);
      forall p, kind | HasEntry(after, p, kind)
        ensures HasEntry(entries, p, kind)
      {
        var i :| 0 <= i < |after| && after[i].path == p && after[i].metadata.kind == kind;
        if i < |before| {
          assert HasEntry(before, p, kind);
          var j :| 0 <= j < |init| && init[j].path == p && init[j].metadata.kind == kind;
          assert entries[j] == init[j];
        } else {
          assert entries[|entries| - 1] == after[i];
        }
      }
      forall i | 0 <= i < |before|
        ensures before[i].path != e.path
      {
        assert HasEntry(before, before[i].path, before[i].metadata.kind);
        var j :| 0 <= j < |init| && init[j].path == before[i].path && init[j].metadata.kind == before[i].metadata.kind;
        assert entries[j].path != entries[|entries| - 1].path;
      }
    }
  }

  /** A set of nodes that can stand together in one tree. */
  predicate Compatible(wanted: seq<Wanted>) {
    && DistinctWanted(wanted)
    && (forall i :: 0 <= i < |wanted| ==> IsNormal(wanted[i].path) && !wanted[i].node.FsOther?)
    && (forall i :: 0 <= i < |wanted| && wanted[i].path == [] ==> wanted[i].node == FsDir)
    && (forall i, j :: 0 <= i < |wanted| && 0 <= j < |wanted| && wanted[i].path < wanted[j].path ==>
          wanted[i].node == FsDir)
  }

  lemma WantedHasEntry(c: Contents, entries: seq<Entry>, i: nat)
    requires ContentsFit(c, entries) && i < |WantedOf(c)|
    ensures HasEntry(entries, WantedOf(c)[i].path, KindOf(WantedOf(c)[i].node)) && !WantedOf(c)[i].node.FsOther?
  {
    hide HasEntry;
  }

  lemma KindsAreUnique(entries: seq<Entry>, p: RelPath, a: Kind, b: Kind)
    requires DistinctPaths(entries) && HasEntry(entries, p, a) && HasEntry(entries, p, b)
    ensures a == b
  {
  }

  lemma WantedIsDistinct(c: Contents, entries: seq<Entry>, i: nat, j: nat)
    requires ContentsFit(c, entries) && DistinctPaths(entries) && i < j < |WantedOf(c)|
    ensures WantedOf(c)[i].path != WantedOf(c)[j].path
  {
    hide HasEntry, DistinctPaths;
    var w := WantedOf(c);
    var d, f := |c.directories|, |c.directories| + |c.files|;
    if j < d {
      assert DirectoriesOf(c)[i].path != DirectoriesOf(c)[j].path;
    } else if d <= i && j < f {
      assert FilesOf(c)[i - d].path != FilesOf(c)[j - d].path;
    } else if f <= i {
      assert SymlinksOf(c)[i - f].path != SymlinksOf(c)[j - f].path;
    } else {
      WantedHasEntry(c, entries, i);
      WantedHasEntry(c, entries, j);
      if w[i].path == w[j].path {
        KindsAreUnique(entries, w[i].path, KindOf(w[i].node), KindOf(w[j].node));
      }
    }
  }

  lemma ContentsAreCompatible(c: Contents, entries: seq<Entry>)
    requires ContentsFit(c, entries) && ValidEntries(entries)
    ensures Compatible(WantedOf(c))
  {
    hide ContentsFit, WantedOf, HasEntry, ValidEntry, SizeMatches;
    var w := WantedOf(c);
    forall i, j | 0 <= i < j < |w|
      ensures w[i].path != w[j].path
    {
      WantedIsDistinct(c, entries, i, j);
    }
    forall i | 0 <= i < |w|
      ensures IsNormal(w[i].path) && !w[i].node.FsOther? && (w[i].path == [] ==> w[i].node == FsDir)
    {
      WantedHasEntry(c, entries, i);
      RecordedPathIsValid(entries, w[i].path, KindOf(w[i].node));
    }
    forall i, j | 0 <= i < |w| && 0 <= j < |w| && w[i].path < w[j].path
      ensures w[i].node == FsDir
    {
      WantedHasEntry(c, entries, i);
      WantedHasEntry(c, entries, j);
      RecordedAncestorIsDirectory(entries, w[i].path, KindOf(w[i].node), w[j].path, KindOf(w[j].node));
    }
  }

  lemma RecordedPathIsValid(entries: seq<Entry>, p: RelPath, kind: Kind)
    requires ValidEntries(entries) && HasEntry(entries, p, kind)
    ensures IsNormal(p) && (p == [] ==> kind == Directory)
  {
    var i :| 0 <= i < |entries| && entries[i].path == p && entries[i].metadata.kind == kind;
    assert ValidEntry(entries[i]);
  }

  lemma RecordedAncestorIsDirectory(entries: seq<Entry>, p: RelPath, kind: Kind, q: RelPath, below: Kind)
    requires ValidEntries(entries) && HasEntry(entries, p, kind) && HasEntry(entries, q, below) && p < q
    ensures kind == Directory
  {
    var i :| 0 <= i < |entries| && entries[i].path == p && entries[i].metadata.kind == kind;
    var j :| 0 <= j < |entries| && entries[j].path == q && entries[j].metadata.kind == below;
    assert ValidEntry(entries[i]);
    assert IsProperAncestor(entries[i].path, entries[j].path);
  }

  /** Whatever is restored from a repository, beside whatever others do, can stand together in one tree. */
  lemma RestoredIsCompatible(r: Repo, history: nat -> Store, id: Id, paths: seq<RelPath>)
    requires RestoreAlong(r, history, id, paths).Ok?
    ensures Compatible(WantedOf(RestoreAlong(r, history, id, paths).value))
  {
    hide Compatible, ValidEntry, LoadIndexesAlong, RestoreEntriesAlong, WantedOf, HasEntry, ContentsFit,
         AncestorsAreDirectories;
    var scope := NormalizePaths(paths).value;
    var m := ReadManifest(r, history(0), id).value;
    var index := LoadIndexesAlong(r, history, m.body.indexIds, 1).value;
    var part, at := Scoped(m.body.entries, scope), 1 + |m.body.indexIds|;
    ScopedIsPart(m.body.entries, scope);
    RestoredFits(r, history, index, part, at);
    FitsWhole(RestoreEntriesAlong(r, history, index, part, at).value, part, m.body.entries);
    ContentsAreCompatible(RestoreEntriesAlong(r, history, index, part, at).value, m.body.entries);
  }

  lemma ContentsAreRestorable(r: Repo, store: Store, id: Id, paths: seq<RelPath>)
    requires RestoreContents(r, store, id, paths).Ok?
    ensures Compatible(WantedOf(RestoreContents(r, store, id, paths).value))
  {
    hide Compatible, WantedOf, RestoreAlong, RestoreContents;
    var history := (n: nat) => store;
    RestoreOfOneState(r, history, store, id, paths);
    RestoredIsCompatible(r, history, id, paths);
  }

  lemma FitsWhole(c: Contents, part: seq<Entry>, entries: seq<Entry>)
    requires ContentsFit(c, part)
    requires forall p, kind :: HasEntry(part, p, kind) ==> HasEntry(entries, p, kind)
    ensures ContentsFit(c, entries)
  {
    hide HasEntry;
  }

  // ---------- Preflight rules out every conflict ----------

  lemma NamesAreInjective(a: RelPath, b: RelPath)
    requires IsNormal(a) && IsNormal(b)
    ensures NamesOf(a) == NamesOf(b) ==> a == b
    ensures NamesOf(a) < NamesOf(b) ==> a < b
  {
    forall i | 0 <= i < |a| && i < |b| && NamesOf(a)[i] == NamesOf(b)[i]
      ensures a[i] == b[i]
    {
    }
    if NamesOf(a) < NamesOf(b) {
      assert forall i :: 0 <= i < |a| ==> NamesOf(a)[i] == NamesOf(b)[i];
    } else if NamesOf(a) == NamesOf(b) {
      assert forall i :: 0 <= i < |a| ==> NamesOf(a)[i] == NamesOf(b)[i];
    }
  }

  /** Where a wanted node goes. */
  function ItemOf(root: Path, w: Wanted): Item
    requires IsNormal(w.path)
  {
    Item(root + NamesOf(w.path), w.node)
  }

  lemma ItemsCompare(root: Path, v: Wanted, w: Wanted)
    requires IsNormal(v.path) && IsNormal(w.path)
    ensures ItemOf(root, v).path == ItemOf(root, w).path ==> v.path == w.path
    ensures ItemOf(root, v).path < ItemOf(root, w).path ==> v.path < w.path
  {
    var a, b, n := ItemOf(root, v).path, ItemOf(root, w).path, |root|;
    assert a[n..] == NamesOf(v.path) && b[n..] == NamesOf(w.path);
    NamesAreInjective(v.path, w.path);
    if a < b {
      assert b[n..][..|a| - n] == b[..|a|][n..];
    }
  }

  lemma {:induction false} PreflightMeaning(nodes: Nodes, behind: Behind, root: Path, wanted: seq<Wanted>,
                                            overwrite: bool)
    requires forall i :: 0 <= i < |wanted| ==> IsNormal(wanted[i].path)
    ensures var result := Preflight(nodes, behind, root, wanted, overwrite);
            result.Ok? ==> |result.value| == |wanted|
                           && forall i :: 0 <= i < |wanted| ==>
                                result.value[i] == ItemOf(root, wanted[i])
                                && EnsureSafe(nodes, behind, root, result.value[i], overwrite).Ok?
    ensures Preflight(nodes, behind, root, wanted, overwrite).Ok?
            <== forall i :: 0 <= i < |wanted| ==>
                  EnsureSafe(nodes, behind, root, ItemOf(root, wanted[i]), overwrite).Ok?
    decreases |wanted|
  {
    hide EnsureSafe, Preflight, ItemOf;
    if wanted == [] {
      NoPreflight(nodes, behind, root, overwrite);
    } else {
      PreflightMeaning(nodes, behind, root, wanted[..|wanted| - 1], overwrite);
      PreflightLast(nodes, behind, root, wanted, overwrite);
    }
  }

  lemma NoPreflight(nodes: Nodes, behind: Behind, root: Path, overwrite: bool)
    ensures Preflight(nodes, behind, root, [], overwrite) == Ok([])
  {
  }

  lemma {:induction false} PreflightLast(nodes: Nodes, behind: Behind, root: Path, wanted: seq<Wanted>, overwrite: bool)
    requires wanted != [] && IsNormal(wanted[|wanted| - 1].path)
    ensures var n := |wanted| - 1;
            var before, item := Preflight(nodes, behind, root, wanted[..n], overwrite), ItemOf(root, wanted[n]);
            Preflight(nodes, behind, root, wanted, overwrite)
            == if before.Err? || EnsureSafe(nodes, behind, root, item, overwrite).Ok?
               then if before.Err? then before else Ok(before.value + [item])
               else Err(EnsureSafe(nodes, behind, root, item, overwrite).error)
  {
    hide EnsureSafe;
    var n := |wanted| - 1;
    NormalStaysItself(wanted[n].path);
    assert DestinationOf(root, wanted[n].path) == Ok(ItemOf(root, wanted[n]).path);
  }

  /** A successful preflight of what a manifest describes leaves nothing for a write to trip over. */
  lemma {:induction false} PreflightMeansNoConflicts(nodes: Nodes, behind: Behind, root: Path, wanted: seq<Wanted>,
                                                     overwrite: bool)
    requires IsFileSystem(nodes) && NoSymlinkAtOrAbove(nodes, root) && Compatible(wanted)
    requires Preflight(nodes, behind, root, wanted, overwrite).Ok?
    ensures NoConflicts(nodes, Preflight(nodes, behind, root, wanted, overwrite).value, overwrite)
  {
    hide IsFileSystem, NoSymlinkAtOrAbove, EnsureSafe, Preflight, Writable, ItemOf;
    var items := Preflight(nodes, behind, root, wanted, overwrite).value;
    PreflightMeaning(nodes, behind, root, wanted, overwrite);
    forall i | 0 <= i < |items|
      ensures Writable(nodes, items[i], overwrite) && items[i].node == wanted[i].node
    {
      ItemIsWritable(nodes, behind, root, wanted[i], overwrite);
    }
    forall i, j | 0 <= i < |items| && 0 <= j < |items|
      ensures items[i].path == items[j].path ==> wanted[i].path == wanted[j].path
      ensures items[i].path < items[j].path ==> wanted[i].path < wanted[j].path
    {
      ItemsCompare(root, wanted[i], wanted[j]);
    }
  }

  /** The preflight succeeds exactly when each thing can be written. */
  lemma {:induction false} PreflightExactly(nodes: Nodes, behind: Behind, root: Path, wanted: seq<Wanted>,
                                            overwrite: bool)
    requires IsFileSystem(nodes) && NoSymlinkAtOrAbove(nodes, root) && Compatible(wanted)
    ensures Preflight(nodes, behind, root, wanted, overwrite).Ok?
            <==> forall i :: 0 <= i < |wanted| ==> Writable(nodes, ItemOf(root, wanted[i]), overwrite)
  {
    hide IsFileSystem, NoSymlinkAtOrAbove, EnsureSafe, Preflight, Writable, ItemOf;
    PreflightMeaning(nodes, behind, root, wanted, overwrite);
    forall i | 0 <= i < |wanted|
      ensures EnsureSafe(nodes, behind, root, ItemOf(root, wanted[i]), overwrite).Ok?
              <==> Writable(nodes, ItemOf(root, wanted[i]), overwrite)
    {
      ItemIsSafeExactly(nodes, behind, root, wanted[i], overwrite);
    }
  }

  lemma ItemIsSafeExactly(nodes: Nodes, behind: Behind, root: Path, w: Wanted, overwrite: bool)
    requires IsFileSystem(nodes) && NoSymlinkAtOrAbove(nodes, root) && IsNormal(w.path)
    requires !w.node.FsOther? && (w.path == [] ==> w.node == FsDir)
    ensures EnsureSafe(nodes, behind, root, ItemOf(root, w), overwrite).Ok?
            <==> Writable(nodes, ItemOf(root, w), overwrite)
  {
    hide IsFileSystem, NoSymlinkAtOrAbove, EnsureSafe, Writable;
    var item := ItemOf(root, w);
    assert item.path == root ==> |w.path| == 0;
    SafeExactly(nodes, behind, root, item, overwrite);
  }

  // ---------- The same of the contents, field by field ----------

  /** Each directory, file and symlink can be written below the root. */
  ghost predicate CanRestore(nodes: Nodes, root: Path, c: Contents, overwrite: bool) {
    && (forall d :: d in c.directories && IsNormal(d.path) ==>
          Writable(nodes, Item(root + NamesOf(d.path), FsDir), overwrite))
    && (forall f :: f in c.files && IsNormal(f.path) ==>
          Writable(nodes, Item(root + NamesOf(f.path), FsFile(f.contents)), overwrite))
    && (forall s :: s in c.symlinks && IsNormal(s.path) ==>
          Writable(nodes, Item(root + NamesOf(s.path), FsSymlink(s.target)), overwrite))
  }

  /** Each directory, file and symlink is there, with the bytes or the target it had. */
  ghost predicate IsRestored(nodes: Nodes, root: Path, c: Contents) {
    && (forall d :: d in c.directories && IsNormal(d.path) ==>
          var p := root + NamesOf(d.path); p in nodes && nodes[p] == FsDir)
    && (forall f :: f in c.files && IsNormal(f.path) ==>
          var p := root + NamesOf(f.path); p in nodes && nodes[p] == FsFile(f.contents))
    && (forall s :: s in c.symlinks && IsNormal(s.path) ==>
          var p := root + NamesOf(s.path); p in nodes && nodes[p] == FsSymlink(s.target))
  }

  ghost predicate ContentsAreNormal(c: Contents) {
    && (forall d :: d in c.directories ==> IsNormal(d.path))
    && (forall f :: f in c.files ==> IsNormal(f.path))
    && (forall s :: s in c.symlinks ==> IsNormal(s.path))
  }

  /** Everything that is wanted is a directory, file or symlink of the contents, and the other way round. */
  lemma WantedMembers(c: Contents, w: Wanted)
    ensures w in WantedOf(c)
            <==> || (exists d :: d in c.directories && w == Wanted(d.path, FsDir))
                 || (exists f :: f in c.files && w == Wanted(f.path, FsFile(f.contents)))
                 || (exists s :: s in c.symlinks && w == Wanted(s.path, FsSymlink(s.target)))
  {
    hide WantedOf;
    WantedParts(c, w);
    if d :| d in c.directories && w == Wanted(d.path, FsDir) {
      var i :| 0 <= i < |c.directories| && c.directories[i] == d;
      assert DirectoriesOf(c)[i] == w;
    }
    if f :| f in c.files && w == Wanted(f.path, FsFile(f.contents)) {
      var i :| 0 <= i < |c.files| && c.files[i] == f;
      assert FilesOf(c)[i] == w;
    }
    if s :| s in c.symlinks && w == Wanted(s.path, FsSymlink(s.target)) {
      var i :| 0 <= i < |c.symlinks| && c.symlinks[i] == s;
      assert SymlinksOf(c)[i] == w;
    }
  }

  lemma WantedParts(c: Contents, w: Wanted)
    ensures w in WantedOf(c) <==> w in DirectoriesOf(c) || w in FilesOf(c) || w in SymlinksOf(c)
  {
    hide DirectoriesOf, FilesOf, SymlinksOf;
  }

  lemma WantedIsNormal(c: Contents)
    requires Compatible(WantedOf(c))
    ensures ContentsAreNormal(c)
  {
    hide WantedOf;
    forall d | d in c.directories ensures IsNormal(d.path) {
      WantedMembers(c, Wanted(d.path, FsDir));
    }
    forall f | f in c.files ensures IsNormal(f.path) {
      WantedMembers(c, Wanted(f.path, FsFile(f.contents)));
    }
    forall s | s in c.symlinks ensures IsNormal(s.path) {
      WantedMembers(c, Wanted(s.path, FsSymlink(s.target)));
    }
  }

  lemma ItemsCanBeWritten(nodes: Nodes, root: Path, c: Contents, overwrite: bool)
    requires Compatible(WantedOf(c))
    ensures CanRestore(nodes, root, c, overwrite)
            <==> forall w :: w in WantedOf(c) ==> Writable(nodes, ItemOf(root, w), overwrite)
  {
    hide WantedOf, Writable, Compatible;
    WantedIsNormal(c);
    forall w { WantedMembers(c, w); }
    if CanRestore(nodes, root, c, overwrite) {
      forall w | w in WantedOf(c) ensures Writable(nodes, ItemOf(root, w), overwrite) {
      }
    }
    if forall w :: w in WantedOf(c) ==> Writable(nodes, ItemOf(root, w), overwrite) {
      forall d | d in c.directories
        ensures Writable(nodes, Item(root + NamesOf(d.path), FsDir), overwrite)
      {
        assert Wanted(d.path, FsDir) in WantedOf(c);
      }
      forall f | f in c.files
        ensures Writable(nodes, Item(root + NamesOf(f.path), FsFile(f.contents)), overwrite)
      {
        assert Wanted(f.path, FsFile(f.contents)) in WantedOf(c);
      }
      forall s | s in c.symlinks
        ensures Writable(nodes, Item(root + NamesOf(s.path), FsSymlink(s.target)), overwrite)
      {
        assert Wanted(s.path, FsSymlink(s.target)) in WantedOf(c);
      }
    }
  }

  /** Preparing succeeds exactly when nothing is in the way of any directory, file or symlink. */
  lemma {:induction false} PreparesExactly(nodes: Nodes, behind: Behind, root: Path, c: Contents, overwrite: bool)
    requires IsFileSystem(nodes) && NoSymlinkAtOrAbove(nodes, root) && Compatible(WantedOf(c))
    ensures Preflight(nodes, behind, root, WantedOf(c), overwrite).Ok? <==> CanRestore(nodes, root, c, overwrite)
  {
    hide IsFileSystem, NoSymlinkAtOrAbove, Preflight, Writable, ItemOf, WantedOf, CanRestore;
    PreflightExactly(nodes, behind, root, WantedOf(c), overwrite);
    ItemsCanBeWritten(nodes, root, c, overwrite);
  }

  lemma ItemIsWritable(nodes: Nodes, behind: Behind, root: Path, w: Wanted, overwrite: bool)
    requires IsFileSystem(nodes) && NoSymlinkAtOrAbove(nodes, root) && IsNormal(w.path)
    requires !w.node.FsOther? && (w.path == [] ==> w.node == FsDir)
    requires EnsureSafe(nodes, behind, root, ItemOf(root, w), overwrite).Ok?
    ensures Writable(nodes, ItemOf(root, w), overwrite) && ItemOf(root, w).node == w.node
  {
    hide IsFileSystem, NoSymlinkAtOrAbove, EnsureSafe, Writable;
    var item := ItemOf(root, w);
    assert item.path == root ==> |w.path| == 0;
    SafeIsWritable(nodes, behind, root, item, overwrite);
  }
}
