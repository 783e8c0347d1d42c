/**
 `restore_snapshot_to_destination` (crates/fileferry-core/src/lib.rs) on a
 file system that it changes in place.
 */
module FileSystems {
  import opened Common
  import opened Repository
  import opened Manifests
  import opened Readers
  import opened Destination
  import opened DestinationWrites
  import opened ModTimes

  // ---------- The old file system overlaid with what was written ----------

  predicate AtOrAboveSome(items: seq<Item>, q: Path) {
    exists i :: 0 <= i < |items| && q <= items[i].path
  }

  predicate IsItemPath(items: seq<Item>, q: Path) {
    exists i :: 0 <= i < |items| && items[i].path == q
  }

  /** Paths above an item are there; all but the items is as before, and new directories are added only there. */
  predicate PathOverlaid(before: Nodes, after: Nodes, items: seq<Item>, q: Path) {
    && (q in after <==> q in before || AtOrAboveSome(items, q))
    && (q in after && !IsItemPath(items, q) ==> after[q] == if q in before then before[q] else FsDir)
  }

  predicate HoldsItem(nodes: Nodes, item: Item) {
    item.path in nodes && nodes[item.path] == item.node
  }

  /** Each item is there, the directories leading to it were added where missing, and all else is as before. */
  ghost predicate IsOverlay(before: Nodes, after: Nodes, items: seq<Item>) {
    && (forall q :: PathOverlaid(before, after, items, q))
    && (forall i :: 0 <= i < |items| ==> HoldsItem(after, items[i]))
  }

  predicate PathAdded(before: Nodes, after: Nodes, p: Path, k: nat, q: Path) {
    && (q in after <==> q in before || (q <= p && |q| < k))
    && (q in after ==> after[q] == if q in before then before[q] else FsDir)
  }

  /** `before` with a directory for each missing prefix of `p` that is shorter than `k`. */
  ghost predicate HasDirectories(before: Nodes, after: Nodes, p: Path, k: nat) {
    forall q :: PathAdded(before, after, p, k, q)
  }

  predicate PathWritten(before: Nodes, after: Nodes, item: Item, q: Path) {
    && (q in after <==> q in before || q <= item.path)
    && (q in after ==> after[q] == if q == item.path then item.node else if q in before then before[q] else FsDir)
  }

  /** The effect of one write. */
  ghost predicate Wrote(before: Nodes, after: Nodes, item: Item) {
    forall q :: PathWritten(before, after, item, q)
  }

  lemma NothingWritten(nodes: Nodes)
    ensures IsOverlay(nodes, nodes, [])
  {
  }

  lemma WrittenSoFar(items: seq<Item>, n: nat, q: Path)
    requires n < |items|
    ensures AtOrAboveSome(items[..n + 1], q) <==> AtOrAboveSome(items[..n], q) || q <= items[n].path
    ensures IsItemPath(items[..n + 1], q) <==> IsItemPath(items[..n], q) || q == items[n].path
  {
    var more, some := items[..n + 1], items[..n];
    if i :| 0 <= i < |some| && q <= some[i].path {
      assert more[i] == some[i];
    }
    if i :| 0 <= i < |more| && q <= more[i].path && i < n {
      assert more[i] == some[i];
    }
    if i :| 0 <= i < |some| && some[i].path == q {
      assert more[i] == some[i];
    }
    if i :| 0 <= i < |more| && more[i].path == q && i < n {
      assert more[i] == some[i];
    }
    assert more[n] == items[n];
  }

  /** What was written already is not in the way of what comes next. */
  lemma NextIsWritable(before: Nodes, now: Nodes, items: seq<Item>, n: nat, overwrite: bool)
    requires NoConflicts(before, items, overwrite) && n < |items| && IsOverlay(before, now, items[..n])
    ensures Writable(now, items[n], overwrite)
  {
    hide IsOverlay, NoConflicts, Writable;
    var dest := items[n].path;
    assert Writable(before, items[n], overwrite) by { ItemsAreWritable(before, items, overwrite, n); }
    forall k | 0 <= k < |dest|
      ensures dest[..k] in now ==> now[dest[..k]] == FsDir
    {
      AboveNext(before, now, items, n, overwrite, k);
    }
    AtNext(before, now, items, n, overwrite);
    StillWritable(before, now, items[n], overwrite);
  }

  lemma ItemsAreWritable(nodes: Nodes, items: seq<Item>, overwrite: bool, i: nat)
    requires NoConflicts(nodes, items, overwrite) && i < |items|
    ensures Writable(nodes, items[i], overwrite)
  {
  }

  lemma StillWritable(before: Nodes, now: Nodes, item: Item, overwrite: bool)
    requires Writable(before, item, overwrite)
    requires forall k :: 0 <= k < |item.path| && item.path[..k] in now ==> now[item.path[..k]] == FsDir
    requires item.path in now ==> (item.path in before && now[item.path] == before[item.path])
                                  || (item.node == FsDir && now[item.path] == FsDir)
    ensures Writable(now, item, overwrite)
  {
  }

  lemma AboveNext(before: Nodes, now: Nodes, items: seq<Item>, n: nat, overwrite: bool, k: nat)
    requires NoConflicts(before, items, overwrite) && n < |items| && IsOverlay(before, now, items[..n])
    requires k < |items[n].path|
    ensures items[n].path[..k] in now ==> now[items[n].path[..k]] == FsDir
  {
    var q := items[n].path[..k];
    assert PathOverlaid(before, now, items[..n], q);
    if IsItemPath(items[..n], q) {
      var i :| 0 <= i < n && items[..n][i].path == q;
      assert HoldsItem(now, items[..n][i]);
      assert items[i].path < items[n].path;
    } else if q in before {
      assert Writable(before, items[n], overwrite);
    }
  }

  lemma AtNext(before: Nodes, now: Nodes, items: seq<Item>, n: nat, overwrite: bool)
    requires NoConflicts(before, items, overwrite) && n < |items| && IsOverlay(before, now, items[..n])
    ensures var dest := items[n].path;
            dest in now ==>
              (dest in before && now[dest] == before[dest]) || (items[n].node == FsDir && now[dest] == FsDir)
  {
    hide Writable;
    var dest := items[n].path;
    assert PathOverlaid(before, now, items[..n], dest);
    assert !IsItemPath(items[..n], dest);
    if dest in now && dest !in before {
      var i :| 0 <= i < |items[..n]| && dest <= items[..n][i].path;
      assert items[n].path < items[i].path;
    }
  }

  lemma OverlayStep(before: Nodes, now: Nodes, next: Nodes, items: seq<Item>, n: nat, overwrite: bool)
    requires NoConflicts(before, items, overwrite) && n < |items|
    requires IsOverlay(before, now, items[..n]) && Wrote(now, next, items[n])
    ensures IsOverlay(before, next, items[..n + 1])
  {
    hide AtOrAboveSome, IsItemPath, Writable;
    var written := items[..n + 1];
    forall q
      ensures PathOverlaid(before, next, written, q)
    {
      WrittenSoFar(items, n, q);
      assert PathOverlaid(before, now, items[..n], q) && PathWritten(now, next, items[n], q);
    }
    forall i | 0 <= i < |written|
      ensures HoldsItem(next, written[i])
    {
      assert PathWritten(now, next, items[n], items[i].path);
      if i < n {
        assert HoldsItem(now, items[..n][i]);
        assert items[i].path != items[n].path;
      }
    }
  }

  /** The planned items are there, so the contents are. */
  lemma {:induction false} OverlayIsRestored(before: Nodes, after: Nodes, behind: Behind, root: Path, c: Contents,
                                             overwrite: bool)
    requires Compatible(WantedOf(c)) && Preflight(before, behind, root, WantedOf(c), overwrite).Ok?
    requires IsOverlay(before, after, Preflight(before, behind, root, WantedOf(c), overwrite).value)
    ensures IsRestored(after, root, c)
  {
    hide WantedOf, Preflight, PathOverlaid, EnsureSafe;
    var items := Preflight(before, behind, root, WantedOf(c), overwrite).value;
    PreflightMeaning(before, behind, root, WantedOf(c), overwrite);
    WantedIsNormal(c);
    forall w | w in WantedOf(c)
      ensures HoldsItem(after, ItemOf(root, w))
    {
      var i :| 0 <= i < |WantedOf(c)| && WantedOf(c)[i] == w;
      assert HoldsItem(after, items[i]);
    }
    ItemsAreThere(after, root, c);
  }

  lemma ItemsAreThere(nodes: Nodes, root: Path, c: Contents)
    requires Compatible(WantedOf(c)) && forall w :: w in WantedOf(c) ==> HoldsItem(nodes, ItemOf(root, w))
    ensures IsRestored(nodes, root, c)
  {
    hide WantedOf;
    WantedIsNormal(c);
    forall d | d in c.directories
      ensures HoldsItem(nodes, Item(root + NamesOf(d.path), FsDir))
    {
      WantedMembers(c, Wanted(d.path, FsDir));
      assert HoldsItem(nodes, ItemOf(root, Wanted(d.path, FsDir)));
    }
    forall f | f in c.files
      ensures HoldsItem(nodes, Item(root + NamesOf(f.path), FsFile(f.contents)))
    {
      WantedMembers(c, Wanted(f.path, FsFile(f.contents)));
      assert HoldsItem(nodes, ItemOf(root, Wanted(f.path, FsFile(f.contents))));
    }
    forall s | s in c.symlinks
      ensures HoldsItem(nodes, Item(root + NamesOf(s.path), FsSymlink(s.target)))
    {
      WantedMembers(c, Wanted(s.path, FsSymlink(s.target)));
      assert HoldsItem(nodes, ItemOf(root, Wanted(s.path, FsSymlink(s.target))));
    }
  }

  // ---------- The file system ----------

  datatype Request = Request(
    snapshotId: Id, paths: seq<RelPath>, absolute: bool, destination: Path, overwrite: bool, verify: bool, dryRun: bool)

  /** What is planned before anything is written. */
  function PlanOf(contents: Result<Contents, Error>, nodes: Nodes, behind: Behind, request: Request)
    : Result<seq<Item>, RestoreError> {
    if !request.absolute then Err(NotAbsolute)
    else if contents.Err? then Err(RestoreError.Content(contents.error))
    else Preflight(nodes, behind, request.destination, WantedOf(contents.value), request.overwrite)
  }

  /** The plan for what one state of the store holds. */
  function PlanRestore(r: Repo, store: Store, nodes: Nodes, behind: Behind, request: Request)
    : Result<seq<Item>, RestoreError> {
    PlanOf(RestoreContents(r, store, request.snapshotId, request.paths), nodes, behind, request)
  }

  function FileBytes(files: seq<RestoredFile>): nat {
    if files == [] then 0 else FileBytes(files[..|files| - 1]) + |files[|files| - 1].contents|
  }

  /** What a restore reports; `planned` and `applied` count modification times. */
  datatype Report = Report(
    items: seq<Item>, selected: nat, planned: nat, applied: nat, warnings: seq<Warning>, bytes: nat, verified: nat)

  function ReportOf(items: seq<Item>, selected: nat, c: Contents, request: Request): Report {
    Report(items, selected, |c.files| + |c.directories|, if request.dryRun then 0 else UsableCount(Dates(c)),
           c.warnings + TimeWarnings(Dates(c)), FileBytes(c.files),
           if request.verify && !request.dryRun then |c.files| else 0)
  }

  /** Each file and directory has the time it had, if that is known. */
  ghost predicate TimesRestored(times: Times, root: Path, c: Contents) {
    forall d :: d in Dates(c) && IsNormal(d.path) ==> HoldsTime(times, root + NamesOf(d.path), d)
  }

  predicate TakesTime(nodes: Nodes, item: Item) {
    && item.path in nodes
    && (if item.node == FsDir then nodes[item.path] == FsDir else item.node.FsFile? && nodes[item.path].FsFile?)
  }

  function Parent(p: Path): Path {
    if p == [] then [] else p[..|p| - 1]
  }

  /** Writing never sets a time. */
  ghost predicate OnlyDropped(before: Times, after: Times) {
    forall p :: p in after ==> p in before && after[p] == before[p]
  }

  /** `times` has the modification times that were set and that no later write has changed. */
  class FileSystem {
    var nodes: Nodes
    var times: Times

    constructor (nodes: Nodes, times: Times)
      ensures this.nodes == nodes && this.times == times
    {
      this.nodes := nodes;
      this.times := times;
    }

    /** `create_dir_all` */
    method CreateDirAll(p: Path) returns (result: Result<(), RestoreError>)
      requires IsFileSystem(nodes)
      modifies this
      ensures IsFileSystem(nodes) && OnlyDropped(old(times), times)
      ensures result.Ok? ==> p in nodes && nodes[p] == FsDir
      ensures (forall k :: 0 <= k <= |p| && p[..k] in old(nodes) ==> old(nodes)[p[..k]] == FsDir) ==>
                result.Ok? && HasDirectories(old(nodes), nodes, p, |p| + 1)
    {
      hide IsFileSystem, HasDirectories;
      ghost var before := nodes;
      NoDirectoriesYet(nodes, p);
      for k := 0 to |p| + 1
        invariant IsFileSystem(nodes) && OnlyDropped(old(times), times)
        invariant HasDirectories(before, nodes, p, k)
        invariant k > 0 ==> p[..k - 1] in nodes && nodes[p[..k - 1]] == FsDir
      {
        var cursor := p[..k];
        if cursor in nodes {
          if nodes[cursor] != FsDir {
            DirectoryWasThere(before, nodes, p, k);
            return Err(WriteFailed(cursor));
          }
          DirectoryExists(before, nodes, p, k);
        } else {
          NewDirectory(before, nodes, p, k);
          nodes := nodes[cursor := FsDir];
          times := times - {cursor, Parent(cursor)};
        }
      }
      assert p[..|p|] == p;
      return Ok(());
    }

    /** `create_restored_directory`, `write_restored_file` and `create_restored_symlink`. */
    method WriteItem(item: Item, overwrite: bool, verify: bool) returns (result: Result<(), RestoreError>)
      requires IsFileSystem(nodes)
      modifies this
      ensures IsFileSystem(nodes) && OnlyDropped(old(times), times)
      ensures Writable(old(nodes), item, overwrite) ==> result.Ok? && Wrote(old(nodes), nodes, item)
    {
      hide IsFileSystem, HasDirectories, Wrote, Writable;
      ghost var before, safe := nodes, Writable(nodes, item, overwrite);
      if safe {
        WritableMeans(nodes, item, overwrite);
        ParentsAreDirectories(nodes, item, overwrite);
      }
      if item.node == FsDir {
        result := CreateDirAll(item.path);
        if safe {
          DirectoryIsWritten(before, nodes, item);
        }
        return;
      }
      if item.path == [] {
        return Err(WriteFailed(item.path));
      }
      var parent := item.path[..|item.path| - 1];
      result := CreateDirAll(parent);
      if result.Err? {
        return;
      }
      if safe {
        LeafIsWritten(before, nodes, item);
        AddedDirectories(before, nodes, item);
      }
      if item.path in nodes && !(overwrite && item.node.FsFile? && nodes[item.path].FsFile?) {
        return Err(WriteFailed(item.path));
      }
      LeafKeepsFileSystem(nodes, item);
      nodes := nodes[item.path := item.node];
      times := times - {item.path, parent};
      if verify && item.node.FsFile? && nodes[item.path] != item.node {
        return Err(VerificationMismatch(item.path));
      }
    }

    /** `safe_destination_path` and the check of each prepared path. */
    method Prepare(behind: Behind, root: Path, wanted: seq<Wanted>, overwrite: bool)
      returns (result: Result<seq<Item>, RestoreError>)
      ensures result == Preflight(nodes, behind, root, wanted, overwrite)
      ensures result.Ok? ==> |result.value| == |wanted|
    {
      hide EnsureSafe, DestinationOf;
      var prepared := [];
      for i := 0 to |wanted|
        invariant Preflight(nodes, behind, root, wanted[..i], overwrite) == Ok(prepared) && |prepared| == i
      {
        assert wanted[..i + 1][..i] == wanted[..i];
        var dest := DestinationOf(root, wanted[i].path);
        if dest.Err? {
          PreflightFails(nodes, behind, root, wanted, overwrite, i + 1);
          return Err(dest.error);
        }
        var safe := EnsureSafe(nodes, behind, root, Item(dest.value, wanted[i].node), overwrite);
        if safe.Err? {
          PreflightFails(nodes, behind, root, wanted, overwrite, i + 1);
          return Err(safe.error);
        }
        prepared := prepared + [Item(dest.value, wanted[i].node)];
      }
      assert wanted[..|wanted|] == wanted;
      return Ok(prepared);
    }

    /** Writes the next items of `all`, of which `n` were written since `before`. */
    method WriteAll(items: seq<Item>, overwrite: bool, verify: bool, ghost before: Nodes, ghost all: seq<Item>,
                    ghost n: nat)
      returns (result: Result<(), RestoreError>)
      requires IsFileSystem(nodes) && n + |items| <= |all| && all[n..n + |items|] == items
      modifies this
      ensures IsFileSystem(nodes) && OnlyDropped(old(times), times)
      ensures NoConflicts(before, all, overwrite) && IsOverlay(before, old(nodes), all[..n]) ==>
                result.Ok? && IsOverlay(before, nodes, all[..n + |items|])
    {
      hide NoConflicts, IsOverlay, Writable, Wrote, IsFileSystem;
      ghost var safe := NoConflicts(before, all, overwrite) && IsOverlay(before, nodes, all[..n]);
      for i := 0 to |items|
        invariant IsFileSystem(nodes) && OnlyDropped(old(times), times)
        invariant safe ==> IsOverlay(before, nodes, all[..n + i])
      {
        ghost var now := nodes;
        assert items[i] == all[n + i];
        if safe {
          NextIsWritable(before, now, all, n + i, overwrite);
        }
        result := WriteItem(items[i], overwrite, verify);
        if result.Err? {
          return;
        }
        if safe {
          OverlayStep(before, now, nodes, all, n + i, overwrite);
        }
      }
      return Ok(());
    }

    /** `apply_restored_modified_timestamp` */
    method ApplyTime(item: Item, d: Dated) returns (applied: nat, warnings: seq<Warning>)
      modifies this`times
      ensures Applied(d, item.path, TakesTime(nodes, item), old(times), times, applied, warnings)
    {
      if !Usable(d) {
        return 0, [TimeWarning(d)];
      }
      if !TakesTime(nodes, item) {
        return 0, [Warning(d.path, "modified", "modified timestamp could not be applied")];
      }
      times := times[item.path := Instant(d.modified.value)];
      return 1, [];
    }

    /** One loop over prepared files or directories. */
    method ApplyTimes(items: seq<Item>, dates: seq<Dated>) returns (applied: nat, warnings: seq<Warning>)
      requires |items| == |dates|
      modifies this`times
      ensures (forall i :: 0 <= i < |items| ==> TakesTime(nodes, items[i])) ==>
                && times == SetTimes(old(times), items, dates)
                && applied == UsableCount(dates) && warnings == TimeWarnings(dates)
    {
      hide TakesTime, Usable, TimeWarning, Instant, Applied;
      ghost var safe := forall i :: 0 <= i < |items| ==> TakesTime(nodes, items[i]);
      applied, warnings := 0, [];
      for i := 0 to |items|
        invariant safe ==>
                    && times == SetTimes(old(times), items[..i], dates[..i])
                    && applied == UsableCount(dates[..i]) && warnings == TimeWarnings(dates[..i])
      {
        assert items[..i + 1][..i] == items[..i] && dates[..i + 1][..i] == dates[..i];
        ghost var before := times;
        var set', more := ApplyTime(items[i], dates[i]);
        AppliedMeans(dates[i], items[i].path, TakesTime(nodes, items[i]), before, times, set', more);
        applied, warnings := applied + set', warnings + more;
      }
      assert items[..|items|] == items && dates[..|items|] == dates;
    }

    /**
     `restore_snapshot_to_destination`: a content or preflight error, and a
     dry run, leave the file system as it was, and the dry run reports the
     same warnings; otherwise every write succeeds, the selection is
     overlaid, and files and directories have their times.
     */
    method RestoreToDestination(r: Repo, history: nat -> Store, behind: Behind, request: Request)
      returns (result: Result<Report, RestoreError>)
      requires IsFileSystem(nodes)
      modifies this
      ensures IsFileSystem(nodes)
      ensures var contents := RestoreAlong(r, history, request.snapshotId, request.paths);
              var plan := PlanOf(contents, old(nodes), behind, request);
              && (plan.Err? ==> result == Err(plan.error) && nodes == old(nodes) && times == old(times))
              && (plan.Ok? && request.dryRun ==> nodes == old(nodes) && times == old(times))
              && (plan.Ok? && !request.dryRun && NoSymlinkAtOrAbove(old(nodes), request.destination) ==>
                    && IsOverlay(old(nodes), nodes, plan.value)
                    && TimesRestored(times, request.destination, contents.value))
              && (plan.Ok? && (request.dryRun || NoSymlinkAtOrAbove(old(nodes), request.destination)) ==>
                    && NormalizePaths(request.paths).Ok? && ReadManifest(r, history(0), request.snapshotId).Ok?
                    && var selected := |SelectedEntries(r, history(0), request.snapshotId, request.paths)|;
                       result == Ok(ReportOf(plan.value, selected, contents.value, request)))
      ensures var contents := RestoreAlong(r, history, request.snapshotId, request.paths);
              request.absolute && contents.Ok? && NoSymlinkAtOrAbove(old(nodes), request.destination) ==>
                && (result.Ok? <==> CanRestore(old(nodes), request.destination, contents.value, request.overwrite))
                && (result.Ok? && !request.dryRun ==> IsRestored(nodes, request.destination, contents.value))
    {
      hide NoSymlinkAtOrAbove, IsOverlay, NoConflicts, IsFileSystem, Compatible, Preflight, RestoreAlong, WantedOf,
           ReadManifest, NormalizePaths, SelectedEntries, TimesRestored, Dates, TimeWarnings, UsableCount,
           FileBytes, SetTimes, TakesTime, CanRestore, IsRestored;
      if !request.absolute {
        return Err(NotAbsolute);
      }
      var contents, selected := RestoreSnapshot(r, history, request.snapshotId, request.paths);
      if contents.Err? {
        return Err(RestoreError.Content(contents.error));
      }
      var root, overwrite := request.destination, request.overwrite;
      RestoredIsCompatible(r, history, request.snapshotId, request.paths);
      if NoSymlinkAtOrAbove(nodes, root) {
        PreparesExactly(nodes, behind, root, contents.value, overwrite);
      }
      var prepared := PrepareAll(behind, root, contents.value, overwrite);
      if prepared.Err? {
        return Err(prepared.error);
      }
      var (directories, files, symlinks) := prepared.value;
      var planned := |files| + |directories|;
      var warnings := contents.value.warnings;
      if request.dryRun {
        return Ok(Report(directories + files + symlinks, selected, planned, 0,
                         warnings + TimeWarnings(Dates(contents.value)), FileBytes(contents.value.files), 0));
      }
      ghost var before := nodes;
      if NoSymlinkAtOrAbove(before, root) {
        PreflightMeansNoConflicts(before, behind, root, WantedOf(contents.value), overwrite);
      }
      var done := WritePrepared(directories, files, symlinks, overwrite, request.verify);
      if done.Err? {
        return Err(done.error);
      }
      ghost var written := times;
      if NoSymlinkAtOrAbove(before, root) {
        TimesAreRestored(before, nodes, behind, root, contents.value, overwrite, directories, files, symlinks, written);
        OverlayIsRestored(before, nodes, behind, root, contents.value, overwrite);
      }
      var applied, more := ApplyAllTimes(contents.value, directories, files);
      return Ok(Report(directories + files + symlinks, selected, planned, applied, warnings + more,
                       FileBytes(contents.value.files), if request.verify then |files| else 0));
    }

    /** The three preparation loops: directories, files, symlinks. */
    method PrepareAll(behind: Behind, root: Path, c: Contents, overwrite: bool)
      returns (result: Result<(seq<Item>, seq<Item>, seq<Item>), RestoreError>)
      ensures var plan := Preflight(nodes, behind, root, WantedOf(c), overwrite);
              && (result.Err? <==> plan.Err?)
              && (result.Err? ==> plan == Err(result.error))
              && (result.Ok? ==>
                    && plan == Ok(result.value.0 + result.value.1 + result.value.2)
                    && |result.value.0| == |c.directories| && |result.value.1| == |c.files|)
    {
      hide Preflight, DirectoriesOf, FilesOf, SymlinksOf;
      var d, f, s := DirectoriesOf(c), FilesOf(c), SymlinksOf(c);
      PreflightConcat(nodes, behind, root, d, f, overwrite);
      PreflightConcat(nodes, behind, root, d + f, s, overwrite);
      var directories := Prepare(behind, root, d, overwrite);
      if directories.Err? {
        return Err(directories.error);
      }
      var files := Prepare(behind, root, f, overwrite);
      if files.Err? {
        return Err(files.error);
      }
      var symlinks := Prepare(behind, root, s, overwrite);
      if symlinks.Err? {
        return Err(symlinks.error);
      }
      return Ok((directories.value, files.value, symlinks.value));
    }

    /** The two loops over modification times: files, directories. */
    method ApplyAllTimes(c: Contents, directories: seq<Item>, files: seq<Item>)
      returns (applied: nat, warnings: seq<Warning>)
      requires |directories| == |c.directories| && |files| == |c.files|
      modifies this`times
      ensures (forall i :: 0 <= i < |files| ==> TakesTime(nodes, files[i]))
              && (forall i :: 0 <= i < |directories| ==> TakesTime(nodes, directories[i])) ==>
                && times == SetTimes(old(times), files + directories, Dates(c))
                && applied == UsableCount(Dates(c)) && warnings == TimeWarnings(Dates(c))
    {
      hide TakesTime, SetTimes, UsableCount, TimeWarnings;
      SetTimesConcat(times, files, directories, FileDates(c), DirectoryDates(c));
      WarningsConcat(FileDates(c), DirectoryDates(c));
      applied, warnings := ApplyTimes(files, FileDates(c));
      var appliedToDirectories, more := ApplyTimes(directories, DirectoryDates(c));
      applied, warnings := applied + appliedToDirectories, warnings + more;
    }

    /** The three writing loops: directories, files, symlinks. */
    method WritePrepared(directories: seq<Item>, files: seq<Item>, symlinks: seq<Item>, overwrite: bool, verify: bool)
      returns (result: Result<(), RestoreError>)
      requires IsFileSystem(nodes)
      modifies this
      ensures IsFileSystem(nodes) && OnlyDropped(old(times), times)
      ensures NoConflicts(old(nodes), directories + files + symlinks, overwrite) ==>
                result.Ok? && IsOverlay(old(nodes), nodes, directories + files + symlinks)
    {
      hide IsOverlay, NoConflicts, IsFileSystem;
      ghost var before, all := nodes, directories + files + symlinks;
      NothingWritten(before);
      assert all[..0] == [] && all[..|all|] == all;
      var nd, nf := |directories|, |files|;
      result := WriteAll(directories, overwrite, verify, before, all, 0);
      if result.Err? {
        return;
      }
      result := WriteAll(files, overwrite, verify, before, all, nd);
      if result.Err? {
        return;
      }
      result := WriteAll(symlinks, overwrite, verify, before, all, nd + nf);
    }
  }

  // ---------- Modification times ----------

  /** The item behind each date. */
  lemma ItemOfDate(before: Nodes, behind: Behind, root: Path, c: Contents, overwrite: bool, d: seq<Item>, f: seq<Item>,
                   s: seq<Item>, i: nat)
    requires Compatible(WantedOf(c)) && |d| == |c.directories| && |f| == |c.files| && i < |f| + |d|
    requires Preflight(before, behind, root, WantedOf(c), overwrite) == Ok(d + f + s)
    ensures var j := if i < |f| then |d| + i else i - |f|;
            && (f + d)[i] == (d + f + s)[j] == ItemOf(root, WantedOf(c)[j])
            && Dates(c)[i].path == WantedOf(c)[j].path
            && (WantedOf(c)[j].node == FsDir || WantedOf(c)[j].node.FsFile?)
  {
    hide Preflight, EnsureSafe, ItemOf;
    PreflightMeaning(before, behind, root, WantedOf(c), overwrite);
    var j := if i < |f| then |d| + i else i - |f|;
    assert (f + d)[i] == (d + f + s)[j];
  }

  lemma DatedItemsDiffer(before: Nodes, behind: Behind, root: Path, c: Contents, overwrite: bool, d: seq<Item>,
                         f: seq<Item>, s: seq<Item>, i: nat, j: nat)
    requires Compatible(WantedOf(c)) && |d| == |c.directories| && |f| == |c.files| && i < j < |f| + |d|
    requires Preflight(before, behind, root, WantedOf(c), overwrite) == Ok(d + f + s)
    ensures (f + d)[i].path != (f + d)[j].path
  {
    hide Preflight, ItemOf, DirectoriesOf, FilesOf, SymlinksOf;
    ItemOfDate(before, behind, root, c, overwrite, d, f, s, i);
    ItemOfDate(before, behind, root, c, overwrite, d, f, s, j);
    var k, l := if i < |f| then |d| + i else i - |f|, if j < |f| then |d| + j else j - |f|;
    ItemsCompare(root, WantedOf(c)[k], WantedOf(c)[l]);
  }

  lemma DatedItemTakesTime(before: Nodes, after: Nodes, behind: Behind, root: Path, c: Contents, overwrite: bool,
                           d: seq<Item>, f: seq<Item>, s: seq<Item>, i: nat)
    requires Compatible(WantedOf(c)) && |d| == |c.directories| && |f| == |c.files| && i < |f| + |d|
    requires Preflight(before, behind, root, WantedOf(c), overwrite) == Ok(d + f + s)
    requires IsOverlay(before, after, d + f + s)
    ensures TakesTime(after, (f + d)[i])
    ensures i < |Dates(c)| && IsNormal(Dates(c)[i].path) && (f + d)[i].path == root + NamesOf(Dates(c)[i].path)
  {
    hide Preflight, PathOverlaid, DirectoriesOf, FilesOf, SymlinksOf, Dates;
    DatesAlign(c);
    ItemOfDate(before, behind, root, c, overwrite, d, f, s, i);
    var j := if i < |f| then |d| + i else i - |f|;
    assert HoldsItem(after, (d + f + s)[j]);
    assert IsNormal(WantedOf(c)[j].path);
  }

  lemma TimesAreRestored(before: Nodes, after: Nodes, behind: Behind, root: Path, c: Contents, overwrite: bool,
                         d: seq<Item>, f: seq<Item>, s: seq<Item>, times: Times)
    requires Compatible(WantedOf(c)) && |d| == |c.directories| && |f| == |c.files|
    requires Preflight(before, behind, root, WantedOf(c), overwrite) == Ok(d + f + s)
    requires IsOverlay(before, after, d + f + s)
    ensures forall i :: 0 <= i < |f| ==> TakesTime(after, f[i])
    ensures forall i :: 0 <= i < |d| ==> TakesTime(after, d[i])
    ensures TimesRestored(SetTimes(times, f + d, Dates(c)), root, c)
  {
    hide Preflight, Compatible, WantedOf, Dates, SetTimes, IsOverlay, TakesTime;
    var items, dates := f + d, Dates(c);
    DatesAlign(c);
    forall i | 0 <= i < |items|
      ensures TakesTime(after, items[i]) && IsNormal(dates[i].path) && items[i].path == root + NamesOf(dates[i].path)
    {
      DatedItemTakesTime(before, after, behind, root, c, overwrite, d, f, s, i);
    }
    assert forall i :: 0 <= i < |f| ==> items[i] == f[i];
    assert forall i :: 0 <= i < |d| ==> items[|f| + i] == d[i];
    forall i, j | 0 <= i < j < |items|
      ensures items[i].path != items[j].path
    {
      DatedItemsDiffer(before, behind, root, c, overwrite, d, f, s, i, j);
    }
    forall date | date in dates && IsNormal(date.path)
      ensures HoldsTime(SetTimes(times, items, dates), root + NamesOf(date.path), date)
    {
      var i :| 0 <= i < |dates| && dates[i] == date;
      AllTimesHold(times, items, dates, i);
    }
  }

  lemma DatesAlign(c: Contents)
    ensures |Dates(c)| == |c.files| + |c.directories|
  {
  }

  // ---------- Single steps ----------

  lemma NoDirectoriesYet(nodes: Nodes, p: Path)
    ensures HasDirectories(nodes, nodes, p, 0)
  {
  }

  lemma PrefixOfLength(p: Path, q: Path, k: nat)
    requires k <= |p|
    ensures q <= p && |q| < k + 1 <==> (q <= p && |q| < k) || q == p[..k]
  {
  }

  lemma DirectoryWasThere(before: Nodes, now: Nodes, p: Path, k: nat)
    requires HasDirectories(before, now, p, k) && k <= |p| && p[..k] in now
    ensures p[..k] in before && before[p[..k]] == now[p[..k]]
  {
    assert PathAdded(before, now, p, k, p[..k]);
  }

  lemma DirectoryExists(before: Nodes, now: Nodes, p: Path, k: nat)
    requires HasDirectories(before, now, p, k) && k <= |p| && p[..k] in now
    ensures HasDirectories(before, now, p, k + 1)
  {
    var longer := k + 1;
    forall q
      ensures PathAdded(before, now, p, longer, q)
    {
      PrefixOfLength(p, q, k);
      assert PathAdded(before, now, p, k, q);
    }
  }

  lemma NewDirectory(before: Nodes, now: Nodes, p: Path, k: nat)
    requires IsFileSystem(now) && HasDirectories(before, now, p, k) && k <= |p| && p[..k] !in now
    requires k > 0 ==> p[..k - 1] in now && now[p[..k - 1]] == FsDir
    ensures HasDirectories(before, now[p[..k] := FsDir], p, k + 1)
    ensures IsFileSystem(now[p[..k] := FsDir])
  {
    assert k > 0 && p[..k][..k - 1] == p[..k - 1];
    LeafKeepsFileSystem(now, Item(p[..k], FsDir));
    hide IsFileSystem;
    var after, longer := now[p[..k] := FsDir], k + 1;
    forall q
      ensures PathAdded(before, after, p, longer, q)
    {
      PrefixOfLength(p, q, k);
      assert PathAdded(before, now, p, k, q);
    }
  }

  lemma DirectoryIsWritten(before: Nodes, after: Nodes, item: Item)
    requires HasDirectories(before, after, item.path, |item.path| + 1) && item.node == FsDir
    requires item.path in before ==> before[item.path] == FsDir
    ensures Wrote(before, after, item)
  {
    forall q
      ensures PathWritten(before, after, item, q)
    {
      assert PathAdded(before, after, item.path, |item.path| + 1, q);
    }
  }

  lemma LeafIsWritten(before: Nodes, between: Nodes, item: Item)
    requires item.path != [] && HasDirectories(before, between, item.path[..|item.path| - 1], |item.path|)
    ensures Wrote(before, between[item.path := item.node], item)
  {
    var parent, after := item.path[..|item.path| - 1], between[item.path := item.node];
    forall q
      ensures PathWritten(before, after, item, q)
    {
      assert PathAdded(before, between, parent, |item.path|, q);
      if q <= item.path && q != item.path {
        assert q == parent[..|q|];
      }
      if q <= parent {
        assert q == item.path[..|q|];
      }
    }
  }

  lemma LeafKeepsFileSystem(nodes: Nodes, item: Item)
    requires IsFileSystem(nodes) && item.path != []
    requires item.path[..|item.path| - 1] in nodes && nodes[item.path[..|item.path| - 1]] == FsDir
    requires item.path in nodes ==> nodes[item.path] != FsDir
    ensures IsFileSystem(nodes[item.path := item.node])
  {
  }

  lemma WritableMeans(nodes: Nodes, item: Item, overwrite: bool)
    requires Writable(nodes, item, overwrite)
    ensures item.path != []
    ensures item.path in nodes ==> (item.node == FsDir && nodes[item.path] == FsDir)
                                   || (item.node.FsFile? && nodes[item.path].FsFile? && overwrite)
  {
  }

  lemma AddedDirectories(before: Nodes, between: Nodes, item: Item)
    requires item.path != [] && HasDirectories(before, between, item.path[..|item.path| - 1], |item.path|)
    ensures item.path in between ==> item.path in before && between[item.path] == before[item.path]
  {
    assert PathAdded(before, between, item.path[..|item.path| - 1], |item.path|, item.path);
  }

  lemma ParentsAreDirectories(nodes: Nodes, item: Item, overwrite: bool)
    requires Writable(nodes, item, overwrite)
    ensures var parent := item.path[..|item.path| - 1];
            forall k :: 0 <= k <= |parent| && parent[..k] in nodes ==> nodes[parent[..k]] == FsDir
    ensures item.node == FsDir ==>
              forall k :: 0 <= k <= |item.path| && item.path[..k] in nodes ==> nodes[item.path[..k]] == FsDir
  {
    var parent := item.path[..|item.path| - 1];
    assert forall k :: 0 <= k <= |parent| ==> parent[..k] == item.path[..k];
    assert item.path[..|item.path|] == item.path;
  }
}
