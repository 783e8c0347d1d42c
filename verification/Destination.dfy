/**
 Restoring into a directory (crates/fileferry-core/src/lib.rs,
 `restore_snapshot_to_destination` and its helpers): everything is checked
 against the file system first, and only then written.

 Paths are absolute and the empty path is the file system's root.  What lies
 behind a symlink is an arbitrary function, so nothing is assumed of it.
 */
module Destination {
  import opened Common
  import opened Repository
  import opened Manifests
  import opened Readers

  type Path = seq<string>

  datatype FsNode = FsFile(data: Data) | FsDir | FsSymlink(target: string) | FsOther

  type Nodes = map<Path, FsNode>

  /** Everything but the root lies in a directory. */
  predicate IsFileSystem(nodes: Nodes) {
    [] in nodes && nodes[[]] == FsDir
    && forall p :: p in nodes && p != [] ==> p[..|p| - 1] in nodes && nodes[p[..|p| - 1]] == FsDir
  }

  lemma {:induction false} AncestorIsDirectory(nodes: Nodes, p: Path, k: nat)
    requires IsFileSystem(nodes) && p in nodes && k < |p|
    ensures p[..k] in nodes && nodes[p[..k]] == FsDir
    decreases |p|
  {
    var parent := p[..|p| - 1];
    if k < |parent| {
      AncestorIsDirectory(nodes, parent, k);
      assert parent[..k] == p[..k];
    }
  }

  datatype RestoreError =
    | InvalidRequest | NotAbsolute | EscapesRoot(path: Path) | SymlinkInTheWay(path: Path) | Exists(path: Path)
    | WrongKind(path: Path) | WriteFailed(path: Path) | VerificationMismatch(path: Path) | Content(error: Error)

  // ---------- Looking ----------

  datatype Stat = Present(node: FsNode) | NotFound | NotADirectory

  /** What is found at paths below, or resolved through, a symlink. */
  type Behind = Path -> Stat

  predicate UnderLink(nodes: Nodes, p: Path) {
    exists k :: 0 <= k < |p| && p[..k] in nodes && nodes[p[..k]].FsSymlink?
  }

  predicate UnderOther(nodes: Nodes, p: Path) {
    exists k :: 0 <= k < |p| && p[..k] in nodes && nodes[p[..k]] != FsDir
  }

  /** `symlink_metadata` */
  function Lstat(nodes: Nodes, behind: Behind, p: Path): Stat {
    if p in nodes then Present(nodes[p])
    else if UnderLink(nodes, p) then behind(p)
    else if UnderOther(nodes, p) then NotADirectory
    else NotFound
  }

  /** `symlink_metadata` with a trailing separator, which asks for a directory and follows a link to one. */
  function LstatDirectory(nodes: Nodes, behind: Behind, p: Path): Stat {
    match Lstat(nodes, behind, p)
    case Present(FsSymlink(_)) => behind(p)
    case Present(FsFile(_)) => NotADirectory
    case Present(FsOther) => NotADirectory
    case stat => stat
  }

  /** The loop of `ensure_no_symlink_ancestor` from the ancestor of length `k` on. */
  function CheckAncestors(nodes: Nodes, behind: Behind, root: Path, dest: Path, k: nat): Result<(), RestoreError>
    requires k <= |dest|
    decreases |dest| - k
  {
    if k == |dest| then Ok(())
    else
      var cursor := dest[..k];
      if !(root <= cursor) then CheckAncestors(nodes, behind, root, dest, k + 1)
      else
        match Lstat(nodes, behind, cursor)
        case Present(FsSymlink(_)) => Err(SymlinkInTheWay(cursor))
        case Present(FsDir) => CheckAncestors(nodes, behind, root, dest, k + 1)
        case Present(_) => Err(WrongKind(cursor))
        case NotFound => Ok(())
        case NotADirectory => Err(WriteFailed(cursor))
  }

  /** `ensure_no_symlink_ancestor`; only the file system's root has no parent. */
  function EnsureAncestors(nodes: Nodes, behind: Behind, root: Path, dest: Path): Result<(), RestoreError> {
    if dest == [] then Err(EscapesRoot(dest)) else CheckAncestors(nodes, behind, root, dest, 0)
  }

  /** One thing to be written. */
  datatype Item = Item(path: Path, node: FsNode)

  /**
   The three `ensure_restore_*_destination_safe` functions.  Joining an empty
   relative path to the root leaves a trailing separator.
   */
  function EnsureSafe(nodes: Nodes, behind: Behind, root: Path, item: Item, overwrite: bool): Result<(), RestoreError> {
    var ancestors := EnsureAncestors(nodes, behind, root, item.path);
    if ancestors.Err? then ancestors
    else
      match if item.path == root then LstatDirectory(nodes, behind, root) else Lstat(nodes, behind, item.path)
      case Present(FsSymlink(_)) => Err(SymlinkInTheWay(item.path))
      case Present(found) =>
        (match item.node
         case FsDir => if found == FsDir then Ok(()) else Err(WrongKind(item.path))
         case FsFile(_) =>
           if found.FsFile? then (if overwrite then Ok(()) else Err(Exists(item.path))) else Err(WrongKind(item.path))
         case _ => Err(Exists(item.path)))
      case NotFound => Ok(())
      case NotADirectory => Err(WriteFailed(item.path))
  }

  // ---------- What a restore writes ----------

  /** A path of the snapshot and the node restored for it. */
  datatype Wanted = Wanted(path: RelPath, node: FsNode)

  function DirectoriesOf(c: Contents): (wanted: seq<Wanted>)
    ensures |wanted| == |c.directories|
  {
    seq(|c.directories|, i requires 0 <= i < |c.directories| => Wanted(c.directories[i].path, FsDir))
  }

  function FilesOf(c: Contents): (wanted: seq<Wanted>)
    ensures |wanted| == |c.files|
  {
    seq(|c.files|, i requires 0 <= i < |c.files| => Wanted(c.files[i].path, FsFile(c.files[i].contents)))
  }

  function SymlinksOf(c: Contents): seq<Wanted> {
    seq(|c.symlinks|, i requires 0 <= i < |c.symlinks| => Wanted(c.symlinks[i].path, FsSymlink(c.symlinks[i].target)))
  }

  /** Directories first, then files, then symlinks. */
  function WantedOf(c: Contents): seq<Wanted> {
    DirectoriesOf(c) + FilesOf(c) + SymlinksOf(c)
  }

  function NamesOf(rel: RelPath): (names: Path)
    requires IsNormal(rel)
    ensures |names| == |rel|
  {
    seq(|rel|, i requires 0 <= i < |rel| => rel[i].name)
  }

  lemma {:induction false} NormalizedIsNormal(rel: RelPath)
    ensures NormalizePath(rel).Ok? ==> IsNormal(NormalizePath(rel).value)
    decreases |rel|
  {
    if rel != [] {
      NormalizedIsNormal(rel[..|rel| - 1]);
    }
  }

  lemma {:induction false} NormalStaysItself(rel: RelPath)
    requires IsNormal(rel)
    ensures NormalizePath(rel) == Ok(rel)
    decreases |rel|
  {
    if rel != [] {
      NormalStaysItself(rel[..|rel| - 1]);
      assert rel == rel[..|rel| - 1] + [rel[|rel| - 1]];
    }
  }

  /** `safe_destination_path` */
  function DestinationOf(root: Path, rel: RelPath): Result<Path, RestoreError> {
    var normalized := NormalizePath(rel);
    if normalized.Err? then Err(InvalidRequest)
    else
      NormalizedIsNormal(rel);
      var dest := root + NamesOf(normalized.value);
      if !(root <= dest) then Err(EscapesRoot(dest)) else Ok(dest)
  }

  /** The checks of all that is wanted, in order. */
  function Preflight(nodes: Nodes, behind: Behind, root: Path, wanted: seq<Wanted>, overwrite: bool)
    : Result<seq<Item>, RestoreError>
  {
    if wanted == [] then Ok([])
    else
      var before := Preflight(nodes, behind, root, wanted[..|wanted| - 1], overwrite);
      if before.Err? then before
      else
        var last := wanted[|wanted| - 1];
        var dest := DestinationOf(root, last.path);
        if dest.Err? then Err(dest.error)
        else
          var safe := EnsureSafe(nodes, behind, root, Item(dest.value, last.node), overwrite);
          if safe.Err? then Err(safe.error) else Ok(before.value + [Item(dest.value, last.node)])
  }

  lemma {:induction false} PreflightFails(nodes: Nodes, behind: Behind, root: Path, wanted: seq<Wanted>,
                                          overwrite: bool, n: nat)
    requires n <= |wanted| && Preflight(nodes, behind, root, wanted[..n], overwrite).Err?
    ensures Preflight(nodes, behind, root, wanted, overwrite) == Preflight(nodes, behind, root, wanted[..n], overwrite)
    decreases |wanted|
  {
    if n < |wanted| {
      assert wanted[..|wanted| - 1][..n] == wanted[..n];
      PreflightFails(nodes, behind, root, wanted[..|wanted| - 1], overwrite, n);
    } else {
      assert wanted[..n] == wanted;
    }
  }

  lemma {:induction false} PreflightConcat(nodes: Nodes, behind: Behind, root: Path, a: seq<Wanted>, b: seq<Wanted>,
                                           overwrite: bool)
    ensures Preflight(nodes, behind, root, a + b, overwrite) ==
            var first := Preflight(nodes, behind, root, a, overwrite);
            var second := Preflight(nodes, behind, root, b, overwrite);
            if first.Err? then first else if second.Err? then second else Ok(first.value + second.value)
    decreases |b|
  {
    hide EnsureSafe, DestinationOf;
    var first, second := Preflight(nodes, behind, root, a, overwrite), Preflight(nodes, behind, root, b, overwrite);
    if b == [] {
      assert a + b == a;
      assert first.Ok? ==> first.value + [] == first.value;
    } else {
      assert (a + b)[..|a + b| - 1] == a + b[..|b| - 1];
      PreflightConcat(nodes, behind, root, a, b[..|b| - 1], overwrite);
      if first.Ok? && second.Ok? {
        var last := second.value[|second.value| - 1];
        assert first.value + second.value == first.value + second.value[..|second.value| - 1] + [last];
      }
    }
  }

  // ---------- After a successful preflight nothing can be in the way ----------

  /** An item can be written: only directories above it, and nothing at it that it may not replace. */
  ghost predicate Writable(nodes: Nodes, item: Item, overwrite: bool) {
    && item.path != []
    && !item.node.FsOther?
    && (forall k :: 0 <= k < |item.path| && item.path[..k] in nodes ==> nodes[item.path[..k]] == FsDir)
    && (item.path in nodes ==>
          || (item.node == FsDir && nodes[item.path] == FsDir)
          || (item.node.FsFile? && nodes[item.path].FsFile? && overwrite))
  }

  ghost predicate NoSymlinkAtOrAbove(nodes: Nodes, root: Path) {
    forall k :: 0 <= k <= |root| && root[..k] in nodes ==> !nodes[root[..k]].FsSymlink?
  }

  lemma {:induction false} CheckedAncestor(nodes: Nodes, behind: Behind, root: Path, dest: Path, j: nat, k: nat)
    requires IsFileSystem(nodes) && root <= dest && |root| <= k < |dest| && j <= k && dest[..k] in nodes
    requires CheckAncestors(nodes, behind, root, dest, j).Ok?
    ensures nodes[dest[..k]] == FsDir
    decreases k - j
  {
    if j < k {
      AncestorIsDirectory(nodes, dest[..k], j);
      assert dest[..k][..j] == dest[..j];
      CheckedAncestor(nodes, behind, root, dest, j + 1, k);
    } else {
      assert root <= dest[..k];
    }
  }

  lemma {:induction false} RootIsChecked(nodes: Nodes, behind: Behind, root: Path, dest: Path, j: nat)
    requires root < dest && j <= |root| && CheckAncestors(nodes, behind, root, dest, j).Ok?
    ensures Lstat(nodes, behind, root) != NotADirectory
    decreases |root| - j
  {
    if j < |root| {
      RootIsChecked(nodes, behind, root, dest, j + 1);
    } else {
      assert dest[..j] == root;
    }
  }

  lemma FileAboveRootIsSeen(nodes: Nodes, behind: Behind, root: Path, k: nat)
    requires IsFileSystem(nodes) && NoSymlinkAtOrAbove(nodes, root)
    requires k < |root| && root[..k] in nodes && nodes[root[..k]] != FsDir
    ensures Lstat(nodes, behind, root) == NotADirectory
  {
    if root in nodes {
      AncestorIsDirectory(nodes, root, k);
    }
    assert UnderOther(nodes, root);
    assert !UnderLink(nodes, root);
  }

  lemma SafeIsWritable(nodes: Nodes, behind: Behind, root: Path, item: Item, overwrite: bool)
    requires IsFileSystem(nodes) && NoSymlinkAtOrAbove(nodes, root) && root <= item.path && !item.node.FsOther?
    requires item.path == root ==> item.node == FsDir
    requires EnsureSafe(nodes, behind, root, item, overwrite).Ok?
    ensures Writable(nodes, item, overwrite)
  {
    var dest := item.path;
    forall k | 0 <= k < |dest| && dest[..k] in nodes
      ensures nodes[dest[..k]] == FsDir
    {
      hide Lstat, EnsureSafe;
      SafeAncestorIsDirectory(nodes, behind, root, item, overwrite, k);
    }
    if dest in nodes {
      assert Lstat(nodes, behind, dest) == Present(nodes[dest]);
      assert root[..|root|] == root;
    }
  }

  lemma SafeAncestorIsDirectory(nodes: Nodes, behind: Behind, root: Path, item: Item, overwrite: bool, k: nat)
    requires IsFileSystem(nodes) && NoSymlinkAtOrAbove(nodes, root) && root <= item.path
    requires EnsureSafe(nodes, behind, root, item, overwrite).Ok?
    requires k < |item.path| && item.path[..k] in nodes
    ensures nodes[item.path[..k]] == FsDir
  {
    hide Lstat, IsFileSystem, NoSymlinkAtOrAbove, CheckAncestors;
    var dest := item.path;
    if k >= |root| {
      CheckedAncestor(nodes, behind, root, dest, 0, k);
    } else if nodes[dest[..k]] != FsDir {
      assert dest[..k] == root[..k];
      FileAboveRootIsSeen(nodes, behind, root, k);
      if dest != root {
        RootIsChecked(nodes, behind, root, dest, 0);
      }
      assert false;
    }
  }

  lemma FreePathIsNotFound(nodes: Nodes, behind: Behind, p: Path)
    requires p !in nodes && forall k :: 0 <= k < |p| && p[..k] in nodes ==> nodes[p[..k]] == FsDir
    ensures Lstat(nodes, behind, p) == NotFound
  {
  }

  lemma {:induction false} DirectoriesPass(nodes: Nodes, behind: Behind, root: Path, dest: Path, k: nat)
    requires k <= |dest| && forall j :: 0 <= j < |dest| && dest[..j] in nodes ==> nodes[dest[..j]] == FsDir
    ensures CheckAncestors(nodes, behind, root, dest, k).Ok?
    decreases |dest| - k
  {
    hide Lstat;
    if k < |dest| {
      var cursor := dest[..k];
      DirectoriesPass(nodes, behind, root, dest, k + 1);
      if cursor in nodes {
        PresentIsFound(nodes, behind, cursor);
      } else {
        forall j | 0 <= j < |cursor| && cursor[..j] in nodes
          ensures nodes[cursor[..j]] == FsDir
        {
          assert cursor[..j] == dest[..j];
        }
        FreePathIsNotFound(nodes, behind, cursor);
      }
    }
  }

  lemma PresentIsFound(nodes: Nodes, behind: Behind, p: Path)
    requires p in nodes
    ensures Lstat(nodes, behind, p) == Present(nodes[p])
  {
  }

  /** What can be written passes its check. */
  lemma WritableIsSafe(nodes: Nodes, behind: Behind, root: Path, item: Item, overwrite: bool)
    requires Writable(nodes, item, overwrite) && (item.path == root ==> item.node == FsDir)
    ensures EnsureSafe(nodes, behind, root, item, overwrite).Ok?
  {
    hide Lstat, CheckAncestors;
    DirectoriesPass(nodes, behind, root, item.path, 0);
    if item.path in nodes {
      PresentIsFound(nodes, behind, item.path);
    } else {
      FreePathIsNotFound(nodes, behind, item.path);
    }
  }

  /** The check of one destination, exactly. */
  lemma SafeExactly(nodes: Nodes, behind: Behind, root: Path, item: Item, overwrite: bool)
    requires IsFileSystem(nodes) && NoSymlinkAtOrAbove(nodes, root) && root <= item.path && !item.node.FsOther?
    requires item.path == root ==> item.node == FsDir
    ensures EnsureSafe(nodes, behind, root, item, overwrite).Ok? <==> Writable(nodes, item, overwrite)
  {
    hide EnsureSafe, Writable, IsFileSystem, NoSymlinkAtOrAbove;
    if EnsureSafe(nodes, behind, root, item, overwrite).Ok? {
      SafeIsWritable(nodes, behind, root, item, overwrite);
    }
    if Writable(nodes, item, overwrite) {
      WritableIsSafe(nodes, behind, root, item, overwrite);
    }
  }

  /** Why something below existing directories is refused. */
  lemma RefusalNamesTheObstacle(nodes: Nodes, behind: Behind, root: Path, item: Item, overwrite: bool)
    requires item.path != root && item.path in nodes
    requires forall k :: 0 <= k < |item.path| && item.path[..k] in nodes ==> nodes[item.path[..k]] == FsDir
    ensures var safe, found := EnsureSafe(nodes, behind, root, item, overwrite), nodes[item.path];
            && (item.path == [] ==> safe == Err(EscapesRoot([])))
            && (item.path != [] && found.FsSymlink? ==> safe == Err(SymlinkInTheWay(item.path)))
            && (item.path != [] && item.node == FsDir && (found.FsFile? || found.FsOther?) ==>
                  safe == Err(WrongKind(item.path)))
            && (item.path != [] && item.node.FsFile? && (found == FsDir || found.FsOther?) ==>
                  safe == Err(WrongKind(item.path)))
            && (item.path != [] && item.node.FsFile? && found.FsFile? && !overwrite ==>
                  safe == Err(Exists(item.path)))
            && (item.path != [] && item.node.FsSymlink? && !found.FsSymlink? ==> safe == Err(Exists(item.path)))
  {
    hide Lstat, CheckAncestors;
    if item.path != [] {
      DirectoriesPass(nodes, behind, root, item.path, 0);
    }
    PresentIsFound(nodes, behind, item.path);
  }

  /** Below existing directories from the root on, the first other node above an item is what stops it. */
  lemma {:induction false} FirstObstacleStops(nodes: Nodes, behind: Behind, root: Path, dest: Path, j: nat, k: nat)
    requires |root| <= k < |dest| && root <= dest && j <= k
    requires forall i :: |root| <= i < k ==> dest[..i] in nodes && nodes[dest[..i]] == FsDir
    requires dest[..k] in nodes && nodes[dest[..k]] != FsDir
    ensures CheckAncestors(nodes, behind, root, dest, j)
            == if nodes[dest[..k]].FsSymlink? then Err(SymlinkInTheWay(dest[..k])) else Err(WrongKind(dest[..k]))
    decreases k - j
  {
    hide Lstat;
    PresentIsFound(nodes, behind, dest[..k]);
    if j < k {
      if |root| <= j {
        PresentIsFound(nodes, behind, dest[..j]);
      }
      FirstObstacleStops(nodes, behind, root, dest, j + 1, k);
    }
  }

  /** What the planned writes may assume of each other and of the file system. */
  ghost predicate NoConflicts(nodes: Nodes, items: seq<Item>, overwrite: bool) {
    && (forall i, j :: 0 <= i < j < |items| ==> items[i].path != items[j].path)
    && (forall i, j :: 0 <= i < |items| && 0 <= j < |items| && items[i].path < items[j].path ==> items[i].node == FsDir)
    && (forall i :: 0 <= i < |items| ==> Writable(nodes, items[i], overwrite))
  }
}
