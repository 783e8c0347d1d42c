/**
 Restoring only some paths (crates/fileferry-core/src/lib.rs,
 `scoped_manifest_entries` and `ensure_restore_paths_exist`) gives what a full
 restore gives, without what lies outside them.
 */
module PartialRestore {
  import opened Common
  import opened Repository
  import opened Readers
  import CheckMeaning

  function Filter<T>(s: seq<T>, keep: T -> bool): seq<T> {
    if s == [] then []
    else
      var before, last := Filter(s[..|s| - 1], keep), s[|s| - 1];
      if keep(last) then before + [last] else before
  }

  lemma FilterAppend<T>(s: seq<T>, x: T, keep: T -> bool)
    ensures Filter(s + [x], keep) == if keep(x) then Filter(s, keep) + [x] else Filter(s, keep)
  {
    assert (s + [x])[..|s + [x]| - 1] == s;
  }

  lemma {:induction false} FilterMembers<T>(s: seq<T>, keep: T -> bool, x: T)
    ensures x in Filter(s, keep) <==> x in s && keep(x)
    decreases |s|
  {
    if s != [] {
      FilterMembers(s[..|s| - 1], keep, x);
      assert s == s[..|s| - 1] + [s[|s| - 1]];
    }
  }

  /** The part of the contents that lies at or below one of the requested paths. */
  function Within(c: Contents, scope: seq<RelPath>): Contents {
    Contents(Filter(c.directories, (d: RestoredDirectory) => InScope(d.path, scope)),
             Filter(c.files, (f: RestoredFile) => InScope(f.path, scope)),
             Filter(c.symlinks, (l: RestoredSymlink) => InScope(l.path, scope)),
             Filter(c.warnings, (w: Warning) => InScope(w.path, scope)))
  }

  lemma OneMoreWithin(r: Repo, store: Store, index: IndexMap, c: Contents, e: Entry, scope: seq<RelPath>)
    requires RestoreEntry(r, store, index, c, e).Ok?
    ensures var after := RestoreEntry(r, store, index, c, e).value;
            if InScope(e.path, scope)
            then RestoreEntry(r, store, index, Within(c, scope), e) == Ok(Within(after, scope))
            else Within(after, scope) == Within(c, scope)
  {
    hide RestoreFile, InScope;
    match e.metadata.kind
    case Directory =>
      FilterAppend(c.directories, RestoredDirectory(e.path, e.metadata.modified),
                   (d: RestoredDirectory) => InScope(d.path, scope));
    case Symlink =>
      if e.metadata.symlinkTarget.Captured? {
        FilterAppend(c.symlinks, RestoredSymlink(e.path, e.metadata.symlinkTarget.value),
                     (l: RestoredSymlink) => InScope(l.path, scope));
      } else {
        FilterAppend(c.warnings, TargetWarning(e.path, e.metadata.symlinkTarget),
                     (w: Warning) => InScope(w.path, scope));
      }
    case Other =>
    case RegularFile =>
      FilterAppend(c.files, RestoredFile(e.path, RestoreFile(r, store, index, e.chunks).value, e.metadata.modified),
                   (f: RestoredFile) => InScope(f.path, scope));
  }

  lemma {:induction false} ScopedEntriesRestore(r: Repo, store: Store, index: IndexMap, entries: seq<Entry>,
                                                scope: seq<RelPath>)
    requires RestoreEntries(r, store, index, entries).Ok?
    ensures RestoreEntries(r, store, index, Scoped(entries, scope))
            == Ok(Within(RestoreEntries(r, store, index, entries).value, scope))
    decreases |entries|
  {
    hide RestoreEntry, InScope, Within;
    if entries == [] {
      NothingWithin(scope);
    } else {
      var init, e := entries[..|entries| - 1], entries[|entries| - 1];
      ScopedEntriesRestore(r, store, index, init, scope);
      OneMoreWithin(r, store, index, RestoreEntries(r, store, index, init).value, e, scope);
      var before := Scoped(init, scope);
      assert (before + [e])[..|before + [e]| - 1] == before;
    }
  }

  lemma NothingWithin(scope: seq<RelPath>)
    ensures Within(NOTHING, scope) == NOTHING
  {
  }

  /**
   When the whole snapshot restores, a restore of some paths fails only for
   paths that are not relative or that no entry lies under, and otherwise
   gives the part of the whole that lies under them.
   */
  lemma {:induction false} PartialRestoreIsPartOfWhole(r: Repo, store: Store, id: Id, paths: seq<RelPath>)
    requires RestoreContents(r, store, id, []).Ok?
    ensures var scope := NormalizePaths(paths);
            var entries := ReadManifest(r, store, id).value.body.entries;
            RestoreContents(r, store, id, paths) ==
            if scope.Err? then Err(scope.error)
            else if FirstMissing(entries, scope.value).Some?
            then Err(SnapshotPathNotFound(FirstMissing(entries, scope.value).value))
            else Ok(Within(RestoreContents(r, store, id, []).value, scope.value))
  {
    hide RestoreEntries, LoadIndexes, ReadManifest, Scoped, FirstMissing, Within, NormalizePaths;
    NoPaths();
    var m := ReadManifest(r, store, id).value;
    NothingMissing(m.body.entries);
    CheckMeaning.ScopeOfEverything(m.body.entries);
    var index := LoadIndexes(r, store, m.body.indexIds).value;
    if NormalizePaths(paths).Ok? {
      ScopedEntriesRestore(r, store, index, m.body.entries, NormalizePaths(paths).value);
    }
  }

  lemma NoPaths()
    ensures NormalizePaths([]) == Ok([])
  {
  }

  lemma NothingMissing(entries: seq<Entry>)
    ensures FirstMissing(entries, []) == None
  {
  }

  predicate IsNamed(c: Component) {
    c != CurDir
  }

  /** A requested path is accepted when it has only names and `.`, and then it is its names. */
  lemma {:induction false} PathIsAccepted(path: RelPath)
    ensures NormalizePath(path).Ok? <==> forall i :: 0 <= i < |path| ==> path[i].Normal? || path[i] == CurDir
    ensures NormalizePath(path) == if NormalizePath(path).Ok? then Ok(Filter(path, IsNamed))
                                   else Err(InvalidRestoreRequest)
    decreases |path|
  {
    if path != [] {
      PathIsAccepted(path[..|path| - 1]);
    }
  }

  /** All requested paths are accepted or none. */
  lemma {:induction false} PathsAreAccepted(paths: seq<RelPath>)
    ensures NormalizePaths(paths).Ok? <==> forall i :: 0 <= i < |paths| ==> NormalizePath(paths[i]).Ok?
    ensures NormalizePaths(paths).Ok? ==>
              |NormalizePaths(paths).value| == |paths|
              && forall i :: 0 <= i < |paths| ==> Ok(NormalizePaths(paths).value[i]) == NormalizePath(paths[i])
    ensures NormalizePaths(paths).Err? ==> NormalizePaths(paths) == Err(InvalidRestoreRequest)
    decreases |paths|
  {
    hide NormalizePath;
    if paths != [] {
      var n := |paths| - 1;
      PathsAreAccepted(paths[..n]);
      PathIsAccepted(paths[n]);
    }
  }

  /** Some requested path, without its `.` components, is this path or lies above it; or none was requested. */
  ghost predicate IsRequested(paths: seq<RelPath>, path: RelPath) {
    paths == [] || exists i :: 0 <= i < |paths| && Filter(paths[i], IsNamed) <= path
  }

  lemma {:induction false} RequestedIsInScope(paths: seq<RelPath>, path: RelPath)
    requires NormalizePaths(paths).Ok?
    ensures IsRequested(paths, path) <==> InScope(path, NormalizePaths(paths).value)
  {
    hide NormalizePath, NormalizePaths, Filter;
    var scope := NormalizePaths(paths).value;
    PathsAreAccepted(paths);
    forall i | 0 <= i < |paths|
      ensures scope[i] == Filter(paths[i], IsNamed)
    {
      PathIsAccepted(paths[i]);
    }
  }

  /** A partial restore gives exactly the requested directories, files and symlinks of the whole. */
  lemma {:induction false} RequestedIsRestored(r: Repo, store: Store, id: Id, paths: seq<RelPath>)
    requires RestoreContents(r, store, id, []).Ok? && RestoreContents(r, store, id, paths).Ok?
    ensures var whole, part := RestoreContents(r, store, id, []).value, RestoreContents(r, store, id, paths).value;
            && (forall d :: d in part.directories <==> d in whole.directories && IsRequested(paths, d.path))
            && (forall f :: f in part.files <==> f in whole.files && IsRequested(paths, f.path))
            && (forall l :: l in part.symlinks <==> l in whole.symlinks && IsRequested(paths, l.path))
            && (forall w :: w in part.warnings <==> w in whole.warnings && IsRequested(paths, w.path))
  {
    hide RestoreContents, NormalizePaths, FirstMissing, InScope, IsRequested, ReadManifest;
    PartialRestoreIsPartOfWhole(r, store, id, paths);
    var whole, scope := RestoreContents(r, store, id, []).value, NormalizePaths(paths).value;
    forall path { RequestedIsInScope(paths, path); }
    WithinMembers(whole, scope);
  }

  lemma WithinMembers(c: Contents, scope: seq<RelPath>)
    ensures var part := Within(c, scope);
            && (forall d :: d in part.directories <==> d in c.directories && InScope(d.path, scope))
            && (forall f :: f in part.files <==> f in c.files && InScope(f.path, scope))
            && (forall l :: l in part.symlinks <==> l in c.symlinks && InScope(l.path, scope))
            && (forall w :: w in part.warnings <==> w in c.warnings && InScope(w.path, scope))
  {
    hide Filter, InScope;
    var part := Within(c, scope);
    forall d
      ensures d in part.directories <==> d in c.directories && InScope(d.path, scope)
    {
      FilterMembers(c.directories, (d: RestoredDirectory) => InScope(d.path, scope), d);
    }
    forall f
      ensures f in part.files <==> f in c.files && InScope(f.path, scope)
    {
      FilterMembers(c.files, (f: RestoredFile) => InScope(f.path, scope), f);
    }
    forall l
      ensures l in part.symlinks <==> l in c.symlinks && InScope(l.path, scope)
    {
      FilterMembers(c.symlinks, (l: RestoredSymlink) => InScope(l.path, scope), l);
    }
    forall w
      ensures w in part.warnings <==> w in c.warnings && InScope(w.path, scope)
    {
      FilterMembers(c.warnings, (w: Warning) => InScope(w.path, scope), w);
    }
  }

  /** No requested path is missing if and only if some entry lies at or below each of them. */
  lemma {:induction false} FirstMissingMeaning(entries: seq<Entry>, scope: seq<RelPath>)
    ensures FirstMissing(entries, scope).None? <==> forall i :: 0 <= i < |scope| ==> HasEntryUnder(entries, scope[i])
    ensures FirstMissing(entries, scope).Some? ==>
              exists n :: 0 <= n < |scope| && scope[n] == FirstMissing(entries, scope).value
                && !HasEntryUnder(entries, scope[n]) && forall i :: 0 <= i < n ==> HasEntryUnder(entries, scope[i])
    decreases |scope|
  {
    hide HasEntryUnder;
    if scope != [] {
      var rest := scope[1..];
      FirstMissingMeaning(entries, rest);
      FirstOrLater(entries, scope);
      if HasEntryUnder(entries, scope[0]) && FirstMissing(entries, rest).Some? {
        var n :| 0 <= n < |rest| && rest[n] == FirstMissing(entries, rest).value
                 && !HasEntryUnder(entries, rest[n]) && forall i :: 0 <= i < n ==> HasEntryUnder(entries, rest[i]);
        assert scope[n + 1] == rest[n] && forall i :: 0 < i < n + 1 ==> scope[i] == rest[i - 1];
      }
    }
  }

  lemma {:induction false} FirstOrLater(entries: seq<Entry>, scope: seq<RelPath>)
    requires scope != []
    ensures FirstMissing(entries, scope)
            == if HasEntryUnder(entries, scope[0]) then FirstMissing(entries, scope[1..]) else Some(scope[0])
  {
  }

  predicate HasEntryUnder(entries: seq<Entry>, path: RelPath) {
    exists i :: 0 <= i < |entries| && path <= entries[i].path
  }
}
