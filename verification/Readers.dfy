/**
 Reading a repository back (crates/fileferry-core/src/lib.rs): manifests,
 indexes, chunks, and whole snapshots into memory.
 */
module Readers {
  import opened Common
  import opened Repository
  import opened Manifests

  // ---------- Metadata objects ----------

  function Get(store: Store, key: Key): Result<Object, Error> {
    if key in store then Ok(store[key]) else Err(StorageNotFound(key))
  }

  /** `read_encrypted_json_object` up to the decoded type. */
  function ReadSealed(r: Repo, store: Store, purpose: Purpose, key: Key): Result<Payload, Error> {
    var o := Get(store, key);
    if o.Err? then Err(o.error) else Open(r, purpose, key, o.value)
  }

  /** `read_snapshot_manifest` */
  function ReadManifest(r: Repo, store: Store, id: Id): Result<Manifest, Error> {
    var key := ManifestKey(id);
    var p := ReadSealed(r, store, SnapshotMetadata, key);
    if p.Err? then Err(p.error)
    else if !p.value.ManifestPayload? then Err(MetadataDecode(key))
    else
      var m := p.value.manifest;
      if m.snapshotId != id || r.snapshotId(m.body) != id then Err(MetadataIdentityMismatch(key))
      else if !ValidEntries(m.body.entries) then Err(InvalidSnapshotManifest(key))
      else Ok(m)
  }

  lemma ReadManifestKeepsId(r: Repo, store: Store, id: Id)
    ensures ReadManifest(r, store, id).Ok? ==> ReadManifest(r, store, id).value.snapshotId == id
  {
  }

  /** `read_chunk_index` */
  function ReadIndex(r: Repo, store: Store, id: Id): Result<ChunkIndex, Error> {
    var key := IndexKey(id);
    var p := ReadSealed(r, store, IndexData, key);
    if p.Err? then Err(p.error)
    else if !p.value.IndexPayload? then Err(MetadataDecode(key))
    else
      var index := p.value.index;
      if index.indexId != id || r.indexId(index.chunks) != id then Err(MetadataIdentityMismatch(key))
      else Ok(index)
  }

  /** How a missing metadata object is reported by whoever follows a reference to it. */
  function Referenced<T>(result: Result<T, Error>, missing: Error): Result<T, Error> {
    if result.Err? && result.error.StorageNotFound? then Err(missing) else result
  }

  type IndexMap = map<Id, IndexEntry>

  /** Later entries for one chunk id replace earlier ones. */
  function InsertAll(index: IndexMap, entries: seq<IndexEntry>): IndexMap {
    if entries == [] then index
    else
      var e := entries[|entries| - 1];
      InsertAll(index, entries[..|entries| - 1])[e.chunkId := e]
  }

  /** `load_chunk_index_entries` */
  function LoadIndexes(r: Repo, store: Store, ids: seq<Id>): Result<IndexMap, Error> {
    if ids == [] then Ok(map[])
    else
      var before := LoadIndexes(r, store, ids[..|ids| - 1]);
      if before.Err? then before
      else
        var id := ids[|ids| - 1];
        var index := Referenced(ReadIndex(r, store, id), ReferencedObjectMissing(IndexKey(id)));
        if index.Err? then Err(index.error) else Ok(InsertAll(before.value, index.value.chunks))
  }

  /** The same with one read after the other, from `at` on. */
  function LoadIndexesAlong(r: Repo, history: nat -> Store, ids: seq<Id>, at: nat): Result<IndexMap, Error> {
    if ids == [] then Ok(map[])
    else
      var n := |ids| - 1;
      var before := LoadIndexesAlong(r, history, ids[..n], at);
      if before.Err? then before
      else
        var index := Referenced(ReadIndex(r, history(at + n), ids[n]), ReferencedObjectMissing(IndexKey(ids[n])));
        if index.Err? then Err(index.error) else Ok(InsertAll(before.value, index.value.chunks))
  }

  // ---------- Chunks ----------

  /** Lookup and `validate_indexed_chunk_reference`. */
  function ResolveChunk(index: IndexMap, c: ChunkRef): Result<IndexEntry, Error> {
    if c.chunkId !in index then Err(MissingChunkIndexEntry(c.chunkId))
    else if index[c.chunkId].objectKey != c.objectKey || index[c.chunkId].plaintextLength != c.length
    then Err(ChunkIndexMismatch(c.chunkId))
    else Ok(index[c.chunkId])
  }

  /** Decrypt, decompress to at most the indexed length, and compare length and content id. */
  function ReadChunkObject(r: Repo, store: Store, id: Id, key: Key, indexed: IndexEntry): Result<Data, Error> {
    if key !in store then Err(StorageNotFound(key))
    else
      var p := Open(r, ChunkData, key, store[key]);
      if p.Err? then Err(p.error)
      else if !p.value.ChunkPayload? || |p.value.data| > indexed.plaintextLength then Err(Decompression(id))
      else if |p.value.data| != indexed.plaintextLength then Err(InvalidChunkLength(id))
      else if r.chunkId(p.value.data) != id then Err(ChunkIdentityMismatch(id))
      else Ok(p.value.data)
  }

  function RestoreChunk(r: Repo, store: Store, index: IndexMap, c: ChunkRef): Result<Data, Error> {
    var indexed := ResolveChunk(index, c);
    if indexed.Err? then Err(indexed.error)
    else Referenced(ReadChunkObject(r, store, c.chunkId, c.objectKey, indexed.value),
                    ReferencedObjectMissing(c.objectKey))
  }

  function RestoreFile(r: Repo, store: Store, index: IndexMap, chunks: seq<ChunkRef>): Result<Data, Error> {
    if chunks == [] then Ok([])
    else
      var before := RestoreFile(r, store, index, chunks[..|chunks| - 1]);
      if before.Err? then before
      else
        var last := RestoreChunk(r, store, index, chunks[|chunks| - 1]);
        if last.Err? then last else Ok(before.value + last.value)
  }

  // ---------- Snapshots ----------

  datatype RestoredDirectory = RestoredDirectory(path: RelPath, modified: ModTime)

  datatype RestoredFile = RestoredFile(path: RelPath, contents: Data, modified: ModTime)

  datatype RestoredSymlink = RestoredSymlink(path: RelPath, target: string)

  /** Why a field of an entry's metadata is not restored. */
  datatype Warning = Warning(path: RelPath, field: string, reason: string)

  datatype Contents = Contents(
    directories: seq<RestoredDirectory>, files: seq<RestoredFile>, symlinks: seq<RestoredSymlink>,
    warnings: seq<Warning>)

  function TargetWarning(path: RelPath, target: MetadataValue<string>): Warning {
    Warning(path, "symlink_target",
            if target.Denied? then "symlink target was denied: " + target.reason
            else "symlink target was not captured")
  }

  const NOTHING := Contents([], [], [], [])

  /** The contents with one more entry, whose bytes are `data` if it is a file. */
  function AddRestored(c: Contents, path: RelPath, metadata: Metadata, data: Data): Contents {
    match metadata.kind
    case Directory => c.(directories := c.directories + [RestoredDirectory(path, metadata.modified)])
    case Symlink =>
      if metadata.symlinkTarget.Captured?
      then c.(symlinks := c.symlinks + [RestoredSymlink(path, metadata.symlinkTarget.value)])
      else c.(warnings := c.warnings + [TargetWarning(path, metadata.symlinkTarget)])
    case Other => c
    case RegularFile => c.(files := c.files + [RestoredFile(path, data, metadata.modified)])
  }

  function RestoreEntry(r: Repo, store: Store, index: IndexMap, c: Contents, e: Entry): Result<Contents, Error> {
    var data := if e.metadata.kind == RegularFile then RestoreFile(r, store, index, e.chunks) else Ok([]);
    if data.Err? then Err(data.error) else Ok(AddRestored(c, e.path, e.metadata, data.value))
  }

  function RestoreEntries(r: Repo, store: Store, index: IndexMap, entries: seq<Entry>): Result<Contents, Error> {
    if entries == [] then Ok(NOTHING)
    else
      var before := RestoreEntries(r, store, index, entries[..|entries| - 1]);
      if before.Err? then before else RestoreEntry(r, store, index, before.value, entries[|entries| - 1])
  }

  /** `normalize_restore_path` */
  function NormalizePath(path: RelPath): Result<RelPath, Error> {
    if path == [] then Ok([])
    else
      var before := NormalizePath(path[..|path| - 1]);
      if before.Err? then before
      else
        match path[|path| - 1]
        case CurDir => before
        case Normal(_) => Ok(before.value + [path[|path| - 1]])
        case _ => Err(InvalidRestoreRequest)
  }

  function NormalizePaths(paths: seq<RelPath>): Result<seq<RelPath>, Error> {
    if paths == [] then Ok([])
    else
      var before := NormalizePaths(paths[..|paths| - 1]);
      if before.Err? then before
      else
        var last := NormalizePath(paths[|paths| - 1]);
        if last.Err? then Err(last.error) else Ok(before.value + [last.value])
  }

  predicate InScope(path: RelPath, scope: seq<RelPath>) {
    scope == [] || exists i :: 0 <= i < |scope| && scope[i] <= path
  }

  /** `scoped_manifest_entries` */
  function Scoped(entries: seq<Entry>, scope: seq<RelPath>): seq<Entry> {
    if entries == [] then []
    else
      var before, e := Scoped(entries[..|entries| - 1], scope), entries[|entries| - 1];
      if InScope(e.path, scope) then before + [e] else before
  }

  /** `ensure_restore_paths_exist`: the first requested path that no entry lies under. */
  function FirstMissing(entries: seq<Entry>, scope: seq<RelPath>): Option<RelPath> {
    if scope == [] then None
    else if exists i :: 0 <= i < |entries| && scope[0] <= entries[i].path then FirstMissing(entries, scope[1..])
    else Some(scope[0])
  }

  /** `restore_snapshot_contents` */
  function RestoreContents(r: Repo, store: Store, id: Id, paths: seq<RelPath>): Result<Contents, Error> {
    var scope := NormalizePaths(paths);
    if scope.Err? then Err(scope.error)
    else
      var m := Referenced(ReadManifest(r, store, id), ReferencedObjectMissing(ManifestKey(id)));
      if m.Err? then Err(m.error)
      else
        var missing := FirstMissing(m.value.body.entries, scope.value);
        if missing.Some? then Err(SnapshotPathNotFound(missing.value))
        else
          var index := LoadIndexes(r, store, m.value.body.indexIds);
          if index.Err? then Err(index.error)
          else RestoreEntries(r, store, index.value, Scoped(m.value.body.entries, scope.value))
  }

  // ---------- Operation by operation ----------

  /** One chunk read after the other, from `at` on. */
  function RestoreFileAlong(r: Repo, history: nat -> Store, index: IndexMap, chunks: seq<ChunkRef>, at: nat)
    : Result<Data, Error> {
    if chunks == [] then Ok([])
    else
      var n := |chunks| - 1;
      var before := RestoreFileAlong(r, history, index, chunks[..n], at);
      if before.Err? then before
      else
        var last := RestoreChunk(r, history(at + n), index, chunks[n]);
        if last.Err? then last else Ok(before.value + last.value)
  }

  function RestoreEntryAlong(r: Repo, history: nat -> Store, index: IndexMap, c: Contents, e: Entry, at: nat)
    : Result<Contents, Error> {
    var data := if e.metadata.kind == RegularFile then RestoreFileAlong(r, history, index, e.chunks, at) else Ok([]);
    if data.Err? then Err(data.error) else Ok(AddRestored(c, e.path, e.metadata, data.value))
  }

  /** How many chunks these entries read. */
  function Reads(entries: seq<Entry>): nat {
    if entries == [] then 0
    else
      var e := entries[|entries| - 1];
      Reads(entries[..|entries| - 1]) + (if e.metadata.kind == RegularFile then |e.chunks| else 0)
  }

  function RestoreEntriesAlong(r: Repo, history: nat -> Store, index: IndexMap, entries: seq<Entry>, at: nat)
    : Result<Contents, Error> {
    if entries == [] then Ok(NOTHING)
    else
      var init, e := entries[..|entries| - 1], entries[|entries| - 1];
      var before := RestoreEntriesAlong(r, history, index, init, at);
      if before.Err? then before else RestoreEntryAlong(r, history, index, before.value, e, at + Reads(init))
  }

  /** A manifest read, one read per index, and one per chunk, each in its own state. */
  function RestoreAlong(r: Repo, history: nat -> Store, id: Id, paths: seq<RelPath>): Result<Contents, Error> {
    var scope := NormalizePaths(paths);
    if scope.Err? then Err(scope.error)
    else
      var m := Referenced(ReadManifest(r, history(0), id), ReferencedObjectMissing(ManifestKey(id)));
      if m.Err? then Err(m.error)
      else
        var missing := FirstMissing(m.value.body.entries, scope.value);
        if missing.Some? then Err(SnapshotPathNotFound(missing.value))
        else
          var ids := m.value.body.indexIds;
          var index := LoadIndexesAlong(r, history, ids, 1);
          if index.Err? then Err(index.error)
          else RestoreEntriesAlong(r, history, index.value, Scoped(m.value.body.entries, scope.value), 1 + |ids|)
  }

  /** The entries of the manifest that a restore which succeeds works on. */
  function SelectedEntries(r: Repo, store: Store, id: Id, paths: seq<RelPath>): seq<Entry>
    requires NormalizePaths(paths).Ok? && ReadManifest(r, store, id).Ok?
  {
    Scoped(ReadManifest(r, store, id).value.body.entries, NormalizePaths(paths).value)
  }

  // ---------- The reading loops ----------

  method LoadIndexEntries(r: Repo, history: nat -> Store, ids: seq<Id>, at: nat)
    returns (result: Result<IndexMap, Error>)
    ensures result == LoadIndexesAlong(r, history, ids, at)
  {
    hide ReadIndex;
    var entries: IndexMap := map[];
    for i := 0 to |ids|
      invariant LoadIndexesAlong(r, history, ids[..i], at) == Ok(entries)
    {
      assert ids[..i + 1][..i] == ids[..i];
      var index := Referenced(ReadIndex(r, history(at + i), ids[i]), ReferencedObjectMissing(IndexKey(ids[i])));
      if index.Err? {
        LoadIndexesFails(r, history, ids, at, i + 1);
        return Err(index.error);
      }
      var chunks := index.value.chunks;
      ghost var before := entries;
      for j := 0 to |chunks|
        invariant entries == InsertAll(before, chunks[..j])
      {
        assert chunks[..j + 1][..j] == chunks[..j];
        entries := entries[chunks[j].chunkId := chunks[j]];
      }
      assert chunks[..|chunks|] == chunks;
    }
    assert ids[..|ids|] == ids;
    return Ok(entries);
  }

  lemma {:induction false} LoadIndexesFails(r: Repo, history: nat -> Store, ids: seq<Id>, at: nat, n: nat)
    requires n <= |ids| && LoadIndexesAlong(r, history, ids[..n], at).Err?
    ensures LoadIndexesAlong(r, history, ids, at) == LoadIndexesAlong(r, history, ids[..n], at)
    decreases |ids|
  {
    hide ReadIndex, InsertAll;
    if n < |ids| {
      assert ids[..|ids| - 1][..n] == ids[..n];
      LoadIndexesFails(r, history, ids[..|ids| - 1], at, n);
    } else {
      assert ids[..n] == ids;
    }
  }

  method RestoreFileContents(r: Repo, history: nat -> Store, index: IndexMap, chunks: seq<ChunkRef>, at: nat)
    returns (result: Result<Data, Error>)
    ensures result == RestoreFileAlong(r, history, index, chunks, at)
  {
    hide RestoreChunk;
    var contents: Data := [];
    for i := 0 to |chunks|
      invariant RestoreFileAlong(r, history, index, chunks[..i], at) == Ok(contents)
    {
      assert chunks[..i + 1][..i] == chunks[..i];
      var plaintext := RestoreChunk(r, history(at + i), index, chunks[i]);
      if plaintext.Err? {
        RestoreFileFails(r, history, index, chunks, at, i + 1);
        return Err(plaintext.error);
      }
      contents := contents + plaintext.value;
    }
    assert chunks[..|chunks|] == chunks;
    return Ok(contents);
  }

  lemma {:induction false} RestoreFileFails(r: Repo, history: nat -> Store, index: IndexMap, chunks: seq<ChunkRef>,
                                            at: nat, n: nat)
    requires n <= |chunks| && RestoreFileAlong(r, history, index, chunks[..n], at).Err?
    ensures RestoreFileAlong(r, history, index, chunks, at) == RestoreFileAlong(r, history, index, chunks[..n], at)
    decreases |chunks|
  {
    hide RestoreChunk;
    if n < |chunks| {
      assert chunks[..|chunks| - 1][..n] == chunks[..n];
      RestoreFileFails(r, history, index, chunks[..|chunks| - 1], at, n);
    } else {
      assert chunks[..n] == chunks;
    }
  }

  lemma {:induction false} RestoreEntriesFails(r: Repo, history: nat -> Store, index: IndexMap, entries: seq<Entry>,
                                               at: nat, n: nat)
    requires n <= |entries| && RestoreEntriesAlong(r, history, index, entries[..n], at).Err?
    ensures RestoreEntriesAlong(r, history, index, entries, at)
            == RestoreEntriesAlong(r, history, index, entries[..n], at)
    decreases |entries|
  {
    hide RestoreEntryAlong, Reads;
    if n < |entries| {
      assert entries[..|entries| - 1][..n] == entries[..n];
      RestoreEntriesFails(r, history, index, entries[..|entries| - 1], at, n);
    } else {
      assert entries[..n] == entries;
    }
  }

  lemma {:induction false} RestoreEntriesStep(r: Repo, history: nat -> Store, index: IndexMap, entries: seq<Entry>,
                                              at: nat, i: nat)
    requires i < |entries| && RestoreEntriesAlong(r, history, index, entries[..i], at).Ok?
    ensures RestoreEntriesAlong(r, history, index, entries[..i + 1], at)
            == RestoreEntryAlong(r, history, index, RestoreEntriesAlong(r, history, index, entries[..i], at).value,
                                 entries[i], at + Reads(entries[..i]))
    ensures Reads(entries[..i + 1])
            == Reads(entries[..i]) + if entries[i].metadata.kind == RegularFile then |entries[i].chunks| else 0
  {
    hide RestoreEntryAlong;
    assert entries[..i + 1][..i] == entries[..i];
  }

  lemma EntryIsAdded(r: Repo, history: nat -> Store, index: IndexMap, c: Contents, e: Entry, at: nat)
    ensures e.metadata.kind != RegularFile ==>
              RestoreEntryAlong(r, history, index, c, e, at) == Ok(AddRestored(c, e.path, e.metadata, []))
    ensures e.metadata.kind == RegularFile ==>
              var data := RestoreFileAlong(r, history, index, e.chunks, at);
              RestoreEntryAlong(r, history, index, c, e, at)
              == if data.Err? then Err(data.error) else Ok(AddRestored(c, e.path, e.metadata, data.value))
  {
    hide RestoreFileAlong, AddRestored;
  }

  /** `restore_snapshot_contents`, with the number of selected entries. */
  method RestoreSnapshot(r: Repo, history: nat -> Store, id: Id, paths: seq<RelPath>)
    returns (result: Result<Contents, Error>, selected: nat)
    ensures result == RestoreAlong(r, history, id, paths)
    ensures result.Ok? ==> NormalizePaths(paths).Ok? && ReadManifest(r, history(0), id).Ok?
                           && selected == |SelectedEntries(r, history(0), id, paths)|
  {
    hide RestoreEntriesAlong, LoadIndexesAlong, ReadManifest, Scoped, FirstMissing, NormalizePaths;
    selected := 0;
    var scope := NormalizePaths(paths);
    if scope.Err? {
      return Err(scope.error), selected;
    }
    var m := Referenced(ReadManifest(r, history(0), id), ReferencedObjectMissing(ManifestKey(id)));
    if m.Err? {
      return Err(m.error), selected;
    }
    var entries := Scoped(m.value.body.entries, scope.value);
    var missing := FirstMissing(m.value.body.entries, scope.value);
    if missing.Some? {
      return Err(SnapshotPathNotFound(missing.value)), selected;
    }
    selected := |entries|;
    var index := LoadIndexEntries(r, history, m.value.body.indexIds, 1);
    if index.Err? {
      return Err(index.error), selected;
    }
    result := RestoreAll(r, history, index.value, entries, 1 + |m.value.body.indexIds|);
  }

  lemma NothingRestored(r: Repo, history: nat -> Store, index: IndexMap, at: nat)
    ensures RestoreEntriesAlong(r, history, index, [], at) == Ok(NOTHING) && Reads([]) == 0
  {
  }

  method RestoreAll(r: Repo, history: nat -> Store, index: IndexMap, entries: seq<Entry>, at: nat)
    returns (result: Result<Contents, Error>)
    ensures result == RestoreEntriesAlong(r, history, index, entries, at)
  {
    hide RestoreEntriesAlong, Reads, RestoreEntryAlong, RestoreFileAlong, TargetWarning;
    var directories, files, symlinks, warnings := [], [], [], [];
    var done := 0;
    assert entries[..0] == [];
    NothingRestored(r, history, index, at);
    for i := 0 to |entries|
      invariant RestoreEntriesAlong(r, history, index, entries[..i], at)
                == Ok(Contents(directories, files, symlinks, warnings))
      invariant done == Reads(entries[..i])
    {
      RestoreEntriesStep(r, history, index, entries, at, i);
      var e := entries[i];
      ghost var c := Contents(directories, files, symlinks, warnings);
      EntryIsAdded(r, history, index, c, e, at + done);
      match e.metadata.kind {
        case Directory =>
          directories := directories + [RestoredDirectory(e.path, e.metadata.modified)];
          continue;
        case Symlink =>
          if e.metadata.symlinkTarget.Captured? {
            symlinks := symlinks + [RestoredSymlink(e.path, e.metadata.symlinkTarget.value)];
          } else {
            warnings := warnings + [TargetWarning(e.path, e.metadata.symlinkTarget)];
          }
          continue;
        case RegularFile =>
        case Other =>
          continue;
      }
      var contents := RestoreFileContents(r, history, index, e.chunks, at + done);
      if contents.Err? {
        RestoreEntriesFails(r, history, index, entries, at, i + 1);
        return Err(contents.error);
      }
      done := done + |e.chunks|;
      files := files + [RestoredFile(e.path, contents.value, e.metadata.modified)];
    }
    assert entries[..|entries|] == entries;
    return Ok(Contents(directories, files, symlinks, warnings));
  }
}
