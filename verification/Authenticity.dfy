/**
 What the readers accept, exactly, on any store, and what their errors say
 (crates/fileferry-core/src/lib.rs, the reading of sealed objects, markers and
 chunks).
 */
module Authenticity {
  import opened Common
  import opened Repository
  import opened Manifests
  import opened Readers
  import opened Visibility
  import opened Check

  /** The store holds this payload under the key, sealed for this repository, purpose and key. */
  ghost predicate Holds(r: Repo, store: Store, purpose: Purpose, key: Key, payload: Payload) {
    && key in store && store[key].Sealed?
    && store[key] == Sealed(Subkey(r.masterKey, purpose, r.repositoryId), purpose, key, store[key].nonce, payload)
  }

  // ---------- Objects ----------

  lemma ManifestReadsExactly(r: Repo, store: Store, id: Id, m: Manifest)
    ensures ReadManifest(r, store, id) == Ok(m)
            <==> && Holds(r, store, SnapshotMetadata, ManifestKey(id), ManifestPayload(m))
                 && m.snapshotId == id && r.snapshotId(m.body) == id && ValidEntries(m.body.entries)
  {
    hide ValidEntries;
  }

  lemma IndexReadsExactly(r: Repo, store: Store, id: Id, index: ChunkIndex)
    ensures ReadIndex(r, store, id) == Ok(index)
            <==> && Holds(r, store, IndexData, IndexKey(id), IndexPayload(index))
                 && index.indexId == id && r.indexId(index.chunks) == id
  {
  }

  lemma ChunkReadsExactly(r: Repo, store: Store, index: IndexMap, c: ChunkRef, data: Data)
    ensures RestoreChunk(r, store, index, c) == Ok(data)
            <==> && c.chunkId in index
                 && index[c.chunkId].objectKey == c.objectKey && index[c.chunkId].plaintextLength == c.length
                 && Holds(r, store, ChunkData, c.objectKey, ChunkPayload(data))
                 && |data| == c.length && r.chunkId(data) == c.chunkId
  {
  }

  /** The error of an object that cannot be opened. */
  ghost predicate CannotOpen(r: Repo, store: Store, purpose: Purpose, key: Key, e: Error) {
    match e
    case ObjectDecode(k) => k == key && key in store && !store[key].Sealed?
    case ObjectAuthentication(k) =>
      && k == key && key in store && store[key].Sealed?
      && !Holds(r, store, purpose, key, store[key].payload)
    case _ => false
  }

  lemma ManifestFaults(r: Repo, store: Store, id: Id)
    requires ReadManifest(r, store, id).Err?
    ensures var e, key := ReadManifest(r, store, id).error, ManifestKey(id);
            match e
            case StorageNotFound(k) => k == key && key !in store
            case MetadataDecode(k) =>
              && k == key && key in store && store[key].Sealed? && !store[key].payload.ManifestPayload?
              && Holds(r, store, SnapshotMetadata, key, store[key].payload)
            case MetadataIdentityMismatch(k) =>
              && k == key && key in store && store[key].Sealed? && store[key].payload.ManifestPayload?
              && Holds(r, store, SnapshotMetadata, key, store[key].payload)
              && var m := store[key].payload.manifest; m.snapshotId != id || r.snapshotId(m.body) != id
            case InvalidSnapshotManifest(k) =>
              && k == key && key in store && store[key].Sealed? && store[key].payload.ManifestPayload?
              && Holds(r, store, SnapshotMetadata, key, store[key].payload)
              && var m := store[key].payload.manifest;
                 m.snapshotId == id && r.snapshotId(m.body) == id && !ValidEntries(m.body.entries)
            case _ => CannotOpen(r, store, SnapshotMetadata, key, e)
  {
    hide ValidEntries;
  }

  lemma IndexFaults(r: Repo, store: Store, id: Id)
    requires ReadIndex(r, store, id).Err?
    ensures var e, key := ReadIndex(r, store, id).error, IndexKey(id);
            match e
            case StorageNotFound(k) => k == key && key !in store
            case MetadataDecode(k) =>
              && k == key && key in store && store[key].Sealed? && !store[key].payload.IndexPayload?
              && Holds(r, store, IndexData, key, store[key].payload)
            case MetadataIdentityMismatch(k) =>
              && k == key && key in store && store[key].Sealed? && store[key].payload.IndexPayload?
              && Holds(r, store, IndexData, key, store[key].payload)
              && var index := store[key].payload.index; index.indexId != id || r.indexId(index.chunks) != id
            case _ => CannotOpen(r, store, IndexData, key, e)
  {
  }

  lemma ChunkFaults(r: Repo, store: Store, index: IndexMap, c: ChunkRef)
    requires RestoreChunk(r, store, index, c).Err?
    ensures var e, key := RestoreChunk(r, store, index, c).error, c.objectKey;
            match e
            case MissingChunkIndexEntry(id) => id == c.chunkId && id !in index
            case ChunkIndexMismatch(id) =>
              && id == c.chunkId && id in index
              && (index[id].objectKey != key || index[id].plaintextLength != c.length)
            case ReferencedObjectMissing(k) => k == key && c.chunkId in index && key !in store
            case Decompression(id) =>
              && id == c.chunkId && key in store && store[key].Sealed?
              && Holds(r, store, ChunkData, key, store[key].payload)
              && (store[key].payload.ChunkPayload? ==> |store[key].payload.data| > c.length)
            case InvalidChunkLength(id) =>
              && id == c.chunkId && key in store && store[key].Sealed? && store[key].payload.ChunkPayload?
              && Holds(r, store, ChunkData, key, store[key].payload) && |store[key].payload.data| < c.length
            case ChunkIdentityMismatch(id) =>
              && id == c.chunkId && key in store && store[key].Sealed? && store[key].payload.ChunkPayload?
              && Holds(r, store, ChunkData, key, store[key].payload)
              && |store[key].payload.data| == c.length && r.chunkId(store[key].payload.data) != id
            case _ => CannotOpen(r, store, ChunkData, key, e)
  {
  }

  // ---------- Markers ----------

  lemma MarkerReadsExactly(store: Store, id: Id, read: Id)
    ensures ReadMarker(store, id) == Ok(read)
            <==> && read == id && ForgetKey(id) in store && store[ForgetKey(id)].ForgetDoc?
                 && store[ForgetKey(id)].marker
                    == ForgetMarker(0, id, ManifestKey(id), CommitKey(id), store[ForgetKey(id)].marker.forgottenAt)
  {
  }

  lemma MarkerFaults(store: Store, id: Id)
    requires ReadMarker(store, id).Err?
    ensures var e, key := ReadMarker(store, id).error, ForgetKey(id);
            match e
            case StorageNotFound(k) => k == key && key !in store
            case ForgetMarkerDecode(k) => k == key && key in store && !store[key].ForgetDoc?
            case InvalidForgetMarker(k) =>
              && k == key && key in store && store[key].ForgetDoc?
              && store[key].marker
                 != ForgetMarker(0, id, ManifestKey(id), CommitKey(id), store[key].marker.forgottenAt)
            case _ => false
  {
  }

  /** A commit marker that `check` accepts says this snapshot, its manifest and schema version 0. */
  lemma CommitReadsExactly(store: Store, id: Id, commit: Commit)
    ensures ReadCommit(store, id) == Ok(commit)
            <==> CommitKey(id) in store && commit == Commit(0, id, ManifestKey(id))
                 && store[CommitKey(id)] == CommitDoc(Commit(0, id, ManifestKey(id)))
  {
  }

  /** What the reader of committed snapshots gets for one listed commit. */
  lemma ListedReadsExactly(r: Repo, marker: Store, manifest: Store, forgotten: set<Id>, id: Id, m: Manifest)
    ensures var read, key := ReadListed(r, marker, manifest, forgotten, id), CommitKey(id);
            && (read == Ok([m])
                <==> && key in marker && marker[key] == CommitDoc(Commit(0, id, ManifestKey(id)))
                     && id !in forgotten && ReadManifest(r, manifest, id) == Ok(m))
            && (read == Ok([])
                <==> && key in marker && marker[key].CommitDoc? && marker[key].commit.schemaVersion == 0
                     && marker[key].commit.snapshotId in forgotten)
            && (read.Ok? ==> |read.value| <= 1)
  {
    hide ReadManifest;
  }

  lemma ListedFaults(r: Repo, marker: Store, manifest: Store, forgotten: set<Id>, id: Id)
    requires ReadListed(r, marker, manifest, forgotten, id).Err?
    ensures var e, key := ReadListed(r, marker, manifest, forgotten, id).error, CommitKey(id);
            && (e == StorageNotFound(key) <==> key !in marker)
            && (e == CommitDecode(key) <==> key in marker && !marker[key].CommitDoc?)
            && (e == InvalidCommitMarker(key)
                <==> key in marker && marker[key].CommitDoc? && marker[key].commit != Commit(0, id, ManifestKey(id)))
            && (key in marker && marker[key] == CommitDoc(Commit(0, id, ManifestKey(id))) ==>
                  && ReadManifest(r, manifest, id).Err?
                  && e == if ManifestKey(id) !in manifest then ReferencedObjectMissing(ManifestKey(id))
                          else ReadManifest(r, manifest, id).error)
  {
    hide ValidEntries;
  }

  // ---------- What the check reports ----------

  /** A missing manifest, index or chunk is reported as missing by the check, and only what is missing is. */
  ghost predicate NamesMissing(store: Store, e: Error) {
    && !e.ReferencedObjectMissing?
    && (e.CheckMissingObject? ==> e.key !in store)
    && (e.StorageNotFound? ==> e.key.CommitKey? && e.key !in store)
  }

  lemma {:induction false} IndexFaultIsNamed(r: Repo, store: Store, ids: seq<Id>)
    requires LoadIndexes(r, store, ids).Err?
    ensures NamesMissing(store, CheckError(LoadIndexes(r, store, ids).error))
    decreases |ids|
  {
    if ids != [] && LoadIndexes(r, store, ids[..|ids| - 1]).Err? {
      IndexFaultIsNamed(r, store, ids[..|ids| - 1]);
    }
  }

  lemma {:induction false} ReferencesFault(index: IndexMap, entries: seq<Entry>)
    requires CollectEntries(index, entries).Err?
    ensures CollectEntries(index, entries).error.MissingChunkIndexEntry?
            || CollectEntries(index, entries).error.ChunkIndexMismatch?
    decreases |entries|
  {
    hide CollectChunks;
    var init, last := entries[..|entries| - 1], entries[|entries| - 1];
    if CollectEntries(index, init).Err? {
      ReferencesFault(index, init);
    } else {
      FileFault(index, CollectEntries(index, init).value, last.chunks);
    }
  }

  lemma {:induction false} FileFault(index: IndexMap, targets: IndexMap, chunks: seq<ChunkRef>)
    requires CollectChunks(index, targets, chunks).Err?
    ensures CollectChunks(index, targets, chunks).error.MissingChunkIndexEntry?
            || CollectChunks(index, targets, chunks).error.ChunkIndexMismatch?
    decreases |chunks|
  {
    if CollectChunks(index, targets, chunks[..|chunks| - 1]).Err? {
      FileFault(index, targets, chunks[..|chunks| - 1]);
    }
  }

  lemma CommitFaultIsNamed(r: Repo, store: Store, id: Id)
    requires CheckCommit(r, store, id).Err?
    ensures NamesMissing(store, CheckCommit(r, store, id).error)
    ensures CommitWellFormed(store, id) && ManifestKey(id) !in store ==>
              CheckCommit(r, store, id).error == CheckMissingObject(ManifestKey(id))
  {
    hide LoadIndexes, CollectEntries, ValidEntries;
    var m := ReadManifest(r, store, id);
    if m.Ok? {
      var index := LoadIndexes(r, store, m.value.body.indexIds);
      if index.Err? {
        IndexFaultIsNamed(r, store, m.value.body.indexIds);
      } else if CollectEntries(index.value, m.value.body.entries).Err? {
        ReferencesFault(index.value, m.value.body.entries);
      }
    }
  }

  lemma {:induction false} CommitsFaultIsNamed(r: Repo, store: Store, ids: seq<Id>)
    requires CheckCommits(r, store, ids).Err?
    ensures NamesMissing(store, CheckCommits(r, store, ids).error)
    decreases |ids|
  {
    hide CheckCommit, NamesMissing;
    if CheckCommits(r, store, ids[..|ids| - 1]).Err? {
      CommitsFaultIsNamed(r, store, ids[..|ids| - 1]);
    } else {
      CommitFaultIsNamed(r, store, ids[|ids| - 1]);
    }
  }

  lemma {:induction false} ChunksFaultIsNamed(r: Repo, store: Store, targets: IndexMap, ids: seq<Id>)
    requires forall i :: 0 <= i < |ids| ==> ids[i] in targets
    requires CheckChunks(r, store, targets, ids).Err?
    ensures NamesMissing(store, CheckChunks(r, store, targets, ids).error)
    decreases |ids|
  {
    var init := ids[..|ids| - 1];
    if CheckChunks(r, store, targets, init).Err? {
      ChunksFaultIsNamed(r, store, targets, init);
    }
  }

  /** On any store: the check calls an object missing only if it is, and a missing one never by another name. */
  lemma {:induction false} CheckNamesWhatIsMissing(r: Repo, store: Store, s: Selection, now: nat)
    requires CheckRepository(r, store, s, now).Err?
    ensures NamesMissing(store, CheckRepository(r, store, s, now).error)
  {
    hide CheckCommits, CheckChunks, NamesMissing, SelectedIds, SortedIds;
    var ids := SortedIds(CommittedIds(store));
    var progress := CheckCommits(r, store, ids);
    if progress.Err? {
      CommitsFaultIsNamed(r, store, ids);
    } else {
      ChunksFaultIsNamed(r, store, progress.value.targets, SelectedIds(s, progress.value.targets));
    }
  }
}
