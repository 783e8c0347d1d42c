/**
 Reading one object after the other, each in its own state, gives what one
 state gives, when the objects that are read do not change in between.
 */
module SteadyReads {
  import opened Common
  import opened Repository
  import opened Readers
  import opened Check

  function Lookup(store: Store, key: Key): Option<Object> {
    if key in store then Some(store[key]) else None
  }

  /** Every state holds under the key what `store` holds there. */
  ghost predicate Steady(history: nat -> Store, store: Store, key: Key) {
    forall n: nat :: Lookup(history(n), key) == Lookup(store, key)
  }

  lemma SameObjectSameRead(r: Repo, history: nat -> Store, store: Store, key: Key, n: nat)
    requires Steady(history, store, key)
    ensures key in history(n) <==> key in store
    ensures key in store ==> history(n)[key] == store[key]
    ensures SizeAt(r, history(n), key) == SizeAt(r, store, key)
  {
    assert Lookup(history(n), key) == Lookup(store, key);
  }

  lemma SameIndex(r: Repo, history: nat -> Store, store: Store, id: Id, n: nat)
    requires Steady(history, store, IndexKey(id))
    ensures ReadIndex(r, history(n), id) == ReadIndex(r, store, id)
  {
    SameObjectSameRead(r, history, store, IndexKey(id), n);
  }

  lemma SameManifest(r: Repo, history: nat -> Store, store: Store, id: Id, n: nat)
    requires Steady(history, store, ManifestKey(id))
    ensures ReadManifest(r, history(n), id) == ReadManifest(r, store, id)
  {
    SameObjectSameRead(r, history, store, ManifestKey(id), n);
  }

  lemma SameCommit(r: Repo, history: nat -> Store, store: Store, id: Id, n: nat)
    requires Steady(history, store, CommitKey(id))
    ensures ReadCommit(history(n), id) == ReadCommit(store, id)
  {
    SameObjectSameRead(r, history, store, CommitKey(id), n);
  }

  lemma SameChunk(r: Repo, history: nat -> Store, store: Store, id: Id, key: Key, indexed: IndexEntry, n: nat)
    requires Steady(history, store, key)
    ensures ReadChunkObject(r, history(n), id, key, indexed) == ReadChunkObject(r, store, id, key, indexed)
  {
    SameObjectSameRead(r, history, store, key, n);
  }

  ghost predicate SteadyIndexes(history: nat -> Store, store: Store, ids: seq<Id>) {
    forall i :: 0 <= i < |ids| ==> Steady(history, store, IndexKey(ids[i]))
  }

  lemma {:induction false} SameIndexes(r: Repo, history: nat -> Store, store: Store, ids: seq<Id>, at: nat)
    requires SteadyIndexes(history, store, ids)
    ensures LoadIndexesAlong(r, history, ids, at) == LoadIndexes(r, store, ids)
    ensures IndexBytesAlong(r, history, ids, at) == IndexBytes(r, store, ids)
    decreases |ids|
  {
    hide ReadIndex, InsertAll, Steady, SizeAt;
    if ids != [] {
      var n := |ids| - 1;
      SameIndexes(r, history, store, ids[..n], at);
      SameIndex(r, history, store, ids[n], at + n);
      SameObjectSameRead(r, history, store, IndexKey(ids[n]), at + n);
    }
  }

  // ---------- Restore ----------

  ghost predicate SteadyChunks(history: nat -> Store, store: Store, entries: seq<Entry>) {
    forall e, c :: e in entries && c in e.chunks ==> Steady(history, store, c.objectKey)
  }

  /** All that a restore of this snapshot reads. */
  ghost predicate SteadySnapshot(r: Repo, history: nat -> Store, store: Store, id: Id) {
    && ReadManifest(r, history(0), id) == ReadManifest(r, store, id)
    && (ReadManifest(r, store, id).Ok? ==>
          var body := ReadManifest(r, store, id).value.body;
          SteadyIndexes(history, store, body.indexIds) && SteadyChunks(history, store, body.entries))
  }

  lemma {:induction false} SameFile(r: Repo, history: nat -> Store, store: Store, index: IndexMap,
                                    chunks: seq<ChunkRef>, at: nat)
    requires forall c :: c in chunks ==> Steady(history, store, c.objectKey)
    ensures RestoreFileAlong(r, history, index, chunks, at) == RestoreFile(r, store, index, chunks)
    decreases |chunks|
  {
    hide ReadChunkObject, ResolveChunk, Steady;
    if chunks != [] {
      var n := |chunks| - 1;
      SameFile(r, history, store, index, chunks[..n], at);
      assert chunks[n] in chunks;
      var c := chunks[n];
      if ResolveChunk(index, c).Ok? {
        SameChunk(r, history, store, c.chunkId, c.objectKey, ResolveChunk(index, c).value, at + n);
      }
    }
  }

  lemma {:induction false} SameEntries(r: Repo, history: nat -> Store, store: Store, index: IndexMap,
                                       entries: seq<Entry>, at: nat)
    requires SteadyChunks(history, store, entries)
    ensures RestoreEntriesAlong(r, history, index, entries, at) == RestoreEntries(r, store, index, entries)
    decreases |entries|
  {
    hide RestoreFile, RestoreFileAlong, AddRestored, Steady, Reads;
    if entries != [] {
      var init, e := entries[..|entries| - 1], entries[|entries| - 1];
      SameEntries(r, history, store, index, init, at);
      assert e in entries;
      SameFile(r, history, store, index, e.chunks, at + Reads(init));
    }
  }

  lemma {:induction false} ScopedEntriesAreEntries(entries: seq<Entry>, scope: seq<RelPath>)
    ensures forall e :: e in Scoped(entries, scope) ==> e in entries
    decreases |entries|
  {
    hide InScope;
    if entries != [] {
      ScopedEntriesAreEntries(entries[..|entries| - 1], scope);
    }
  }

  lemma {:induction false} RestoreIsSteady(r: Repo, history: nat -> Store, store: Store, id: Id, paths: seq<RelPath>)
    requires SteadySnapshot(r, history, store, id)
    ensures RestoreAlong(r, history, id, paths) == RestoreContents(r, store, id, paths)
  {
    hide ReadManifest, NormalizePaths, FirstMissing, RestoreEntriesAlong, RestoreEntries, LoadIndexesAlong, LoadIndexes,
         Scoped, Steady;
    if NormalizePaths(paths).Ok? && ReadManifest(r, store, id).Ok? {
      var body, scope := ReadManifest(r, store, id).value.body, NormalizePaths(paths).value;
      SameIndexes(r, history, store, body.indexIds, 1);
      ScopedEntriesAreEntries(body.entries, scope);
      if LoadIndexes(r, store, body.indexIds).Ok? {
        SameEntries(r, history, store, LoadIndexes(r, store, body.indexIds).value, Scoped(body.entries, scope),
                    1 + |body.indexIds|);
      }
    }
  }

  /** A store that nobody else uses. */
  lemma RestoreOfOneState(r: Repo, history: nat -> Store, store: Store, id: Id, paths: seq<RelPath>)
    requires forall n: nat :: history(n) == store
    ensures RestoreAlong(r, history, id, paths) == RestoreContents(r, store, id, paths)
  {
    hide RestoreAlong, RestoreContents, ReadManifest;
    RestoreIsSteady(r, history, store, id, paths);
  }

  // ---------- Check ----------

  /** All that the check of this commit reads, its chunks included. */
  ghost predicate SteadyCommit(r: Repo, history: nat -> Store, store: Store, id: Id) {
    && Steady(history, store, CommitKey(id)) && Steady(history, store, ManifestKey(id))
    && (ReadManifest(r, store, id).Ok? ==>
          SteadyIndexes(history, store, ReadManifest(r, store, id).value.body.indexIds))
    && (CheckCommit(r, store, id).Ok? ==> SteadyTargets(history, store, CheckCommit(r, store, id).value.targets))
  }

  ghost predicate SteadyTargets(history: nat -> Store, store: Store, targets: IndexMap) {
    forall c :: c in targets ==> Steady(history, store, targets[c].objectKey)
  }

  lemma {:induction false} SameCheckOfCommit(r: Repo, history: nat -> Store, store: Store, id: Id, at: nat)
    requires SteadyCommit(r, history, store, id)
    ensures CheckCommitAlong(r, history, id, at) == CheckCommit(r, store, id)
  {
    hide ReadCommit, ReadManifest, LoadIndexes, LoadIndexesAlong, IndexBytes, IndexBytesAlong, CollectEntries, Steady,
         SteadyTargets, SteadyIndexes, SizeAt;
    SameCommit(r, history, store, id, at);
    SameManifest(r, history, store, id, at + 1);
    SameObjectSameRead(r, history, store, CommitKey(id), at);
    SameObjectSameRead(r, history, store, ManifestKey(id), at + 1);
    if ReadManifest(r, store, id).Ok? {
      SameIndexes(r, history, store, ReadManifest(r, store, id).value.body.indexIds, at + 2);
    }
  }

  lemma {:induction false} SameCheckOfCommits(r: Repo, history: nat -> Store, store: Store, ids: seq<Id>, at: nat)
    requires forall i :: 0 <= i < |ids| ==> SteadyCommit(r, history, store, ids[i])
    ensures CheckCommitsAlong(r, history, ids, at) == CheckCommits(r, store, ids)
    ensures CheckCommits(r, store, ids).Ok? ==> SteadyTargets(history, store, CheckCommits(r, store, ids).value.targets)
    decreases |ids|
  {
    hide CheckCommit, CheckCommitAlong, Steady;
    if ids != [] {
      var n := |ids| - 1;
      SameCheckOfCommits(r, history, store, ids[..n], at);
      var before := CheckCommits(r, store, ids[..n]);
      if before.Ok? {
        SameCheckOfCommit(r, history, store, ids[n], at + before.value.metadataObjects);
      }
    }
  }

  lemma {:induction false} SameCheckOfChunks(r: Repo, history: nat -> Store, store: Store, targets: IndexMap,
                                             ids: seq<Id>, at: nat)
    requires SteadyTargets(history, store, targets) && forall i :: 0 <= i < |ids| ==> ids[i] in targets
    ensures CheckChunksAlong(r, history, targets, ids, at) == CheckChunks(r, store, targets, ids)
    decreases |ids|
  {
    hide ReadChunkObject, Steady, SizeAt;
    if ids != [] {
      var n := |ids| - 1;
      SameCheckOfChunks(r, history, store, targets, ids[..n], at);
      var indexed := targets[ids[n]];
      SameChunk(r, history, store, ids[n], indexed.objectKey, indexed, at + n);
      SameObjectSameRead(r, history, store, indexed.objectKey, at + n);
    }
  }

  lemma {:induction false} CheckIsSteady(r: Repo, history: nat -> Store, store: Store, s: Selection, now: nat)
    requires CommittedIds(history(0)) == CommittedIds(store)
    requires forall id :: id in CommittedIds(store) ==> SteadyCommit(r, history, store, id)
    ensures CheckAlong(r, history, s, now) == CheckRepository(r, store, s, now)
  {
    hide SteadyCommit, SteadyTargets, CheckCommits, CheckCommitsAlong, CheckChunks, CheckChunksAlong, CommittedIds,
         SortedIds, SelectedIds;
    var ids := SortedIds(CommittedIds(store));
    forall i | 0 <= i < |ids|
      ensures SteadyCommit(r, history, store, ids[i])
    {
      assert ids[i] in ids;
    }
    SameCheckOfCommits(r, history, store, ids, 1);
    var progress := CheckCommits(r, store, ids);
    if progress.Ok? {
      SameCheckOfChunks(r, history, store, progress.value.targets, SelectedIds(s, progress.value.targets),
                        1 + progress.value.metadataObjects);
    }
  }

  /** A store that nobody else uses. */
  lemma CheckOfOneState(r: Repo, history: nat -> Store, store: Store, s: Selection, now: nat)
    requires forall n: nat :: history(n) == store
    ensures CheckAlong(r, history, s, now) == CheckRepository(r, store, s, now)
  {
    hide CheckAlong, CheckRepository, CheckCommit, ReadManifest;
    CheckIsSteady(r, history, store, s, now);
  }
}
