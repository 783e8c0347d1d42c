/**
 A full check succeeds exactly when every commit can be restored.

 Chunk ids occur in many indexes, and the check reads each chunk through the
 first entry it meets.  That is sound because index entries that authenticate
 agree on object key and length.
 */
module CheckMeaning {
  import opened Common
  import opened Repository
  import opened Readers
  import opened Integrity
  import opened Check

  /** Index objects that authenticate were written by backups. */
  ghost predicate HonestIndexes(r: Repo, store: Store) {
    forall id :: ReadIndex(r, store, id).Ok? ==>
      var chunks := ReadIndex(r, store, id).value.chunks;
      forall i :: 0 <= i < |chunks| ==> HonestIndexEntry(r, chunks[i])
  }

  ghost predicate HonestMap(r: Repo, index: IndexMap) {
    forall id :: id in index ==> index[id].chunkId == id && HonestIndexEntry(r, index[id])
  }

  lemma {:induction false} InsertAllStaysHonest(r: Repo, index: IndexMap, entries: seq<IndexEntry>)
    requires HonestMap(r, index) && forall i :: 0 <= i < |entries| ==> HonestIndexEntry(r, entries[i])
    ensures HonestMap(r, InsertAll(index, entries))
    decreases |entries|
  {
    if entries != [] {
      InsertAllStaysHonest(r, index, entries[..|entries| - 1]);
    }
  }

  lemma {:induction false} LoadedIndexIsHonest(r: Repo, store: Store, ids: seq<Id>)
    requires HonestIndexes(r, store) && LoadIndexes(r, store, ids).Ok?
    ensures HonestMap(r, LoadIndexes(r, store, ids).value)
    decreases |ids|
  {
    if ids != [] {
      LoadedIndexIsHonest(r, store, ids[..|ids| - 1]);
      var id := ids[|ids| - 1];
      assert ReadIndex(r, store, id).Ok?;
      InsertAllStaysHonest(r, LoadIndexes(r, store, ids[..|ids| - 1]).value, ReadIndex(r, store, id).value.chunks);
    }
  }

  predicate Mentions(chunks: seq<ChunkRef>, id: Id) {
    exists j :: 0 <= j < |chunks| && chunks[j].chunkId == id
  }

  predicate AllResolve(index: IndexMap, chunks: seq<ChunkRef>) {
    forall j :: 0 <= j < |chunks| ==> ResolveChunk(index, chunks[j]).Ok?
  }

  lemma {:induction false} CollectChunksMeaning(index: IndexMap, targets: IndexMap, chunks: seq<ChunkRef>)
    ensures CollectChunks(index, targets, chunks).Ok? <==> AllResolve(index, chunks)
    ensures CollectChunks(index, targets, chunks).Ok? ==>
              var t := CollectChunks(index, targets, chunks).value;
              && (forall id :: id in t <==> id in targets || Mentions(chunks, id))
              && (forall id :: id in t ==>
                    (id in targets && t[id] == targets[id]) || (id in index && t[id] == index[id]))
    decreases |chunks|
  {
    if chunks != [] {
      var init, last := chunks[..|chunks| - 1], chunks[|chunks| - 1];
      CollectChunksMeaning(index, targets, init);
      assert chunks == init + [last];
      if CollectChunks(index, targets, chunks).Ok? {
        forall j | 0 <= j < |chunks| ensures ResolveChunk(index, chunks[j]).Ok? {
          if j < |init| { assert init[j] == chunks[j]; }
        }
        assert forall id :: Mentions(chunks, id) <==> Mentions(init, id) || last.chunkId == id;
      }
    }
  }

  lemma {:induction false} CollectEntriesMeaning(index: IndexMap, entries: seq<Entry>)
    ensures CollectEntries(index, entries).Ok? <==> FilesResolve(index, entries)
    ensures CollectEntries(index, entries).Ok? ==>
              var t := CollectEntries(index, entries).value;
              && (forall id :: id in t <==> IsReferenced(entries, id))
              && (forall id :: id in t ==> id in index && t[id] == index[id])
    decreases |entries|
  {
    if entries != [] {
      hide AllResolve, IsReferenced, Mentions, CollectChunks;
      var init, last := entries[..|entries| - 1], entries[|entries| - 1];
      CollectEntriesMeaning(index, init);
      ReferencedStep(entries);
      var before := CollectEntries(index, init);
      if before.Ok? && last.metadata.kind == RegularFile {
        CollectChunksMeaning(index, before.value, last.chunks);
      }
      AllFilesStep(index, entries);
    }
  }

  predicate FilesResolve(index: IndexMap, entries: seq<Entry>) {
    forall i :: 0 <= i < |entries| && entries[i].metadata.kind == RegularFile ==> AllResolve(index, entries[i].chunks)
  }

  lemma {:induction false} AllFilesStep(index: IndexMap, entries: seq<Entry>)
    requires entries != []
    ensures var last := entries[|entries| - 1];
            FilesResolve(index, entries) <==> FilesResolve(index, entries[..|entries| - 1])
                                              && (last.metadata.kind == RegularFile ==> AllResolve(index, last.chunks))
  {
    hide AllResolve;
    assert entries == entries[..|entries| - 1] + [entries[|entries| - 1]];
  }

  /** Some regular file of the manifest refers to the chunk. */
  predicate IsReferenced(entries: seq<Entry>, id: Id) {
    exists i :: 0 <= i < |entries| && entries[i].metadata.kind == RegularFile && Mentions(entries[i].chunks, id)
  }

  lemma ReferencedStep(entries: seq<Entry>)
    requires entries != []
    ensures var last := entries[|entries| - 1];
            forall id :: IsReferenced(entries, id) <==>
              IsReferenced(entries[..|entries| - 1], id)
              || (last.metadata.kind == RegularFile && Mentions(last.chunks, id))
  {
    assert entries == entries[..|entries| - 1] + [entries[|entries| - 1]];
  }

  lemma {:induction false} RestoreFileMeaning(r: Repo, store: Store, index: IndexMap, chunks: seq<ChunkRef>)
    ensures RestoreFile(r, store, index, chunks).Ok?
            <==> forall j :: 0 <= j < |chunks| ==> RestoreChunk(r, store, index, chunks[j]).Ok?
    decreases |chunks|
  {
    if chunks != [] {
      RestoreFileMeaning(r, store, index, chunks[..|chunks| - 1]);
      assert chunks == chunks[..|chunks| - 1] + [chunks[|chunks| - 1]];
    }
  }

  lemma {:induction false} RestoreEntriesMeaning(r: Repo, store: Store, index: IndexMap, entries: seq<Entry>)
    ensures RestoreEntries(r, store, index, entries).Ok?
            <==> forall i :: 0 <= i < |entries| && entries[i].metadata.kind == RegularFile
                             ==> RestoreFile(r, store, index, entries[i].chunks).Ok?
    decreases |entries|
  {
    if entries != [] {
      hide RestoreFile;
      RestoreEntriesMeaning(r, store, index, entries[..|entries| - 1]);
      assert entries == entries[..|entries| - 1] + [entries[|entries| - 1]];
    }
  }

  /** The chunk object behind an index entry reads back. */
  predicate Readable(r: Repo, store: Store, e: IndexEntry) {
    ReadChunkObject(r, store, e.chunkId, e.objectKey, e).Ok?
  }

  /** All references of a manifest restore when they resolve and each referenced chunk reads back. */
  lemma {:induction false} RestoreIsResolveAndRead(r: Repo, store: Store, index: IndexMap, entries: seq<Entry>)
    requires HonestMap(r, index)
    ensures RestoreEntries(r, store, index, entries).Ok?
            <==> CollectEntries(index, entries).Ok?
                 && forall id :: id in CollectEntries(index, entries).value ==>
                      Readable(r, store, CollectEntries(index, entries).value[id])
  {
    hide RestoreEntries, CollectEntries, RestoreFile, AllResolve, IsReferenced, Mentions, Readable, HonestMap;
    RestoreEntriesMeaning(r, store, index, entries);
    CollectEntriesMeaning(index, entries);
    forall i | 0 <= i < |entries|
      ensures RestoreFile(r, store, index, entries[i].chunks).Ok?
              <==> AllResolve(index, entries[i].chunks) && AllMentionedRead(r, store, index, entries[i].chunks)
    {
      FileIsResolveAndRead(r, store, index, entries[i].chunks);
    }
    if CollectEntries(index, entries).Ok? {
      ReferencedAreMentioned(r, store, index, entries);
    }
  }

  /** Each chunk that the references mention reads back. */
  ghost predicate AllMentionedRead(r: Repo, store: Store, index: IndexMap, chunks: seq<ChunkRef>) {
    forall id :: Mentions(chunks, id) && id in index ==> Readable(r, store, index[id])
  }

  lemma {:induction false} FileIsResolveAndRead(r: Repo, store: Store, index: IndexMap, chunks: seq<ChunkRef>)
    requires HonestMap(r, index)
    ensures RestoreFile(r, store, index, chunks).Ok?
            <==> AllResolve(index, chunks) && AllMentionedRead(r, store, index, chunks)
  {
    hide RestoreFile, Readable, RestoreChunk, ResolveChunk, HonestMap;
    RestoreFileMeaning(r, store, index, chunks);
    forall j | 0 <= j < |chunks|
      ensures ResolveChunk(index, chunks[j]).Ok? ==> chunks[j].chunkId in index
      ensures RestoreChunk(r, store, index, chunks[j]).Ok?
              <==> ResolveChunk(index, chunks[j]).Ok? && chunks[j].chunkId in index
                   && Readable(r, store, index[chunks[j].chunkId])
      ensures Mentions(chunks, chunks[j].chunkId)
    {
      ChunkIsResolveAndRead(r, store, index, chunks[j]);
    }
  }

  lemma ChunkIsResolveAndRead(r: Repo, store: Store, index: IndexMap, c: ChunkRef)
    requires HonestMap(r, index)
    ensures ResolveChunk(index, c).Ok? ==> c.chunkId in index
    ensures RestoreChunk(r, store, index, c).Ok?
            <==> ResolveChunk(index, c).Ok? && Readable(r, store, index[c.chunkId])
  {
  }

  lemma {:induction false} ReferencedAreMentioned(r: Repo, store: Store, index: IndexMap, entries: seq<Entry>)
    requires CollectEntries(index, entries).Ok?
    ensures (forall id :: id in CollectEntries(index, entries).value ==>
               Readable(r, store, CollectEntries(index, entries).value[id]))
            <==> forall i :: 0 <= i < |entries| && entries[i].metadata.kind == RegularFile ==>
                   AllMentionedRead(r, store, index, entries[i].chunks)
  {
    hide CollectEntries, Readable, Mentions, AllResolve;
    CollectEntriesMeaning(index, entries);
    var collected := CollectEntries(index, entries).value;
    forall id | id in collected
      ensures id in index && collected[id] == index[id]
      ensures exists i ::
                0 <= i < |entries| && entries[i].metadata.kind == RegularFile && Mentions(entries[i].chunks, id)
    {
      assert IsReferenced(entries, id);
    }
    forall i, id | 0 <= i < |entries| && entries[i].metadata.kind == RegularFile && Mentions(entries[i].chunks, id)
      ensures id in collected
    {
      assert IsReferenced(entries, id);
    }
  }

  /** The commit marker is well formed and the whole snapshot restores. */
  predicate CommitRestores(r: Repo, store: Store, id: Id) {
    CommitWellFormed(store, id) && RestoreContents(r, store, id, []).Ok?
  }

  lemma {:induction false} ScopeOfEverything(entries: seq<Entry>)
    ensures Scoped(entries, []) == entries
    decreases |entries|
  {
    if entries != [] {
      ScopeOfEverything(entries[..|entries| - 1]);
    }
  }

  predicate AllTargetsRead(r: Repo, store: Store, targets: IndexMap) {
    forall id :: id in targets ==> Readable(r, store, targets[id])
  }

  /** The metadata of the commit checks, and each chunk it refers to reads back. */
  predicate CommitReads(r: Repo, store: Store, id: Id) {
    CheckCommit(r, store, id).Ok? && AllTargetsRead(r, store, CheckCommit(r, store, id).value.targets)
  }

  lemma NoPathsRequested(entries: seq<Entry>)
    ensures NormalizePaths([]) == Ok([]) && FirstMissing(entries, []) == None
  {
  }

  lemma {:induction false} FullRestore(r: Repo, store: Store, id: Id)
    ensures RestoreContents(r, store, id, []) ==
            var m := Referenced(ReadManifest(r, store, id), ReferencedObjectMissing(ManifestKey(id)));
            if m.Err? then Err(m.error)
            else
              var index := LoadIndexes(r, store, m.value.body.indexIds);
              if index.Err? then Err(index.error) else RestoreEntries(r, store, index.value, m.value.body.entries)
  {
    hide RestoreEntries, LoadIndexes, ReadManifest, Scoped, FirstMissing, NormalizePaths;
    var m := Referenced(ReadManifest(r, store, id), ReferencedObjectMissing(ManifestKey(id)));
    if m.Ok? {
      ScopeOfEverything(m.value.body.entries);
      NoPathsRequested(m.value.body.entries);
    } else {
      NoPathsRequested([]);
    }
  }

  lemma WellFormedIsRead(store: Store, id: Id)
    ensures CommitWellFormed(store, id) <==> ReadCommit(store, id).Ok?
  {
  }

  lemma {:induction false} CollectedIsHonest(r: Repo, index: IndexMap, entries: seq<Entry>)
    requires HonestMap(r, index) && CollectEntries(index, entries).Ok?
    ensures HonestMap(r, CollectEntries(index, entries).value)
  {
    hide CollectEntries, HonestIndexEntry, IsReferenced, FilesResolve;
    CollectEntriesMeaning(index, entries);
  }

  lemma {:induction false} CommitRestoresMeaning(r: Repo, store: Store, id: Id)
    requires HonestIndexes(r, store)
    ensures CommitRestores(r, store, id) <==> CommitReads(r, store, id)
    ensures CheckCommit(r, store, id).Ok? ==> HonestMap(r, CheckCommit(r, store, id).value.targets)
  {
    hide RestoreContents, RestoreEntries, CollectEntries, LoadIndexes, ReadManifest, HonestIndexes, HonestMap, Readable,
         ReadCommit, CommitWellFormed;
    FullRestore(r, store, id);
    WellFormedIsRead(store, id);
    var m := ReadManifest(r, store, id);
    if m.Ok? {
      var entries, index := m.value.body.entries, LoadIndexes(r, store, m.value.body.indexIds);
      if index.Ok? {
        LoadedIndexIsHonest(r, store, m.value.body.indexIds);
        RestoreIsResolveAndRead(r, store, index.value, entries);
        if CollectEntries(index.value, entries).Ok? {
          CollectedIsHonest(r, index.value, entries);
        }
      }
    }
  }

  lemma {:induction false} CheckCommitsMeaning(r: Repo, store: Store, ids: seq<Id>)
    requires HonestIndexes(r, store)
    ensures CheckCommits(r, store, ids).Ok? <==> AllCheck(r, store, ids)
    ensures CheckCommits(r, store, ids).Ok? ==>
              var t := CheckCommits(r, store, ids).value.targets;
              HonestMap(r, t) && forall c :: c in t <==> IsTarget(r, store, ids, c)
    decreases |ids|
  {
    if ids != [] {
      hide CheckCommit, CheckCommits, HonestIndexes, HonestMap, AllCheck, IsTarget, CommitRestores, CommitReads;
      var init, last := ids[..|ids| - 1], ids[|ids| - 1];
      CheckCommitsMeaning(r, store, init);
      CommitRestoresMeaning(r, store, last);
      LastCommit(r, store, ids);
      AllCheckStep(r, store, ids);
      if CheckCommits(r, store, ids).Ok? {
        var before, own := CheckCommits(r, store, init).value.targets, CheckCommit(r, store, last).value.targets;
        HonestTogether(r, own, before);
        forall c
          ensures c in CheckCommits(r, store, ids).value.targets <==> IsTarget(r, store, ids, c)
        {
          TargetStep(r, store, ids, c);
        }
      }
    }
  }

  predicate AllCheck(r: Repo, store: Store, ids: seq<Id>) {
    forall i :: 0 <= i < |ids| ==> CheckCommit(r, store, ids[i]).Ok?
  }

  lemma AllCheckStep(r: Repo, store: Store, ids: seq<Id>)
    requires ids != []
    ensures AllCheck(r, store, ids)
            <==> AllCheck(r, store, ids[..|ids| - 1]) && CheckCommit(r, store, ids[|ids| - 1]).Ok?
  {
    hide CheckCommit;
    assert ids == ids[..|ids| - 1] + [ids[|ids| - 1]];
  }

  lemma {:induction false} LastCommit(r: Repo, store: Store, ids: seq<Id>)
    requires ids != []
    ensures var before := CheckCommits(r, store, ids[..|ids| - 1]);
            var last := CheckCommit(r, store, ids[|ids| - 1]);
            CheckCommits(r, store, ids) ==
            if before.Err? then before else if last.Err? then last else Ok(AddProgress(before.value, last.value))
  {
    hide CheckCommit, AddProgress;
  }

  lemma HonestTogether(r: Repo, a: IndexMap, b: IndexMap)
    requires HonestMap(r, a) && HonestMap(r, b)
    ensures HonestMap(r, a + b)
  {
    hide HonestIndexEntry;
  }

  predicate IsTargetOf(r: Repo, store: Store, id: Id, c: Id) {
    CheckCommit(r, store, id).Ok? && c in CheckCommit(r, store, id).value.targets
  }

  predicate IsTarget(r: Repo, store: Store, ids: seq<Id>, c: Id) {
    exists i :: 0 <= i < |ids| && IsTargetOf(r, store, ids[i], c)
  }

  lemma TargetStep(r: Repo, store: Store, ids: seq<Id>, c: Id)
    requires ids != []
    ensures IsTarget(r, store, ids, c)
            <==> IsTarget(r, store, ids[..|ids| - 1], c) || IsTargetOf(r, store, ids[|ids| - 1], c)
  {
    hide IsTargetOf;
    assert ids == ids[..|ids| - 1] + [ids[|ids| - 1]];
  }

  predicate TheseRead(r: Repo, store: Store, targets: IndexMap, ids: seq<Id>)
    requires forall i :: 0 <= i < |ids| ==> ids[i] in targets
  {
    forall i :: 0 <= i < |ids| ==> Readable(r, store, targets[ids[i]])
  }

  lemma {:induction false} CheckChunksMeaning(r: Repo, store: Store, targets: IndexMap, ids: seq<Id>)
    requires HonestMap(r, targets) && forall i :: 0 <= i < |ids| ==> ids[i] in targets
    ensures CheckChunks(r, store, targets, ids).Ok? <==> TheseRead(r, store, targets, ids)
    decreases |ids|
  {
    if ids != [] {
      var init, last := ids[..|ids| - 1], ids[|ids| - 1];
      assert targets[last].chunkId == last;
      hide HonestMap, TheseRead, ReadChunkObject;
      CheckChunksMeaning(r, store, targets, init);
      OneMoreReads(r, store, targets, ids);
    }
  }

  lemma OneMoreReads(r: Repo, store: Store, targets: IndexMap, ids: seq<Id>)
    requires ids != [] && forall i :: 0 <= i < |ids| ==> ids[i] in targets
    ensures TheseRead(r, store, targets, ids)
            <==> TheseRead(r, store, targets, ids[..|ids| - 1]) && Readable(r, store, targets[ids[|ids| - 1]])
  {
    hide Readable;
    assert ids == ids[..|ids| - 1] + [ids[|ids| - 1]];
  }

  /** First wins is sound: any two honest entries for a chunk id read the same object the same way. */
  lemma HonestEntriesAgree(r: Repo, store: Store, a: IndexEntry, b: IndexEntry)
    requires CollisionFree(r) && HonestIndexEntry(r, a) && HonestIndexEntry(r, b) && a.chunkId == b.chunkId
    ensures Readable(r, store, a) <==> Readable(r, store, b)
  {
    HonestLengthsAgree(r, a.chunkId, a.plaintextLength, b.plaintextLength);
  }

  lemma {:induction false} TargetsReadIntoCommit(r: Repo, store: Store, ids: seq<Id>, i: nat)
    requires CollisionFree(r) && HonestIndexes(r, store) && CheckCommits(r, store, ids).Ok? && i < |ids|
    requires AllTargetsRead(r, store, CheckCommits(r, store, ids).value.targets)
    ensures CommitReads(r, store, ids[i])
  {
    hide CheckCommit, CheckCommits, Readable;
    CheckCommitsMeaning(r, store, ids);
    CommitRestoresMeaning(r, store, ids[i]);
    var targets, own := CheckCommits(r, store, ids).value.targets, CheckCommit(r, store, ids[i]).value.targets;
    forall c | c in own
      ensures Readable(r, store, own[c])
    {
      assert IsTargetOf(r, store, ids[i], c);
      assert IsTarget(r, store, ids, c);
      HonestEntriesAgree(r, store, targets[c], own[c]);
    }
  }

  lemma {:induction false} CommitsReadIntoTargets(r: Repo, store: Store, ids: seq<Id>)
    requires CollisionFree(r) && HonestIndexes(r, store) && CheckCommits(r, store, ids).Ok?
    requires forall i :: 0 <= i < |ids| ==> CommitReads(r, store, ids[i])
    ensures AllTargetsRead(r, store, CheckCommits(r, store, ids).value.targets)
  {
    hide CheckCommit, CheckCommits, Readable;
    CheckCommitsMeaning(r, store, ids);
    var targets := CheckCommits(r, store, ids).value.targets;
    forall c | c in targets
      ensures Readable(r, store, targets[c])
    {
      assert IsTarget(r, store, ids, c);
      var i :| 0 <= i < |ids| && IsTargetOf(r, store, ids[i], c);
      CommitRestoresMeaning(r, store, ids[i]);
      assert CommitReads(r, store, ids[i]);
      HonestEntriesAgree(r, store, targets[c], CheckCommit(r, store, ids[i]).value.targets[c]);
    }
  }

  lemma FullSelectsAll(targets: IndexMap)
    ensures SelectedIds(Full, targets) == SortedIds(targets.Keys)
  {
  }

  /** Phase by phase: the check is Ok when the commits check and all their chunks read back. */
  lemma {:induction false} CheckIsCommitsThenChunks(r: Repo, store: Store, now: nat)
    requires HonestIndexes(r, store)
    ensures var ids := SortedIds(CommittedIds(store));
            CheckRepository(r, store, Full, now).Ok?
            <==> CheckCommits(r, store, ids).Ok? && AllTargetsRead(r, store, CheckCommits(r, store, ids).value.targets)
  {
    hide CheckCommits, Readable, CheckChunks, SelectedIds, SortedIds, HonestIndexes;
    var ids := SortedIds(CommittedIds(store));
    CheckCommitsMeaning(r, store, ids);
    if CheckCommits(r, store, ids).Ok? {
      var targets := CheckCommits(r, store, ids).value.targets;
      FullSelectsAll(targets);
      var selected := SelectedIds(Full, targets);
      CheckChunksMeaning(r, store, targets, selected);
      SelectedAreTargets(r, store, targets, selected);
    }
  }

  lemma SelectedAreTargets(r: Repo, store: Store, targets: IndexMap, selected: seq<Id>)
    requires forall id :: id in selected <==> id in targets
    ensures AllTargetsRead(r, store, targets)
            <==> forall i :: 0 <= i < |selected| ==> Readable(r, store, targets[selected[i]])
  {
    hide Readable;
    if forall i :: 0 <= i < |selected| ==> Readable(r, store, targets[selected[i]]) {
      forall id | id in targets
        ensures Readable(r, store, targets[id])
      {
        assert id in selected;
      }
    } else {
      var i :| 0 <= i < |selected| && !Readable(r, store, targets[selected[i]]);
      assert selected[i] in targets;
    }
  }

  /** A full check is Ok exactly when every commit marker is well formed and every snapshot restores. */
  lemma CheckMeansRestorable(r: Repo, store: Store, now: nat)
    requires CollisionFree(r) && HonestIndexes(r, store)
    ensures CheckRepository(r, store, Full, now).Ok?
            <==> forall id :: id in CommittedIds(store) ==> CommitRestores(r, store, id)
  {
    hide CheckCommits, CheckCommit, CheckRepository, CommitRestores, AllTargetsRead;
    var ids := SortedIds(CommittedIds(store));
    CheckIsCommitsThenChunks(r, store, now);
    CheckCommitsMeaning(r, store, ids);
    forall id
      ensures CommitRestores(r, store, id) <==> CommitReads(r, store, id)
    {
      CommitRestoresMeaning(r, store, id);
    }
    if CheckRepository(r, store, Full, now).Ok? {
      forall id | id in CommittedIds(store)
        ensures CommitRestores(r, store, id)
      {
        assert id in ids;
        var i :| 0 <= i < |ids| && ids[i] == id;
        TargetsReadIntoCommit(r, store, ids, i);
      }
    } else if forall id :: id in CommittedIds(store) ==> CommitRestores(r, store, id) {
      forall i | 0 <= i < |ids|
        ensures CommitReads(r, store, ids[i])
      {
        assert ids[i] in ids;
      }
      CommitsReadIntoTargets(r, store, ids);
    }
  }
}
