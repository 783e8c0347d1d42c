/**
 Checking a damaged repository.  After any run of the protocol, objects are
 deleted or replaced by bytes that do not authenticate; commit and forget
 markers, which are not encrypted, are replaced by anything.  The full check
 then says exactly whether every snapshot that is still committed restores,
 and restoring gives the original contents.
 */
module Damage {
  import opened Common
  import opened Repository
  import opened Readers
  import opened Integrity
  import opened Check
  import opened CheckMeaning
  import Protocol
  import Retention

  function PurposeOf(key: Key): Option<Purpose> {
    match key
    case ChunkKey(_) => Some(ChunkData)
    case IndexKey(_) => Some(IndexData)
    case ManifestKey(_) => Some(SnapshotMetadata)
    case _ => None
  }

  /** Nothing was added, and what still authenticates is unchanged. */
  ghost predicate Damaged(r: Repo, original: Store, damaged: Store) {
    forall key :: key in damaged ==>
      key in original &&
      (PurposeOf(key).Some? && Open(r, PurposeOf(key).value, key, damaged[key]).Ok? ==> damaged[key] == original[key])
  }

  lemma SurvivingObjects(r: Repo, original: Store, damaged: Store, key: Key)
    requires Damaged(r, original, damaged) && PurposeOf(key).Some?
    requires ReadSealed(r, damaged, PurposeOf(key).value, key).Ok?
    ensures ReadSealed(r, original, PurposeOf(key).value, key) == ReadSealed(r, damaged, PurposeOf(key).value, key)
  {
    assert key in damaged;
  }

  lemma DamagedIndexesAreHonest(r: Repo, original: Store, damaged: Store)
    requires StoreInv(r, original) && Damaged(r, original, damaged)
    ensures HonestIndexes(r, damaged)
  {
    forall id | ReadIndex(r, damaged, id).Ok?
      ensures var chunks := ReadIndex(r, damaged, id).value.chunks;
              forall i :: 0 <= i < |chunks| ==> HonestIndexEntry(r, chunks[i])
    {
      SurvivingObjects(r, original, damaged, IndexKey(id));
      assert ObjectOk(r, original, IndexKey(id));
    }
  }

  // ---------- What still restores, restores to the original ----------

  lemma {:induction false} SameIndexes(r: Repo, original: Store, damaged: Store, ids: seq<Id>)
    requires Damaged(r, original, damaged) && LoadIndexes(r, damaged, ids).Ok?
    ensures LoadIndexes(r, original, ids) == LoadIndexes(r, damaged, ids)
    decreases |ids|
  {
    if ids != [] {
      SameIndexes(r, original, damaged, ids[..|ids| - 1]);
      SurvivingObjects(r, original, damaged, IndexKey(ids[|ids| - 1]));
    }
  }

  lemma SameChunk(r: Repo, original: Store, damaged: Store, index: IndexMap, c: ChunkRef)
    requires Damaged(r, original, damaged) && HonestMap(r, index)
    requires RestoreChunk(r, damaged, index, c).Ok?
    ensures RestoreChunk(r, original, index, c) == RestoreChunk(r, damaged, index, c)
  {
    SurvivingObjects(r, original, damaged, ChunkKey(c.chunkId));
  }

  lemma {:induction false} SameFile(r: Repo, original: Store, damaged: Store, index: IndexMap, chunks: seq<ChunkRef>)
    requires Damaged(r, original, damaged) && HonestMap(r, index)
    requires RestoreFile(r, damaged, index, chunks).Ok?
    ensures RestoreFile(r, original, index, chunks) == RestoreFile(r, damaged, index, chunks)
    decreases |chunks|
  {
    if chunks != [] {
      SameFile(r, original, damaged, index, chunks[..|chunks| - 1]);
      SameChunk(r, original, damaged, index, chunks[|chunks| - 1]);
    }
  }

  lemma {:induction false} SameEntries(r: Repo, original: Store, damaged: Store, index: IndexMap, entries: seq<Entry>)
    requires Damaged(r, original, damaged) && HonestMap(r, index)
    requires RestoreEntries(r, damaged, index, entries).Ok?
    ensures RestoreEntries(r, original, index, entries) == RestoreEntries(r, damaged, index, entries)
    decreases |entries|
  {
    if entries != [] {
      SameEntries(r, original, damaged, index, entries[..|entries| - 1]);
      var e := entries[|entries| - 1];
      if e.metadata.kind == RegularFile {
        SameFile(r, original, damaged, index, e.chunks);
      }
    }
  }

  /** Whatever a restore returns from the damaged repository is what the original held. */
  lemma RestoresOriginal(r: Repo, original: Store, damaged: Store, id: Id, paths: seq<RelPath>)
    requires StoreInv(r, original) && Damaged(r, original, damaged)
    requires RestoreContents(r, damaged, id, paths).Ok?
    ensures RestoreContents(r, original, id, paths) == RestoreContents(r, damaged, id, paths)
  {
    hide RestoreEntries, LoadIndexes, Scoped, FirstMissing, NormalizePaths;
    SurvivingObjects(r, original, damaged, ManifestKey(id));
    var body := ReadManifest(r, damaged, id).value.body;
    SameIndexes(r, original, damaged, body.indexIds);
    DamagedIndexesAreHonest(r, original, damaged);
    LoadedIndexIsHonest(r, damaged, body.indexIds);
    SameEntries(r, original, damaged, LoadIndexes(r, damaged, body.indexIds).value,
                Scoped(body.entries, NormalizePaths(paths).value));
  }

  /** Check is exactly restorability to the original contents. */
  lemma {:induction false} CheckDetectsDamage(r: Repo, policy: Retention.Policy, w0: Protocol.World,
                                              events: seq<Protocol.Event>, damaged: Store, now: nat)
    requires CollisionFree(r) && Protocol.Init(w0)
    requires Damaged(r, Protocol.Run(r, policy, w0, events).store, damaged)
    ensures CheckRepository(r, damaged, Full, now).Ok?
            <==> forall id :: id in CommittedIds(damaged) ==>
                   && CommitWellFormed(damaged, id)
                   && RestoreContents(r, damaged, id, []).Ok?
                   && RestoreContents(r, damaged, id, [])
                      == RestoreContents(r, Protocol.Run(r, policy, w0, events).store, id, [])
  {
    hide RestoreContents, CheckRepository, StoreInv, HonestIndexes, Damaged, CommitWellFormed, CollisionFree;
    Protocol.InitHasInv(r, w0);
    Protocol.RunKeepsInv(r, policy, w0, events);
    var original := Protocol.Run(r, policy, w0, events).store;
    DamagedIndexesAreHonest(r, original, damaged);
    CheckMeansRestorable(r, damaged, now);
    forall id | RestoreContents(r, damaged, id, []).Ok?
      ensures RestoreContents(r, damaged, id, []) == RestoreContents(r, original, id, [])
    {
      RestoresOriginal(r, original, damaged, id, []);
    }
  }
}
