/**
 Restore and check beside running clients: read operation by operation while
 the store grows, they give what the state of their first read holds.
 */
module ReadingRuns {
  import opened Common
  import opened Repository
  import opened Readers
  import opened ObjectStore
  import opened Integrity
  import opened Check
  import opened CheckMeaning
  import opened SteadyReads
  import opened Visibility

  lemma PresentIsSteady(r: Repo, history: nat -> Store, key: Key)
    requires IsHistory(r, history) && key in history(0)
    ensures Steady(history, history(0), key)
  {
    hide StoreInv;
    forall n: nat
      ensures Lookup(history(n), key) == Lookup(history(0), key)
    {
      assert Grows(history(0), history(n));
    }
  }

  /** Everything a stored manifest refers to is stored. */
  lemma ManifestHasItsObjects(r: Repo, store: Store, id: Id)
    requires StoreInv(r, store) && ReadManifest(r, store, id).Ok?
    ensures var body := ReadManifest(r, store, id).value.body;
            && (forall i :: 0 <= i < |body.indexIds| ==> IndexKey(body.indexIds[i]) in store)
            && forall i, j :: 0 <= i < |body.entries| && 0 <= j < |body.entries[i].chunks| ==>
                 var c := body.entries[i].chunks[j];
                 c.objectKey == ChunkKey(c.chunkId) && ChunkKey(c.chunkId) in store
  {
    assert ObjectOk(r, store, ManifestKey(id));
    var body := ReadManifest(r, store, id).value.body;
    assert BodyComplete(r, store, body);
    assert ObjectOk(r, store, IndexKey(body.indexIds[0]));
    forall i, j | 0 <= i < |body.entries| && 0 <= j < |body.entries[i].chunks|
      ensures var c := body.entries[i].chunks[j]; c.objectKey == ChunkKey(c.chunkId) && ChunkKey(c.chunkId) in store
    {
      var c := body.entries[i].chunks[j];
      assert HonestChunkRef(r, c) && Indexed(store, body.indexIds[0], c.chunkId);
      var chunks := store[IndexKey(body.indexIds[0])].payload.index.chunks;
      var k :| 0 <= k < |chunks| && chunks[k].chunkId == c.chunkId;
      assert ChunkKey(chunks[k].chunkId) in store;
    }
  }

  /** A restore beside running clients restores what its first read finds. */
  lemma RestoreBesideRun(r: Repo, history: nat -> Store, id: Id, paths: seq<RelPath>)
    requires IsHistory(r, history)
    ensures RestoreAlong(r, history, id, paths) == RestoreContents(r, history(0), id, paths)
  {
    hide RestoreAlong, RestoreContents, ReadManifest, Steady, StoreInv, Grows;
    var store := history(0);
    assert StoreInv(r, store);
    if ReadManifest(r, store, id).Ok? {
      ManifestHasItsObjects(r, store, id);
      var body := ReadManifest(r, store, id).value.body;
      IndexesAreSteady(r, history, body.indexIds);
      forall e, c | e in body.entries && c in e.chunks
        ensures Steady(history, store, c.objectKey)
      {
        var i :| 0 <= i < |body.entries| && body.entries[i] == e;
        var j :| 0 <= j < |e.chunks| && e.chunks[j] == c;
        assert body.entries[i].chunks[j] == c;
        PresentIsSteady(r, history, c.objectKey);
      }
    }
    RestoreIsSteady(r, history, store, id, paths);
  }

  lemma IndexesAreSteady(r: Repo, history: nat -> Store, ids: seq<Id>)
    requires IsHistory(r, history) && forall i :: 0 <= i < |ids| ==> IndexKey(ids[i]) in history(0)
    ensures SteadyIndexes(history, history(0), ids)
  {
    hide IsHistory, Steady;
    forall i | 0 <= i < |ids|
      ensures Steady(history, history(0), IndexKey(ids[i]))
    {
      PresentIsSteady(r, history, IndexKey(ids[i]));
    }
  }

  /** Index objects of a repository in order were written by backups. */
  lemma StoredIndexesAreHonest(r: Repo, store: Store)
    requires StoreInv(r, store)
    ensures HonestIndexes(r, store)
  {
    forall id | ReadIndex(r, store, id).Ok?
      ensures forall i :: 0 <= i < |ReadIndex(r, store, id).value.chunks| ==>
                HonestIndexEntry(r, ReadIndex(r, store, id).value.chunks[i])
    {
      assert ObjectOk(r, store, IndexKey(id));
    }
  }

  /** The chunks that the check of a commit notes are stored. */
  lemma {:induction false} TargetsAreStored(r: Repo, store: Store, id: Id, c: Id)
    requires StoreInv(r, store) && CheckCommit(r, store, id).Ok? && c in CheckCommit(r, store, id).value.targets
    ensures CheckCommit(r, store, id).value.targets[c].objectKey in store
  {
    hide ReadManifest, ReadCommit, LoadIndexes, CollectEntries, StoreInv, HonestIndexEntry;
    var m := ReadManifest(r, store, id).value;
    var index := LoadIndexes(r, store, m.body.indexIds).value;
    StoredIndexesAreHonest(r, store);
    LoadedIndexIsHonest(r, store, m.body.indexIds);
    CollectEntriesMeaning(index, m.body.entries);
    ManifestHasItsObjects(r, store, id);
    HonestKey(r, index, c);
    var i :| 0 <= i < |m.body.entries| && m.body.entries[i].metadata.kind == RegularFile
             && Mentions(m.body.entries[i].chunks, c);
    var j :| 0 <= j < |m.body.entries[i].chunks| && m.body.entries[i].chunks[j].chunkId == c;
    assert ChunkKey(m.body.entries[i].chunks[j].chunkId) in store;
  }

  lemma HonestKey(r: Repo, index: IndexMap, c: Id)
    requires HonestMap(r, index) && c in index
    ensures index[c].objectKey == ChunkKey(c)
  {
  }

  lemma CommitIsSteady(r: Repo, history: nat -> Store, id: Id)
    requires IsHistory(r, history) && id in CommittedIds(history(0))
    ensures SteadyCommit(r, history, history(0), id)
  {
    hide ReadManifest, CheckCommit, Steady, StoreInv, Grows;
    var store := history(0);
    assert StoreInv(r, store) && CommitKey(id) in store;
    CommittedHasManifest(r, store, id);
    PresentIsSteady(r, history, CommitKey(id));
    PresentIsSteady(r, history, ManifestKey(id));
    if ReadManifest(r, store, id).Ok? {
      ManifestHasItsObjects(r, store, id);
      IndexesAreSteady(r, history, ReadManifest(r, store, id).value.body.indexIds);
    }
    if CheckCommit(r, store, id).Ok? {
      var targets := CheckCommit(r, store, id).value.targets;
      forall c | c in targets
        ensures Steady(history, store, targets[c].objectKey)
      {
        TargetsAreStored(r, store, id, c);
        PresentIsSteady(r, history, targets[c].objectKey);
      }
    }
  }

  lemma CommittedHasManifest(r: Repo, store: Store, id: Id)
    requires StoreInv(r, store) && CommitKey(id) in store
    ensures ManifestKey(id) in store
  {
    assert ObjectOk(r, store, CommitKey(id));
  }

  /** A check beside running clients is the check of the state of its listing. */
  lemma CheckBesideRun(r: Repo, history: nat -> Store, s: Selection, now: nat)
    requires IsHistory(r, history)
    ensures CheckAlong(r, history, s, now) == CheckRepository(r, history(0), s, now)
  {
    hide CheckAlong, CheckRepository, SteadyCommit, CommittedIds, IsHistory;
    forall id | id in CommittedIds(history(0))
      ensures SteadyCommit(r, history, history(0), id)
    {
      CommitIsSteady(r, history, id);
    }
    CheckIsSteady(r, history, history(0), s, now);
  }
}
