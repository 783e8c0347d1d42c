/**
 The invariant of a shared repository: what every stored object is, and which
 objects it needs.  Each kind of put that a client performs keeps it.
 */
module Integrity {
  import opened Common
  import opened Repository
  import opened Readers
  import opened Backup
  import opened ObjectStore

  ghost predicate IsLengthOf(r: Repo, id: Id, length: nat) {
    exists d :: r.chunkId(d) == id && |d| == length
  }

  /** An index entry that some backup wrote. */
  ghost predicate HonestIndexEntry(r: Repo, e: IndexEntry) {
    e.objectKey == ChunkKey(e.chunkId) && IsLengthOf(r, e.chunkId, e.plaintextLength)
  }

  ghost predicate HonestChunkRef(r: Repo, c: ChunkRef) {
    c.objectKey == ChunkKey(c.chunkId) && IsLengthOf(r, c.chunkId, c.length)
  }

  predicate ChunkOk(r: Repo, o: Object, id: Id) {
    && o.Sealed? && o.payload.ChunkPayload?
    && o == Seal(r, ChunkData, ChunkKey(id), o.nonce, o.payload)
    && r.chunkId(o.payload.data) == id
  }

  ghost predicate IndexOk(r: Repo, store: Store, o: Object, id: Id) {
    && o.Sealed? && o.payload.IndexPayload?
    && o == Seal(r, IndexData, IndexKey(id), o.nonce, o.payload)
    && var index := o.payload.index;
       && index.indexId == id && r.indexId(index.chunks) == id
       && (forall i :: 0 <= i < |index.chunks| ==>
             HonestIndexEntry(r, index.chunks[i]) && ChunkKey(index.chunks[i].chunkId) in store)
  }

  ghost predicate Indexed(store: Store, indexId: Id, chunkId: Id) {
    && IndexKey(indexId) in store && store[IndexKey(indexId)].Sealed? && store[IndexKey(indexId)].payload.IndexPayload?
    && var chunks := store[IndexKey(indexId)].payload.index.chunks;
       exists i :: 0 <= i < |chunks| && chunks[i].chunkId == chunkId
  }

  /** Every chunk of the body is honest and listed in its one index, which is present. */
  ghost predicate BodyComplete(r: Repo, store: Store, body: Body) {
    && |body.indexIds| == 1 && IndexKey(body.indexIds[0]) in store
    && (forall i, j :: 0 <= i < |body.entries| && 0 <= j < |body.entries[i].chunks| ==>
          HonestChunkRef(r, body.entries[i].chunks[j])
          && Indexed(store, body.indexIds[0], body.entries[i].chunks[j].chunkId))
  }

  ghost predicate ManifestOk(r: Repo, store: Store, o: Object, id: Id) {
    && o.Sealed? && o.payload.ManifestPayload?
    && o == Seal(r, SnapshotMetadata, ManifestKey(id), o.nonce, o.payload)
    && o.payload.manifest.snapshotId == id && r.snapshotId(o.payload.manifest.body) == id
    && BodyComplete(r, store, o.payload.manifest.body)
  }

  ghost predicate ObjectOk(r: Repo, store: Store, key: Key)
    requires key in store
  {
    var o := store[key];
    match key
    case ChunkKey(id) => ChunkOk(r, o, id)
    case IndexKey(id) => IndexOk(r, store, o, id)
    case ManifestKey(id) => ManifestOk(r, store, o, id)
    case CommitKey(id) => o == CommitFor(id) && ManifestKey(id) in store
    case ForgetKey(id) => o.ForgetDoc? && o == MarkerFor(id, o.marker.forgottenAt) && CommitKey(id) in store
    case OtherKey(_) => true
  }

  ghost predicate StoreInv(r: Repo, store: Store) {
    forall key :: key in store ==> ObjectOk(r, store, key)
  }

  // ---------- Growth ----------

  lemma IndexedStays(earlier: Store, later: Store, indexId: Id, chunkId: Id)
    requires Grows(earlier, later) && Indexed(earlier, indexId, chunkId)
    ensures Indexed(later, indexId, chunkId)
  {
  }

  lemma BodyStaysComplete(r: Repo, earlier: Store, later: Store, body: Body)
    requires Grows(earlier, later) && BodyComplete(r, earlier, body)
    ensures BodyComplete(r, later, body)
  {
    forall i, j | 0 <= i < |body.entries| && 0 <= j < |body.entries[i].chunks|
      ensures HonestChunkRef(r, body.entries[i].chunks[j])
              && Indexed(later, body.indexIds[0], body.entries[i].chunks[j].chunkId)
    {
      IndexedStays(earlier, later, body.indexIds[0], body.entries[i].chunks[j].chunkId);
    }
  }

  lemma ObjectStaysOk(r: Repo, earlier: Store, later: Store, key: Key)
    requires Grows(earlier, later) && key in earlier && ObjectOk(r, earlier, key)
    ensures ObjectOk(r, later, key)
  {
    if key.ManifestKey? {
      BodyStaysComplete(r, earlier, later, earlier[key].payload.manifest.body);
    }
  }

  /** One more object keeps the invariant when that object is in order. */
  lemma AddingKeepsInv(r: Repo, store: Store, key: Key, o: Object)
    requires StoreInv(r, store)
    requires key !in store ==> ObjectOk(r, store[key := o], key)
    ensures StoreInv(r, Put(store, key, o).objects)
    ensures Grows(store, Put(store, key, o).objects)
  {
    PutNeverChangesObjects(store, key, o);
    var later := Put(store, key, o).objects;
    forall k | k in later
      ensures ObjectOk(r, later, k)
    {
      if k in store {
        ObjectStaysOk(r, store, later, k);
      }
    }
  }

  // ---------- The puts of a backup ----------

  predicate PieceStored(r: Repo, store: Store, p: Piece) {
    ChunkKey(r.chunkId(p.data)) in store
  }

  predicate PiecesStored(r: Repo, store: Store, pieces: seq<Piece>, n: nat)
    requires n <= |pieces|
  {
    forall i :: 0 <= i < n ==> PieceStored(r, store, pieces[i])
  }

  function SealChunk(r: Repo, p: Piece, nonce: nat): Object {
    Seal(r, ChunkData, ChunkKey(r.chunkId(p.data)), nonce, ChunkPayload(p.data))
  }

  function SealIndex(r: Repo, job: Job, nonce: nat): Object {
    Seal(r, IndexData, IndexKey(IndexDoc(r, job).indexId), nonce, IndexPayload(IndexDoc(r, job)))
  }

  function SealManifest(r: Repo, job: Job, now: nat, nonce: nat): Object {
    Seal(r, SnapshotMetadata, ManifestKey(ManifestDoc(r, job, now).snapshotId), nonce,
         ManifestPayload(ManifestDoc(r, job, now)))
  }

  lemma PutChunkKeepsInv(r: Repo, store: Store, p: Piece, nonce: nat)
    requires StoreInv(r, store)
    ensures StoreInv(r, Put(store, ChunkKey(r.chunkId(p.data)), SealChunk(r, p, nonce)).objects)
  {
    AddingKeepsInv(r, store, ChunkKey(r.chunkId(p.data)), SealChunk(r, p, nonce));
  }

  lemma IndexEntriesAreHonest(r: Repo, store: Store, pieces: seq<Piece>)
    requires PiecesStored(r, store, pieces, |pieces|)
    ensures forall i :: 0 <= i < |IndexOf(r, pieces)| ==>
              HonestIndexEntry(r, IndexOf(r, pieces)[i]) && ChunkKey(IndexOf(r, pieces)[i].chunkId) in store
  {
    forall i | 0 <= i < |IndexOf(r, pieces)|
      ensures HonestIndexEntry(r, IndexOf(r, pieces)[i]) && ChunkKey(IndexOf(r, pieces)[i].chunkId) in store
    {
      var k := IndexEntryIsPiece(r, pieces, i);
      assert PieceStored(r, store, pieces[k]);
      assert IsLengthOf(r, r.chunkId(pieces[k].data), |pieces[k].data|);
    }
  }

  lemma PutIndexKeepsInv(r: Repo, store: Store, job: Job, nonce: nat)
    requires StoreInv(r, store) && PiecesStored(r, store, PiecesOf(job.entries), |PiecesOf(job.entries)|)
    ensures StoreInv(r, Put(store, IndexKey(IndexDoc(r, job).indexId), SealIndex(r, job, nonce)).objects)
  {
    var key, o := IndexKey(IndexDoc(r, job).indexId), SealIndex(r, job, nonce);
    IndexEntriesAreHonest(r, store, PiecesOf(job.entries));
    AddingKeepsInv(r, store, key, o);
  }

  /** Content ids do not collide, so a stored index under this id is this index. */
  lemma StoredIndexIsOurs(r: Repo, store: Store, job: Job)
    requires CollisionFree(r) && StoreInv(r, store) && IndexKey(IndexDoc(r, job).indexId) in store
    ensures IndexOk(r, store, store[IndexKey(IndexDoc(r, job).indexId)], IndexDoc(r, job).indexId)
    ensures store[IndexKey(IndexDoc(r, job).indexId)].payload.index == IndexDoc(r, job)
  {
    assert ObjectOk(r, store, IndexKey(IndexDoc(r, job).indexId));
  }

  lemma BodyOfJobIsComplete(r: Repo, store: Store, job: Job, now: nat)
    requires CollisionFree(r) && StoreInv(r, store) && IndexKey(IndexDoc(r, job).indexId) in store
    ensures BodyComplete(r, store, BodyOf(r, job, now))
  {
    var body := BodyOf(r, job, now);
    StoredIndexIsOurs(r, store, job);
    forall i, j | 0 <= i < |body.entries| && 0 <= j < |body.entries[i].chunks|
      ensures HonestChunkRef(r, body.entries[i].chunks[j])
              && Indexed(store, body.indexIds[0], body.entries[i].chunks[j].chunkId)
    {
      var p := job.entries[i].pieces[j];
      assert body.entries[i].chunks[j] == RefOf(r, p);
      assert IsLengthOf(r, r.chunkId(p.data), |p.data|);
      var n := PieceOfEntryIsPiece(job.entries, i, j);
      var k := PieceHasIndexEntry(r, PiecesOf(job.entries), n);
    }
  }

  lemma PutManifestKeepsInv(r: Repo, store: Store, job: Job, now: nat, nonce: nat)
    requires CollisionFree(r) && StoreInv(r, store) && IndexKey(IndexDoc(r, job).indexId) in store
    ensures StoreInv(r, Put(store, ManifestKey(ManifestDoc(r, job, now).snapshotId),
                            SealManifest(r, job, now, nonce)).objects)
  {
    var key, o := ManifestKey(ManifestDoc(r, job, now).snapshotId), SealManifest(r, job, now, nonce);
    BodyOfJobIsComplete(r, store, job, now);
    if key !in store {
      BodyStaysComplete(r, store, store[key := o], BodyOf(r, job, now));
    }
    AddingKeepsInv(r, store, key, o);
  }

  lemma PutCommitKeepsInv(r: Repo, store: Store, id: Id)
    requires StoreInv(r, store) && ManifestKey(id) in store
    ensures StoreInv(r, Put(store, CommitKey(id), CommitFor(id)).objects)
  {
    AddingKeepsInv(r, store, CommitKey(id), CommitFor(id));
  }

  lemma PutMarkerKeepsInv(r: Repo, store: Store, id: Id, now: nat)
    requires StoreInv(r, store) && CommitKey(id) in store
    ensures StoreInv(r, Put(store, ForgetKey(id), MarkerFor(id, now)).objects)
  {
    AddingKeepsInv(r, store, ForgetKey(id), MarkerFor(id, now));
  }

  // ---------- What the invariant gives a reader ----------

  /**
   A committed snapshot is complete: its manifest is present and authentic,
   its index is present, and each chunk of each entry has an index entry that
   agrees on object key and length and a stored object that opens to bytes
   with that content id and length.
   */
  ghost predicate CommitIsComplete(r: Repo, store: Store, id: Id) {
    && ManifestKey(id) in store
    && var m := ReadSealed(r, store, SnapshotMetadata, ManifestKey(id));
       && m.Ok? && m.value.ManifestPayload? && m.value.manifest.snapshotId == id
       && r.snapshotId(m.value.manifest.body) == id
       && var body := m.value.manifest.body;
          && LoadIndexes(r, store, body.indexIds).Ok?
          && forall i, j :: 0 <= i < |body.entries| && 0 <= j < |body.entries[i].chunks| ==>
               RestoreChunk(r, store, LoadIndexes(r, store, body.indexIds).value, body.entries[i].chunks[j]).Ok?
  }

  lemma {:induction false} InsertAllFinds(index: IndexMap, entries: seq<IndexEntry>, id: Id)
    ensures id in InsertAll(index, entries)
            <==> id in index || exists i :: 0 <= i < |entries| && entries[i].chunkId == id
    ensures id in InsertAll(index, entries) ==>
              (id in index && InsertAll(index, entries)[id] == index[id])
              || exists i ::
                   0 <= i < |entries| && entries[i].chunkId == id && InsertAll(index, entries)[id] == entries[i]
    decreases |entries|
  {
    if entries != [] {
      var init, last := entries[..|entries| - 1], entries[|entries| - 1];
      InsertAllFinds(index, init, id);
      assert entries == init + [last];
    }
  }

  lemma HonestLengthsAgree(r: Repo, id: Id, a: nat, b: nat)
    requires CollisionFree(r) && IsLengthOf(r, id, a) && IsLengthOf(r, id, b)
    ensures a == b
  {
  }

  /** Under the invariant the one index of a complete body loads. */
  lemma {:induction false} IndexLoads(r: Repo, store: Store, body: Body)
    requires StoreInv(r, store) && BodyComplete(r, store, body)
    ensures LoadIndexes(r, store, body.indexIds)
            == Ok(InsertAll(map[], store[IndexKey(body.indexIds[0])].payload.index.chunks))
    ensures IndexOk(r, store, store[IndexKey(body.indexIds[0])], body.indexIds[0])
  {
    assert ObjectOk(r, store, IndexKey(body.indexIds[0]));
    assert body.indexIds[..0] == [];
    assert LoadIndexes(r, store, body.indexIds[..|body.indexIds| - 1]) == Ok(map[]);
  }

  /** An honest, indexed chunk reads back as bytes with its id and length. */
  lemma {:induction false} ChunkReadsBack(r: Repo, store: Store, body: Body, c: ChunkRef)
    requires CollisionFree(r) && StoreInv(r, store) && BodyComplete(r, store, body)
    requires HonestChunkRef(r, c) && Indexed(store, body.indexIds[0], c.chunkId)
    ensures LoadIndexes(r, store, body.indexIds).Ok?
    ensures var d := RestoreChunk(r, store, LoadIndexes(r, store, body.indexIds).value, c);
            d.Ok? && r.chunkId(d.value) == c.chunkId && |d.value| == c.length
  {
    IndexLoads(r, store, body);
    var entries := store[IndexKey(body.indexIds[0])].payload.index.chunks;
    var index := InsertAll(map[], entries);
    InsertAllFinds(map[], entries, c.chunkId);
    var i :| 0 <= i < |entries| && entries[i].chunkId == c.chunkId && index[c.chunkId] == entries[i];
    assert HonestIndexEntry(r, entries[i]);
    HonestLengthsAgree(r, c.chunkId, c.length, entries[i].plaintextLength);
    assert ObjectOk(r, store, ChunkKey(c.chunkId));
    var d := store[ChunkKey(c.chunkId)].payload.data;
    assert IsLengthOf(r, c.chunkId, |d|);
    HonestLengthsAgree(r, c.chunkId, c.length, |d|);
  }

  lemma CommitsAreComplete(r: Repo, store: Store, id: Id)
    requires CollisionFree(r) && StoreInv(r, store) && CommitKey(id) in store
    ensures CommitIsComplete(r, store, id)
  {
    assert ObjectOk(r, store, CommitKey(id));
    assert ObjectOk(r, store, ManifestKey(id));
    var body := store[ManifestKey(id)].payload.manifest.body;
    IndexLoads(r, store, body);
    forall i, j | 0 <= i < |body.entries| && 0 <= j < |body.entries[i].chunks|
      ensures RestoreChunk(r, store, LoadIndexes(r, store, body.indexIds).value, body.entries[i].chunks[j]).Ok?
    {
      ChunkReadsBack(r, store, body, body.entries[i].chunks[j]);
    }
  }
}
