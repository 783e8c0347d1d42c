/**
 `write_snapshot` (crates/fileferry-core/src/lib.rs) run to its end on one
 store: what it counts, what it writes, and that the repository stays in
 order whether it succeeds or stops with an error.
 */
module WriteSnapshot {
  import opened Common
  import opened Repository
  import opened Backup
  import opened Chunking
  import opened ObjectStore
  import opened Integrity
  import opened StoredBytes
  import Manifests

  datatype SourceEntry = SourceEntry(path: RelPath, metadata: Metadata)

  /** Foreign inputs: the files, the chunker, the sizes after compression, nonces, the clock. */
  datatype Env = Env(
    read: RelPath -> Option<Data>,
    chunk: Data -> seq<Range>,
    compressedLength: Data -> nat,
    nonce: nat -> nat,
    now: nat)

  datatype WriteError = FileRead(path: RelPath) | InvalidChunkRange(path: RelPath) | Storage

  datatype Counters = Counters(
    files: nat, directories: nat, symlinks: nat, special: nat,
    bytesScanned: nat, bytesUploaded: nat, seen: nat, written: nat, reused: nat)

  datatype WriteResult = WriteResult(
    snapshotId: Id, createdAt: nat, manifestObject: Key, indexObject: Key, indexIds: seq<Id>, commitObject: Key,
    counters: Counters, entries: nat, indexedChunks: nat)

  type SharedStore = FakeObjectStore<Key, Object>

  /** What was read and cut for one source entry. */
  predicate EntryMatches(env: Env, source: SourceEntry, e: JobEntry) {
    && e.path == source.path && e.metadata == source.metadata
    && if source.metadata.kind == RegularFile
       then env.read(source.path).Some?
            && AreSlices(e.pieces, env.read(source.path).value, env.chunk(env.read(source.path).value))
       else e.pieces == []
  }

  predicate RangesFit(ranges: seq<Range>, n: nat) {
    forall k :: 0 <= k < |ranges| ==> ranges[k].offset + ranges[k].length <= n
  }

  /** A file can be read, and its ranges lie within it. */
  predicate Storable(env: Env, source: SourceEntry) {
    source.metadata.kind == RegularFile ==>
      env.read(source.path).Some? && RangesFit(env.chunk(env.read(source.path).value), |env.read(source.path).value|)
  }

  predicate AllStorable(env: Env, sources: seq<SourceEntry>) {
    forall i :: 0 <= i < |sources| ==> Storable(env, sources[i])
  }

  /** The store holds nothing under the key, or exactly this object. */
  predicate Free(store: Store, key: Key, o: Object) {
    key in store ==> store[key] == o
  }

  /** None of the three objects that publish the job is in the way. */
  predicate Publishable(r: Repo, env: Env, store: Store, job: Job, nonce: nat) {
    && Free(store, IndexKey(IndexDoc(r, job).indexId), SealIndex(r, job, env.nonce(nonce)))
    && Free(store, ManifestKey(ManifestDoc(r, job, env.now).snapshotId),
            SealManifest(r, job, env.now, env.nonce(nonce + 1)))
    && Free(store, CommitKey(ManifestDoc(r, job, env.now).snapshotId),
            CommitFor(ManifestDoc(r, job, env.now).snapshotId))
  }

  /** All three of them are there. */
  predicate HoldsPublication(r: Repo, env: Env, store: Store, job: Job, nonce: nat) {
    var index, id := IndexKey(IndexDoc(r, job).indexId), ManifestDoc(r, job, env.now).snapshotId;
    && index in store && store[index] == SealIndex(r, job, env.nonce(nonce))
    && ManifestKey(id) in store && store[ManifestKey(id)] == SealManifest(r, job, env.now, env.nonce(nonce + 1))
    && CommitKey(id) in store && store[CommitKey(id)] == CommitDoc(Commit(0, id, ManifestKey(id)))
  }

  /** Only chunk objects were added. */
  ghost predicate OnlyChunksAdded(before: Store, after: Store) {
    Grows(before, after) && forall k :: k in after && k !in before ==> k.ChunkKey?
  }

  lemma MoreChunksAdded(before: Store, now: Store, later: Store)
    ensures OnlyChunksAdded(before, now) && OnlyChunksAdded(now, later) ==> OnlyChunksAdded(before, later)
    ensures OnlyChunksAdded(now, now)
  {
  }

  lemma StillPublishable(r: Repo, env: Env, before: Store, after: Store, job: Job, nonce: nat)
    requires OnlyChunksAdded(before, after)
    ensures Publishable(r, env, after, job, nonce) <==> Publishable(r, env, before, job, nonce)
  {
    hide SealIndex, SealManifest, IndexDoc, ManifestDoc;
  }

  predicate JobMatches(env: Env, sources: seq<SourceEntry>, entries: seq<JobEntry>) {
    |entries| == |sources| && forall i :: 0 <= i < |sources| ==> EntryMatches(env, sources[i], entries[i])
  }

  // ---------- What a backup leaves in the store ----------

  /** The store after these chunks, each sealed under the nonce of its position. */
  function PutPieces(r: Repo, env: Env, store: Store, pieces: seq<Piece>): Store {
    if pieces == [] then store
    else
      var n := |pieces| - 1;
      PutPiece(r, PutPieces(r, env, store, pieces[..n]), pieces[n], env.nonce(n))
  }

  function PutPiece(r: Repo, store: Store, p: Piece, nonce: nat): Store {
    if PieceStored(r, store, p) then store else store[ChunkKey(r.chunkId(p.data)) := SealChunk(r, p, nonce)]
  }

  /** The store after index, manifest and commit marker, or the first of them that is refused. */
  function PutPublication(r: Repo, env: Env, store: Store, job: Job, nonce: nat): Store {
    var id := ManifestDoc(r, job, env.now).snapshotId;
    var index := Put(store, IndexKey(IndexDoc(r, job).indexId), SealIndex(r, job, env.nonce(nonce)));
    if index.status.Err? then index.objects
    else
      var manifest := Put(index.objects, ManifestKey(id), SealManifest(r, job, env.now, env.nonce(nonce + 1)));
      if manifest.status.Err? then manifest.objects
      else Put(manifest.objects, CommitKey(id), CommitFor(id)).objects
  }

  lemma {:induction false} OneMorePut(r: Repo, env: Env, store: Store, pieces: seq<Piece>, p: Piece)
    ensures PutPieces(r, env, store, pieces + [p])
            == PutPiece(r, PutPieces(r, env, store, pieces), p, env.nonce(|pieces|))
  {
    hide PutPiece;
    assert (pieces + [p])[..|pieces + [p]| - 1] == pieces;
  }

  // ---------- What the published objects say ----------

  /** References to these ranges of the data, one after the other. */
  predicate RefersTo(r: Repo, data: Data, ranges: seq<Range>, chunks: seq<ChunkRef>) {
    |chunks| == |ranges|
    && forall k :: 0 <= k < |ranges| ==>
         && ranges[k].offset + ranges[k].length <= |data|
         && var id := r.chunkId(data[ranges[k].offset..ranges[k].offset + ranges[k].length]);
            chunks[k] == ChunkRef(id, ChunkKey(id), ranges[k].offset, ranges[k].length)
  }

  /** The entry has path and metadata of the source, and the chunks of its bytes. */
  predicate Describes(r: Repo, env: Env, source: SourceEntry, e: Entry) {
    && e.path == source.path && e.metadata == source.metadata
    && if source.metadata.kind == RegularFile
       then env.read(source.path).Some?
            && RefersTo(r, env.read(source.path).value, env.chunk(env.read(source.path).value), e.chunks)
       else e.chunks == []
  }

  /** The object opens to the manifest of these sources and tags. */
  predicate HoldsManifest(r: Repo, env: Env, sources: seq<SourceEntry>, tags: seq<string>, indexIds: seq<Id>, id: Id,
                          o: Object)
  {
    var held := Open(r, SnapshotMetadata, ManifestKey(id), o);
    && held.Ok? && held.value.ManifestPayload?
    && var m := held.value.manifest;
       && m.snapshotId == id == r.snapshotId(m.body)
       && m.body.createdAt == env.now && m.body.tags == tags && m.body.indexIds == indexIds
       && |m.body.entries| == |sources|
       && forall i :: 0 <= i < |sources| ==> Describes(r, env, sources[i], m.body.entries[i])
  }

  /** The entry has the id and the lengths of these bytes. */
  predicate Measures(r: Repo, env: Env, data: Data, e: IndexEntry) {
    && e.chunkId == r.chunkId(data) && e.objectKey == ChunkKey(e.chunkId)
    && e.plaintextLength == |data| && e.compressedLength == env.compressedLength(data)
  }

  /**
   The object opens to an index whose entries describe chunks; for a chunk
   that was added, the stored length is that of the stored object.
   */
  ghost predicate HoldsIndex(r: Repo, env: Env, before: Store, after: Store, id: Id, o: Object) {
    var held := Open(r, IndexData, IndexKey(id), o);
    && held.Ok? && held.value.IndexPayload?
    && var index := held.value.index;
       && index.indexId == id == r.indexId(index.chunks)
       && (forall i, j :: 0 <= i < j < |index.chunks| ==> index.chunks[i].chunkId < index.chunks[j].chunkId)
       && forall e :: e in index.chunks ==>
            && (exists data :: Measures(r, env, data, e))
            && ChunkKey(e.chunkId) in after
            && (ChunkKey(e.chunkId) !in before ==> e.storedLength == r.size(after[ChunkKey(e.chunkId)]))
  }

  /** The index lists exactly the chunks to which the manifest refers. */
  ghost predicate IndexesReferences(index: Object, manifest: Object) {
    && index.Sealed? && index.payload.IndexPayload? && manifest.Sealed? && manifest.payload.ManifestPayload?
    && (set e | e in index.payload.index.chunks :: e.chunkId)
       == ReferencedChunks(manifest.payload.manifest.body.entries)
  }

  /** Manifest, index and commit marker are stored, and say what was backed up. */
  ghost predicate Published(r: Repo, env: Env, sources: seq<SourceEntry>, tags: seq<string>, before: Store,
                            after: Store, written: WriteResult)
  {
    var id := written.snapshotId;
    && written.createdAt == env.now && written.entries == |sources|
    && written.manifestObject == ManifestKey(id) && ManifestKey(id) in after
    && HoldsManifest(r, env, sources, tags, written.indexIds, id, after[ManifestKey(id)])
    && |written.indexIds| == 1
    && written.indexObject == IndexKey(written.indexIds[0]) && written.indexObject in after
    && HoldsIndex(r, env, before, after, written.indexIds[0], after[written.indexObject])
    && IndexesReferences(after[written.indexObject], after[ManifestKey(id)])
    && written.indexedChunks == |after[written.indexObject].payload.index.chunks|
    && written.commitObject == CommitKey(id) && CommitKey(id) in after
    && after[CommitKey(id)] == CommitDoc(Commit(0, id, ManifestKey(id)))
  }

  /** Each piece has the lengths of its bytes compressed, and sealed under the nonce of its position. */
  predicate Measured(r: Repo, env: Env, pieces: seq<Piece>) {
    forall i :: 0 <= i < |pieces| ==>
      && pieces[i].compressedLength == env.compressedLength(pieces[i].data)
      && pieces[i].storedLength == r.size(SealChunk(r, pieces[i], env.nonce(i)))
  }

  lemma {:induction false} OneMoreMeasured(r: Repo, env: Env, pieces: seq<Piece>, p: Piece)
    requires Measured(r, env, pieces) && p.compressedLength == env.compressedLength(p.data)
    requires p.storedLength == r.size(SealChunk(r, p, env.nonce(|pieces|)))
    ensures Measured(r, env, pieces + [p])
  {
    hide SealChunk;
  }

  /** The first piece with a chunk that the store did not have is the one that is stored. */
  lemma {:induction false} FirstPieceIsStored(r: Repo, env: Env, store: Store, pieces: seq<Piece>, i: nat)
    requires i < |pieces| && ChunkKey(r.chunkId(pieces[i].data)) !in store
    requires forall h :: 0 <= h < i ==> r.chunkId(pieces[h].data) != r.chunkId(pieces[i].data)
    ensures var key, after := ChunkKey(r.chunkId(pieces[i].data)), PutPieces(r, env, store, pieces);
            key in after && after[key] == SealChunk(r, pieces[i], env.nonce(i))
    decreases |pieces|
  {
    hide SealChunk;
    var n := |pieces| - 1;
    if i < n {
      FirstPieceIsStored(r, env, store, pieces[..n], i);
    } else {
      NotYetStored(r, env, store, pieces[..n], ChunkKey(r.chunkId(pieces[i].data)));
    }
  }

  lemma {:induction false} NotYetStored(r: Repo, env: Env, store: Store, pieces: seq<Piece>, key: Key)
    requires key !in store && forall h :: 0 <= h < |pieces| ==> ChunkKey(r.chunkId(pieces[h].data)) != key
    ensures key !in PutPieces(r, env, store, pieces)
    decreases |pieces|
  {
    hide SealChunk;
    if pieces != [] {
      NotYetStored(r, env, store, pieces[..|pieces| - 1], key);
    }
  }

  lemma {:induction false} SlicesAreReferred(r: Repo, data: Data, ranges: seq<Range>, pieces: seq<Piece>)
    requires AreSlices(pieces, data, ranges)
    ensures RefersTo(r, data, ranges, RefsOf(r, pieces))
  {
  }

  lemma MatchedIsDescribed(r: Repo, env: Env, source: SourceEntry, e: JobEntry)
    requires EntryMatches(env, source, e)
    ensures Describes(r, env, source, EntryOf(r, e))
  {
    hide AreSlices, RefersTo;
    if source.metadata.kind == RegularFile {
      var data := env.read(source.path).value;
      SlicesAreReferred(r, data, env.chunk(data), e.pieces);
    }
  }

  lemma {:induction false} SealedManifestHolds(r: Repo, env: Env, sources: seq<SourceEntry>, job: Job, nonce: nat)
    requires JobMatches(env, sources, job.entries)
    ensures HoldsManifest(r, env, sources, job.tags, [IndexDoc(r, job).indexId],
                          ManifestDoc(r, job, env.now).snapshotId, SealManifest(r, job, env.now, nonce))
  {
    hide EntryMatches, Describes, EntryOf, IndexDoc;
    forall i | 0 <= i < |sources|
      ensures Describes(r, env, sources[i], EntriesOf(r, job.entries)[i])
    {
      MatchedIsDescribed(r, env, sources[i], job.entries[i]);
    }
  }

  lemma {:induction false} SealedIndexHolds(r: Repo, env: Env, job: Job, nonce: nat, before: Store, after: Store)
    requires Measured(r, env, PiecesOf(job.entries))
    requires PiecesStored(r, after, PiecesOf(job.entries), |PiecesOf(job.entries)|)
    requires Grows(PutPieces(r, env, before, PiecesOf(job.entries)), after)
    ensures HoldsIndex(r, env, before, after, IndexDoc(r, job).indexId, SealIndex(r, job, nonce))
  {
    hide SealChunk, IndexOf, PiecesOf, PutPieces;
    var pieces := PiecesOf(job.entries);
    IndexCoversPieces(r, pieces);
    forall e | e in IndexOf(r, pieces)
      ensures (exists data :: Measures(r, env, data, e)) && ChunkKey(e.chunkId) in after
      ensures ChunkKey(e.chunkId) !in before ==> e.storedLength == r.size(after[ChunkKey(e.chunkId)])
    {
      var i := IndexEntryIsOfFirstPiece(r, pieces, e);
      assert Measures(r, env, pieces[i].data, e);
      assert PieceStored(r, after, pieces[i]);
      if ChunkKey(e.chunkId) !in before {
        FirstPieceIsStored(r, env, before, pieces, i);
      }
    }
  }

  lemma {:induction false} IndexAndManifestAgree(r: Repo, env: Env, job: Job, nonce: nat, other: nat)
    ensures IndexesReferences(SealIndex(r, job, nonce), SealManifest(r, job, env.now, other))
  {
    hide PiecesOf, IndexOf, ReferencedChunks;
    ReferencedArePieces(r, job.entries);
    IndexCoversPieces(r, PiecesOf(job.entries));
  }

  // ---------- What the counters mean ----------

  function CountKind(entries: seq<JobEntry>, kind: Kind): nat {
    if entries == [] then 0
    else CountKind(entries[..|entries| - 1], kind) + (if entries[|entries| - 1].metadata.kind == kind then 1 else 0)
  }

  /** Bytes read from all regular files. */
  function ScannedBytes(env: Env, entries: seq<JobEntry>): nat {
    if entries == [] then 0
    else
      var e := entries[|entries| - 1];
      ScannedBytes(env, entries[..|entries| - 1])
      + (if e.metadata.kind == RegularFile && env.read(e.path).Some? then |env.read(e.path).value| else 0)
  }

  ghost function NewChunks(before: Store, after: Store): set<Key> {
    set k | k in after && k !in before && k.ChunkKey?
  }

  /** The state of the counters after some entries. */
  ghost predicate Counted(r: Repo, env: Env, entries: seq<JobEntry>, before: Store, after: Store, c: Counters) {
    && c.files == CountKind(entries, RegularFile) && c.directories == CountKind(entries, Directory)
    && c.symlinks == CountKind(entries, Symlink) && c.special == CountKind(entries, Other)
    && c.bytesScanned == ScannedBytes(env, entries)
    && c.seen == |PiecesOf(entries)| == c.written + c.reused
    && c.written == |NewChunks(before, after)| && c.bytesUploaded == NewBytes(r, before, after)
  }

  lemma {:induction false} KindsAddUp(entries: seq<JobEntry>)
    ensures CountKind(entries, RegularFile) + CountKind(entries, Directory)
            + CountKind(entries, Symlink) + CountKind(entries, Other) == |entries|
    decreases |entries|
  {
    if entries != [] {
      KindsAddUp(entries[..|entries| - 1]);
    }
  }

  lemma {:induction false} PieceBytesConcat(a: seq<Piece>, b: seq<Piece>)
    ensures PieceBytes(a + b) == PieceBytes(a) + PieceBytes(b)
    decreases |b|
  {
    if b == [] {
      assert a + b == a;
    } else {
      assert (a + b)[..|a + b| - 1] == a + b[..|b| - 1];
      PieceBytesConcat(a, b[..|b| - 1]);
    }
  }

  /** When the chunker covers every file, no scanned byte is missing from the chunks. */
  lemma {:induction false} ScannedBytesAreChunkBytes(env: Env, sources: seq<SourceEntry>, entries: seq<JobEntry>)
    requires JobMatches(env, sources, entries) && forall d :: Covers(env.chunk(d), |d|)
    ensures ScannedBytes(env, entries) == PieceBytes(PiecesOf(entries))
    decreases |entries|
  {
    if entries != [] {
      hide Covers, EntryMatches, PieceBytes;
      var n := |entries| - 1;
      ScannedBytesAreChunkBytes(env, sources[..n], entries[..n]);
      PieceBytesConcat(PiecesOf(entries[..n]), entries[n].pieces);
      assert EntryMatches(env, sources[n], entries[n]);
      OneEntryScanned(env, sources[n], entries[n]);
    }
  }

  lemma {:induction false} OneEntryScanned(env: Env, source: SourceEntry, e: JobEntry)
    requires EntryMatches(env, source, e) && forall d :: Covers(env.chunk(d), |d|)
    ensures e.metadata == source.metadata && e.path == source.path
    ensures e.metadata.kind == RegularFile ==>
              env.read(e.path).Some? && PieceBytes(e.pieces) == |env.read(e.path).value|
    ensures e.metadata.kind != RegularFile ==> PieceBytes(e.pieces) == 0
  {
    if source.metadata.kind == RegularFile {
      var data := env.read(source.path).value;
      assert Covers(env.chunk(data), |data|);
      PiecesRebuildData(e.pieces, data, env.chunk(data));
    }
  }

  // ---------- One chunk ----------

  /** `exists`, then `put_if_absent`; the answer says whether the chunk was written. */
  method StoreChunk(store: SharedStore, r: Repo, p: Piece, nonce: nat) returns (written: Result<bool, WriteError>)
    modifies store
    ensures Grows(old(store.objects), store.objects)
    ensures StoreInv(r, old(store.objects)) ==> StoreInv(r, store.objects)
    ensures written == Ok(ChunkKey(r.chunkId(p.data)) !in old(store.objects))
    ensures PieceStored(r, store.objects, p) && OnlyChunksAdded(old(store.objects), store.objects)
    ensures written == Ok(true) ==>
              store.objects == old(store.objects)[ChunkKey(r.chunkId(p.data)) := SealChunk(r, p, nonce)]
    ensures written == Ok(false) ==> store.objects == old(store.objects)
    ensures store.objects == PutPiece(r, old(store.objects), p, nonce)
  {
    var key := ChunkKey(r.chunkId(p.data));
    var present := store.Exists(key);
    if present {
      return Ok(false);
    }
    if StoreInv(r, store.objects) {
      PutChunkKeepsInv(r, store.objects, p, nonce);
    }
    var status := store.PutIfAbsent(key, SealChunk(r, p, nonce));
    match status {
      case Ok(Created) => return Ok(true);
      case Ok(AlreadyPresent) => return Ok(false);
      case Err(_) => return Err(Storage);
    }
  }

  lemma OneNewChunk(r: Repo, before: Store, now: Store, later: Store, id: Id, o: Object)
    requires Grows(before, now) && ChunkKey(id) !in now && later == now[ChunkKey(id) := o]
    ensures |NewChunks(before, later)| == |NewChunks(before, now)| + 1
    ensures NewBytes(r, before, later) == NewBytes(r, before, now) + r.size(o)
  {
    hide NewBytes;
    OneNewObject(r, before, now, ChunkKey(id), o);
    assert NewChunks(before, later) == NewChunks(before, now) + {ChunkKey(id)};
  }

  // ---------- One file ----------

  ghost predicate FileCounted(r: Repo, store: Store, pieces: seq<Piece>, before: Store, c0: Counters, c: Counters) {
    && c.files == c0.files && c.directories == c0.directories && c.symlinks == c0.symlinks && c.special == c0.special
    && c.bytesScanned == c0.bytesScanned
    && c.seen == c0.seen + |pieces|
    && c.seen == c.written + c.reused
    && c.written == |NewChunks(before, store)| && c.bytesUploaded == NewBytes(r, before, store)
    && PiecesStored(r, store, pieces, |pieces|)
  }

  /** `pieces` are those that were handled, also when a later range fails; `done` are those of earlier files. */
  method StoreFile(store: SharedStore, r: Repo, env: Env, path: RelPath, data: Data, c0: Counters, ghost before: Store,
                   ghost done: seq<Piece>)
    returns (result: Result<seq<Piece>, WriteError>, c: Counters, ghost pieces: seq<Piece>)
    requires Grows(before, store.objects) && c0.seen == c0.written + c0.reused == |done|
    requires c0.written == |NewChunks(before, store.objects)| && c0.bytesUploaded == NewBytes(r, before, store.objects)
    requires store.objects == PutPieces(r, env, before, done) && Measured(r, env, done)
    modifies store
    ensures Grows(old(store.objects), store.objects)
    ensures StoreInv(r, old(store.objects)) ==> StoreInv(r, store.objects)
    ensures OnlyChunksAdded(old(store.objects), store.objects)
    ensures result.Ok? <==> RangesFit(env.chunk(data), |data|)
    ensures result.Err? ==> result.error == InvalidChunkRange(path)
    ensures result.Ok? ==> AreSlices(result.value, data, env.chunk(data))
                           && FileCounted(r, store.objects, result.value, before, c0, c)
    ensures store.objects == PutPieces(r, env, before, done + pieces) && Measured(r, env, done + pieces)
    ensures result.Ok? ==> result.value == pieces
  {
    hide StoreInv, NewChunks, NewBytes, SealChunk, Grows, OnlyChunksAdded, RangesFit, AreSlices, FileCounted, PutPieces,
         PutPiece, Measured;
    var ranges := env.chunk(data);
    var cut: seq<Piece> := [];
    c, pieces := c0, [];
    assert done + [] == done;
    ghost var start0 := store.objects;
    NothingStored(r, start0, data, before, c0);
    FileSeen(r, start0, [], before, c0, c0);
    assert ranges[..0] == [];
    for k := 0 to |ranges|
      invariant Grows(old(store.objects), store.objects) && Grows(before, store.objects)
      invariant StoreInv(r, old(store.objects)) ==> StoreInv(r, store.objects)
      invariant OnlyChunksAdded(old(store.objects), store.objects) && RangesFit(ranges[..k], |data|)
      invariant pieces == cut && AreSlices(cut, data, ranges[..k])
      invariant FileCounted(r, store.objects, cut, before, c0, c) && c.seen == |done| + |cut|
      invariant store.objects == PutPieces(r, env, before, done + cut) && Measured(r, env, done + cut)
    {
      var start, end := ranges[k].offset, ranges[k].offset + ranges[k].length;
      if end > |data| {
        RangeTooFar(ranges, |data|, k);
        return Err(InvalidChunkRange(path)), c, pieces;
      }
      var nonce := env.nonce(c.seen);
      var plaintext := data[start..end];
      var id := r.chunkId(plaintext);
      var encrypted := Seal(r, ChunkData, ChunkKey(id), nonce, ChunkPayload(plaintext));
      var p := Piece(plaintext, start, env.compressedLength(plaintext), r.size(encrypted));
      SealedAs(r, p, nonce);
      ghost var now := store.objects;
      var written := StoreChunk(store, r, p, nonce);
      if written.Err? {
        return Err(Storage), c, pieces;
      }
      ghost var counted := c;
      if written.value {
        OneNewChunk(r, before, now, store.objects, id, encrypted);
        c := c.(seen := c.seen + 1, written := c.written + 1, bytesUploaded := c.bytesUploaded + p.storedLength);
      } else {
        c := c.(seen := c.seen + 1, reused := c.reused + 1);
      }
      StillGrows(start0, now, store.objects);
      StillGrows(before, now, store.objects);
      MoreChunksAdded(start0, now, store.objects);
      OneMoreSlice(cut, data, ranges, k, p);
      OneMoreCounted(r, now, store.objects, cut, p, before, c0, counted, c);
      OneMorePut(r, env, before, done + cut, p);
      OneMoreMeasured(r, env, done + cut, p);
      assert done + cut + [p] == done + (cut + [p]);
      cut := cut + [p];
      pieces := cut;
    }
    assert ranges[..|ranges|] == ranges;
    result := Ok(cut);
  }

  lemma SealedAs(r: Repo, p: Piece, nonce: nat)
    ensures SealChunk(r, p, nonce) == Seal(r, ChunkData, ChunkKey(r.chunkId(p.data)), nonce, ChunkPayload(p.data))
  {
  }

  lemma FileSeen(r: Repo, store: Store, pieces: seq<Piece>, before: Store, c0: Counters, c: Counters)
    requires FileCounted(r, store, pieces, before, c0, c)
    ensures c.seen == c0.seen + |pieces|
  {
  }

  lemma NothingStored(r: Repo, store: Store, data: Data, before: Store, c0: Counters)
    requires c0.seen == c0.written + c0.reused && c0.written == |NewChunks(before, store)|
    requires c0.bytesUploaded == NewBytes(r, before, store)
    ensures AreSlices([], data, []) && RangesFit([], |data|) && OnlyChunksAdded(store, store)
    ensures FileCounted(r, store, [], before, c0, c0) && Grows(store, store)
  {
    hide NewChunks, NewBytes;
  }

  lemma RangeTooFar(ranges: seq<Range>, n: nat, k: nat)
    requires k < |ranges| && ranges[k].offset + ranges[k].length > n
    ensures !RangesFit(ranges, n)
  {
  }

  lemma StillGrows(before: Store, now: Store, later: Store)
    ensures Grows(before, now) && Grows(now, later) ==> Grows(before, later)
  {
  }

  lemma OneMoreSlice(pieces: seq<Piece>, data: Data, ranges: seq<Range>, k: nat, p: Piece)
    requires k < |ranges| && AreSlices(pieces, data, ranges[..k]) && RangesFit(ranges[..k], |data|)
    requires ranges[k].offset + ranges[k].length <= |data| && p.offset == ranges[k].offset
    requires p.data == data[ranges[k].offset..ranges[k].offset + ranges[k].length]
    ensures AreSlices(pieces + [p], data, ranges[..k + 1]) && RangesFit(ranges[..k + 1], |data|)
  {
    assert ranges[..k + 1] == ranges[..k] + [ranges[k]];
  }

  lemma OneMoreCounted(r: Repo, now: Store, later: Store, pieces: seq<Piece>, p: Piece, before: Store, c0: Counters,
                       c: Counters, c': Counters)
    requires FileCounted(r, now, pieces, before, c0, c) && Grows(now, later) && PieceStored(r, later, p)
    requires if later == now then c' == c.(seen := c.seen + 1, reused := c.reused + 1)
             else |NewChunks(before, later)| == |NewChunks(before, now)| + 1
                  && NewBytes(r, before, later) == NewBytes(r, before, now) + p.storedLength
                  && c' == c.(seen := c.seen + 1, written := c.written + 1,
                              bytesUploaded := c.bytesUploaded + p.storedLength)
    ensures FileCounted(r, later, pieces + [p], before, c0, c')
  {
    hide NewChunks, NewBytes;
  }

  // ---------- All entries ----------

  function CountEntry(c: Counters, kind: Kind): Counters {
    match kind
    case RegularFile => c.(files := c.files + 1)
    case Directory => c.(directories := c.directories + 1)
    case Symlink => c.(symlinks := c.symlinks + 1)
    case Other => c.(special := c.special + 1)
  }

  lemma {:induction false} CountOneEntry(r: Repo, env: Env, entries: seq<JobEntry>, e: JobEntry, before: Store,
                                         now: Store, later: Store,
                                         c0: Counters, c: Counters)
    requires Counted(r, env, entries, before, now, c0) && Grows(now, later)
    requires e.metadata.kind != RegularFile ==> e.pieces == [] && later == now && c == CountEntry(c0, e.metadata.kind)
    requires e.metadata.kind == RegularFile ==>
               && env.read(e.path).Some?
               && var c1 := CountEntry(c0, RegularFile).(bytesScanned := c0.bytesScanned + |env.read(e.path).value|);
                  FileCounted(r, later, e.pieces, before, c1, c)
    requires PiecesStored(r, now, PiecesOf(entries), |PiecesOf(entries)|)
    ensures Counted(r, env, entries + [e], before, later, c)
    ensures PiecesStored(r, later, PiecesOf(entries + [e]), |PiecesOf(entries + [e])|)
  {
    hide NewChunks, NewBytes;
    assert (entries + [e])[..|entries|] == entries;
  }

  /** What stops the backup at an entry that is not storable. */
  function Fault(env: Env, source: SourceEntry): WriteError {
    if env.read(source.path).None? then FileRead(source.path) else InvalidChunkRange(source.path)
  }

  /** The error of the first entry that is not storable. */
  ghost predicate StopsAtFirstFault(env: Env, sources: seq<SourceEntry>, e: WriteError) {
    exists i :: 0 <= i < |sources| && StopsAt(env, sources, i, e)
  }

  ghost predicate StopsAt(env: Env, sources: seq<SourceEntry>, i: nat, e: WriteError)
    requires i < |sources|
  {
    AllStorable(env, sources[..i]) && !Storable(env, sources[i]) && e == Fault(env, sources[i])
  }

  /** Only regular files have chunks. */
  predicate AreRead(entries: seq<JobEntry>) {
    forall i :: 0 <= i < |entries| && entries[i].metadata.kind != RegularFile ==> entries[i].pieces == []
  }

  /** `handled` is what was done of the entries, also when a later one fails. */
  method StoreEntries(store: SharedStore, r: Repo, env: Env, sources: seq<SourceEntry>)
    returns (result: Result<seq<JobEntry>, WriteError>, c: Counters, ghost handled: seq<JobEntry>)
    modifies store
    ensures Grows(old(store.objects), store.objects)
    ensures StoreInv(r, old(store.objects)) ==> StoreInv(r, store.objects)
    ensures OnlyChunksAdded(old(store.objects), store.objects)
    ensures result.Ok? <==> AllStorable(env, sources)
    ensures result.Err? ==> StopsAtFirstFault(env, sources, result.error)
    ensures result.Ok? ==>
              && JobMatches(env, sources, result.value)
              && Counted(r, env, result.value, old(store.objects), store.objects, c)
              && PiecesStored(r, store.objects, PiecesOf(result.value), |PiecesOf(result.value)|)
    ensures AreRead(handled) && store.objects == PutPieces(r, env, old(store.objects), PiecesOf(handled))
    ensures Measured(r, env, PiecesOf(handled))
    ensures result.Ok? ==> result.value == handled
  {
    hide StoreInv, NewChunks, NewBytes, Counted, PiecesStored, FileCounted, EntryMatches, AreSlices, Storable,
         RangesFit, OnlyChunksAdded, PiecesOf, PutPieces, Measured;
    c, handled := Counters(0, 0, 0, 0, 0, 0, 0, 0, 0), [];
    var entries: seq<JobEntry> := [];
    ghost var before := store.objects;
    MoreChunksAdded(before, before, before);
    NothingCounted(r, env, entries, before);
    for i := 0 to |sources|
      invariant Grows(before, store.objects)
      invariant StoreInv(r, before) ==> StoreInv(r, store.objects)
      invariant OnlyChunksAdded(before, store.objects) && AllStorable(env, sources[..i])
      invariant |entries| == i && forall j :: 0 <= j < i ==> EntryMatches(env, sources[j], entries[j])
      invariant Counted(r, env, entries, before, store.objects, c)
      invariant PiecesStored(r, store.objects, PiecesOf(entries), |PiecesOf(entries)|)
      invariant handled == entries && AreRead(entries)
      invariant store.objects == PutPieces(r, env, before, PiecesOf(entries)) && Measured(r, env, PiecesOf(entries))
    {
      ghost var now, c0 := store.objects, c;
      CountersOf(r, env, entries, before, now, c0);
      var source := sources[i];
      var pieces: seq<Piece> := [];
      c := CountEntry(c, source.metadata.kind);
      StorableMeans(env, source);
      if source.metadata.kind == RegularFile {
        var fileBytes := env.read(source.path);
        if fileBytes.None? {
          assert StopsAt(env, sources, i, FileRead(source.path));
          return Err(FileRead(source.path)), c, handled;
        }
        c := c.(bytesScanned := c.bytesScanned + |fileBytes.value|);
        ghost var cut: seq<Piece>;
        var stored, c';
        stored, c', cut := StoreFile(store, r, env, source.path, fileBytes.value, c, before, PiecesOf(entries));
        MoreChunksAdded(before, now, store.objects);
        if stored.Err? {
          assert StopsAt(env, sources, i, stored.error);
          PiecesWith(entries, JobEntry(source.path, source.metadata, cut));
          handled := entries + [JobEntry(source.path, source.metadata, cut)];
          return Err(stored.error), c', handled;
        }
        pieces, c := stored.value, c';
      }
      var e := JobEntry(source.path, source.metadata, pieces);
      MoreChunksAdded(before, now, store.objects);
      CountOneEntry(r, env, entries, e, before, now, store.objects, c0, c);
      EntryIsMatched(env, source, e);
      PiecesWith(entries, e);
      entries := entries + [e];
      handled := entries;
      assert sources[..i + 1] == sources[..i] + [source];
    }
    assert sources[..|sources|] == sources;
    result := Ok(entries);
  }

  lemma {:induction false} PiecesWith(entries: seq<JobEntry>, e: JobEntry)
    ensures PiecesOf(entries + [e]) == PiecesOf(entries) + e.pieces
    ensures e.pieces == [] ==> PiecesOf(entries + [e]) == PiecesOf(entries)
  {
    assert (entries + [e])[..|entries + [e]| - 1] == entries;
  }

  lemma StorableMeans(env: Env, source: SourceEntry)
    ensures Storable(env, source) <==>
              (source.metadata.kind == RegularFile ==>
                 env.read(source.path).Some?
                 && RangesFit(env.chunk(env.read(source.path).value), |env.read(source.path).value|))
  {
  }

  lemma {:induction false} NothingCounted(r: Repo, env: Env, entries: seq<JobEntry>, store: Store)
    requires entries == []
    ensures Counted(r, env, entries, store, store, Counters(0, 0, 0, 0, 0, 0, 0, 0, 0))
    ensures PiecesStored(r, store, PiecesOf(entries), |PiecesOf(entries)|)
    ensures PutPieces(r, env, store, PiecesOf(entries)) == store && Measured(r, env, PiecesOf(entries))
  {
    hide NewBytes;
    NothingNew(r, store);
    assert NewChunks(store, store) == {};
  }

  lemma CountersOf(r: Repo, env: Env, entries: seq<JobEntry>, before: Store, now: Store, c: Counters)
    requires Counted(r, env, entries, before, now, c)
    ensures c.seen == c.written + c.reused && c.written == |NewChunks(before, now)|
    ensures c.seen == |PiecesOf(entries)| && c.bytesUploaded == NewBytes(r, before, now)
  {
    hide NewChunks, NewBytes;
  }

  lemma EntryIsMatched(env: Env, source: SourceEntry, e: JobEntry)
    requires e.path == source.path && e.metadata == source.metadata
    requires source.metadata.kind != RegularFile ==> e.pieces == []
    requires source.metadata.kind == RegularFile ==>
               env.read(source.path).Some?
               && AreSlices(e.pieces, env.read(source.path).value, env.chunk(env.read(source.path).value))
    ensures EntryMatches(env, source, e)
  {
  }

  // ---------- Publication ----------

  /** One put, with the bytes it uploads: those of the object, or none if the store has it. */
  method PutObject(store: SharedStore, r: Repo, key: Key, o: Object, ghost before: Store)
    returns (result: Result<nat, WriteError>)
    requires Grows(before, store.objects)
    modifies store
    ensures store.objects == Put(old(store.objects), key, o).objects
    ensures result.Ok? <==> Put(old(store.objects), key, o).status.Ok?
    ensures result.Err? ==> result.error == Storage
    ensures Grows(before, store.objects)
    ensures result.Ok? ==>
              NewBytes(r, before, store.objects) == NewBytes(r, before, old(store.objects)) + result.value
  {
    hide NewBytes;
    if key !in store.objects {
      OneNewObject(r, before, store.objects, key, o);
    }
    var status := store.PutIfAbsent(key, o);
    match status {
      case Ok(Created) => return Ok(r.size(o));
      case Ok(AlreadyPresent) => return Ok(0);
      case Err(_) => return Err(Storage);
    }
  }

  /** Index, manifest, commit marker, in this order; the result is the snapshot id and the bytes uploaded. */
  method Publish(store: SharedStore, r: Repo, env: Env, job: Job, nonce: nat, ghost first: Store)
    returns (result: Result<(Id, nat), WriteError>)
    requires PiecesStored(r, store.objects, PiecesOf(job.entries), |PiecesOf(job.entries)|)
    requires Grows(first, store.objects)
    modifies store
    ensures Grows(old(store.objects), store.objects)
    ensures CollisionFree(r) && StoreInv(r, old(store.objects)) ==> StoreInv(r, store.objects)
    ensures NewChunks(old(store.objects), store.objects) == {}
    ensures store.objects == PutPublication(r, env, old(store.objects), job, nonce)
    ensures result.Ok? <==> Publishable(r, env, old(store.objects), job, nonce)
    ensures result.Err? ==> result.error == Storage
    ensures result.Ok? ==>
              && result.value.0 == ManifestDoc(r, job, env.now).snapshotId
              && HoldsPublication(r, env, store.objects, job, nonce)
              && NewBytes(r, first, store.objects) == NewBytes(r, first, old(store.objects)) + result.value.1
  {
    hide StoreInv, SealIndex, SealManifest, IndexDoc, ManifestDoc, PiecesStored, CollisionFree, NewChunks, NewBytes,
         Publishable, Grows, Put;
    ghost var ok := CollisionFree(r) && StoreInv(r, store.objects);
    ghost var before := store.objects;
    PublicationPuts(r, env, before, job, nonce);
    var index := IndexDoc(r, job);
    if ok { PutIndexKeepsInv(r, store.objects, job, env.nonce(nonce)); }
    var indexBytes := PutObject(store, r, IndexKey(index.indexId), SealIndex(r, job, env.nonce(nonce)), first);
    if indexBytes.Err? {
      return Err(Storage);
    }

    var manifest := ManifestDoc(r, job, env.now);
    if ok { PutManifestKeepsInv(r, store.objects, job, env.now, env.nonce(nonce + 1)); }
    var manifestBytes := PutObject(store, r, ManifestKey(manifest.snapshotId),
                                   SealManifest(r, job, env.now, env.nonce(nonce + 1)), first);
    if manifestBytes.Err? {
      return Err(Storage);
    }

    var id := manifest.snapshotId;
    if ok { PutCommitKeepsInv(r, store.objects, id); }
    var commitBytes := PutObject(store, r, CommitKey(id), CommitFor(id), first);
    if commitBytes.Err? {
      return Err(Storage);
    }
    result := Ok((id, indexBytes.value + manifestBytes.value + commitBytes.value));
  }

  /** The three puts of the publication: none touches another's key or a chunk. */
  lemma PublicationPuts(r: Repo, env: Env, before: Store, job: Job, nonce: nat)
    ensures var id := ManifestDoc(r, job, env.now).snapshotId;
            var index := Put(before, IndexKey(IndexDoc(r, job).indexId), SealIndex(r, job, env.nonce(nonce)));
            var manifest := Put(index.objects, ManifestKey(id), SealManifest(r, job, env.now, env.nonce(nonce + 1)));
            var commit := Put(manifest.objects, CommitKey(id), CommitFor(id));
            && (Publishable(r, env, before, job, nonce)
                <==> index.status.Ok? && manifest.status.Ok? && commit.status.Ok?)
            && Grows(before, index.objects) && Grows(before, manifest.objects) && Grows(before, commit.objects)
            && NewChunks(before, index.objects) == NewChunks(before, manifest.objects)
               == NewChunks(before, commit.objects) == {}
            && (index.status.Ok? ==> IndexKey(IndexDoc(r, job).indexId) in index.objects)
            && (commit.status.Ok? && manifest.status.Ok? && index.status.Ok? ==>
                  HoldsPublication(r, env, commit.objects, job, nonce))
            && (manifest.status.Ok? ==> ManifestKey(id) in manifest.objects)
            && (manifest.status.Ok? && index.status.Ok? ==> IndexKey(IndexDoc(r, job).indexId) in manifest.objects)
  {
    hide SealIndex, SealManifest, IndexDoc, ManifestDoc, NewChunks, Put, Grows;
    var id := ManifestDoc(r, job, env.now).snapshotId;
    ThreePuts(before, IndexKey(IndexDoc(r, job).indexId), SealIndex(r, job, env.nonce(nonce)),
              ManifestKey(id), SealManifest(r, job, env.now, env.nonce(nonce + 1)), CommitKey(id), CommitFor(id));
  }

  lemma ThreePuts(before: Store, a: Key, x: Object, b: Key, y: Object, c: Key, z: Object)
    requires a.IndexKey? && b.ManifestKey? && c.CommitKey?
    ensures var first := Put(before, a, x);
            var second := Put(first.objects, b, y);
            var third := Put(second.objects, c, z);
            && (first.status.Ok? <==> Free(before, a, x)) && (second.status.Ok? <==> Free(before, b, y))
            && (third.status.Ok? <==> Free(before, c, z))
            && Grows(before, first.objects) && Grows(before, second.objects) && Grows(before, third.objects)
            && NewChunks(before, first.objects) == NewChunks(before, second.objects)
               == NewChunks(before, third.objects) == {}
            && a in first.objects && b in second.objects && a in second.objects
            && a in third.objects && b in third.objects && c in third.objects
            && (first.status.Ok? ==> third.objects[a] == x) && (second.status.Ok? ==> third.objects[b] == y)
            && (third.status.Ok? ==> third.objects[c] == z)
  {
  }

  /** What the counters of a backup conserve. */
  ghost predicate Conserves(r: Repo, env: Env, sources: seq<SourceEntry>, job: Job, before: Store, after: Store,
                            c: Counters) {
    && c.files + c.directories + c.symlinks + c.special == |sources|
    && c.seen == c.written + c.reused && c.written == |NewChunks(before, after)|
    && c.bytesUploaded == NewBytes(r, before, after)
    && ((forall d :: Covers(env.chunk(d), |d|)) ==> c.bytesScanned == ReferencedBytes(BodyOf(r, job, env.now).entries))
  }

  /**
   `write_snapshot`, from the walked entries to the commit marker.  When it
   stops early, `job` is what it has handled.
   */
  method Write(store: SharedStore, r: Repo, env: Env, sources: seq<SourceEntry>, tags: seq<string>)
    returns (result: Result<WriteResult, WriteError>, ghost job: Job)
    modifies store
    ensures Grows(old(store.objects), store.objects)
    ensures CollisionFree(r) && StoreInv(r, old(store.objects)) ==> StoreInv(r, store.objects)
    ensures AllStorable(env, sources) ==> JobMatches(env, sources, job.entries) && job.tags == tags
    ensures AreRead(job.entries)
    ensures var pieces := PiecesOf(job.entries);
            var handled := PutPieces(r, env, old(store.objects), pieces);
            store.objects
            == if AllStorable(env, sources) then PutPublication(r, env, handled, job, |pieces|) else handled
    ensures result.Ok?
            <==> AllStorable(env, sources) && Publishable(r, env, old(store.objects), job, |PiecesOf(job.entries)|)
    ensures result.Err? ==>
              if AllStorable(env, sources) then result.error == Storage
              else StopsAtFirstFault(env, sources, result.error)
    ensures result.Ok? ==>
              && Counted(r, env, job.entries, old(store.objects), store.objects, result.value.counters)
              && Conserves(r, env, sources, job, old(store.objects), store.objects, result.value.counters)
              && Published(r, env, sources, tags, old(store.objects), store.objects, result.value)
              && result.value.snapshotId == ManifestDoc(r, job, env.now).snapshotId
              && result.value.indexIds == [IndexDoc(r, job).indexId]
  {
    hide StoreInv, IndexDoc, ManifestDoc, PiecesStored, CollisionFree, JobMatches, Counted, NewChunks, NewBytes,
         Publishable, AllStorable, StopsAtFirstFault, OnlyChunksAdded, PutPieces, PutPublication, Conserves, AreRead,
         Measured, HoldsPublication, Published, Grows;
    job := Job([], tags);
    ghost var handled: seq<JobEntry>;
    var stored, c;
    stored, c, handled := StoreEntries(store, r, env, sources);
    job := Job(handled, tags);
    if stored.Err? {
      return Err(stored.error), job;
    }
    var written := Job(stored.value, tags);
    ghost var before, now := old(store.objects), store.objects;
    CountersOf(r, env, job.entries, before, now, c);
    StillPublishable(r, env, before, now, job, c.seen);
    var published := Publish(store, r, env, written, c.seen, before);
    StillGrows(before, now, store.objects);
    if published.Err? {
      return Err(published.error), job;
    }
    var (id, bytes) := published.value;
    c := c.(bytesUploaded := c.bytesUploaded + bytes);
    PublicationCounted(r, env, job.entries, before, now, store.objects, c);
    CountersConserve(r, env, sources, job, before, store.objects, c);
    JobHasAllEntries(env, sources, job.entries);
    var index := IndexDoc(r, written);
    result := Ok(WriteResult(id, env.now, ManifestKey(id), IndexKey(index.indexId), [index.indexId], CommitKey(id), c,
                             |written.entries|, |index.chunks|));
    PublicationSays(r, env, sources, job, before, now, store.objects, result.value);
  }

  lemma {:induction false} PublicationSays(r: Repo, env: Env, sources: seq<SourceEntry>, job: Job, before: Store,
                                           now: Store, after: Store, written: WriteResult)
    requires JobMatches(env, sources, job.entries) && Measured(r, env, PiecesOf(job.entries))
    requires now == PutPieces(r, env, before, PiecesOf(job.entries)) && Grows(now, after)
    requires PiecesStored(r, now, PiecesOf(job.entries), |PiecesOf(job.entries)|)
    requires HoldsPublication(r, env, after, job, |PiecesOf(job.entries)|)
    requires var id, index := ManifestDoc(r, job, env.now).snapshotId, IndexDoc(r, job);
             written == WriteResult(id, env.now, ManifestKey(id), IndexKey(index.indexId), [index.indexId],
                                    CommitKey(id), written.counters, |sources|, |index.chunks|)
    ensures Published(r, env, sources, job.tags, before, after, written)
  {
    hide JobMatches, Measured, PutPieces, PiecesOf, ManifestDoc, IndexDoc, HoldsManifest, HoldsIndex,
         IndexesReferences;
    var n := |PiecesOf(job.entries)|;
    SealedManifestHolds(r, env, sources, job, env.nonce(n + 1));
    SealedIndexHolds(r, env, job, env.nonce(n), before, after);
    IndexAndManifestAgree(r, env, job, env.nonce(n), env.nonce(n + 1));
  }

  /**
   The same index once more, for example an empty one, is sealed under
   another nonce, so the store refuses it.
   */
  lemma RepeatedIndexIsRefused(r: Repo, env: Env, store: Store, job: Job, nonce: nat)
    requires IndexKey(IndexDoc(r, job).indexId) in store && store[IndexKey(IndexDoc(r, job).indexId)].Sealed?
    requires store[IndexKey(IndexDoc(r, job).indexId)].nonce != env.nonce(nonce)
    ensures !Publishable(r, env, store, job, nonce)
  {
  }

  /** The publication adds its own objects, but no chunk. */
  lemma PublicationCounted(r: Repo, env: Env, entries: seq<JobEntry>, before: Store, now: Store, later: Store,
                           c: Counters)
    requires Counted(r, env, entries, before, now, c.(bytesUploaded := NewBytes(r, before, now)))
    requires Grows(now, later) && NewChunks(now, later) == {} && c.bytesUploaded == NewBytes(r, before, later)
    ensures Counted(r, env, entries, before, later, c)
  {
    hide NewBytes;
    forall k | k in NewChunks(before, later)
      ensures k in NewChunks(before, now)
    {
      assert k in now || k in NewChunks(now, later);
    }
    assert NewChunks(before, later) == NewChunks(before, now);
  }

  lemma CountersConserve(r: Repo, env: Env, sources: seq<SourceEntry>, job: Job, before: Store, after: Store,
                         c: Counters)
    requires JobMatches(env, sources, job.entries) && Counted(r, env, job.entries, before, after, c)
    ensures Conserves(r, env, sources, job, before, after, c)
  {
    hide NewChunks, NewBytes, Counted, IndexDoc, BodyOf;
    DeduplicationConserves(r, env, sources, job, before, after, c);
    CountersOf(r, env, job.entries, before, after, c);
  }

  lemma JobHasAllEntries(env: Env, sources: seq<SourceEntry>, entries: seq<JobEntry>)
    requires JobMatches(env, sources, entries)
    ensures |entries| == |sources|
  {
  }

  /** Lengths of all chunk references of the manifest. */
  function ReferencedBytes(entries: seq<Entry>): nat {
    if entries == [] then 0
    else ReferencedBytes(entries[..|entries| - 1]) + Manifests.TotalLength(entries[|entries| - 1].chunks)
  }

  lemma {:induction false} RefLengths(r: Repo, pieces: seq<Piece>)
    ensures Manifests.TotalLength(RefsOf(r, pieces)) == PieceBytes(pieces)
    decreases |pieces|
  {
    if pieces != [] {
      RefLengths(r, pieces[..|pieces| - 1]);
      assert RefsOf(r, pieces)[..|pieces| - 1] == RefsOf(r, pieces[..|pieces| - 1]);
    }
  }

  lemma {:induction false} ReferencedAreChunkBytes(r: Repo, entries: seq<JobEntry>)
    ensures ReferencedBytes(EntriesOf(r, entries)) == PieceBytes(PiecesOf(entries))
    decreases |entries|
  {
    if entries != [] {
      var n := |entries| - 1;
      ReferencedAreChunkBytes(r, entries[..n]);
      assert EntriesOf(r, entries)[..n] == EntriesOf(r, entries[..n]);
      RefLengths(r, entries[n].pieces);
      PieceBytesConcat(PiecesOf(entries[..n]), entries[n].pieces);
    }
  }

  /** Chunk ids that the entries of a manifest refer to. */
  ghost function ReferencedChunks(entries: seq<Entry>): set<Id> {
    set e, ref | e in entries && ref in e.chunks :: ref.chunkId
  }

  lemma {:induction false} ReferencedArePieces(r: Repo, entries: seq<JobEntry>)
    ensures ReferencedChunks(EntriesOf(r, entries)) == set p | p in PiecesOf(entries) :: r.chunkId(p.data)
    decreases |entries|
  {
    if entries != [] {
      var n := |entries| - 1;
      var es, last := EntriesOf(r, entries), entries[n];
      ReferencedArePieces(r, entries[..n]);
      assert es == EntriesOf(r, entries[..n]) + [EntryOf(r, last)];
      ReferencedConcat(EntriesOf(r, entries[..n]), EntryOf(r, last));
      RefIdsArePieceIds(r, last.pieces);
      hide ReferencedChunks, EntriesOf, EntryOf;
      assert PiecesOf(entries) == PiecesOf(entries[..n]) + last.pieces;
      assert ReferencedChunks(es) == (set p | p in PiecesOf(entries[..n]) :: r.chunkId(p.data))
                                     + set p | p in last.pieces :: r.chunkId(p.data);
    } else {
      assert EntriesOf(r, entries) == [] && ReferencedChunks([]) == {};
    }
  }

  lemma ReferencedConcat(entries: seq<Entry>, e: Entry)
    ensures ReferencedChunks(entries + [e]) == ReferencedChunks(entries) + set ref | ref in e.chunks :: ref.chunkId
  {
  }

  lemma RefIdsArePieceIds(r: Repo, pieces: seq<Piece>)
    ensures (set ref | ref in RefsOf(r, pieces) :: ref.chunkId) == set p | p in pieces :: r.chunkId(p.data)
  {
    var refs := RefsOf(r, pieces);
    forall p | p in pieces
      ensures r.chunkId(p.data) in set ref | ref in refs :: ref.chunkId
    {
      var i :| 0 <= i < |pieces| && pieces[i] == p;
      assert refs[i] in refs;
    }
  }

  /**
   Deduplication conserves: every entry is counted once, the bytes scanned are
   the bytes the manifest refers to, and the index lists each chunk id that
   the manifest refers to once, in order, and no other.
   */
  lemma DeduplicationConserves(r: Repo, env: Env, sources: seq<SourceEntry>, job: Job, before: Store, after: Store,
                               c: Counters)
    requires JobMatches(env, sources, job.entries) && Counted(r, env, job.entries, before, after, c)
    ensures c.files + c.directories + c.symlinks + c.special == |sources|
    ensures (forall d :: Covers(env.chunk(d), |d|)) ==>
              c.bytesScanned == ReferencedBytes(BodyOf(r, job, env.now).entries)
    ensures IncreasingById(IndexDoc(r, job).chunks)
    ensures (set e | e in IndexDoc(r, job).chunks :: e.chunkId)
            == ReferencedChunks(BodyOf(r, job, env.now).entries)
  {
    hide NewChunks, NewBytes;
    KindsAddUp(job.entries);
    if forall d :: Covers(env.chunk(d), |d|) {
      ScannedBytesAreChunkBytes(env, sources, job.entries);
    }
    ReferencedAreChunkBytes(r, job.entries);
    ReferencedArePieces(r, job.entries);
    IndexCoversPieces(r, PiecesOf(job.entries));
  }
}
