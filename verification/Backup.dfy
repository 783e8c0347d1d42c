/**
 What a backup writes (crates/fileferry-core/src/lib.rs, `write_snapshot`):
 chunk references, the sorted index without duplicates, the manifest body.
 */
module Backup {
  import opened Common
  import opened Repository

  /**
   One chunk of a file.  The lengths after compression and encryption depend
   on foreign code and on the nonce, so they are inputs.
   */
  datatype Piece = Piece(data: Data, offset: nat, compressedLength: nat, storedLength: nat)

  /** An entry from the walk with the chunks of the bytes that were read for it. */
  datatype JobEntry = JobEntry(path: RelPath, metadata: Metadata, pieces: seq<Piece>)

  datatype Job = Job(entries: seq<JobEntry>, tags: seq<string>)

  /** Only regular files are read. */
  predicate ValidJob(job: Job) {
    forall i :: 0 <= i < |job.entries| && job.entries[i].metadata.kind != RegularFile ==> job.entries[i].pieces == []
  }

  function RefOf(r: Repo, p: Piece): ChunkRef {
    ChunkRef(r.chunkId(p.data), ChunkKey(r.chunkId(p.data)), p.offset, |p.data|)
  }

  function RefsOf(r: Repo, pieces: seq<Piece>): (refs: seq<ChunkRef>) {
    seq(|pieces|, i requires 0 <= i < |pieces| => RefOf(r, pieces[i]))
  }

  function EntryOf(r: Repo, e: JobEntry): Entry {
    Entry(e.path, e.metadata, RefsOf(r, e.pieces))
  }

  function EntriesOf(r: Repo, entries: seq<JobEntry>): (es: seq<Entry>) {
    seq(|entries|, i requires 0 <= i < |entries| => EntryOf(r, entries[i]))
  }

  /** All chunks of the entries, in the order in which they are stored. */
  function PiecesOf(entries: seq<JobEntry>): seq<Piece> {
    if entries == [] then [] else PiecesOf(entries[..|entries| - 1]) + entries[|entries| - 1].pieces
  }

  function IndexEntryOf(r: Repo, p: Piece): IndexEntry {
    IndexEntry(r.chunkId(p.data), ChunkKey(r.chunkId(p.data)), |p.data|, p.compressedLength, p.storedLength)
  }

  // ---------- Sorting and removing duplicates ----------

  predicate SortedById(s: seq<IndexEntry>) {
    forall i, j :: 0 <= i < j < |s| ==> s[i].chunkId <= s[j].chunkId
  }

  predicate IncreasingById(s: seq<IndexEntry>) {
    forall i, j :: 0 <= i < j < |s| ==> s[i].chunkId < s[j].chunkId
  }

  /** Stable insertion: after entries with the same id. */
  function InsertById(s: seq<IndexEntry>, e: IndexEntry): (t: seq<IndexEntry>)
    requires SortedById(s)
    ensures SortedById(t) && |t| == |s| + 1
    ensures forall x :: x in t <==> x == e || x in s
  {
    if s == [] || s[|s| - 1].chunkId <= e.chunkId then s + [e]
    else
      var t := InsertById(s[..|s| - 1], e);
      assert forall x :: x in s <==> x in s[..|s| - 1] || x == s[|s| - 1];
      assert forall i :: 0 <= i < |t| ==> t[i] in t;
      t + [s[|s| - 1]]
  }

  /** `sort_by` on the chunk id. */
  function SortById(s: seq<IndexEntry>): (t: seq<IndexEntry>)
    ensures SortedById(t) && |t| == |s|
    ensures forall x :: x in t <==> x in s
  {
    if s == [] then []
    else
      assert forall x :: x in s <==> x in s[..|s| - 1] || x == s[|s| - 1];
      InsertById(SortById(s[..|s| - 1]), s[|s| - 1])
  }

  /** `dedup_by` on the chunk id: the first entry of each run stays. */
  function DedupById(s: seq<IndexEntry>): (t: seq<IndexEntry>)
    requires SortedById(s)
    ensures s != [] ==> t != [] && t[|t| - 1].chunkId == s[|s| - 1].chunkId
    ensures s == [] ==> t == []
  {
    if s == [] then []
    else
      var t := DedupById(s[..|s| - 1]);
      if t != [] && t[|t| - 1].chunkId == s[|s| - 1].chunkId then t else t + [s[|s| - 1]]
  }

  lemma {:induction false} DedupIncreases(s: seq<IndexEntry>)
    requires SortedById(s)
    ensures IncreasingById(DedupById(s))
    decreases |s|
  {
    if s != [] {
      var init := s[..|s| - 1];
      DedupIncreases(init);
      if init != [] {
        assert init[|init| - 1].chunkId <= s[|s| - 1].chunkId;
      }
    }
  }

  lemma {:induction false} DedupOnlyDrops(s: seq<IndexEntry>, j: nat) returns (i: nat)
    requires SortedById(s) && j < |DedupById(s)|
    ensures i < |s| && s[i] == DedupById(s)[j]
    decreases |s|
  {
    var init := s[..|s| - 1];
    if j < |DedupById(init)| {
      i := DedupOnlyDrops(init, j);
    } else {
      i := |s| - 1;
    }
  }

  lemma {:induction false} DedupCovers(s: seq<IndexEntry>, i: nat) returns (j: nat)
    requires SortedById(s) && i < |s|
    ensures j < |DedupById(s)| && DedupById(s)[j].chunkId == s[i].chunkId
    decreases |s|
  {
    if i == |s| - 1 {
      j := |DedupById(s)| - 1;
    } else {
      j := DedupCovers(s[..|s| - 1], i);
    }
  }

  function IndexEntriesOf(r: Repo, pieces: seq<Piece>): (index: seq<IndexEntry>) {
    seq(|pieces|, i requires 0 <= i < |pieces| => IndexEntryOf(r, pieces[i]))
  }

  function IndexOf(r: Repo, pieces: seq<Piece>): (index: seq<IndexEntry>) {
    DedupById(SortById(IndexEntriesOf(r, pieces)))
  }

  /** Every entry of the index describes a chunk that was seen. */
  lemma IndexEntryIsPiece(r: Repo, pieces: seq<Piece>, j: nat) returns (i: nat)
    requires j < |IndexOf(r, pieces)|
    ensures i < |pieces| && IndexOf(r, pieces)[j] == IndexEntryOf(r, pieces[i])
  {
    var all := IndexEntriesOf(r, pieces);
    var k := DedupOnlyDrops(SortById(all), j);
    assert SortById(all)[k] in all;
    i :| 0 <= i < |all| && all[i] == SortById(all)[k];
  }

  /** Every chunk that was seen has an entry. */
  lemma PieceHasIndexEntry(r: Repo, pieces: seq<Piece>, i: nat) returns (j: nat)
    requires i < |pieces|
    ensures j < |IndexOf(r, pieces)| && IndexOf(r, pieces)[j].chunkId == r.chunkId(pieces[i].data)
  {
    var all := IndexEntriesOf(r, pieces);
    assert all[i] in all;
    var k :| 0 <= k < |SortById(all)| && SortById(all)[k] == all[i];
    j := DedupCovers(SortById(all), k);
  }

  /** The index is strictly increasing by id and covers exactly the chunks that were seen. */
  lemma IndexCoversPieces(r: Repo, pieces: seq<Piece>)
    ensures IncreasingById(IndexOf(r, pieces))
    ensures (set e | e in IndexOf(r, pieces) :: e.chunkId) == (set p | p in pieces :: r.chunkId(p.data))
  {
    DedupIncreases(SortById(IndexEntriesOf(r, pieces)));
    var index := IndexOf(r, pieces);
    forall e | e in index
      ensures e.chunkId in (set p | p in pieces :: r.chunkId(p.data))
    {
      var j :| 0 <= j < |index| && index[j] == e;
      var i := IndexEntryIsPiece(r, pieces, j);
      assert pieces[i] in pieces;
    }
    forall p | p in pieces
      ensures r.chunkId(p.data) in (set e | e in index :: e.chunkId)
    {
      var i :| 0 <= i < |pieces| && pieces[i] == p;
      var j := PieceHasIndexEntry(r, pieces, i);
      assert index[j] in index;
    }
  }

  // ---------- Of several entries for one chunk, the first stays ----------

  function FirstWith(s: seq<IndexEntry>, id: Id): Option<IndexEntry> {
    if s == [] then None
    else
      var before := FirstWith(s[..|s| - 1], id);
      if before.Some? then before
      else if s[|s| - 1].chunkId == id then Some(s[|s| - 1]) else None
  }

  lemma {:induction false} FirstWithOneMore(s: seq<IndexEntry>, e: IndexEntry, id: Id)
    ensures var before := FirstWith(s, id);
            FirstWith(s + [e], id) == if before.Some? then before else if e.chunkId == id then Some(e) else None
  {
    assert (s + [e])[..|s + [e]| - 1] == s;
  }

  lemma {:induction false} FirstWithIsIn(s: seq<IndexEntry>, id: Id)
    ensures FirstWith(s, id).Some? <==> exists e :: e in s && e.chunkId == id
    ensures FirstWith(s, id).Some? ==> FirstWith(s, id).value in s && FirstWith(s, id).value.chunkId == id
    decreases |s|
  {
    if s != [] {
      FirstWithIsIn(s[..|s| - 1], id);
      assert s == s[..|s| - 1] + [s[|s| - 1]];
    }
  }

  lemma {:induction false} InsertKeepsFirst(s: seq<IndexEntry>, e: IndexEntry, id: Id)
    requires SortedById(s)
    ensures FirstWith(InsertById(s, e), id) == FirstWith(s + [e], id)
    decreases |s|
  {
    FirstWithOneMore(s, e, id);
    if s != [] && s[|s| - 1].chunkId > e.chunkId {
      var init, last := s[..|s| - 1], s[|s| - 1];
      InsertKeepsFirst(init, e, id);
      FirstWithOneMore(init, e, id);
      FirstWithOneMore(InsertById(init, e), last, id);
    }
  }

  lemma {:induction false} SortKeepsFirst(s: seq<IndexEntry>, id: Id)
    ensures FirstWith(SortById(s), id) == FirstWith(s, id)
    decreases |s|
  {
    if s != [] {
      hide SortedById;
      var init, last := s[..|s| - 1], s[|s| - 1];
      SortKeepsFirst(init, id);
      InsertKeepsFirst(SortById(init), last, id);
      FirstWithOneMore(SortById(init), last, id);
    }
  }

  lemma {:induction false} DedupKeepsFirst(s: seq<IndexEntry>, id: Id)
    requires SortedById(s)
    ensures FirstWith(DedupById(s), id) == FirstWith(s, id)
    decreases |s|
  {
    if s != [] {
      var init, last := s[..|s| - 1], s[|s| - 1];
      DedupKeepsFirst(init, id);
      FirstWithOneMore(DedupById(init), last, id);
      if DedupById(s) == DedupById(init) && last.chunkId == id {
        FirstWithIsIn(DedupById(init), id);
      }
    }
  }

  lemma {:induction false} FirstOfIncreasing(s: seq<IndexEntry>, e: IndexEntry)
    requires IncreasingById(s) && e in s
    ensures FirstWith(s, e.chunkId) == Some(e)
  {
    FirstWithIsIn(s, e.chunkId);
  }

  /** An entry of the index is that of the first piece with its chunk. */
  lemma {:induction false} IndexEntryIsOfFirstPiece(r: Repo, pieces: seq<Piece>, e: IndexEntry) returns (i: nat)
    requires e in IndexOf(r, pieces)
    ensures i < |pieces| && e == IndexEntryOf(r, pieces[i])
    ensures forall h :: 0 <= h < i ==> r.chunkId(pieces[h].data) != e.chunkId
  {
    var all := IndexEntriesOf(r, pieces);
    DedupIncreases(SortById(all));
    FirstOfIncreasing(IndexOf(r, pieces), e);
    DedupKeepsFirst(SortById(all), e.chunkId);
    SortKeepsFirst(all, e.chunkId);
    i := FirstPosition(all, e);
    forall h | 0 <= h < i
      ensures r.chunkId(pieces[h].data) != e.chunkId
    {
      assert all[h] == IndexEntryOf(r, pieces[h]);
    }
  }

  lemma {:induction false} FirstPosition(s: seq<IndexEntry>, e: IndexEntry) returns (i: nat)
    requires FirstWith(s, e.chunkId) == Some(e)
    ensures i < |s| && s[i] == e && forall h :: 0 <= h < i ==> s[h].chunkId != e.chunkId
    decreases |s|
  {
    var init := s[..|s| - 1];
    if FirstWith(init, e.chunkId).Some? {
      i := FirstPosition(init, e);
    } else {
      FirstWithIsIn(init, e.chunkId);
      i := |s| - 1;
      assert forall h :: 0 <= h < i ==> s[h] in init;
    }
  }

  // ---------- The objects of a backup ----------

  function IndexDoc(r: Repo, job: Job): ChunkIndex {
    var entries := IndexOf(r, PiecesOf(job.entries));
    ChunkIndex(r.indexId(entries), entries)
  }

  function BodyOf(r: Repo, job: Job, now: nat): Body {
    Body(now, job.tags, EntriesOf(r, job.entries), [IndexDoc(r, job).indexId])
  }

  function ManifestDoc(r: Repo, job: Job, now: nat): Manifest {
    Manifest(r.snapshotId(BodyOf(r, job, now)), BodyOf(r, job, now))
  }

  function CommitFor(id: Id): Object {
    CommitDoc(Commit(0, id, ManifestKey(id)))
  }

  function MarkerFor(id: Id, now: nat): Object {
    ForgetDoc(ForgetMarker(0, id, ManifestKey(id), CommitKey(id), now))
  }

  lemma {:induction false} PieceOfEntryIsPiece(entries: seq<JobEntry>, i: nat, j: nat) returns (n: nat)
    requires i < |entries| && j < |entries[i].pieces|
    ensures n < |PiecesOf(entries)| && PiecesOf(entries)[n] == entries[i].pieces[j]
    decreases |entries|
  {
    if i == |entries| - 1 {
      n := |PiecesOf(entries[..|entries| - 1])| + j;
    } else {
      n := PieceOfEntryIsPiece(entries[..|entries| - 1], i, j);
    }
  }
}
