/**
 What the numbers that a check reports mean (crates/fileferry-core/src/lib.rs,
 `check_repository_with_options`): each object that is read is counted, with
 its size.
 */
module CheckCounts {
  import opened Common
  import opened Repository
  import opened Readers
  import opened Integrity
  import opened Check
  import opened CheckMeaning
  import Subset

  /** The sizes of these objects, one by one. */
  function BytesOf(r: Repo, store: Store, keys: seq<Key>): nat {
    if keys == [] then 0
    else
      var key := keys[|keys| - 1];
      BytesOf(r, store, keys[..|keys| - 1]) + (if key in store then r.size(store[key]) else 0)
  }

  lemma {:induction false} BytesConcat(r: Repo, store: Store, a: seq<Key>, b: seq<Key>)
    ensures BytesOf(r, store, a + b) == BytesOf(r, store, a) + BytesOf(r, store, b)
    decreases |b|
  {
    if b == [] {
      assert a + b == a;
    } else {
      assert (a + b)[..|a + b| - 1] == a + b[..|b| - 1];
      BytesConcat(r, store, a, b[..|b| - 1]);
    }
  }

  function IndexKeys(ids: seq<Id>): (keys: seq<Key>)
    ensures |keys| == |ids|
  {
    seq(|ids|, i requires 0 <= i < |ids| => IndexKey(ids[i]))
  }

  /** The marker, the manifest and its indexes. */
  function KeysOfCommit(store: Store, id: Id): seq<Key> {
    var key := ManifestKey(id);
    [CommitKey(id), key]
    + if key in store && store[key].Sealed? && store[key].payload.ManifestPayload?
      then IndexKeys(store[key].payload.manifest.body.indexIds) else []
  }

  function KeysOfCommits(store: Store, ids: seq<Id>): seq<Key> {
    if ids == [] then [] else KeysOfCommits(store, ids[..|ids| - 1]) + KeysOfCommit(store, ids[|ids| - 1])
  }

  lemma {:induction false} IndexBytesAreSizes(r: Repo, store: Store, ids: seq<Id>)
    ensures IndexBytes(r, store, ids) == BytesOf(r, store, IndexKeys(ids))
    decreases |ids|
  {
    if ids != [] {
      var n := |ids| - 1;
      IndexBytesAreSizes(r, store, ids[..n]);
      assert IndexKeys(ids)[..n] == IndexKeys(ids[..n]);
    }
  }

  lemma CommitCounts(r: Repo, store: Store, id: Id)
    requires CheckCommit(r, store, id).Ok?
    ensures var progress, keys := CheckCommit(r, store, id).value, KeysOfCommit(store, id);
            progress.metadataObjects == |keys| && progress.bytesRead == BytesOf(r, store, keys)
  {
    hide CollectEntries, CheckIndexes;
    var indexIds := ReadManifest(r, store, id).value.body.indexIds;
    IndexBytesAreSizes(r, store, indexIds);
    BytesConcat(r, store, [CommitKey(id), ManifestKey(id)], IndexKeys(indexIds));
    TwoBytes(r, store, CommitKey(id), ManifestKey(id));
  }

  lemma {:induction false} TwoBytes(r: Repo, store: Store, a: Key, b: Key)
    ensures BytesOf(r, store, [a, b]) == SizeAt(r, store, a) + SizeAt(r, store, b)
  {
    assert [a, b][..1] == [a] && [a][..0] == [];
    assert BytesOf(r, store, [a]) == BytesOf(r, store, []) + SizeAt(r, store, a);
  }

  lemma {:induction false} CommitsCount(r: Repo, store: Store, ids: seq<Id>)
    requires CheckCommits(r, store, ids).Ok?
    ensures var progress, keys := CheckCommits(r, store, ids).value, KeysOfCommits(store, ids);
            progress.metadataObjects == |keys| && progress.bytesRead == BytesOf(r, store, keys)
    decreases |ids|
  {
    hide CheckCommit, KeysOfCommit;
    if ids != [] {
      var init, last := ids[..|ids| - 1], ids[|ids| - 1];
      CommitsCount(r, store, init);
      CommitCounts(r, store, last);
      BytesConcat(r, store, KeysOfCommits(store, init), KeysOfCommit(store, last));
    }
  }

  /** Where the chosen chunks are stored. */
  function ChunkKeys(targets: IndexMap, ids: seq<Id>): (keys: seq<Key>)
    requires forall i :: 0 <= i < |ids| ==> ids[i] in targets
    ensures |keys| == |ids|
  {
    seq(|ids|, i requires 0 <= i < |ids| => targets[ids[i]].objectKey)
  }

  lemma {:induction false} ChunkBytesAreSizes(r: Repo, store: Store, targets: IndexMap, ids: seq<Id>)
    requires forall i :: 0 <= i < |ids| ==> ids[i] in targets
    requires CheckChunks(r, store, targets, ids).Ok?
    ensures CheckChunks(r, store, targets, ids).value == BytesOf(r, store, ChunkKeys(targets, ids))
    decreases |ids|
  {
    hide CheckChunk;
    if ids != [] {
      var n := |ids| - 1;
      ChunkBytesAreSizes(r, store, targets, ids[..n]);
      assert ChunkKeys(targets, ids)[..n] == ChunkKeys(targets, ids[..n]);
    }
  }

  // ---------- Labels ----------

  predicate AreDigits(s: string) {
    forall i :: 0 <= i < |s| ==> '0' <= s[i] <= '9'
  }

  /** The number that these digits write. */
  function ValueOf(digits: string): nat
    requires AreDigits(digits)
  {
    if digits == "" then 0
    else ValueOf(digits[..|digits| - 1]) * 10 + (digits[|digits| - 1] as int - '0' as int)
  }

  /** The digits write this number, without a leading zero. */
  predicate Writes(digits: string, n: nat) {
    && digits != "" && AreDigits(digits) && ValueOf(digits) == n
    && (n > 0 ==> digits[0] != '0')
  }

  lemma {:induction false} DecimalWrites(n: nat)
    ensures Writes(Decimal(n), n)
    decreases n
  {
    Digit(n % 10);
    if n < 10 {
      OneMoreDigit("", "0123456789"[n % 10]);
      assert Decimal(n) == "" + ["0123456789"[n % 10]];
    } else {
      DecimalWrites(n / 10);
      OneMoreDigit(Decimal(n / 10), "0123456789"[n % 10]);
    }
  }

  lemma Digit(d: nat)
    requires d < 10
    ensures '0' <= "0123456789"[d] <= '9' && "0123456789"[d] as int - '0' as int == d
  {
  }

  lemma {:induction false} OneMoreDigit(digits: string, digit: char)
    requires AreDigits(digits) && '0' <= digit <= '9'
    ensures AreDigits(digits + [digit])
    ensures ValueOf(digits + [digit]) == ValueOf(digits) * 10 + (digit as int - '0' as int)
    ensures ValueOf("") == 0
  {
    assert (digits + [digit])[..|digits + [digit]| - 1] == digits;
  }

  /** No label for a full check, the count, or the percentage with its sign. */
  predicate LabelTells(shown: Option<string>, s: Selection) {
    match s
    case Full => shown == None
    case Count(n) => shown.Some? && Writes(shown.value, n)
    case Percent(p) =>
      shown.Some? && shown.value != "" && shown.value[|shown.value| - 1] == '%'
      && Writes(shown.value[..|shown.value| - 1], p)
  }

  lemma SubsetLabelTells(s: Selection)
    ensures LabelTells(SubsetLabel(s), s)
  {
    hide Writes;
    match s
    case Full =>
    case Count(n) => DecimalWrites(n);
    case Percent(p) =>
      DecimalWrites(p);
      assert (Decimal(p) + "%")[..|Decimal(p) + "%"| - 1] == Decimal(p);
  }

  /** A check that succeeds has read each commit's marker, manifest and indexes, and says what it checked and when. */
  lemma {:induction false} CheckCountsMetadata(r: Repo, store: Store, s: Selection, now: nat)
    requires CheckRepository(r, store, s, now).Ok?
    ensures var result := CheckRepository(r, store, s, now).value;
            && result.metadataObjects == |KeysOfCommits(store, SortedIds(CommittedIds(store)))|
            && result.repositoryId == r.repositoryId && result.checkedAt == now && result.readsAll == s.Full?
            && LabelTells(result.subset, s)
  {
    hide CheckCommits, CheckChunks, SelectedIds, KeysOfCommits, BytesOf, SortedIds, CheckChunk, LabelTells;
    SubsetLabelTells(s);
    CommitsCount(r, store, SortedIds(CommittedIds(store)));
  }

  /** In a repository in order each commit has three metadata objects. */
  lemma {:induction false} ThreePerCommit(r: Repo, store: Store, ids: seq<Id>)
    requires StoreInv(r, store) && forall i :: 0 <= i < |ids| ==> CommitKey(ids[i]) in store
    ensures |KeysOfCommits(store, ids)| == 3 * |ids|
    decreases |ids|
  {
    if ids != [] {
      var n := |ids| - 1;
      ThreePerCommit(r, store, ids[..n]);
      assert ObjectOk(r, store, CommitKey(ids[n])) && ObjectOk(r, store, ManifestKey(ids[n]));
      assert |KeysOfCommit(store, ids[n])| == 3;
    }
  }

  lemma {:induction false} ThreeObjectsForEachCommit(r: Repo, store: Store, s: Selection, now: nat)
    requires StoreInv(r, store) && CheckRepository(r, store, s, now).Ok?
    ensures CheckRepository(r, store, s, now).value.metadataObjects == 3 * |CommittedIds(store)|
  {
    hide CheckRepository, StoreInv, KeysOfCommits;
    var ids := SortedIds(CommittedIds(store));
    CheckCountsMetadata(r, store, s, now);
    forall i | 0 <= i < |ids|
      ensures CommitKey(ids[i]) in store
    {
      assert ids[i] in ids;
    }
    ThreePerCommit(r, store, ids);
  }

  // ---------- Which chunks a check reads ----------

  /** A regular file of this snapshot refers to the chunk. */
  ghost predicate Needs(store: Store, id: Id, c: Id) {
    var key := ManifestKey(id);
    && key in store && store[key].Sealed? && store[key].payload.ManifestPayload?
    && var entries := store[key].payload.manifest.body.entries;
       exists i, j :: 0 <= i < |entries| && entries[i].metadata.kind == RegularFile
                      && 0 <= j < |entries[i].chunks| && entries[i].chunks[j].chunkId == c
  }

  ghost predicate IsNeeded(store: Store, c: Id) {
    exists id :: CommitKey(id) in store && Needs(store, id, c)
  }

  /** What a commit that checks collects. */
  lemma CommitTargets(r: Repo, store: Store, id: Id)
    requires CheckCommit(r, store, id).Ok?
    ensures ReadManifest(r, store, id).Ok?
    ensures var body := ReadManifest(r, store, id).value.body;
            && LoadIndexes(r, store, body.indexIds).Ok?
            && var index := LoadIndexes(r, store, body.indexIds).value;
               && CollectEntries(index, body.entries).Ok?
               && CheckCommit(r, store, id).value.targets == CollectEntries(index, body.entries).value
  {
    hide CollectEntries, LoadIndexes, ReadManifest;
  }

  lemma NeedsMeansReferenced(r: Repo, store: Store, id: Id, c: Id)
    requires ReadManifest(r, store, id).Ok?
    ensures Needs(store, id, c) <==> IsReferenced(ReadManifest(r, store, id).value.body.entries, c)
  {
    var entries := ReadManifest(r, store, id).value.body.entries;
    assert entries == store[ManifestKey(id)].payload.manifest.body.entries;
    hide ReadManifest;
    if Needs(store, id, c) {
      var i, j :| 0 <= i < |entries| && entries[i].metadata.kind == RegularFile
                  && 0 <= j < |entries[i].chunks| && entries[i].chunks[j].chunkId == c;
      assert Mentions(entries[i].chunks, c);
    }
  }

  lemma TargetsOfCommit(r: Repo, store: Store, id: Id, c: Id)
    requires CheckCommit(r, store, id).Ok?
    ensures IsTargetOf(r, store, id, c) <==> Needs(store, id, c)
  {
    hide CollectEntries, LoadIndexes, CheckCommit, ReadManifest, Needs, IsReferenced, FilesResolve;
    CommitTargets(r, store, id);
    var body := ReadManifest(r, store, id).value.body;
    CollectEntriesMeaning(LoadIndexes(r, store, body.indexIds).value, body.entries);
    NeedsMeansReferenced(r, store, id, c);
  }

  lemma {:induction false} TargetsAreNeeded(r: Repo, store: Store, c: Id)
    requires HonestIndexes(r, store) && CheckCommits(r, store, SortedIds(CommittedIds(store))).Ok?
    ensures c in CheckCommits(r, store, SortedIds(CommittedIds(store))).value.targets <==> IsNeeded(store, c)
  {
    hide CheckCommits, CheckCommit, HonestIndexes, Needs, SortedIds, IsTargetOf;
    var ids := SortedIds(CommittedIds(store));
    CheckCommitsMeaning(r, store, ids);
    forall i | 0 <= i < |ids|
      ensures IsTargetOf(r, store, ids[i], c) <==> Needs(store, ids[i], c)
      ensures CommitKey(ids[i]) in store
    {
      assert ids[i] in ids;
      TargetsOfCommit(r, store, ids[i], c);
    }
    if IsNeeded(store, c) {
      var id :| CommitKey(id) in store && Needs(store, id, c);
      assert id in ids;
    }
  }

  /** The chunk objects with these ids. */
  function ChunkObjects(ids: seq<Id>): seq<Key> {
    seq(|ids|, i requires 0 <= i < |ids| => ChunkKey(ids[i]))
  }

  /** These are the smallest of the needed chunks, each once; for a full check, all of them. */
  ghost predicate SelectsChunks(store: Store, s: Selection, ids: seq<Id>) {
    && StrictlyIncreasing(ids)
    && (forall c :: c in ids ==> IsNeeded(store, c))
    && (forall c: Id, d: Id :: c in ids && IsNeeded(store, d) && d !in ids ==> c < d)
    && (s.Full? ==> forall c :: IsNeeded(store, c) ==> c in ids)
  }

  /**
   Where every index that opens is honest, a check that succeeds has read the
   needed chunks of its selection, each once however many files share it.
   */
  lemma {:induction false} CheckReadsEachChunkOnce(r: Repo, store: Store, s: Selection, now: nat)
    requires HonestIndexes(r, store) && CheckRepository(r, store, s, now).Ok?
    ensures var result := CheckRepository(r, store, s, now).value;
            var metadata := KeysOfCommits(store, SortedIds(CommittedIds(store)));
            exists ids: seq<Id> ::
              && SelectsChunks(store, s, ids) && result.chunkObjects == |ids|
              && result.bytesRead == BytesOf(r, store, metadata) + BytesOf(r, store, ChunkObjects(ids))
  {
    hide CheckCommits, CheckChunks, KeysOfCommits, BytesOf, SortedIds, CheckChunk, SelectedIds, HonestIndexes, IsNeeded,
         HonestIndexEntry, CommittedIds, StrictlyIncreasing;
    var ids := SortedIds(CommittedIds(store));
    var targets := CheckCommits(r, store, ids).value.targets;
    var selected := SelectedIds(s, targets);
    CheckCommitsMeaning(r, store, ids);
    CommitsCount(r, store, ids);
    ChunkBytesAreSizes(r, store, targets, selected);
    HonestKeys(r, targets, selected);
    forall c { TargetsAreNeeded(r, store, c); }
    SelectionSelects(store, s, targets);
  }

  lemma HonestKeys(r: Repo, targets: IndexMap, ids: seq<Id>)
    requires HonestMap(r, targets) && forall i :: 0 <= i < |ids| ==> ids[i] in targets
    ensures ChunkKeys(targets, ids) == ChunkObjects(ids)
  {
  }

  lemma {:induction false} SelectionSelects(store: Store, s: Selection, targets: IndexMap)
    requires forall c :: c in targets <==> IsNeeded(store, c)
    ensures SelectsChunks(store, s, SelectedIds(s, targets))
  {
    hide IsNeeded, SortedIds, StrictlyIncreasing, SelectedIds, SelectedCount;
    var sorted, selected := SortedIds(targets.Keys), SelectedIds(s, targets);
    Subset.SelectionIsPrefix(s, targets);
    PrefixIncreases(sorted, selected);
    if s.Full? {
      FullSelectsAll(targets);
    }
  }

  lemma PrefixIncreases(sorted: seq<Id>, selected: seq<Id>)
    requires selected <= sorted && StrictlyIncreasing(sorted)
    ensures StrictlyIncreasing(selected) && forall c :: c in selected ==> c in sorted
  {
    assert forall i :: 0 <= i < |selected| ==> selected[i] == sorted[i];
  }
}
