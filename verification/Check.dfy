/**
 `check_repository_with_options` (crates/fileferry-core/src/lib.rs): follow
 every commit marker, then read each referenced chunk once.
 */
module Check {
  import opened Common
  import opened Repository
  import opened Readers

  // ---------- Metadata of one commit ----------

  predicate CommitWellFormed(store: Store, id: Id) {
    && CommitKey(id) in store && store[CommitKey(id)].CommitDoc?
    && store[CommitKey(id)].commit == Commit(0, id, ManifestKey(id))
  }

  /** Decode the marker and compare it with its own key. */
  function ReadCommit(store: Store, id: Id): Result<Commit, Error> {
    var key := CommitKey(id);
    if key !in store then Err(StorageNotFound(key))
    else if !store[key].CommitDoc? then Err(CommitDecode(key))
    else if store[key].commit.schemaVersion != 0 || store[key].commit.snapshotId != id
         || store[key].commit.manifestObject != ManifestKey(id)
    then Err(InvalidCommitMarker(key))
    else Ok(store[key].commit)
  }

  /** `check` names a missing object differently from `restore`. */
  function CheckError(e: Error): Error {
    match e
    case ReferencedObjectMissing(key) => CheckMissingObject(key)
    case _ => e
  }

  function CheckIndexes(r: Repo, store: Store, ids: seq<Id>): Result<IndexMap, Error> {
    var index := LoadIndexes(r, store, ids);
    if index.Err? then Err(CheckError(index.error)) else index
  }

  /** Resolve the references of one file and note their index entries. */
  function CollectChunks(index: IndexMap, targets: IndexMap, chunks: seq<ChunkRef>): Result<IndexMap, Error> {
    if chunks == [] then Ok(targets)
    else
      var before := CollectChunks(index, targets, chunks[..|chunks| - 1]);
      if before.Err? then before
      else
        var c := chunks[|chunks| - 1];
        var indexed := ResolveChunk(index, c);
        if indexed.Err? then Err(indexed.error) else Ok(before.value[c.chunkId := indexed.value])
  }

  function CollectEntries(index: IndexMap, entries: seq<Entry>): Result<IndexMap, Error> {
    if entries == [] then Ok(map[])
    else
      var before := CollectEntries(index, entries[..|entries| - 1]);
      var e := entries[|entries| - 1];
      if before.Err? || e.metadata.kind != RegularFile then before
      else CollectChunks(index, before.value, e.chunks)
  }

  /** The bytes of an object that is read. */
  function SizeAt(r: Repo, store: Store, key: Key): nat {
    if key in store then r.size(store[key]) else 0
  }

  function IndexBytes(r: Repo, store: Store, ids: seq<Id>): nat {
    if ids == [] then 0
    else IndexBytes(r, store, ids[..|ids| - 1]) + SizeAt(r, store, IndexKey(ids[|ids| - 1]))
  }

  /** What the check has seen: the chunks to read, how many metadata objects, and their bytes. */
  datatype Progress = Progress(targets: IndexMap, metadataObjects: nat, bytesRead: nat)

  function CheckCommit(r: Repo, store: Store, id: Id): Result<Progress, Error> {
    var commit := ReadCommit(store, id);
    if commit.Err? then Err(commit.error)
    else
      var m := Referenced(ReadManifest(r, store, id), CheckMissingObject(ManifestKey(id)));
      if m.Err? then Err(m.error)
      else
        var index := CheckIndexes(r, store, m.value.body.indexIds);
        if index.Err? then Err(index.error)
        else
          var targets := CollectEntries(index.value, m.value.body.entries);
          if targets.Err? then Err(targets.error)
          else Ok(Progress(targets.value, 2 + |m.value.body.indexIds|,
                           SizeAt(r, store, CommitKey(id)) + SizeAt(r, store, ManifestKey(id))
                           + IndexBytes(r, store, m.value.body.indexIds)))
  }

  /** What one more commit adds to the progress so far. */
  function AddProgress(before: Progress, last: Progress): Progress {
    Progress(last.targets + before.targets, before.metadataObjects + last.metadataObjects,
             before.bytesRead + last.bytesRead)
  }

  const NO_PROGRESS := Progress(map[], 0, 0)

  /** Commits in sorted order; the first entry noted for a chunk id is the one that is checked. */
  function CheckCommits(r: Repo, store: Store, ids: seq<Id>): Result<Progress, Error> {
    if ids == [] then Ok(NO_PROGRESS)
    else
      var before := CheckCommits(r, store, ids[..|ids| - 1]);
      if before.Err? then before
      else
        var last := CheckCommit(r, store, ids[|ids| - 1]);
        if last.Err? then last else Ok(AddProgress(before.value, last.value))
  }

  // ---------- Chunk data ----------

  function CheckChunk(r: Repo, store: Store, id: Id, indexed: IndexEntry): Result<Data, Error> {
    Referenced(ReadChunkObject(r, store, id, indexed.objectKey, indexed), CheckMissingObject(indexed.objectKey))
  }

  /** The first failure among the chunks, or the bytes that were read for them. */
  function CheckChunks(r: Repo, store: Store, targets: IndexMap, ids: seq<Id>): Result<nat, Error>
    requires forall i :: 0 <= i < |ids| ==> ids[i] in targets
  {
    if ids == [] then Ok(0)
    else
      var before := CheckChunks(r, store, targets, ids[..|ids| - 1]);
      if before.Err? then before
      else
        var id := ids[|ids| - 1];
        var last := CheckChunk(r, store, id, targets[id]);
        if last.Err? then Err(last.error) else Ok(before.value + SizeAt(r, store, targets[id].objectKey))
  }

  // ---------- Subsets ----------

  /** `CheckReadDataSelection`; counts are positive and percentages between 1 and 100. */
  datatype Selection = Full | Count(count: nat) | Percent(percent: nat)

  predicate ValidSelection(s: Selection) {
    match s
    case Full => true
    case Count(n) => n > 0
    case Percent(p) => 1 <= p <= 100
  }

  const MAX_USIZE: nat := 0xffff_ffff_ffff_ffff

  function Min(a: nat, b: nat): nat {
    if a < b then a else b
  }

  /** `selected_count`, with the saturating product of the source. */
  function SelectedCount(s: Selection, total: nat): nat {
    match s
    case Full => total
    case Count(n) => Min(n, total)
    case Percent(p) => if total == 0 then 0 else Min((Min(total * p, MAX_USIZE) + 99) / 100, total)
  }

  lemma SelectedCountIsWithinTotal(s: Selection, total: nat)
    ensures SelectedCount(s, total) <= total
  {
  }

  /** `select_check_chunk_ids`: the first ids in sorted order. */
  function SelectedIds(s: Selection, targets: IndexMap): (ids: seq<Id>)
    ensures forall i :: 0 <= i < |ids| ==> ids[i] in targets
  {
    SelectedCountIsWithinTotal(s, |targets.Keys|);
    var sorted := SortedIds(targets.Keys);
    assert forall i :: 0 <= i < |sorted| ==> sorted[i] in sorted;
    sorted[..SelectedCount(s, |targets.Keys|)]
  }

  function Decimal(n: nat): string {
    (if n < 10 then "" else Decimal(n / 10)) + ["0123456789"[n % 10]]
  }

  /** `subset_label` */
  function SubsetLabel(s: Selection): Option<string> {
    match s
    case Full => None
    case Count(n) => Some(Decimal(n))
    case Percent(p) => Some(Decimal(p) + "%")
  }

  /** The lists of errors and warnings are always empty: the first error ends the check. */
  datatype CheckResult = CheckResult(
    repositoryId: string, checkedAt: nat, metadataObjects: nat, chunkObjects: nat, bytesRead: nat,
    readsAll: bool, subset: Option<string>)

  function ResultOf(r: Repo, s: Selection, now: nat, progress: Progress, chunks: nat, chunkBytes: nat): CheckResult {
    CheckResult(r.repositoryId, now, progress.metadataObjects, chunks, progress.bytesRead + chunkBytes,
                s.Full?, SubsetLabel(s))
  }

  function CheckRepository(r: Repo, store: Store, s: Selection, now: nat): Result<CheckResult, Error> {
    var progress := CheckCommits(r, store, SortedIds(CommittedIds(store)));
    if progress.Err? then Err(progress.error)
    else
      var ids := SelectedIds(s, progress.value.targets);
      var chunks := CheckChunks(r, store, progress.value.targets, ids);
      if chunks.Err? then Err(chunks.error) else Ok(ResultOf(r, s, now, progress.value, |ids|, chunks.value))
  }

  // ---------- Operation by operation ----------

  function IndexBytesAlong(r: Repo, history: nat -> Store, ids: seq<Id>, at: nat): nat {
    if ids == [] then 0
    else
      var n := |ids| - 1;
      IndexBytesAlong(r, history, ids[..n], at) + SizeAt(r, history(at + n), IndexKey(ids[n]))
  }

  /** A marker read, a manifest read and one read per index, from `at` on. */
  function CheckCommitAlong(r: Repo, history: nat -> Store, id: Id, at: nat): Result<Progress, Error> {
    var commit := ReadCommit(history(at), id);
    if commit.Err? then Err(commit.error)
    else
      var m := Referenced(ReadManifest(r, history(at + 1), id), CheckMissingObject(ManifestKey(id)));
      if m.Err? then Err(m.error)
      else
        var ids := m.value.body.indexIds;
        var index := LoadIndexesAlong(r, history, ids, at + 2);
        if index.Err? then Err(CheckError(index.error))
        else
          var targets := CollectEntries(index.value, m.value.body.entries);
          if targets.Err? then Err(targets.error)
          else Ok(Progress(targets.value, 2 + |ids|,
                           SizeAt(r, history(at), CommitKey(id)) + SizeAt(r, history(at + 1), ManifestKey(id))
                           + IndexBytesAlong(r, history, ids, at + 2)))
  }

  /** So far there was one read for each metadata object. */
  function CheckCommitsAlong(r: Repo, history: nat -> Store, ids: seq<Id>, at: nat): Result<Progress, Error> {
    if ids == [] then Ok(NO_PROGRESS)
    else
      var before := CheckCommitsAlong(r, history, ids[..|ids| - 1], at);
      if before.Err? then before
      else
        var last := CheckCommitAlong(r, history, ids[|ids| - 1], at + before.value.metadataObjects);
        if last.Err? then last else Ok(AddProgress(before.value, last.value))
  }

  function CheckChunksAlong(r: Repo, history: nat -> Store, targets: IndexMap, ids: seq<Id>, at: nat)
    : Result<nat, Error>
    requires forall i :: 0 <= i < |ids| ==> ids[i] in targets
  {
    if ids == [] then Ok(0)
    else
      var n := |ids| - 1;
      var before := CheckChunksAlong(r, history, targets, ids[..n], at);
      if before.Err? then before
      else
        var store, id := history(at + n), ids[n];
        var last := CheckChunk(r, store, id, targets[id]);
        if last.Err? then Err(last.error) else Ok(before.value + SizeAt(r, store, targets[id].objectKey))
  }

  /** One listing, then one read after the other, each in its own state. */
  function CheckAlong(r: Repo, history: nat -> Store, s: Selection, now: nat): Result<CheckResult, Error> {
    var progress := CheckCommitsAlong(r, history, SortedIds(CommittedIds(history(0))), 1);
    if progress.Err? then Err(progress.error)
    else
      var ids := SelectedIds(s, progress.value.targets);
      var chunks := CheckChunksAlong(r, history, progress.value.targets, ids, 1 + progress.value.metadataObjects);
      if chunks.Err? then Err(chunks.error) else Ok(ResultOf(r, s, now, progress.value, |ids|, chunks.value))
  }

  // ---------- The checking loops ----------

  lemma {:induction false} CheckCommitsAlongFails(r: Repo, history: nat -> Store, ids: seq<Id>, at: nat, n: nat)
    requires n <= |ids| && CheckCommitsAlong(r, history, ids[..n], at).Err?
    ensures CheckCommitsAlong(r, history, ids, at) == CheckCommitsAlong(r, history, ids[..n], at)
    decreases |ids|
  {
    hide CheckCommitAlong;
    if n < |ids| {
      assert ids[..|ids| - 1][..n] == ids[..n];
      CheckCommitsAlongFails(r, history, ids[..|ids| - 1], at, n);
    } else {
      assert ids[..n] == ids;
    }
  }

  lemma {:induction false} CheckChunksFails(r: Repo, store: Store, targets: IndexMap, ids: seq<Id>, n: nat)
    requires forall i :: 0 <= i < |ids| ==> ids[i] in targets
    requires n <= |ids| && CheckChunks(r, store, targets, ids[..n]).Err?
    ensures CheckChunks(r, store, targets, ids) == CheckChunks(r, store, targets, ids[..n])
    decreases |ids|
  {
    hide CheckChunk;
    if n < |ids| {
      assert ids[..|ids| - 1][..n] == ids[..n];
      CheckChunksFails(r, store, targets, ids[..|ids| - 1], n);
    } else {
      assert ids[..n] == ids;
    }
  }

  lemma {:induction false} CheckChunksAlongFails(r: Repo, history: nat -> Store, targets: IndexMap, ids: seq<Id>,
                                                 at: nat, n: nat)
    requires forall i :: 0 <= i < |ids| ==> ids[i] in targets
    requires n <= |ids| && CheckChunksAlong(r, history, targets, ids[..n], at).Err?
    ensures CheckChunksAlong(r, history, targets, ids, at) == CheckChunksAlong(r, history, targets, ids[..n], at)
    decreases |ids|
  {
    hide CheckChunk;
    if n < |ids| {
      assert ids[..|ids| - 1][..n] == ids[..n];
      CheckChunksAlongFails(r, history, targets, ids[..|ids| - 1], at, n);
    } else {
      assert ids[..n] == ids;
    }
  }

  lemma {:induction false} CollectChunksFails(index: IndexMap, targets: IndexMap, chunks: seq<ChunkRef>, n: nat)
    requires n <= |chunks| && CollectChunks(index, targets, chunks[..n]).Err?
    ensures CollectChunks(index, targets, chunks) == CollectChunks(index, targets, chunks[..n])
    decreases |chunks|
  {
    if n < |chunks| {
      assert chunks[..|chunks| - 1][..n] == chunks[..n];
      CollectChunksFails(index, targets, chunks[..|chunks| - 1], n);
    } else {
      assert chunks[..n] == chunks;
    }
  }

  lemma {:induction false} CollectEntriesFails(index: IndexMap, entries: seq<Entry>, n: nat)
    requires n <= |entries| && CollectEntries(index, entries[..n]).Err?
    ensures CollectEntries(index, entries) == CollectEntries(index, entries[..n])
    decreases |entries|
  {
    if n < |entries| {
      assert entries[..|entries| - 1][..n] == entries[..n];
      CollectEntriesFails(index, entries[..|entries| - 1], n);
    } else {
      assert entries[..n] == entries;
    }
  }

  method CollectFile(index: IndexMap, targets: IndexMap, chunks: seq<ChunkRef>)
    returns (result: Result<IndexMap, Error>)
    ensures result == CollectChunks(index, targets, chunks)
  {
    var contexts := targets;
    for i := 0 to |chunks|
      invariant CollectChunks(index, targets, chunks[..i]) == Ok(contexts)
    {
      assert chunks[..i + 1][..i] == chunks[..i];
      var indexed := ResolveChunk(index, chunks[i]);
      if indexed.Err? {
        CollectChunksFails(index, targets, chunks, i + 1);
        return Err(indexed.error);
      }
      contexts := contexts[chunks[i].chunkId := indexed.value];
    }
    assert chunks[..|chunks|] == chunks;
    return Ok(contexts);
  }

  method CollectTargets(index: IndexMap, entries: seq<Entry>) returns (result: Result<IndexMap, Error>)
    ensures result == CollectEntries(index, entries)
  {
    var contexts: IndexMap := map[];
    for i := 0 to |entries|
      invariant CollectEntries(index, entries[..i]) == Ok(contexts)
    {
      assert entries[..i + 1][..i] == entries[..i];
      if entries[i].metadata.kind != RegularFile {
        continue;
      }
      var more := CollectFile(index, contexts, entries[i].chunks);
      if more.Err? {
        CollectEntriesFails(index, entries, i + 1);
        return more;
      }
      contexts := more.value;
    }
    assert entries[..|entries|] == entries;
    return Ok(contexts);
  }

  lemma NoIndexes(r: Repo, history: nat -> Store, at: nat)
    ensures LoadIndexesAlong(r, history, [], at) == Ok(map[]) && IndexBytesAlong(r, history, [], at) == 0
  {
  }

  lemma {:induction false} IndexesStep(r: Repo, history: nat -> Store, ids: seq<Id>, at: nat, i: nat)
    requires i < |ids| && LoadIndexesAlong(r, history, ids[..i], at).Ok?
    ensures var before, store := LoadIndexesAlong(r, history, ids[..i], at).value, history(at + i);
            var index := Referenced(ReadIndex(r, store, ids[i]), ReferencedObjectMissing(IndexKey(ids[i])));
            && LoadIndexesAlong(r, history, ids[..i + 1], at)
               == (if index.Err? then Err(index.error) else Ok(InsertAll(before, index.value.chunks)))
            && IndexBytesAlong(r, history, ids[..i + 1], at)
               == IndexBytesAlong(r, history, ids[..i], at) + SizeAt(r, store, IndexKey(ids[i]))
  {
    hide ReadIndex, InsertAll, SizeAt;
    assert ids[..i + 1][..i] == ids[..i];
  }

  method LoadIndexesStepwise(r: Repo, history: nat -> Store, ids: seq<Id>, at: nat)
    returns (result: Result<IndexMap, Error>, bytes: nat)
    ensures result == LoadIndexesAlong(r, history, ids, at)
    ensures result.Ok? ==> bytes == IndexBytesAlong(r, history, ids, at)
  {
    hide ReadIndex, InsertAll, SizeAt, LoadIndexesAlong, IndexBytesAlong;
    var entries: IndexMap := map[];
    bytes := 0;
    assert ids[..0] == [];
    NoIndexes(r, history, at);
    for i := 0 to |ids|
      invariant LoadIndexesAlong(r, history, ids[..i], at) == Ok(entries)
      invariant bytes == IndexBytesAlong(r, history, ids[..i], at)
    {
      IndexesStep(r, history, ids, at, i);
      var index := Referenced(ReadIndex(r, history(at + i), ids[i]), ReferencedObjectMissing(IndexKey(ids[i])));
      if index.Err? {
        LoadIndexesAlongFails(r, history, ids, at, i + 1);
        return Err(index.error), bytes;
      }
      entries := InsertAll(entries, index.value.chunks);
      bytes := bytes + SizeAt(r, history(at + i), IndexKey(ids[i]));
    }
    assert ids[..|ids|] == ids;
    result := Ok(entries);
  }

  lemma {:induction false} LoadIndexesAlongFails(r: Repo, history: nat -> Store, ids: seq<Id>, at: nat, n: nat)
    requires n <= |ids| && LoadIndexesAlong(r, history, ids[..n], at).Err?
    ensures LoadIndexesAlong(r, history, ids, at) == LoadIndexesAlong(r, history, ids[..n], at)
    decreases |ids|
  {
    hide ReadIndex, InsertAll;
    if n < |ids| {
      assert ids[..|ids| - 1][..n] == ids[..n];
      LoadIndexesAlongFails(r, history, ids[..|ids| - 1], at, n);
    } else {
      assert ids[..n] == ids;
    }
  }

  method CheckOneCommit(r: Repo, history: nat -> Store, id: Id, at: nat) returns (result: Result<Progress, Error>)
    ensures result == CheckCommitAlong(r, history, id, at)
  {
    hide ReadManifest, LoadIndexesAlong, IndexBytesAlong, CollectEntries, ReadCommit;
    var commit := ReadCommit(history(at), id);
    if commit.Err? {
      return Err(commit.error);
    }
    var bytesRead := SizeAt(r, history(at), CommitKey(id));
    var m := Referenced(ReadManifest(r, history(at + 1), id), CheckMissingObject(ManifestKey(id)));
    if m.Err? {
      return Err(m.error);
    }
    bytesRead := bytesRead + SizeAt(r, history(at + 1), ManifestKey(id));
    var index, indexBytes := LoadIndexesStepwise(r, history, m.value.body.indexIds, at + 2);
    if index.Err? {
      return Err(CheckError(index.error));
    }
    bytesRead := bytesRead + indexBytes;
    var targets := CollectTargets(index.value, m.value.body.entries);
    if targets.Err? {
      return Err(targets.error);
    }
    return Ok(Progress(targets.value, 2 + |m.value.body.indexIds|, bytesRead));
  }

  lemma {:induction false} CheckCommitsStep(r: Repo, history: nat -> Store, ids: seq<Id>, at: nat, i: nat)
    requires i < |ids| && CheckCommitsAlong(r, history, ids[..i], at).Ok?
    ensures var before := CheckCommitsAlong(r, history, ids[..i], at).value;
            var last := CheckCommitAlong(r, history, ids[i], at + before.metadataObjects);
            CheckCommitsAlong(r, history, ids[..i + 1], at)
            == if last.Err? then last else Ok(AddProgress(before, last.value))
  {
    hide CheckCommitAlong;
    assert ids[..i + 1][..i] == ids[..i];
  }

  lemma NoCommits(r: Repo, history: nat -> Store, at: nat)
    ensures CheckCommitsAlong(r, history, [], at) == Ok(NO_PROGRESS)
  {
  }

  method CheckAllCommits(r: Repo, history: nat -> Store, ids: seq<Id>, at: nat)
    returns (result: Result<Progress, Error>)
    ensures result == CheckCommitsAlong(r, history, ids, at)
  {
    hide CheckCommitsAlong, CheckCommitAlong;
    var metadataObjectsChecked: nat, bytesRead: nat := 0, 0;
    var chunkTargets: IndexMap := map[];
    assert ids[..0] == [];
    NoCommits(r, history, at);
    ghost var before := NO_PROGRESS;
    for i := 0 to |ids|
      invariant before == Progress(chunkTargets, metadataObjectsChecked, bytesRead)
      invariant CheckCommitsAlong(r, history, ids[..i], at) == Ok(before)
    {
      CheckCommitsStep(r, history, ids, at, i);
      var progress := CheckOneCommit(r, history, ids[i], at + metadataObjectsChecked);
      if progress.Err? {
        CheckCommitsAlongFails(r, history, ids, at, i + 1);
        return progress;
      }
      before := AddProgress(before, progress.value);
      chunkTargets := progress.value.targets + chunkTargets;
      metadataObjectsChecked := metadataObjectsChecked + progress.value.metadataObjects;
      bytesRead := bytesRead + progress.value.bytesRead;
    }
    assert ids[..|ids|] == ids;
    return Ok(Progress(chunkTargets, metadataObjectsChecked, bytesRead));
  }

  lemma NoChunks(r: Repo, history: nat -> Store, targets: IndexMap, at: nat)
    ensures CheckChunksAlong(r, history, targets, [], at) == Ok(0)
  {
  }

  lemma {:induction false} CheckChunksStep(r: Repo, history: nat -> Store, targets: IndexMap, ids: seq<Id>, at: nat,
                                           i: nat)
    requires forall j :: 0 <= j < |ids| ==> ids[j] in targets
    requires i < |ids| && CheckChunksAlong(r, history, targets, ids[..i], at).Ok?
    ensures var before, store := CheckChunksAlong(r, history, targets, ids[..i], at).value, history(at + i);
            var last := CheckChunk(r, store, ids[i], targets[ids[i]]);
            CheckChunksAlong(r, history, targets, ids[..i + 1], at)
            == if last.Err? then Err(last.error) else Ok(before + SizeAt(r, store, targets[ids[i]].objectKey))
  {
    hide CheckChunk, SizeAt;
    assert ids[..i + 1][..i] == ids[..i];
  }

  method CheckSelected(r: Repo, history: nat -> Store, targets: IndexMap, ids: seq<Id>, at: nat)
    returns (result: Result<nat, Error>, chunkObjectsChecked: nat)
    requires forall i :: 0 <= i < |ids| ==> ids[i] in targets
    ensures result == CheckChunksAlong(r, history, targets, ids, at)
    ensures result.Ok? ==> chunkObjectsChecked == |ids|
  {
    hide CheckChunk, CheckChunksAlong, SizeAt;
    var bytesRead := 0;
    chunkObjectsChecked := 0;
    assert ids[..0] == [];
    NoChunks(r, history, targets, at);
    for i := 0 to |ids|
      invariant chunkObjectsChecked == i && CheckChunksAlong(r, history, targets, ids[..i], at) == Ok(bytesRead)
    {
      CheckChunksStep(r, history, targets, ids, at, i);
      var indexed := targets[ids[i]];
      var data := CheckChunk(r, history(at + i), ids[i], indexed);
      if data.Err? {
        CheckChunksAlongFails(r, history, targets, ids, at, i + 1);
        return Err(data.error), chunkObjectsChecked;
      }
      bytesRead := bytesRead + SizeAt(r, history(at + i), indexed.objectKey);
      chunkObjectsChecked := chunkObjectsChecked + 1;
    }
    assert ids[..|ids|] == ids;
    result := Ok(bytesRead);
  }

  /** `check_repository_with_options`, operation by operation. */
  method RunCheck(r: Repo, history: nat -> Store, s: Selection, now: nat) returns (result: Result<CheckResult, Error>)
    ensures result == CheckAlong(r, history, s, now)
  {
    hide CheckCommitsAlong, CheckChunksAlong, SelectedIds, SortedIds;
    var progress := CheckAllCommits(r, history, SortedIds(CommittedIds(history(0))), 1);
    if progress.Err? {
      return Err(progress.error);
    }
    var targets := progress.value.targets;
    var chunks, checked := CheckSelected(r, history, targets, SelectedIds(s, targets),
                                         1 + progress.value.metadataObjects);
    if chunks.Err? {
      return Err(chunks.error);
    }
    return Ok(CheckResult(r.repositoryId, now, progress.value.metadataObjects, checked,
                          progress.value.bytesRead + chunks.value, s.Full?, SubsetLabel(s)));
  }
}
