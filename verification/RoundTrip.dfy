/**
 Backup followed by restore is the identity: once a backup has returned, its
 snapshot restores, in every later state of every run, to exactly the
 directories, file bytes and symlink targets that were walked.
 */
module RoundTrip {
  import opened Common
  import opened Repository
  import opened Manifests
  import opened Readers
  import opened Backup
  import opened Chunking
  import opened ObjectStore
  import opened Integrity
  import opened Protocol
  import opened SourceManifests
  import opened SteadyReads
  import CheckMeaning
  import Retention
  import Exclusion
  import Walker
  import W = WriteSnapshot

  /** What a backup job describes, in memory. */
  function AddEntry(c: Contents, e: JobEntry): Contents {
    AddRestored(c, e.path, e.metadata, Concat(e.pieces))
  }

  function ContentsOf(entries: seq<JobEntry>): Contents {
    if entries == [] then NOTHING else AddEntry(ContentsOf(entries[..|entries| - 1]), entries[|entries| - 1])
  }

  /** The index of the body gives back every one of these pieces. */
  ghost predicate PiecesReadBack(r: Repo, store: Store, index: IndexMap, pieces: seq<Piece>) {
    forall j :: 0 <= j < |pieces| ==> RestoreChunk(r, store, index, RefOf(r, pieces[j])) == Ok(pieces[j].data)
  }

  lemma {:induction false} FileReadsBack(r: Repo, store: Store, index: IndexMap, pieces: seq<Piece>)
    requires PiecesReadBack(r, store, index, pieces)
    ensures RestoreFile(r, store, index, RefsOf(r, pieces)) == Ok(Concat(pieces))
    decreases |pieces|
  {
    if pieces != [] {
      var n := |pieces| - 1;
      FileReadsBack(r, store, index, pieces[..n]);
      assert RefsOf(r, pieces)[..n] == RefsOf(r, pieces[..n]);
    }
  }

  lemma {:induction false} EntriesReadBack(r: Repo, store: Store, index: IndexMap, entries: seq<JobEntry>)
    requires forall i :: 0 <= i < |entries| ==> PiecesReadBack(r, store, index, entries[i].pieces)
    ensures RestoreEntries(r, store, index, EntriesOf(r, entries)) == Ok(ContentsOf(entries))
    decreases |entries|
  {
    if entries != [] {
      hide RestoreFile, RestoreChunk, PiecesReadBack, RestoreEntries, RestoreEntry, AddEntry;
      var n := |entries| - 1;
      EntriesReadBack(r, store, index, entries[..n]);
      assert EntriesOf(r, entries)[..n] == EntriesOf(r, entries[..n]);
      assert EntriesOf(r, entries)[n] == EntryOf(r, entries[n]);
      LastEntryRestored(r, store, index, EntriesOf(r, entries));
      EntryReadsBack(r, store, index, ContentsOf(entries[..n]), entries[n]);
    }
  }

  lemma {:induction false} LastEntryRestored(r: Repo, store: Store, index: IndexMap, es: seq<Entry>)
    requires es != [] && RestoreEntries(r, store, index, es[..|es| - 1]).Ok?
    ensures RestoreEntries(r, store, index, es)
            == RestoreEntry(r, store, index, RestoreEntries(r, store, index, es[..|es| - 1]).value, es[|es| - 1])
  {
    hide RestoreEntry;
  }

  lemma {:induction false} EntryReadsBack(r: Repo, store: Store, index: IndexMap, c: Contents, e: JobEntry)
    requires PiecesReadBack(r, store, index, e.pieces)
    ensures RestoreEntry(r, store, index, c, EntryOf(r, e)) == Ok(AddEntry(c, e))
  {
    hide RestoreFile, RestoreChunk, PiecesReadBack;
    FileReadsBack(r, store, index, e.pieces);
  }

  /** Content ids do not collide, so the manifest under this id is the one of this job. */
  lemma StoredManifestIsOurs(r: Repo, store: Store, job: Job, now: nat)
    requires CollisionFree(r) && StoreInv(r, store) && ManifestKey(SnapshotIdOf(r, job, now)) in store
    ensures ReadManifest(r, store, SnapshotIdOf(r, job, now)) ==
            if ValidEntries(EntriesOf(r, job.entries)) then Ok(ManifestDoc(r, job, now))
            else Err(InvalidSnapshotManifest(ManifestKey(SnapshotIdOf(r, job, now))))
    ensures BodyComplete(r, store, BodyOf(r, job, now))
  {
    var key := ManifestKey(SnapshotIdOf(r, job, now));
    assert ObjectOk(r, store, key);
    assert store[key].payload.manifest.body == BodyOf(r, job, now);
  }

  lemma {:induction false} JobPieceReadsBack(r: Repo, store: Store, job: Job, now: nat, i: nat, j: nat)
    requires CollisionFree(r) && StoreInv(r, store) && BodyComplete(r, store, BodyOf(r, job, now))
    requires i < |job.entries| && j < |job.entries[i].pieces|
    ensures LoadIndexes(r, store, BodyOf(r, job, now).indexIds).Ok?
    ensures RestoreChunk(r, store, LoadIndexes(r, store, BodyOf(r, job, now).indexIds).value,
                         RefOf(r, job.entries[i].pieces[j])) == Ok(job.entries[i].pieces[j].data)
  {
    var body := BodyOf(r, job, now);
    assert body.entries[i].chunks[j] == RefOf(r, job.entries[i].pieces[j]);
    ChunkReadsBack(r, store, body, body.entries[i].chunks[j]);
  }

  lemma {:induction false} JobReadsBack(r: Repo, store: Store, job: Job, now: nat)
    requires CollisionFree(r) && StoreInv(r, store) && BodyComplete(r, store, BodyOf(r, job, now))
    ensures LoadIndexes(r, store, BodyOf(r, job, now).indexIds).Ok?
    ensures var index := LoadIndexes(r, store, BodyOf(r, job, now).indexIds).value;
            RestoreEntries(r, store, index, EntriesOf(r, job.entries)) == Ok(ContentsOf(job.entries))
  {
    hide StoreInv, RestoreChunk, CollisionFree;
    IndexLoads(r, store, BodyOf(r, job, now));
    var index := LoadIndexes(r, store, BodyOf(r, job, now).indexIds).value;
    forall i | 0 <= i < |job.entries|
      ensures PiecesReadBack(r, store, index, job.entries[i].pieces)
    {
      forall j | 0 <= j < |job.entries[i].pieces|
        ensures RestoreChunk(r, store, index, RefOf(r, job.entries[i].pieces[j])) == Ok(job.entries[i].pieces[j].data)
      {
        JobPieceReadsBack(r, store, job, now, i, j);
      }
    }
    EntriesReadBack(r, store, index, job.entries);
  }

  /** A stored snapshot of a job restores to that job, or its manifest is invalid. */
  lemma StoredJobRestores(r: Repo, store: Store, job: Job, now: nat)
    requires CollisionFree(r) && StoreInv(r, store) && ManifestKey(SnapshotIdOf(r, job, now)) in store
    ensures RestoreContents(r, store, SnapshotIdOf(r, job, now), []) ==
            if ValidEntries(EntriesOf(r, job.entries)) then Ok(ContentsOf(job.entries))
            else Err(InvalidSnapshotManifest(ManifestKey(SnapshotIdOf(r, job, now))))
  {
    hide StoreInv, ReadManifest, RestoreEntries, LoadIndexes, CollisionFree, ValidEntries, BodyComplete, Scoped;
    StoredManifestIsOurs(r, store, job, now);
    JobReadsBack(r, store, job, now);
    CheckMeaning.ScopeOfEverything(EntriesOf(r, job.entries));
  }

  ghost predicate IsDone(w: World, c: nat) {
    c < |w.clients| && w.clients[c].BackupClient? && w.clients[c].backup.Done?
  }

  function SnapshotOfClient(r: Repo, client: Client): Id
    requires client.BackupClient? && client.backup.Done?
  {
    SnapshotIdOf(r, client.job, client.backup.now)
  }

  /**
   Whatever runs before, beside and after it: a backup that is done can be
   restored in every later state, to what its job describes.
   */
  lemma {:induction false} BackupThenRestore(r: Repo, policy: Retention.Policy, w0: World, events: seq<Event>,
                                             more: seq<Event>, c: nat)
    requires CollisionFree(r) && Init(w0) && IsDone(Run(r, policy, w0, events), c)
    ensures var w := Run(r, policy, w0, events);
            var job, id := w.clients[c].job, SnapshotOfClient(r, w.clients[c]);
            RestoreContents(r, Run(r, policy, w, more).store, id, []) ==
            if ValidEntries(EntriesOf(r, job.entries)) then Ok(ContentsOf(job.entries))
            else Err(InvalidSnapshotManifest(ManifestKey(id)))
  {
    hide StoreInv, RestoreContents, ValidEntries, CollisionFree;
    var w := Run(r, policy, w0, events);
    DoneStaysCommitted(r, policy, w0, events, more, c);
    StoredJobRestores(r, Run(r, policy, w, more).store, w.clients[c].job, w.clients[c].backup.now);
  }

  lemma {:induction false} DoneStaysCommitted(r: Repo, policy: Retention.Policy, w0: World, events: seq<Event>,
                                              more: seq<Event>, c: nat)
    requires CollisionFree(r) && Init(w0) && IsDone(Run(r, policy, w0, events), c)
    ensures var w := Run(r, policy, w0, events);
            var later := Run(r, policy, w, more).store;
            StoreInv(r, later) && ManifestKey(SnapshotOfClient(r, w.clients[c])) in later
  {
    hide StoreInv, CollisionFree;
    InitHasInv(r, w0);
    RunKeepsInv(r, policy, w0, events);
    var w := Run(r, policy, w0, events);
    RunKeepsInv(r, policy, w, more);
    assert ClientOk(r, w.store, w.clients[c]);
    CommitHasManifest(r, Run(r, policy, w, more).store, SnapshotOfClient(r, w.clients[c]));
  }

  lemma CommitHasManifest(r: Repo, store: Store, id: Id)
    requires StoreInv(r, store) && CommitKey(id) in store
    ensures ManifestKey(id) in store
  {
    assert ObjectOk(r, store, CommitKey(id));
  }

  // ---------- The sequential writer ----------

  /**
   What `write_snapshot` returned from a repository in order restores, in
   that state and after any further steps of any clients, to the files that
   were read.
   */
  lemma {:induction false} WrittenSnapshotRestores(r: Repo, policy: Retention.Policy, w: World, more: seq<Event>,
                                                   job: Job, now: nat)
    requires CollisionFree(r) && Inv(r, w) && CommitKey(SnapshotIdOf(r, job, now)) in w.store
    ensures var id := SnapshotIdOf(r, job, now);
            RestoreContents(r, Run(r, policy, w, more).store, id, []) ==
            if ValidEntries(EntriesOf(r, job.entries)) then Ok(ContentsOf(job.entries))
            else Err(InvalidSnapshotManifest(ManifestKey(id)))
  {
    hide StoreInv, RestoreContents, ValidEntries, CollisionFree, SnapshotIdOf, ContentsOf, Run;
    RunKeepsInv(r, policy, w, more);
    var later := Run(r, policy, w, more).store;
    CommitHasManifest(r, later, SnapshotIdOf(r, job, now));
    StoredJobRestores(r, later, job, now);
  }

  /** One backup and one restore, on one store: the files that were read, or an error. */
  method BackUpAndRestore(store: W.SharedStore, r: Repo, env: W.Env, sources: seq<W.SourceEntry>, tags: seq<string>)
    returns (written: Result<W.WriteResult, W.WriteError>, restored: Result<Contents, Error>, ghost job: Job)
    requires CollisionFree(r) && StoreInv(r, store.objects)
    modifies store
    ensures StoreInv(r, store.objects) && Grows(old(store.objects), store.objects)
    ensures written.Ok? ==>
              && W.JobMatches(env, sources, job.entries)
              && written.value.snapshotId == SnapshotIdOf(r, job, env.now)
              && restored == RestoreContents(r, store.objects, written.value.snapshotId, [])
              && restored == if ValidEntries(EntriesOf(r, job.entries)) then Ok(ContentsOf(job.entries))
                             else Err(InvalidSnapshotManifest(ManifestKey(written.value.snapshotId)))
  {
    hide StoreInv, RestoreContents, ValidEntries, CollisionFree, ContentsOf, W.Counted, W.Publishable, W.AllStorable,
         W.JobMatches, W.StopsAtFirstFault, ManifestDoc;
    written, job := W.Write(store, r, env, sources, tags);
    if written.Err? {
      return written, Err(InvalidRestoreRequest), job;
    }
    var selected: nat;
    var objects := store.objects;
    restored, selected := RestoreSnapshot(r, (n: nat) => objects, written.value.snapshotId, []);
    RestoreOfOneState(r, (n: nat) => objects, objects, written.value.snapshotId, []);
    StoredJobRestores(r, store.objects, job, env.now);
  }

  // ---------- The source tree ----------

  /** What a listing of the tree describes: directories, files with their bytes, symlinks with their targets. */
  function AddFound(c: Contents, f: Walker.Found): Contents {
    match f.node
    case Dir(_, modified) => c.(directories := c.directories + [RestoredDirectory(ToRel(f.path), modified)])
    case File(data, modified) => c.(files := c.files + [RestoredFile(ToRel(f.path), data, modified)])
    case Link(Captured(target), _) => c.(symlinks := c.symlinks + [RestoredSymlink(ToRel(f.path), target)])
    case Link(target, _) =>
      var reason := if target.Denied? then "symlink target was denied: " + target.reason
                    else "symlink target was not captured";
      c.(warnings := c.warnings + [Warning(ToRel(f.path), "symlink_target", reason)])
    case Special(_) => c
  }

  function TreeContents(found: seq<Walker.Found>): Contents {
    if found == [] then NOTHING else AddFound(TreeContents(found[..|found| - 1]), found[|found| - 1])
  }

  /** Reading a listed file gives the bytes it has in the tree. */
  ghost predicate ReadsTree(env: W.Env, found: seq<Walker.Found>) {
    forall i :: 0 <= i < |found| && found[i].node.File? ==> env.read(ToRel(found[i].path)) == Some(found[i].node.data)
  }

  lemma EntryDescribesNode(env: W.Env, f: Walker.Found, e: JobEntry, c: Contents)
    requires W.EntryMatches(env, SourceOf(f), e) && ChunkerCovers(env)
    requires f.node.File? ==> env.read(ToRel(f.path)) == Some(f.node.data)
    ensures AddEntry(c, e) == AddFound(c, f)
  {
    if f.node.File? {
      var data := f.node.data;
      assert Covers(env.chunk(data), |data|);
      PiecesRebuildData(e.pieces, data, env.chunk(data));
    }
  }

  lemma {:induction false} JobDescribesTree(env: W.Env, found: seq<Walker.Found>, entries: seq<JobEntry>)
    requires |entries| == |found|
    requires forall i :: 0 <= i < |found| ==> W.EntryMatches(env, SourceOf(found[i]), entries[i])
    requires ReadsTree(env, found) && ChunkerCovers(env)
    ensures ContentsOf(entries) == TreeContents(found)
    decreases |found|
  {
    hide W.EntryMatches, AddEntry, AddFound, SourceOf, ChunkerCovers;
    if found != [] {
      var n := |found| - 1;
      JobDescribesTree(env, found[..n], entries[..n]);
      EntryDescribesNode(env, found[n], entries[n], TreeContents(found[..n]));
    }
  }

  /** The client has done a backup of a directory tree that did not change. */
  ghost predicate HasBackedUp(w: World, c: nat, env: W.Env, rules: seq<Exclusion.Rule>, tree: Walker.Node) {
    && IsDone(w, c)
    && Walker.WellFormed(tree) && tree.Dir? && ChunkerCovers(env)
    && var found := Walker.WalkRoot(rules, tree);
       && W.JobMatches(env, SourcesOf(found), w.clients[c].job.entries)
       && ReadsTree(env, found) && SizesFit(env, SourcesOf(found))
  }

  /** On an unchanging directory root, restore returns exactly the walked tree. */
  lemma {:induction false} RestoreReturnsTheTree(r: Repo, policy: Retention.Policy, w0: World, events: seq<Event>,
                                                 more: seq<Event>, c: nat, env: W.Env, rules: seq<Exclusion.Rule>,
                                                 tree: Walker.Node)
    requires CollisionFree(r) && Init(w0) && HasBackedUp(Run(r, policy, w0, events), c, env, rules, tree)
    ensures var w := Run(r, policy, w0, events);
            RestoreContents(r, Run(r, policy, w, more).store, SnapshotOfClient(r, w.clients[c]), [])
            == Ok(TreeContents(Walker.WalkRoot(rules, tree)))
  {
    hide CollisionFree, RestoreContents, ValidEntries, Walker.WalkRoot, SnapshotIdOf, W.EntryMatches, Run, Init;
    var found := Walker.WalkRoot(rules, tree);
    var entries := Run(r, policy, w0, events).clients[c].job.entries;
    BackupThenRestore(r, policy, w0, events, more, c);
    TreeSizesAgree(env, found);
    DirectoryManifestIsValid(r, env, rules, tree, entries);
    forall i | 0 <= i < |found|
      ensures W.EntryMatches(env, SourceOf(found[i]), entries[i])
    {
      assert W.EntryMatches(env, SourcesOf(found)[i], entries[i]);
    }
    JobDescribesTree(env, found, entries);
  }

  /** Kind, size, target and modification time of the node: sizes of files only, targets of symlinks only. */
  predicate Captures(metadata: Metadata, n: Walker.Node) {
    && metadata.modified == n.modified
    && metadata.size == (if n.File? then Some(|n.data|) else None)
    && metadata.symlinkTarget == (if n.Link? then n.target else Unsupported)
    && metadata.kind == match n
                        case File(_, _) => RegularFile
                        case Dir(_, _) => Directory
                        case Link(_, _) => Symlink
                        case Special(_) => Other
  }

  /** The manifest that is read back lists the walk, with what was captured of each node. */
  lemma {:induction false} ManifestListsTheWalk(r: Repo, policy: Retention.Policy, w0: World, events: seq<Event>,
                                                more: seq<Event>, c: nat, env: W.Env, rules: seq<Exclusion.Rule>,
                                                tree: Walker.Node)
    requires CollisionFree(r) && Init(w0) && HasBackedUp(Run(r, policy, w0, events), c, env, rules, tree)
    ensures var w, found := Run(r, policy, w0, events), Walker.WalkRoot(rules, tree);
            var m := ReadManifest(r, Run(r, policy, w, more).store, SnapshotOfClient(r, w.clients[c]));
            m.Ok? && |m.value.body.entries| == |found|
            && forall i :: 0 <= i < |found| ==> m.value.body.entries[i].path == ToRel(found[i].path)
                                                && Captures(m.value.body.entries[i].metadata, found[i].node)
  {
    hide CollisionFree, ReadManifest, ValidEntries, Walker.WalkRoot, SnapshotIdOf, W.EntryMatches, Run, Init, StoreInv,
         Captures;
    var w, found := Run(r, policy, w0, events), Walker.WalkRoot(rules, tree);
    var job := w.clients[c].job;
    DoneStaysCommitted(r, policy, w0, events, more, c);
    StoredManifestIsOurs(r, Run(r, policy, w, more).store, job, w.clients[c].backup.now);
    TreeSizesAgree(env, found);
    DirectoryManifestIsValid(r, env, rules, tree, job.entries);
    forall i | 0 <= i < |found|
      ensures EntriesOf(r, job.entries)[i].path == ToRel(found[i].path)
      ensures Captures(EntriesOf(r, job.entries)[i].metadata, found[i].node)
    {
      MatchedEntry(env, SourcesOf(found)[i], job.entries[i]);
      SourceIsCaptured(found[i]);
    }
  }

  lemma SourceIsCaptured(f: Walker.Found)
    ensures Captures(SourceOf(f).metadata, f.node)
  {
  }

  lemma TreeSizesAgree(env: W.Env, found: seq<Walker.Found>)
    requires ReadsTree(env, found)
    ensures SizesAgree(env, SourcesOf(found))
  {
  }
}
