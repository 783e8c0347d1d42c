/**
 The sequential `write_snapshot` of module WriteSnapshot and the backup client
 of module Protocol are the same: run alone, the client takes the writer's
 steps and ends where the writer ends.
 */
module WriterRuns {
  import opened Common
  import opened Repository
  import opened Backup
  import opened ObjectStore
  import opened Integrity
  import opened Protocol
  import opened PublicationRuns
  import opened WriteSnapshot
  import Retention

  /** The world in which the store is `store` and client `c` is at this phase of its backup. */
  function At(w: World, c: nat, store: Store, job: Job, phase: BackupPhase): World
    requires c < |w.clients|
  {
    World(store, w.clients[c := BackupClient(job, phase)])
  }

  lemma StepAt(r: Repo, policy: Retention.Policy, w: World, c: nat, store: Store, job: Job, phase: BackupPhase,
               input: Input)
    requires c < |w.clients|
    ensures var (after, next) := BackupStep(r, store, job, phase, input);
            Step(r, policy, At(w, c, store, job, phase), c, input) == At(w, c, after, job, next)
  {
    hide BackupStep;
  }

  lemma RunOne(r: Repo, policy: Retention.Policy, w: World, e: Event)
    ensures Run(r, policy, w, [e]) == Step(r, policy, w, e.client, e.input)
  {
    hide Step;
    assert Run(r, policy, Step(r, policy, w, e.client, e.input), [e][1..]) == Step(r, policy, w, e.client, e.input);
  }

  /** `events` followed by one more step of the client. */
  lemma OneMore(r: Repo, policy: Retention.Policy, w: World, c: nat, start: World, events: seq<Event>, store: Store,
                job: Job, phase: BackupPhase, input: Input)
    requires c < |w.clients| && Run(r, policy, start, events) == At(w, c, store, job, phase)
    ensures var (after, next) := BackupStep(r, store, job, phase, input);
            Run(r, policy, start, events + [Event(c, input)]) == At(w, c, after, job, next)
  {
    hide BackupStep, Run, Step, At;
    RunSplits(r, policy, start, events, [Event(c, input)]);
    RunOne(r, policy, At(w, c, store, job, phase), Event(c, input));
    StepAt(r, policy, w, c, store, job, phase, input);
  }

  /** A chunk takes one step when it is stored and two when it is not. */
  lemma ChunkSteps(r: Repo, store: Store, job: Job, n: nat, input: Input)
    requires n < |Pieces(job)|
    ensures var p := Pieces(job)[n];
            && BackupStep(r, store, job, CheckChunk(n), input)
               == (store, if PieceStored(r, store, p) then NextChunk(job, n + 1) else PutChunk(n))
            && (!PieceStored(r, store, p) ==>
                  BackupStep(r, store, job, PutChunk(n), input)
                  == (PutPiece(r, store, p, input.nonce), NextChunk(job, n + 1)))
            && (PieceStored(r, store, p) ==> PutPiece(r, store, p, input.nonce) == store)
  {
    hide SealChunk, Pieces, NextChunk;
  }

  /** The first `n` chunks of the job, handled one after the other. */
  lemma {:induction false} ChunksAreARun(r: Repo, policy: Retention.Policy, env: Env, w: World, c: nat, job: Job,
                                         n: nat)
    returns (events: seq<Event>)
    requires c < |w.clients| && n <= |Pieces(job)|
    ensures Run(r, policy, At(w, c, w.store, job, NextChunk(job, 0)), events)
            == At(w, c, PutPieces(r, env, w.store, Pieces(job)[..n]), job, NextChunk(job, n))
    decreases n
  {
    hide At, Step, PutPiece, BackupStep, PieceStored, NextChunk, Pieces;
    var start := At(w, c, w.store, job, NextChunk(job, 0));
    if n == 0 {
      events := [];
      assert Pieces(job)[..0] == [];
    } else {
      var m, p := n - 1, Pieces(job)[n - 1];
      events := ChunksAreARun(r, policy, env, w, c, job, m);
      assert Pieces(job)[..n] == Pieces(job)[..m] + [p];
      OneMorePut(r, env, w.store, Pieces(job)[..m], p);
      hide Run, PutPieces;
      var store, input := PutPieces(r, env, w.store, Pieces(job)[..m]), Input(env.nonce(m), env.now);
      NextIsCheck(job, m);
      ChunkSteps(r, store, job, m, input);
      OneMore(r, policy, w, c, start, events, store, job, CheckChunk(m), input);
      events := events + [Event(c, input)];
      if !PieceStored(r, store, p) {
        OneMore(r, policy, w, c, start, events, store, job, PutChunk(m), input);
        events := events + [Event(c, input)];
      }
    }
  }

  lemma NextIsCheck(job: Job, n: nat)
    ensures NextChunk(job, n) == if n < |Pieces(job)| then CheckChunk(n) else PutIndex
  {
  }

  /** How the client ends that starts to publish in this store. */
  function Ending(r: Repo, env: Env, store: Store, job: Job): BackupPhase {
    if Publishable(r, env, store, job, |Pieces(job)|) then Done(env.now) else BackupFailed
  }

  lemma PublicationSteps(r: Repo, store: Store, job: Job, input: Input)
    ensures var id := SnapshotIdOf(r, job, input.now);
            var index := Put(store, IndexKey(IndexDoc(r, job).indexId), SealIndex(r, job, input.nonce));
            var manifest := Put(store, ManifestKey(id), SealManifest(r, job, input.now, input.nonce));
            var commit := Put(store, CommitKey(id), CommitFor(id));
            && BackupStep(r, store, job, PutIndex, input)
               == (index.objects, if index.status.Ok? then PutManifest else BackupFailed)
            && BackupStep(r, store, job, PutManifest, input)
               == (manifest.objects, if manifest.status.Ok? then PutCommit(input.now) else BackupFailed)
            && BackupStep(r, store, job, PutCommit(input.now), input)
               == (commit.objects, if commit.status.Ok? then Done(input.now) else BackupFailed)
  {
    hide SealIndex, SealManifest, IndexDoc, ManifestDoc, Put, CommitFor;
  }

  /** Index, manifest and commit marker, until one of them is refused. */
  lemma PublicationIsARun(r: Repo, policy: Retention.Policy, env: Env, w: World, c: nat, start: World,
                          before: seq<Event>, store: Store, job: Job)
    returns (events: seq<Event>)
    requires c < |w.clients| && Run(r, policy, start, before) == At(w, c, store, job, PutIndex)
    ensures Run(r, policy, start, events)
            == At(w, c, PutPublication(r, env, store, job, |Pieces(job)|), job, Ending(r, env, store, job))
  {
    hide At, Run, BackupStep, SealIndex, SealManifest, IndexDoc, ManifestDoc, Put, CommitFor, Publishable;
    var n, id := |Pieces(job)|, SnapshotIdOf(r, job, env.now);
    var first, second := Input(env.nonce(n), env.now), Input(env.nonce(n + 1), env.now);
    PublicationPuts(r, env, store, job, n);
    PublicationSteps(r, store, job, first);
    OneMore(r, policy, w, c, start, before, store, job, PutIndex, first);
    events := before + [Event(c, first)];
    var index := Put(store, IndexKey(IndexDoc(r, job).indexId), SealIndex(r, job, env.nonce(n)));
    if index.status.Ok? {
      PublicationSteps(r, index.objects, job, second);
      OneMore(r, policy, w, c, start, events, index.objects, job, PutManifest, second);
      events := events + [Event(c, second)];
      var manifest := Put(index.objects, ManifestKey(id), SealManifest(r, job, env.now, env.nonce(n + 1)));
      if manifest.status.Ok? {
        PublicationSteps(r, manifest.objects, job, second);
        OneMore(r, policy, w, c, start, events, manifest.objects, job, PutCommit(env.now), second);
        events := events + [Event(c, second)];
      }
    }
  }

  lemma {:induction false} PiecesOnlyAddChunks(r: Repo, env: Env, store: Store, pieces: seq<Piece>)
    ensures OnlyChunksAdded(store, PutPieces(r, env, store, pieces))
    decreases |pieces|
  {
    hide SealChunk;
    if pieces != [] {
      PiecesOnlyAddChunks(r, env, store, pieces[..|pieces| - 1]);
    }
  }

  /** A whole backup, alone from its start to its end, in any world. */
  lemma WholeBackupIsARun(r: Repo, policy: Retention.Policy, env: Env, w: World, c: nat, job: Job)
    returns (events: seq<Event>)
    requires c < |w.clients|
    ensures var handled := PutPieces(r, env, w.store, Pieces(job));
            Run(r, policy, At(w, c, w.store, job, NextChunk(job, 0)), events)
            == At(w, c, PutPublication(r, env, handled, job, |Pieces(job)|), job, Ending(r, env, w.store, job))
  {
    hide At, Run, PutPieces, PutPublication, Publishable, OnlyChunksAdded;
    var n := |Pieces(job)|;
    var chunks := ChunksAreARun(r, policy, env, w, c, job, n);
    assert Pieces(job)[..n] == Pieces(job);
    NextIsCheck(job, n);
    var handled := PutPieces(r, env, w.store, Pieces(job));
    events := PublicationIsARun(r, policy, env, w, c, At(w, c, w.store, job, NextChunk(job, 0)), chunks, handled, job);
    PiecesOnlyAddChunks(r, env, w.store, Pieces(job));
    StillPublishable(r, env, w.store, handled, job, n);
  }

  lemma ReadJobIsValid(job: Job)
    requires AreRead(job.entries)
    ensures ValidJob(job)
  {
  }

  /**
   `write_snapshot` alone, in any world: a new backup client for what the
   writer handled starts, takes some steps while all others pause, leaves the
   same store, and is done exactly when the writer succeeds.
   */
  method WriteAsClient(store: SharedStore, r: Repo, env: Env, sources: seq<SourceEntry>, tags: seq<string>,
                       ghost policy: Retention.Policy, ghost w: World)
    returns (result: Result<WriteResult, WriteError>, ghost client: Client, ghost events: seq<Event>)
    requires store.objects == w.store
    modifies store
    ensures client.BackupClient? && IsStart(client)
    ensures var c, w0 := |w.clients|, World(w.store, w.clients + [client]);
            var end := Run(r, policy, w0, events);
            && end.store == store.objects && |end.clients| == c + 1 && end.clients[..c] == w.clients
            && end.clients[c].BackupClient? && end.clients[c].job == client.job
            && (result.Ok? <==> end.clients[c].backup == Done(env.now))
            && (result.Ok? ==> result.value.snapshotId == SnapshotIdOf(r, client.job, env.now))
    ensures result.Ok? ==> Published(r, env, sources, tags, old(store.objects), store.objects, result.value)
  {
    hide Run, PutPieces, PutPublication, Publishable, AllStorable, JobMatches, Counted, Conserves, StopsAtFirstFault,
         AreRead, ManifestDoc, IndexDoc, StoreInv, CollisionFree, ValidJob, Published;
    ghost var job;
    result, job := Write(store, r, env, sources, tags);
    ReadJobIsValid(job);
    client := BackupClient(job, NextChunk(job, 0));
    ghost var c, w0 := |w.clients|, World(w.store, w.clients + [client]);
    assert At(w0, c, w0.store, job, NextChunk(job, 0)) == w0;
    if AllStorable(env, sources) {
      events := WholeBackupIsARun(r, policy, env, w0, c, job);
    } else {
      events := ChunksAreARun(r, policy, env, w0, c, job, |Pieces(job)|);
      assert Pieces(job)[..|Pieces(job)|] == Pieces(job);
      NextIsCheck(job, |Pieces(job)|);
    }
  }
}
