/**
 Any number of clients share one store: backups, forgets and key additions,
 each a sequence of single store operations.  A run is any interleaving of
 their steps; a client that takes no further step has stopped or crashed.
 */
module Protocol {
  import opened Common
  import opened Repository
  import opened Readers
  import opened Backup
  import opened ObjectStore
  import opened Integrity
  import Retention

  /** Where `write_snapshot` is; `n` counts the chunks already handled. */
  datatype BackupPhase =
    | CheckChunk(n: nat)
    | PutChunk(n: nat)
    | PutIndex
    | PutManifest
    | PutCommit(now: nat)
    | Done(now: nat)
    | BackupFailed

  /** Where `forget` is: two listings, a plan, then one marker after the other. */
  datatype ForgetPhase =
    | ListForgotten
    | ListCommits(forgotten: set<Id>)
    | Marking(todo: seq<Id>, now: nat)
    | ForgetFailed

  datatype Client =
    | BackupClient(job: Job, backup: BackupPhase)
    | ForgetClient(forget: ForgetPhase)
    | KeyAddClient(name: string, slot: nat)

  datatype World = World(store: Store, clients: seq<Client>)

  /** What a step takes from outside: a fresh nonce and the clock. */
  datatype Input = Input(nonce: nat, now: nat)

  // ---------- Backup ----------

  function Pieces(job: Job): seq<Piece> {
    PiecesOf(job.entries)
  }

  function NextChunk(job: Job, n: nat): BackupPhase {
    if n < |Pieces(job)| then CheckChunk(n) else PutIndex
  }

  function SnapshotIdOf(r: Repo, job: Job, now: nat): Id {
    ManifestDoc(r, job, now).snapshotId
  }

  /** Continue when the put succeeded, stop with its error otherwise. */
  function After(put: PutResult<Key, Object>, next: BackupPhase): (Store, BackupPhase) {
    (put.objects, if put.status.Ok? then next else BackupFailed)
  }

  function BackupStep(r: Repo, store: Store, job: Job, phase: BackupPhase, input: Input): (Store, BackupPhase) {
    match phase
    case CheckChunk(n) =>
      if n >= |Pieces(job)| then (store, phase)
      else if PieceStored(r, store, Pieces(job)[n]) then (store, NextChunk(job, n + 1))
      else (store, PutChunk(n))
    case PutChunk(n) =>
      if n >= |Pieces(job)| then (store, phase)
      else
        var p := Pieces(job)[n];
        After(Put(store, ChunkKey(r.chunkId(p.data)), SealChunk(r, p, input.nonce)), NextChunk(job, n + 1))
    case PutIndex =>
      After(Put(store, IndexKey(IndexDoc(r, job).indexId), SealIndex(r, job, input.nonce)), PutManifest)
    case PutManifest =>
      After(Put(store, ManifestKey(SnapshotIdOf(r, job, input.now)), SealManifest(r, job, input.now, input.nonce)),
            PutCommit(input.now))
    case PutCommit(now) =>
      var id := SnapshotIdOf(r, job, now);
      After(Put(store, CommitKey(id), CommitFor(id)), Done(now))
    case _ => (store, phase)
  }

  // ---------- Forget ----------

  function SnapshotOf(m: Manifest): Retention.Snapshot {
    Retention.Snapshot(m.snapshotId, m.body.createdAt, m.body.tags)
  }

  /** The committed, unforgotten manifests can all be read. */
  ghost predicate AllReadable(r: Repo, store: Store, ids: set<Id>) {
    forall id :: id in ids ==> ReadManifest(r, store, id).Ok?
  }

  ghost function ReadSnapshots(r: Repo, store: Store, ids: set<Id>): set<Retention.Snapshot>
    requires AllReadable(r, store, ids)
  {
    set id | id in ids :: SnapshotOf(ReadManifest(r, store, id).value)
  }

  ghost function IdsOf(snapshots: set<Retention.Snapshot>): set<Id> {
    set s | s in snapshots :: s.id
  }

  /** `plan(...).forgotten()` */
  ghost function PlannedIds(policy: Retention.Policy, snapshots: set<Retention.Snapshot>): set<Id> {
    IdsOf(snapshots - Retention.Kept(policy, snapshots))
  }

  ghost function ForgetStep(r: Repo, policy: Retention.Policy, store: Store, phase: ForgetPhase, input: Input)
    : (Store, ForgetPhase)
  {
    match phase
    case ListForgotten => (store, ListCommits(ForgottenIds(store)))
    case ListCommits(forgotten) =>
      var visible := CommittedIds(store) - forgotten;
      if !AllReadable(r, store, visible) then (store, ForgetFailed)
      else
        var planned := PlannedIds(policy, ReadSnapshots(r, store, visible));
        if planned == {} then (store, ForgetFailed) else (store, Marking(SortedIds(planned), input.now))
    case Marking(todo, now) =>
      if todo == [] then (store, phase)
      else
        var put := Put(store, ForgetKey(todo[0]), MarkerFor(todo[0], now));
        (put.objects, if put.status.Ok? then Marking(todo[1..], now) else ForgetFailed)
    case ForgetFailed => (store, phase)
  }

  // ---------- Runs ----------

  ghost function Step(r: Repo, policy: Retention.Policy, w: World, c: nat, input: Input): World {
    if c >= |w.clients| then w
    else
      match w.clients[c]
      case BackupClient(job, phase) =>
        var (store, next) := BackupStep(r, w.store, job, phase, input);
        World(store, w.clients[c := BackupClient(job, next)])
      case ForgetClient(phase) =>
        var (store, next) := ForgetStep(r, policy, w.store, phase, input);
        World(store, w.clients[c := ForgetClient(next)])
      case KeyAddClient(name, slot) =>
        w.(store := Put(w.store, OtherKey(name), Opaque(slot)).objects)
  }

  datatype Event = Event(client: nat, input: Input)

  ghost function Run(r: Repo, policy: Retention.Policy, w: World, events: seq<Event>): World
    decreases |events|
  {
    if events == [] then w
    else Run(r, policy, Step(r, policy, w, events[0].client, events[0].input), events[1..])
  }

  ghost predicate IsStart(client: Client) {
    match client
    case BackupClient(job, phase) => ValidJob(job) && phase == NextChunk(job, 0)
    case ForgetClient(phase) => phase == ListForgotten
    case KeyAddClient(_, _) => true
  }

  ghost predicate Init(w: World) {
    w.store == map[] && forall c :: 0 <= c < |w.clients| ==> IsStart(w.clients[c])
  }

  // ---------- The invariant of every run ----------

  /** What a backup may rely on at each point: everything before it is stored. */
  ghost predicate BackupOk(r: Repo, store: Store, job: Job, phase: BackupPhase) {
    ValidJob(job) &&
    match phase
    case CheckChunk(n) => n < |Pieces(job)| && PiecesStored(r, store, Pieces(job), n)
    case PutChunk(n) => n < |Pieces(job)| && PiecesStored(r, store, Pieces(job), n)
    case PutIndex => PiecesStored(r, store, Pieces(job), |Pieces(job)|)
    case PutManifest => IndexKey(IndexDoc(r, job).indexId) in store
    case PutCommit(now) => ManifestKey(SnapshotIdOf(r, job, now)) in store
    case Done(now) => CommitKey(SnapshotIdOf(r, job, now)) in store
    case BackupFailed => true
  }

  ghost predicate ForgetOk(store: Store, phase: ForgetPhase) {
    phase.Marking? ==> forall i :: 0 <= i < |phase.todo| ==> CommitKey(phase.todo[i]) in store
  }

  ghost predicate ClientOk(r: Repo, store: Store, client: Client) {
    match client
    case BackupClient(job, phase) => BackupOk(r, store, job, phase)
    case ForgetClient(phase) => ForgetOk(store, phase)
    case KeyAddClient(_, _) => true
  }

  ghost predicate Inv(r: Repo, w: World) {
    StoreInv(r, w.store) && forall c :: 0 <= c < |w.clients| ==> ClientOk(r, w.store, w.clients[c])
  }

  lemma NextChunkIsOk(r: Repo, store: Store, job: Job, n: nat)
    requires ValidJob(job) && n <= |Pieces(job)| && PiecesStored(r, store, Pieces(job), n)
    ensures BackupOk(r, store, job, NextChunk(job, n))
  {
  }

  lemma BackupStepIsOk(r: Repo, store: Store, job: Job, phase: BackupPhase, input: Input)
    requires CollisionFree(r) && StoreInv(r, store) && BackupOk(r, store, job, phase)
    ensures var (later, next) := BackupStep(r, store, job, phase, input);
            StoreInv(r, later) && Grows(store, later) && BackupOk(r, later, job, next)
  {
    hide StoreInv, SealChunk, SealIndex, SealManifest, IndexDoc, ManifestDoc;
    var (later, next) := BackupStep(r, store, job, phase, input);
    match phase {
      case CheckChunk(n) =>
        if PieceStored(r, store, Pieces(job)[n]) {
          NextChunkIsOk(r, store, job, n + 1);
        }
      case PutChunk(n) =>
        var p := Pieces(job)[n];
        PutChunkKeepsInv(r, store, p, input.nonce);
        PutNeverChangesObjects(store, ChunkKey(r.chunkId(p.data)), SealChunk(r, p, input.nonce));
        if next != BackupFailed {
          NextChunkIsOk(r, later, job, n + 1);
        }
      case PutIndex =>
        PutIndexKeepsInv(r, store, job, input.nonce);
        PutNeverChangesObjects(store, IndexKey(IndexDoc(r, job).indexId), SealIndex(r, job, input.nonce));
      case PutManifest =>
        PutManifestKeepsInv(r, store, job, input.now, input.nonce);
        PutNeverChangesObjects(store, ManifestKey(SnapshotIdOf(r, job, input.now)),
                               SealManifest(r, job, input.now, input.nonce));
      case PutCommit(now) =>
        PutCommitKeepsInv(r, store, SnapshotIdOf(r, job, now));
        PutNeverChangesObjects(store, CommitKey(SnapshotIdOf(r, job, now)), CommitFor(SnapshotIdOf(r, job, now)));
      case _ =>
    }
  }

  lemma PlannedAreVisible(r: Repo, policy: Retention.Policy, store: Store, ids: set<Id>)
    requires AllReadable(r, store, ids)
    ensures PlannedIds(policy, ReadSnapshots(r, store, ids)) <= ids
  {
    forall id | id in ids { ReadManifestKeepsId(r, store, id); }
  }

  lemma ForgetStepIsOk(r: Repo, policy: Retention.Policy, store: Store, phase: ForgetPhase, input: Input)
    requires StoreInv(r, store) && ForgetOk(store, phase)
    ensures var (later, next) := ForgetStep(r, policy, store, phase, input);
            StoreInv(r, later) && Grows(store, later) && ForgetOk(later, next)
  {
    hide StoreInv, PlannedIds, ReadSnapshots;
    match phase {
      case ListCommits(forgotten) =>
        var visible := CommittedIds(store) - forgotten;
        if AllReadable(r, store, visible) {
          PlannedAreVisible(r, policy, store, visible);
          var planned := PlannedIds(policy, ReadSnapshots(r, store, visible));
          forall i | 0 <= i < |SortedIds(planned)|
            ensures CommitKey(SortedIds(planned)[i]) in store
          {
            assert SortedIds(planned)[i] in visible;
          }
        }
      case Marking(todo, now) =>
        if todo != [] {
          PutMarkerKeepsInv(r, store, todo[0], now);
          PutNeverChangesObjects(store, ForgetKey(todo[0]), MarkerFor(todo[0], now));
        }
      case _ =>
    }
  }

  lemma ClientStaysOk(r: Repo, earlier: Store, later: Store, client: Client)
    requires Grows(earlier, later) && ClientOk(r, earlier, client)
    ensures ClientOk(r, later, client)
  {
  }

  lemma StepKeepsInv(r: Repo, policy: Retention.Policy, w: World, c: nat, input: Input)
    requires CollisionFree(r) && Inv(r, w)
    ensures Inv(r, Step(r, policy, w, c, input))
    ensures Grows(w.store, Step(r, policy, w, c, input).store)
  {
    if c < |w.clients| {
      hide StoreInv, BackupStep, ForgetStep, ClientOk, CollisionFree;
      var later := Step(r, policy, w, c, input);
      StepIsOk(r, policy, w, c, input);
      forall d | 0 <= d < |later.clients|
        ensures ClientOk(r, later.store, later.clients[d])
      {
        if d != c {
          ClientStaysOk(r, w.store, later.store, w.clients[d]);
        }
      }
    }
  }

  /** The stepping client and the store stay in order. */
  lemma StepIsOk(r: Repo, policy: Retention.Policy, w: World, c: nat, input: Input)
    requires CollisionFree(r) && Inv(r, w) && c < |w.clients|
    ensures var later := Step(r, policy, w, c, input);
            && |later.clients| == |w.clients|
            && (forall d :: 0 <= d < |w.clients| && d != c ==> later.clients[d] == w.clients[d])
            && StoreInv(r, later.store) && Grows(w.store, later.store)
            && ClientOk(r, later.store, later.clients[c])
  {
    hide StoreInv, BackupStep, ForgetStep, CollisionFree;
    assert ClientOk(r, w.store, w.clients[c]);
    match w.clients[c] {
      case BackupClient(job, phase) =>
        BackupStepIsOk(r, w.store, job, phase, input);
      case ForgetClient(phase) =>
        ForgetStepIsOk(r, policy, w.store, phase, input);
      case KeyAddClient(name, slot) =>
        PutSlotKeepsInv(r, w.store, name, slot);
    }
  }

  lemma PutSlotKeepsInv(r: Repo, store: Store, name: string, slot: nat)
    requires StoreInv(r, store)
    ensures StoreInv(r, Put(store, OtherKey(name), Opaque(slot)).objects)
    ensures Grows(store, Put(store, OtherKey(name), Opaque(slot)).objects)
  {
    AddingKeepsInv(r, store, OtherKey(name), Opaque(slot));
  }

  lemma InitHasInv(r: Repo, w: World)
    requires Init(w)
    ensures Inv(r, w)
  {
    forall c | 0 <= c < |w.clients|
      ensures ClientOk(r, w.store, w.clients[c])
    {
      assert IsStart(w.clients[c]);
    }
  }

  lemma {:induction false} RunKeepsInv(r: Repo, policy: Retention.Policy, w: World, events: seq<Event>)
    requires CollisionFree(r) && Inv(r, w)
    ensures Inv(r, Run(r, policy, w, events))
    ensures Grows(w.store, Run(r, policy, w, events).store)
    decreases |events|
  {
    if events != [] {
      var c, input := events[0].client, events[0].input;
      StepKeepsInv(r, policy, w, c, input);
      RunKeepsInv(r, policy, Step(r, policy, w, c, input), events[1..]);
    }
  }

  /**
   In every reachable state of any interleaving, every commit is complete,
   and whatever happens next no object changes or disappears.
   */
  lemma {:induction false} ReachableCommitsAreComplete(r: Repo, policy: Retention.Policy, w0: World,
                                                       events: seq<Event>, more: seq<Event>)
    requires CollisionFree(r) && Init(w0)
    ensures var w := Run(r, policy, w0, events);
            && (forall id :: CommitKey(id) in w.store ==> CommitIsComplete(r, w.store, id))
            && Grows(w.store, Run(r, policy, w, more).store)
  {
    InitHasInv(r, w0);
    RunKeepsInv(r, policy, w0, events);
    var w := Run(r, policy, w0, events);
    RunKeepsInv(r, policy, w, more);
    forall id | CommitKey(id) in w.store
      ensures CommitIsComplete(r, w.store, id)
    {
      CommitsAreComplete(r, w.store, id);
    }
  }
}
