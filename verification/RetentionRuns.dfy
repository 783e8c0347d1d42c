/**
 Retention over whole runs (`forget` in crates/fileferry-cli/src/lib.rs on
 top of `plan` and the two listings of crates/fileferry-core/src/lib.rs).

 Under one fixed policy, forgets interleave with backups and with each other,
 plan on listings that are out of date by the time they write, and stop
 half-way.  Still nothing that the policy keeps among all snapshots ever
 committed is marked, and what it keeps can be computed from the visible
 snapshots alone.
 */
module RetentionRuns {
  import opened Common
  import opened Repository
  import opened Readers
  import opened Backup
  import opened ObjectStore
  import opened Integrity
  import opened Protocol
  import opened Retention

  ghost predicate HasManifest(store: Store, id: Id) {
    ManifestKey(id) in store && store[ManifestKey(id)].Sealed? && store[ManifestKey(id)].payload.ManifestPayload?
  }

  ghost function SnapshotAt(store: Store, id: Id): Snapshot
    requires HasManifest(store, id)
  {
    SnapshotOf(store[ManifestKey(id)].payload.manifest)
  }

  ghost function SnapshotsAt(store: Store, ids: set<Id>): set<Snapshot> {
    set id | id in ids && HasManifest(store, id) :: SnapshotAt(store, id)
  }

  /** Every snapshot committed so far, forgotten or not. */
  ghost function AllSnapshots(store: Store): set<Snapshot> {
    SnapshotsAt(store, CommittedIds(store))
  }

  ghost function VisibleSnapshots(store: Store): set<Snapshot> {
    SnapshotsAt(store, CommittedIds(store) - ForgottenIds(store))
  }

  ghost function KeptIds(policy: Policy, store: Store): set<Id> {
    IdsOf(Kept(policy, AllSnapshots(store)))
  }

  lemma CommittedHaveManifests(r: Repo, store: Store, id: Id)
    requires StoreInv(r, store) && id in CommittedIds(store)
    ensures HasManifest(store, id) && SnapshotAt(store, id).id == id
  {
    assert ObjectOk(r, store, CommitKey(id));
    assert ObjectOk(r, store, ManifestKey(id));
  }

  lemma ForgottenAreCommitted(r: Repo, store: Store)
    requires StoreInv(r, store)
    ensures ForgottenIds(store) <= CommittedIds(store)
  {
    forall id | id in ForgottenIds(store)
      ensures id in CommittedIds(store)
    {
      assert ObjectOk(r, store, ForgetKey(id));
    }
  }

  lemma SnapshotIdsAreDistinct(r: Repo, store: Store, ids: set<Id>)
    requires StoreInv(r, store) && ids <= CommittedIds(store)
    ensures DistinctIds(SnapshotsAt(store, ids))
    ensures forall s :: s in SnapshotsAt(store, ids) <==>
              s.id in ids && HasManifest(store, s.id) && s == SnapshotAt(store, s.id)
  {
    forall id | id in ids { CommittedHaveManifests(r, store, id); }
  }

  /** What a reader gets for committed ids is what the store holds for them. */
  lemma ReadersSeeTheSnapshots(r: Repo, store: Store, ids: set<Id>)
    requires StoreInv(r, store) && ids <= CommittedIds(store) && AllReadable(r, store, ids)
    ensures ReadSnapshots(r, store, ids) == SnapshotsAt(store, ids)
  {
    forall id | id in ids
      ensures HasManifest(store, id) && SnapshotOf(ReadManifest(r, store, id).value) == SnapshotAt(store, id)
    {
      CommittedHaveManifests(r, store, id);
    }
  }

  // ---------- The invariant ----------

  ghost predicate ForgetPlanOk(policy: Policy, store: Store, phase: ForgetPhase) {
    match phase
    case ListCommits(forgotten) => forgotten <= ForgottenIds(store)
    case Marking(todo, _) => forall i :: 0 <= i < |todo| ==> todo[i] !in KeptIds(policy, store)
    case _ => true
  }

  ghost predicate PlanOk(policy: Policy, store: Store, client: Client) {
    client.ForgetClient? ==> ForgetPlanOk(policy, store, client.forget)
  }

  ghost predicate RetentionInv(r: Repo, policy: Policy, w: World) {
    && Inv(r, w)
    && KeptIds(policy, w.store) !! ForgottenIds(w.store)
    && forall c :: 0 <= c < |w.clients| ==> PlanOk(policy, w.store, w.clients[c])
  }

  /** While the store grows, an old snapshot is kept only if it was kept before. */
  lemma KeptIdsShrink(r: Repo, policy: Policy, earlier: Store, later: Store)
    requires StoreInv(r, earlier) && StoreInv(r, later) && Grows(earlier, later)
    ensures KeptIds(policy, later) * CommittedIds(earlier) <= KeptIds(policy, earlier)
  {
    var before, after := AllSnapshots(earlier), AllSnapshots(later);
    SnapshotIdsAreDistinct(r, earlier, CommittedIds(earlier));
    SnapshotIdsAreDistinct(r, later, CommittedIds(later));
    forall id | id in CommittedIds(earlier)
      ensures HasManifest(earlier, id) && HasManifest(later, id) && SnapshotAt(later, id) == SnapshotAt(earlier, id)
    {
      CommittedHaveManifests(r, earlier, id);
    }
    assert before <= after;
    KeptIsInherited(policy, after, before);
    forall id | id in KeptIds(policy, later) * CommittedIds(earlier)
      ensures id in KeptIds(policy, earlier)
    {
      var s :| s in Kept(policy, after) && s.id == id;
      assert s in before;
    }
  }

  /** Marks set earlier stay outside the kept set. */
  lemma GrowthKeepsMarksApart(r: Repo, policy: Policy, earlier: Store, later: Store, marks: set<Id>)
    requires StoreInv(r, earlier) && StoreInv(r, later) && Grows(earlier, later)
    requires marks <= CommittedIds(earlier) && KeptIds(policy, earlier) !! marks
    ensures KeptIds(policy, later) !! marks
  {
    KeptIdsShrink(r, policy, earlier, later);
  }

  lemma PlanStaysOk(r: Repo, policy: Policy, earlier: Store, later: Store, client: Client)
    requires StoreInv(r, earlier) && StoreInv(r, later) && Grows(earlier, later)
    requires ClientOk(r, earlier, client) && PlanOk(policy, earlier, client)
    ensures PlanOk(policy, later, client)
  {
    if client.ForgetClient? && client.forget.Marking? {
      var todo := client.forget.todo;
      KeptIdsShrink(r, policy, earlier, later);
      forall i | 0 <= i < |todo|
        ensures todo[i] !in KeptIds(policy, later)
      {
        assert todo[i] in CommittedIds(earlier);
      }
    }
  }

  /** Forgotten snapshots are outside the kept set, so the plan keeps the same ones without them. */
  lemma KeptWithoutForgotten(r: Repo, policy: Policy, store: Store, forgotten: set<Id>)
    requires StoreInv(r, store) && KeptIds(policy, store) !! forgotten
    ensures Kept(policy, SnapshotsAt(store, CommittedIds(store) - forgotten)) == Kept(policy, AllSnapshots(store))
  {
    var all, some := AllSnapshots(store), SnapshotsAt(store, CommittedIds(store) - forgotten);
    SnapshotIdsAreDistinct(r, store, CommittedIds(store));
    SnapshotIdsAreDistinct(r, store, CommittedIds(store) - forgotten);
    forall s | s in Kept(policy, all)
      ensures s in some
    {
      assert s.id in KeptIds(policy, store);
    }
    ForgettingKeepsKept(policy, all, some);
  }

  lemma PlanIsSafe(r: Repo, policy: Policy, store: Store, forgotten: set<Id>)
    requires StoreInv(r, store) && KeptIds(policy, store) !! forgotten
    requires AllReadable(r, store, CommittedIds(store) - forgotten)
    ensures PlannedIds(policy, ReadSnapshots(r, store, CommittedIds(store) - forgotten)) !! KeptIds(policy, store)
  {
    var visible := CommittedIds(store) - forgotten;
    var some := SnapshotsAt(store, visible);
    ReadersSeeTheSnapshots(r, store, visible);
    KeptWithoutForgotten(r, policy, store, forgotten);
    SnapshotIdsAreDistinct(r, store, CommittedIds(store));
    forall id | id in PlannedIds(policy, some)
      ensures id !in KeptIds(policy, store)
    {
      var s :| s in some - Kept(policy, some) && s.id == id;
      assert s in AllSnapshots(store);
    }
  }

  lemma ForgetStepKeepsPlan(r: Repo, policy: Policy, store: Store, phase: ForgetPhase, input: Input)
    requires StoreInv(r, store) && KeptIds(policy, store) !! ForgottenIds(store)
    requires ForgetOk(store, phase) && ForgetPlanOk(policy, store, phase)
    ensures var (later, next) := ForgetStep(r, policy, store, phase, input);
            KeptIds(policy, later) !! ForgottenIds(later) && ForgetPlanOk(policy, later, next)
  {
    hide StoreInv, PlannedIds, ReadSnapshots, KeptIds;
    var (later, next) := ForgetStep(r, policy, store, phase, input);
    match phase {
      case ListCommits(forgotten) =>
        if AllReadable(r, store, CommittedIds(store) - forgotten) {
          PlanIsSafe(r, policy, store, forgotten);
          var planned := PlannedIds(policy, ReadSnapshots(r, store, CommittedIds(store) - forgotten));
          assert forall i :: 0 <= i < |SortedIds(planned)| ==> SortedIds(planned)[i] in planned;
        }
      case Marking(todo, now) =>
        if todo != [] {
          ForgetStepIsOk(r, policy, store, phase, input);
          MarkOne(r, policy, store, later, todo, now);
        }
      case _ =>
    }
  }

  lemma MarkOne(r: Repo, policy: Policy, store: Store, later: Store, todo: seq<Id>, now: nat)
    requires StoreInv(r, store) && StoreInv(r, later) && KeptIds(policy, store) !! ForgottenIds(store)
    requires todo != [] && later == Put(store, ForgetKey(todo[0]), MarkerFor(todo[0], now)).objects
    requires forall i :: 0 <= i < |todo| ==> CommitKey(todo[i]) in store && todo[i] !in KeptIds(policy, store)
    ensures KeptIds(policy, later) !! ForgottenIds(later)
    ensures forall i :: 0 <= i < |todo| ==> todo[i] !in KeptIds(policy, later)
  {
    PutNeverChangesObjects(store, ForgetKey(todo[0]), MarkerFor(todo[0], now));
    ForgottenAreCommitted(r, store);
    KeptIdsShrink(r, policy, store, later);
    assert ForgottenIds(later) == ForgottenIds(store) + {todo[0]};
    assert forall i :: 0 <= i < |todo| ==> todo[i] in CommittedIds(store);
  }

  lemma OtherStepsKeepMarks(r: Repo, policy: Policy, w: World, c: nat, input: Input)
    requires CollisionFree(r) && RetentionInv(r, policy, w) && c < |w.clients| && !w.clients[c].ForgetClient?
    ensures var later := Step(r, policy, w, c, input).store;
            KeptIds(policy, later) !! ForgottenIds(later)
  {
    hide StoreInv, KeptIds, PlanOk, Step, ForgottenIds;
    StepIsOk(r, policy, w, c, input);
    var later := Step(r, policy, w, c, input).store;
    ForgottenAreCommitted(r, w.store);
    GrowthKeepsMarksApart(r, policy, w.store, later, ForgottenIds(w.store));
    OthersAddNoMarks(r, policy, w, c, input);
  }

  lemma OthersAddNoMarks(r: Repo, policy: Policy, w: World, c: nat, input: Input)
    requires c < |w.clients| && !w.clients[c].ForgetClient?
    ensures ForgottenIds(Step(r, policy, w, c, input).store) == ForgottenIds(w.store)
  {
    hide ForgottenIds, SealChunk, SealIndex, SealManifest, IndexDoc, ManifestDoc, Put;
    match w.clients[c] {
      case BackupClient(job, phase) =>
        BackupAddsNoMarks(r, w.store, job, phase, input);
      case KeyAddClient(name, slot) =>
        PutAddsNoMarks(w.store, OtherKey(name), Opaque(slot));
    }
  }

  lemma BackupAddsNoMarks(r: Repo, store: Store, job: Job, phase: BackupPhase, input: Input)
    ensures ForgottenIds(BackupStep(r, store, job, phase, input).0) == ForgottenIds(store)
  {
    hide ForgottenIds, SealChunk, SealIndex, SealManifest, IndexDoc, ManifestDoc, Put;
    match phase {
      case PutChunk(n) =>
        if n < |Pieces(job)| {
          var p := Pieces(job)[n];
          PutAddsNoMarks(store, ChunkKey(r.chunkId(p.data)), SealChunk(r, p, input.nonce));
        }
      case PutIndex =>
        PutAddsNoMarks(store, IndexKey(IndexDoc(r, job).indexId), SealIndex(r, job, input.nonce));
      case PutManifest =>
        PutAddsNoMarks(store, ManifestKey(SnapshotIdOf(r, job, input.now)),
                       SealManifest(r, job, input.now, input.nonce));
      case PutCommit(now) =>
        var id := SnapshotIdOf(r, job, now);
        PutAddsNoMarks(store, CommitKey(id), CommitFor(id));
      case _ =>
    }
  }

  lemma PutAddsNoMarks(store: Store, key: Key, o: Object)
    requires !key.ForgetKey?
    ensures ForgottenIds(Put(store, key, o).objects) == ForgottenIds(store)
  {
  }

  lemma StepKeepsRetention(r: Repo, policy: Policy, w: World, c: nat, input: Input)
    requires CollisionFree(r) && RetentionInv(r, policy, w)
    ensures RetentionInv(r, policy, Step(r, policy, w, c, input))
  {
    StepKeepsInv(r, policy, w, c, input);
    if c < |w.clients| {
      hide StoreInv, KeptIds, ForgetStep, BackupStep, ClientOk, CollisionFree;
      StepIsOk(r, policy, w, c, input);
      var later := Step(r, policy, w, c, input);
      assert PlanOk(policy, w.store, w.clients[c]) && ClientOk(r, w.store, w.clients[c]);
      if w.clients[c].ForgetClient? {
        ForgetClientKeepsPlan(r, policy, w, c, input);
      } else {
        OtherStepsKeepMarks(r, policy, w, c, input);
      }
      forall d | 0 <= d < |later.clients|
        ensures PlanOk(policy, later.store, later.clients[d])
      {
        if d != c {
          PlanStaysOk(r, policy, w.store, later.store, w.clients[d]);
        }
      }
    }
  }

  lemma ForgetClientKeepsPlan(r: Repo, policy: Policy, w: World, c: nat, input: Input)
    requires RetentionInv(r, policy, w) && c < |w.clients| && w.clients[c].ForgetClient?
    ensures var later := Step(r, policy, w, c, input);
            && KeptIds(policy, later.store) !! ForgottenIds(later.store)
            && |later.clients| == |w.clients| && PlanOk(policy, later.store, later.clients[c])
  {
    hide StoreInv, KeptIds, ForgetStep;
    assert PlanOk(policy, w.store, w.clients[c]) && ClientOk(r, w.store, w.clients[c]);
    ForgetStepKeepsPlan(r, policy, w.store, w.clients[c].forget, input);
  }

  lemma InitHasRetention(r: Repo, policy: Policy, w0: World)
    requires Init(w0)
    ensures RetentionInv(r, policy, w0)
  {
    InitHasInv(r, w0);
    forall c | 0 <= c < |w0.clients|
      ensures PlanOk(policy, w0.store, w0.clients[c])
    {
      assert IsStart(w0.clients[c]);
    }
  }

  lemma {:induction false} RunKeepsRetention(r: Repo, policy: Policy, w: World, events: seq<Event>)
    requires CollisionFree(r) && RetentionInv(r, policy, w)
    ensures RetentionInv(r, policy, Run(r, policy, w, events))
    decreases |events|
  {
    if events != [] {
      hide RetentionInv, Step, CollisionFree;
      StepKeepsRetention(r, policy, w, events[0].client, events[0].input);
      RunKeepsRetention(r, policy, Step(r, policy, w, events[0].client, events[0].input), events[1..]);
    }
  }

  /**
   After any run, no snapshot kept among all commits ever is marked, and the
   policy keeps the same snapshots whether or not it sees the forgotten ones.
   */
  lemma {:induction false} RetentionIsSafe(r: Repo, policy: Policy, w0: World, events: seq<Event>)
    requires CollisionFree(r) && Init(w0)
    ensures var store := Run(r, policy, w0, events).store;
            && KeptIds(policy, store) !! ForgottenIds(store)
            && Kept(policy, VisibleSnapshots(store)) == Kept(policy, AllSnapshots(store))
  {
    InitHasRetention(r, policy, w0);
    RunKeepsRetention(r, policy, w0, events);
    var store := Run(r, policy, w0, events).store;
    KeptWithoutForgotten(r, policy, store, ForgottenIds(store));
  }
}
