/**
 Readers beside running clients: which steps of
 crates/fileferry-core/src/lib.rs publish something, and that the states of a
 run are a history in the sense of module Visibility.
 */
module PublicationRuns {
  import opened Repository
  import opened Readers
  import opened Backup
  import opened ObjectStore
  import opened Integrity
  import opened Protocol
  import opened Visibility
  import Retention

  /** The next step of this client writes a commit marker or a forget marker. */
  predicate Publishes(client: Client) {
    match client
    case BackupClient(_, phase) => phase.PutCommit?
    case ForgetClient(phase) => phase.Marking?
    case KeyAddClient(_, _) => false
  }

  predicate IsMarker(key: Key) {
    key.CommitKey? || key.ForgetKey?
  }

  lemma OtherPutsPublishNothing(store: Store, key: Key, bytes: Object)
    requires !IsMarker(key)
    ensures CommittedIds(Put(store, key, bytes).objects) == CommittedIds(store)
    ensures ForgottenIds(Put(store, key, bytes).objects) == ForgottenIds(store)
  {
    var after := Put(store, key, bytes).objects;
    assert forall k :: IsMarker(k) ==> (k in after <==> k in store);
  }

  lemma QuietStepPublishesNothing(r: Repo, policy: Retention.Policy, w: World, c: nat, input: Input)
    requires c < |w.clients| && !Publishes(w.clients[c])
    ensures CommittedIds(Step(r, policy, w, c, input).store) == CommittedIds(w.store)
    ensures ForgottenIds(Step(r, policy, w, c, input).store) == ForgottenIds(w.store)
  {
    hide CommittedIds, ForgottenIds, SealChunk, SealIndex, SealManifest, IndexDoc, ManifestDoc, Put, PlannedIds;
    match w.clients[c] {
      case BackupClient(job, phase) =>
        match phase {
          case PutChunk(n) =>
            if n < |Pieces(job)| {
              var p := Pieces(job)[n];
              OtherPutsPublishNothing(w.store, ChunkKey(r.chunkId(p.data)), SealChunk(r, p, input.nonce));
            }
          case PutIndex =>
            OtherPutsPublishNothing(w.store, IndexKey(IndexDoc(r, job).indexId), SealIndex(r, job, input.nonce));
          case PutManifest =>
            OtherPutsPublishNothing(w.store, ManifestKey(SnapshotIdOf(r, job, input.now)),
                                    SealManifest(r, job, input.now, input.nonce));
          case _ =>
        }
      case ForgetClient(phase) =>
      case KeyAddClient(name, slot) =>
        OtherPutsPublishNothing(w.store, OtherKey(name), Opaque(slot));
    }
  }

  /** A step that does not publish leaves every reader's result as it is. */
  lemma QuietStepIsInvisible(r: Repo, policy: Retention.Policy, w: World, c: nat, input: Input)
    requires CollisionFree(r) && Inv(r, w) && (c < |w.clients| ==> !Publishes(w.clients[c]))
    ensures ReadCommitted(r, Step(r, policy, w, c, input).store) == ReadCommitted(r, w.store)
  {
    hide CollisionFree, ReadCommitted, StoreInv;
    if c < |w.clients| {
      StepKeepsInv(r, policy, w, c, input);
      QuietStepPublishesNothing(r, policy, w, c, input);
      hide Step;
      UncommittedStepsAreInvisible(r, w.store, Step(r, policy, w, c, input).store);
    }
  }

  /** A key addition stores its slot under a free key, and every reader's result stays as it is. */
  lemma KeyAdditionIsInvisible(r: Repo, policy: Retention.Policy, w: World, c: nat, input: Input, name: string,
                               slot: nat)
    requires CollisionFree(r) && Inv(r, w) && c < |w.clients| && w.clients[c] == KeyAddClient(name, slot)
    ensures var later := Step(r, policy, w, c, input);
            && later.clients == w.clients
            && later.store == (if OtherKey(name) in w.store then w.store else w.store[OtherKey(name) := Opaque(slot)])
            && ReadCommitted(r, later.store) == ReadCommitted(r, w.store)
  {
    hide CollisionFree, ReadCommitted, StoreInv, ClientOk;
    QuietStepIsInvisible(r, policy, w, c, input);
  }

  /** No step of this run publishes. */
  ghost predicate QuietRun(r: Repo, policy: Retention.Policy, w: World, events: seq<Event>)
    decreases |events|
  {
    events == [] ||
    ((events[0].client < |w.clients| ==> !Publishes(w.clients[events[0].client]))
     && QuietRun(r, policy, Step(r, policy, w, events[0].client, events[0].input), events[1..]))
  }

  /** Whatever is prepared in between, readers see the same until something is published. */
  lemma {:induction false} UnpublishedRunsAreInvisible(r: Repo, policy: Retention.Policy, w: World, events: seq<Event>)
    requires CollisionFree(r) && Inv(r, w) && QuietRun(r, policy, w, events)
    ensures ReadCommitted(r, Run(r, policy, w, events).store) == ReadCommitted(r, w.store)
    decreases |events|
  {
    hide CollisionFree, ReadCommitted, Inv, Step, Publishes;
    if events != [] {
      var c, input := events[0].client, events[0].input;
      QuietStepIsInvisible(r, policy, w, c, input);
      StepKeepsInv(r, policy, w, c, input);
      UnpublishedRunsAreInvisible(r, policy, Step(r, policy, w, c, input), events[1..]);
    }
  }

  // ---------- The states of a run are a history ----------

  lemma {:induction false} RunSplits(r: Repo, policy: Retention.Policy, w: World, a: seq<Event>, b: seq<Event>)
    ensures Run(r, policy, w, a + b) == Run(r, policy, Run(r, policy, w, a), b)
    decreases |a|
  {
    hide Step;
    if a == [] {
      assert a + b == b;
    } else {
      assert (a + b)[0] == a[0] && (a + b)[1..] == a[1..] + b;
      RunSplits(r, policy, Step(r, policy, w, a[0].client, a[0].input), a[1..], b);
    }
  }

  /** The store after the first `n` events, or after all of them. */
  ghost function StoreAfter(r: Repo, policy: Retention.Policy, w: World, events: seq<Event>, n: nat): Store {
    Run(r, policy, w, events[..if n <= |events| then n else |events|]).store
  }

  lemma StoresGrow(r: Repo, policy: Retention.Policy, w0: World, events: seq<Event>, m: nat, n: nat)
    requires CollisionFree(r) && Init(w0) && m <= n
    ensures StoreInv(r, StoreAfter(r, policy, w0, events, m))
    ensures Grows(StoreAfter(r, policy, w0, events, m), StoreAfter(r, policy, w0, events, n))
  {
    hide CollisionFree, StoreInv, Grows, Init, Run;
    var a := if m <= |events| then m else |events|;
    var b := if n <= |events| then n else |events|;
    InitHasInv(r, w0);
    RunKeepsInv(r, policy, w0, events[..a]);
    var w := Run(r, policy, w0, events[..a]);
    RunKeepsInv(r, policy, w, events[a..b]);
    RunSplits(r, policy, w0, events[..a], events[a..b]);
    assert events[..a] + events[a..b] == events[..b];
  }

  /** However its operations fall between the steps of a run, a reader meets a history. */
  lemma RunGivesHistory(r: Repo, policy: Retention.Policy, w0: World, events: seq<Event>,
                        cuts: nat -> nat, history: nat -> Store)
    requires CollisionFree(r) && Init(w0)
    requires forall m: nat, n: nat :: m <= n ==> cuts(m) <= cuts(n)
    requires forall n: nat :: history(n) == StoreAfter(r, policy, w0, events, cuts(n))
    ensures IsHistory(r, history)
  {
    hide CollisionFree, StoreInv, Grows, Init, StoreAfter;
    forall n: nat
      ensures StoreInv(r, history(n))
    {
      StoresGrow(r, policy, w0, events, cuts(n), cuts(n));
    }
    forall m: nat, n: nat | m <= n
      ensures Grows(history(m), history(n))
    {
      StoresGrow(r, policy, w0, events, cuts(m), cuts(n));
    }
  }

  /** The reader's promise, however its operations fall between the steps of a run. */
  lemma ReaderBesideRun(r: Repo, policy: Retention.Policy, w0: World, events: seq<Event>,
                        cuts: nat -> nat, history: nat -> Store)
    requires CollisionFree(r) && Init(w0)
    requires forall m: nat, n: nat :: m <= n ==> cuts(m) <= cuts(n)
    requires forall n: nat :: history(n) == StoreAfter(r, policy, w0, events, cuts(n))
    ensures var result, last := CommittedAlong(r, history), history(EndsAt(history));
            && (result.Ok? ==> SeesPublicationAtomically(r, history(0), last, result.value))
            && (result.Err? ==> exists id :: id in CommittedIds(last) && ReadManifest(r, last, id).Err?)
  {
    RunGivesHistory(r, policy, w0, events, cuts, history);
    ReadersSeePublicationAtomically(r, history);
  }
}
