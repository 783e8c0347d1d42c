/**
 A forget that nobody disturbs (`forget` in crates/fileferry-cli/src/lib.rs):
 it reads, plans and marks, and afterwards readers see the snapshots that the
 policy keeps and no others.  The forget client of module Protocol, run alone,
 does the same.
 */
module ForgetRuns {
  import opened Common
  import opened Repository
  import opened Readers
  import opened ObjectStore
  import opened Integrity
  import opened Protocol
  import opened Visibility
  import opened ForgetPlan
  import opened ForgetMarkers
  import opened RetentionPlan
  import Retention

  // ---------- What readers see afterwards ----------

  /** In a repository in order, a reader sees exactly the committed, unforgotten snapshots. */
  lemma {:induction false} ReadCommittedMeaning(r: Repo, store: Store)
    requires StoreInv(r, store)
    ensures var visible, read := CommittedIds(store) - ForgottenIds(store), ReadCommitted(r, store);
            && read == ReadCommittedFrom(r, store, ForgottenIds(store), CommittedIds(store))
            && (read.Ok? <==> forall id :: id in visible ==> ReadManifest(r, store, id).Ok?)
            && (read.Ok? ==> forall m :: m in read.value <==>
                  m.snapshotId in visible && ReadManifest(r, store, m.snapshotId) == Ok(m))
  {
    hide StoreInv, ReadManifest, ReadVisible, SortManifests, SortedIds, CommittedIds, ForgottenIds, ReadMarkers;
    AllMarkersInOrder(r, store);
    var ids := SortedIds(CommittedIds(store));
    forall i | 0 <= i < |ids|
      ensures CommitKey(ids[i]) in store
    {
      assert ids[i] in ids;
      CommittedIsStored(store, ids[i]);
    }
    ReadVisibleMeaning(r, store, ForgottenIds(store), ids);
    forall id | id in CommittedIds(store) - ForgottenIds(store)
      ensures id in ids
    {
    }
  }

  lemma MarkingKeepsInv(r: Repo, before: Store, after: Store, ids: set<Id>, now: nat)
    requires StoreInv(r, before) && OnlyMarked(before, after, ids, now) && ids <= CommittedIds(before)
    ensures StoreInv(r, after) && Grows(before, after)
    ensures CommittedIds(after) == CommittedIds(before) && ForgottenIds(after) == ForgottenIds(before) + ids
  {
    forall k | k in after
      ensures ObjectOk(r, after, k)
    {
      if k in before {
        ObjectStaysOk(r, before, after, k);
      } else {
        assert Marked(after, k.id, now) && CommitKey(k.id) in before;
      }
    }
    assert forall id :: ForgetKey(id) in after <==> ForgetKey(id) in before || id in ids;
    assert forall id :: CommitKey(id) in after <==> CommitKey(id) in before;
  }

  /** Readers no longer see the snapshots that were marked, and see all others as before. */
  lemma {:induction false} MarkedAreHidden(r: Repo, before: Store, after: Store, ids: set<Id>, now: nat)
    requires StoreInv(r, before) && OnlyMarked(before, after, ids, now) && ids <= CommittedIds(before)
    requires ReadCommitted(r, before).Ok?
    ensures ReadCommitted(r, after).Ok?
    ensures forall m :: m in ReadCommitted(r, after).value
                        <==> m in ReadCommitted(r, before).value && m.snapshotId !in ids
  {
    hide StoreInv, OnlyMarked, ReadManifest, ReadCommitted, ReadCommittedFrom, Grows, CommittedIds, ForgottenIds;
    MarkingKeepsInv(r, before, after, ids, now);
    ReadCommittedMeaning(r, before);
    ReadCommittedMeaning(r, after);
    forall id | id in CommittedIds(before) - ForgottenIds(before)
      ensures ReadManifest(r, after, id) == ReadManifest(r, before, id)
    {
      ManifestReadsTheSame(r, before, after, id);
    }
  }

  lemma ManifestReadsTheSame(r: Repo, before: Store, after: Store, id: Id)
    requires StoreInv(r, before) && Grows(before, after) && id in CommittedIds(before)
    ensures ReadManifest(r, after, id) == ReadManifest(r, before, id)
  {
    assert ObjectOk(r, before, CommitKey(id));
  }

  // ---------- The whole command ----------

  lemma {:induction false} MarkersOfOneState(history: nat -> Store, store: Store, ids: seq<Id>, at: nat)
    requires forall n: nat :: history(n) == store
    ensures MarkersAlong(history, ids, at) == ReadMarkers(store, ids)
    decreases |ids|
  {
    hide ReadMarker;
    if ids != [] {
      MarkersOfOneState(history, store, ids[..|ids| - 1], at);
    }
  }

  lemma {:induction false} ManifestsOfOneState(r: Repo, history: nat -> Store, store: Store, forgotten: set<Id>,
                                               ids: seq<Id>, at: nat)
    requires forall n: nat :: history(n) == store
    ensures ManifestsAlong(r, history, forgotten, ids, at) == ReadVisible(r, store, forgotten, ids)
    decreases |ids|
  {
    hide ReadListed;
    if ids != [] {
      ManifestsOfOneState(r, history, store, forgotten, ids[..|ids| - 1], at);
    }
  }

  /** When nothing else happens, reading operation by operation is reading one state, damaged or not. */
  lemma {:induction false} CommittedOfOneState(r: Repo, history: nat -> Store, store: Store)
    requires forall n: nat :: history(n) == store
    ensures CommittedAlong(r, history) == ReadCommitted(r, store)
  {
    hide ReadMarkers, ReadVisible, MarkersAlong, ManifestsAlong, SortedIds, CommittedIds, ForgottenIds, SortManifests;
    MarkersOfOneState(history, store, SortedIds(ForgottenIds(store)), 1);
    var forgotten := ReadMarkers(store, SortedIds(ForgottenIds(store)));
    if forgotten.Ok? {
      var ids := SortedIds(CommittedIds(store));
      ManifestsOfOneState(r, history, store, forgotten.value, ids, ListedAt(history) + 1);
    }
  }

  ghost function SnapshotSet(ms: seq<Manifest>): set<Retention.Snapshot> {
    set m | m in ms :: Retention.Snapshot(m.snapshotId, m.body.createdAt, m.body.tags)
  }

  /** What a forget leaves visible of the snapshots that were: those with a reason to be kept. */
  ghost predicate LeavesTheKept(r: Repo, policy: Retention.Policy, before: Store, after: Store) {
    && ReadCommitted(r, before).Ok? && ReadCommitted(r, after).Ok?
    && var all := SnapshotSet(ReadCommitted(r, before).value);
       forall m :: m in ReadCommitted(r, after).value
                   <==> && m in ReadCommitted(r, before).value
                        && HasReason(policy, all, Retention.Snapshot(m.snapshotId, m.body.createdAt, m.body.tags))
  }

  /** Some visible snapshot has no reason to be kept. */
  ghost predicate ForgetsSome(r: Repo, policy: Retention.Policy, store: Store) {
    && ReadCommitted(r, store).Ok?
    && var all := SnapshotSet(ReadCommitted(r, store).value);
       exists s :: s in all && !HasReason(policy, all, s)
  }

  /**
   `forget` without other clients: reads, plans, and unless it is a dry run
   marks what the plan forgets.
   */
  method Forget(store: SharedStore, r: Repo, policy: Retention.Policy, dryRun: bool, now: nat)
    returns (result: Result<(seq<Id>, seq<MarkerWrite>), ForgetError>)
    modifies store
    ensures dryRun || result.Err? ==> Grows(old(store.objects), store.objects)
    ensures dryRun ==> store.objects == old(store.objects)
    ensures ReadCommitted(r, old(store.objects)).Err? ==>
              && result == Err(Reading(ReadCommitted(r, old(store.objects)).error))
              && store.objects == old(store.objects)
    ensures StoreInv(r, old(store.objects)) && ReadCommitted(r, old(store.objects)).Ok? ==>
              && (result.Ok? <==> ForgetsSome(r, policy, old(store.objects)))
              && (result.Err? ==> result == Err(NoSnapshotsMatched) && store.objects == old(store.objects))
              && (result.Ok? && !dryRun ==>
                    && StoreInv(r, store.objects)
                    && OnlyMarked(old(store.objects), store.objects, IdSet(result.value.0), now)
                    && LeavesTheKept(r, policy, old(store.objects), store.objects))
  {
    hide StoreInv, ReadCommitted, CommittedAlong, OnlyMarked, LeavesTheKept, ForgetsSome, CanMark, StopsAtMark;
    ghost var before := store.objects;
    var objects := store.objects;
    var manifests := ReadCommittedStepwise(r, (n: nat) => objects);
    CommittedOfOneState(r, (n: nat) => objects, objects);
    if manifests.Err? {
      return Err(Reading(manifests.error));
    }
    ReadingIsPlannable(r, objects);
    var ids := ForgottenByPlan(policy, manifests.value);
    if StoreInv(r, before) {
      PlanIsVisible(r, policy, before, ids);
      if ids != [] {
        PlannedAreHidden(r, policy, before, ids, now);
      }
    }
    if ids == [] {
      return Err(NoSnapshotsMatched);
    }
    if dryRun {
      return Ok((ids, []));
    }
    var writes := WriteForgetMarkers(store, ids, now);
    if writes.Err? {
      StoppedGrows(before, store.objects, ids, now);
      return Err(writes.error);
    }
    return Ok((ids, writes.value));
  }

  lemma StoppedGrows(before: Store, after: Store, ids: seq<Id>, now: nat)
    requires StopsAtMark(before, after, ids, now)
    ensures Grows(before, after)
  {
  }

  lemma {:induction false} ReadingIsPlannable(r: Repo, store: Store)
    requires ReadCommitted(r, store).Ok?
    ensures SeqDistinctIds(SnapshotsOf(ReadCommitted(r, store).value))
  {
    hide ReadCommittedFrom, ReadMarkers, SeqDistinctIds, SortedIds, CommittedIds, ForgottenIds;
    SnapshotsReadAreDistinct(r, store, ReadMarkers(store, SortedIds(ForgottenIds(store))).value, CommittedIds(store));
  }

  lemma SnapshotsAsSet(ms: seq<Manifest>)
    ensures ToSet(SnapshotsOf(ms)) == SnapshotSet(ms)
  {
    forall s
      ensures s in SnapshotsOf(ms) <==> s in SnapshotSet(ms)
    {
      if s in SnapshotSet(ms) {
        var m :| m in ms && s == Retention.Snapshot(m.snapshotId, m.body.createdAt, m.body.tags);
        var i :| 0 <= i < |ms| && ms[i] == m;
        assert SnapshotsOf(ms)[i] == s;
      }
    }
  }

  /** With distinct ids, a planned id is that of exactly one snapshot, which has no reason. */
  lemma PlannedHasNoReason(policy: Retention.Policy, all: set<Retention.Snapshot>, s: Retention.Snapshot)
    requires s in all && forall t :: t in all && t.id == s.id ==> t == s
    ensures s.id in PlannedIds(policy, all) <==> !HasReason(policy, all, s)
  {
    hide Retention.Kept, HasReason;
    KeptMeansReason(policy, all, s);
  }

  /** In a repository in order, the plan is about visible snapshots, and it is empty when all have a reason. */
  lemma {:induction false} PlanIsVisible(r: Repo, policy: Retention.Policy, store: Store, ids: seq<Id>)
    requires StoreInv(r, store) && ReadCommitted(r, store).Ok?
    requires IdSet(ids) == PlannedIds(policy, ToSet(SnapshotsOf(ReadCommitted(r, store).value)))
    ensures IdSet(ids) <= CommittedIds(store) - ForgottenIds(store)
    ensures ids != [] <==> ForgetsSome(r, policy, store)
    ensures forall m :: m in ReadCommitted(r, store).value ==>
              (m.snapshotId in ids
               <==> !HasReason(policy, SnapshotSet(ReadCommitted(r, store).value),
                               Retention.Snapshot(m.snapshotId, m.body.createdAt, m.body.tags)))
  {
    hide StoreInv, ReadCommitted, ReadCommittedFrom, HasReason, Retention.Kept, CommittedIds, ForgottenIds, SnapshotsOf,
         PlannedIds, ToSet, ReadManifest;
    var ms := ReadCommitted(r, store).value;
    var all := SnapshotSet(ms);
    SnapshotsAsSet(ms);
    ReadCommittedMeaning(r, store);
    PlannedAreAmong(policy, all);
    forall m | m in ms
      ensures m.snapshotId in ids
              <==> !HasReason(policy, all, Retention.Snapshot(m.snapshotId, m.body.createdAt, m.body.tags))
    {
      PlannedHasNoReason(policy, all, Retention.Snapshot(m.snapshotId, m.body.createdAt, m.body.tags));
      assert m.snapshotId in ids <==> m.snapshotId in IdSet(ids);
    }
    if ids != [] {
      assert ids[0] in IdSet(ids);
      var s :| s in all && s.id == ids[0];
      PlannedHasNoReason(policy, all, s);
    }
    if s :| s in all && !HasReason(policy, all, s) {
      PlannedHasNoReason(policy, all, s);
      assert s.id in IdSet(ids);
    }
  }

  lemma PlannedAreAmong(policy: Retention.Policy, all: set<Retention.Snapshot>)
    ensures forall id :: id in PlannedIds(policy, all) ==> exists s :: s in all && s.id == id
  {
  }

  /** The markers of the plan can be written, and then readers see what the policy keeps. */
  lemma {:induction false} PlannedAreHidden(r: Repo, policy: Retention.Policy, before: Store, ids: seq<Id>, now: nat)
    requires StoreInv(r, before) && ReadCommitted(r, before).Ok?
    requires IdSet(ids) == PlannedIds(policy, ToSet(SnapshotsOf(ReadCommitted(r, before).value)))
    ensures forall id :: id in ids ==> CanMark(before, id, now)
    ensures forall after :: OnlyMarked(before, after, IdSet(ids), now) ==>
              StoreInv(r, after) && LeavesTheKept(r, policy, before, after)
  {
    hide StoreInv, ReadCommitted, HasReason, SnapshotsOf, PlannedIds, ToSet, OnlyMarked, CommittedIds;
    PlanIsVisible(r, policy, before, ids);
    forall id | id in ids
      ensures CanMark(before, id, now)
    {
      assert id in IdSet(ids) && id !in ForgottenIds(before);
    }
    forall after | OnlyMarked(before, after, IdSet(ids), now)
      ensures StoreInv(r, after) && LeavesTheKept(r, policy, before, after)
    {
      MarkingKeepsInv(r, before, after, IdSet(ids), now);
      MarkedAreHidden(r, before, after, IdSet(ids), now);
    }
  }

  // ---------- The whole command as a client ----------

  /** What the client plans in one step is what the reader's result gives. */
  lemma {:induction false} PlanOfReader(r: Repo, policy: Retention.Policy, store: Store)
    requires StoreInv(r, store) && ForgetsSome(r, policy, store)
    ensures AllReadable(r, store, CommittedIds(store) - ForgottenIds(store))
    ensures var planned := PlannedIds(policy, ReadSnapshots(r, store, CommittedIds(store) - ForgottenIds(store)));
            && planned == PlannedIds(policy, ToSet(SnapshotsOf(ReadCommitted(r, store).value)))
            && planned != {} && IdSet(SortedIds(planned)) == planned
  {
    hide StoreInv, ReadCommitted, ReadCommittedFrom, PlannedIds, ReadSnapshots, ToSet, SnapshotsOf, CommittedIds,
         ForgottenIds, ForgetsSome, SeqDistinctIds, StrictlyIncreasing, AllReadable;
    ReadCommittedMeaning(r, store);
    ReadingGivesTheSnapshots(r, store, ForgottenIds(store));
    ForgetsReadable(r, policy, store);
    var planned := PlannedIds(policy, ReadSnapshots(r, store, CommittedIds(store) - ForgottenIds(store)));
    assert IdSet(SortedIds(planned)) == planned;
    PlanIsVisible(r, policy, store, SortedIds(planned));
  }

  /** The first two steps of a forget: list the markers, then list, read and plan. */
  lemma {:induction false} PlanningSteps(r: Repo, policy: Retention.Policy, w: World, c: nat, input: Input)
    returns (todo: seq<Id>)
    requires StoreInv(r, w.store) && c < |w.clients| && w.clients[c] == ForgetClient(ListForgotten)
    requires ForgetsSome(r, policy, w.store)
    ensures var first := Step(r, policy, w, c, input);
            Step(r, policy, first, c, input)
            == World(w.store, w.clients[c := ForgetClient(Marking(todo, input.now))])
    ensures IdSet(todo) == PlannedIds(policy, ToSet(SnapshotsOf(ReadCommitted(r, w.store).value)))
  {
    hide StoreInv, ReadCommitted, ReadCommittedFrom, PlannedIds, ReadSnapshots, ToSet, SnapshotsOf, CommittedIds,
         ForgottenIds, ForgetsSome, StrictlyIncreasing, AllReadable, IdSet, SortedIds;
    PlanOfReader(r, policy, w.store);
    ForgetsReadable(r, policy, w.store);
    todo := SortedIds(PlannedIds(policy, ReadSnapshots(r, w.store, CommittedIds(w.store) - ForgottenIds(w.store))));
    ForgetStepAt(r, policy, w, c, input);
    ForgetStepAt(r, policy, Step(r, policy, w, c, input), c, input);
  }

  lemma ForgetsReadable(r: Repo, policy: Retention.Policy, store: Store)
    requires ForgetsSome(r, policy, store)
    ensures ReadCommitted(r, store).Ok?
  {
  }

  /** A whole forget, alone from its start to its end, in any world in order. */
  lemma {:induction false} WholeForgetIsARun(r: Repo, policy: Retention.Policy, w: World, c: nat, now: nat)
    returns (events: seq<Event>)
    requires StoreInv(r, w.store) && c < |w.clients| && w.clients[c] == ForgetClient(ListForgotten)
    requires ForgetsSome(r, policy, w.store)
    ensures OnlyClient(events, c)
    ensures var end := Run(r, policy, w, events);
            && end.clients == w.clients[c := ForgetClient(Marking([], now))]
            && LeavesTheKept(r, policy, w.store, end.store)
  {
    hide StoreInv, ReadCommitted, PlannedIds, ToSet, SnapshotsOf, ForgetsSome, LeavesTheKept, Step, Run, CanMark,
         OnlyMarked;
    var input := Input(0, now);
    var todo := PlanningSteps(r, policy, w, c, input);
    ForgetsReadable(r, policy, w.store);
    PlannedAreHidden(r, policy, w.store, todo, now);
    var first := Step(r, policy, w, c, input);
    var second := Step(r, policy, first, c, input);
    NoneMarked(w.store, todo, now);
    var marking := MarkingIsARun(r, policy, second, c, todo, now, w.store, {});
    assert {} + IdSet(todo) == IdSet(todo);
    events := [Event(c, input)] + ([Event(c, input)] + marking);
    RunFirst(r, policy, first, Event(c, input), marking);
    RunFirst(r, policy, w, Event(c, input), [Event(c, input)] + marking);
  }
}
