/**
 From the committed manifests to the ids that are marked
 (crates/fileferry-cli/src/lib.rs, `forget`): reading, planning, and sorting
 compute what the forget client of module Protocol marks.
 */
module ForgetPlan {
  import opened Common
  import opened Repository
  import opened Readers
  import opened Integrity
  import opened ObjectStore
  import opened Retention
  import opened RetentionPlan
  import Protocol
  import Visibility

  function SnapshotsOf(ms: seq<Manifest>): (snapshots: seq<Snapshot>)
    ensures |snapshots| == |ms|
  {
    seq(|ms|, i requires 0 <= i < |ms| => Protocol.SnapshotOf(ms[i]))
  }

  /** Whatever the store holds, each snapshot is read once. */
  lemma SnapshotsReadAreDistinct(r: Repo, store: Store, forgotten: set<Id>, committed: set<Id>)
    ensures var result := Visibility.ReadCommittedFrom(r, store, forgotten, committed);
            result.Ok? ==> SeqDistinctIds(SnapshotsOf(result.value))
  {
    hide Visibility.ReadVisible, Visibility.SortManifests, SortedIds;
    var ids := SortedIds(committed);
    var read := Visibility.ReadVisible(r, store, forgotten, ids);
    if read.Ok? {
      Visibility.VisibleIdsIncrease(r, store, forgotten, ids);
      Visibility.SortKeepsDistinct(read.value);
    }
  }

  /** What `read_committed_snapshot_manifests` returns is what the plan is about. */
  lemma ReadingGivesTheSnapshots(r: Repo, store: Store, forgotten: set<Id>)
    requires StoreInv(r, store)
    ensures var result := Visibility.ReadCommittedFrom(r, store, forgotten, CommittedIds(store));
            var visible := CommittedIds(store) - forgotten;
            && (result.Ok? <==> Protocol.AllReadable(r, store, visible))
            && (result.Ok? ==> SeqDistinctIds(SnapshotsOf(result.value))
                               && ToSet(SnapshotsOf(result.value)) == Protocol.ReadSnapshots(r, store, visible))
  {
    hide StoreInv, ReadManifest, Visibility.ReadVisible, Visibility.SortManifests, SortedIds, CommittedIds,
         Protocol.AllReadable, Protocol.ReadSnapshots, ToSet, SeqDistinctIds;
    var ids, visible := SortedIds(CommittedIds(store)), CommittedIds(store) - forgotten;
    forall i | 0 <= i < |ids|
      ensures CommitKey(ids[i]) in store
    {
      assert ids[i] in ids;
      CommittedIsStored(store, ids[i]);
    }
    Visibility.ReadVisibleMeaning(r, store, forgotten, ids);
    ReadableIds(r, store, forgotten, ids);
    var read := Visibility.ReadVisible(r, store, forgotten, ids);
    if read.Ok? {
      Visibility.VisibleIdsIncrease(r, store, forgotten, ids);
      Visibility.SortKeepsDistinct(read.value);
      SameSnapshots(r, store, visible, Visibility.SortManifests(read.value));
    }
  }

  lemma CommittedIsStored(store: Store, id: Id)
    ensures id in CommittedIds(store) <==> CommitKey(id) in store
  {
  }

  lemma ReadableIds(r: Repo, store: Store, forgotten: set<Id>, ids: seq<Id>)
    requires forall id :: id in ids <==> id in CommittedIds(store)
    ensures (forall i :: 0 <= i < |ids| && ids[i] !in forgotten ==> ReadManifest(r, store, ids[i]).Ok?)
            <==> Protocol.AllReadable(r, store, CommittedIds(store) - forgotten)
  {
    hide ReadManifest, CommittedIds;
    assert forall i :: 0 <= i < |ids| ==> ids[i] in ids;
  }

  lemma SameSnapshots(r: Repo, store: Store, visible: set<Id>, ms: seq<Manifest>)
    requires Protocol.AllReadable(r, store, visible) && Visibility.DistinctSnapshots(ms)
    requires forall m :: m in ms <==> m.snapshotId in visible && ReadManifest(r, store, m.snapshotId) == Ok(m)
    ensures SeqDistinctIds(SnapshotsOf(ms)) && ToSet(SnapshotsOf(ms)) == Protocol.ReadSnapshots(r, store, visible)
  {
    hide ReadManifest;
    var snapshots, set' := SnapshotsOf(ms), Protocol.ReadSnapshots(r, store, visible);
    forall s | s in snapshots
      ensures s in set'
    {
      var i :| 0 <= i < |snapshots| && snapshots[i] == s;
      assert ms[i] in ms;
    }
    forall s | s in set'
      ensures s in snapshots
    {
      var id :| id in visible && s == Protocol.SnapshotOf(ReadManifest(r, store, id).value);
      ReadManifestKeepsId(r, store, id);
      var m := ReadManifest(r, store, id).value;
      assert m in ms;
      var i :| 0 <= i < |ms| && ms[i] == m;
      assert snapshots[i] == s;
    }
  }

  lemma {:induction false} ForgottenDecisions(policy: Policy, snapshots: seq<Snapshot>, decisions: seq<Decision>,
                                              ids: set<Id>)
    requires SeqDistinctIds(snapshots) && |decisions| == |snapshots|
    requires forall i :: 0 <= i < |decisions| ==>
               decisions[i] == DecisionFor(policy, ToSet(snapshots), SortNewestFirst(snapshots)[i])
    requires forall id :: id in ids <==> exists i :: 0 <= i < |decisions| && decisions[i].action == Forget
                                                     && decisions[i].snapshot.id == id
    ensures ids == Protocol.PlannedIds(policy, ToSet(snapshots))
  {
    hide Kept, Reasons;
    SortingKeepsTheSet(snapshots);
    var sorted, all := SortNewestFirst(snapshots), ToSet(snapshots);
    forall id | id in ids
      ensures id in Protocol.PlannedIds(policy, all)
    {
      var i :| 0 <= i < |decisions| && decisions[i].action == Forget && decisions[i].snapshot.id == id;
      assert sorted[i] in ToSet(sorted) && sorted[i] in all - Kept(policy, all);
    }
    forall id | id in Protocol.PlannedIds(policy, all)
      ensures id in ids
    {
      var s :| s in all - Kept(policy, all) && s.id == id;
      assert s in ToSet(sorted);
      var i :| 0 <= i < |sorted| && sorted[i] == s;
      assert decisions[i].action == Forget && decisions[i].snapshot.id == id;
    }
  }

  /** The ids outside the kept set of what the reader returned. */
  ghost function IdsOfPlan(policy: Policy, ms: seq<Manifest>): seq<Id> {
    SortedIds(Protocol.PlannedIds(policy, ToSet(SnapshotsOf(ms))))
  }

  /** `plan(...).forgotten()` over manifests with distinct ids: the ids that the plan forgets, newest first. */
  method ForgottenByPlan(policy: Policy, manifests: seq<Manifest>) returns (ids: seq<Id>)
    requires SeqDistinctIds(SnapshotsOf(manifests))
    ensures (set id | id in ids) == Protocol.PlannedIds(policy, ToSet(SnapshotsOf(manifests)))
  {
    hide DecisionFor, SeqDistinctIds, ToSet, SortNewestFirst, Explains, Protocol.PlannedIds;
    var snapshots := SnapshotsOf(manifests);
    var decisions := Plan(policy, snapshots);
    ids := [];
    for i := 0 to |decisions|
      invariant forall id :: id in ids <==> exists j :: 0 <= j < i && decisions[j].action == Forget
                                                        && decisions[j].snapshot.id == id
    {
      if decisions[i].action == Forget {
        ids := ids + [decisions[i].snapshot.id];
      }
    }
    ForgottenDecisions(policy, snapshots, decisions, set id | id in ids);
  }

  /** The same with the sort and dedup of `write_snapshot_forget_markers`. */
  method PlanIds(policy: Policy, manifests: seq<Manifest>) returns (ids: seq<Id>)
    requires SeqDistinctIds(SnapshotsOf(manifests))
    ensures ids == IdsOfPlan(policy, manifests)
  {
    var planned := ForgottenByPlan(policy, manifests);
    var unique := set id | id in planned;
    assert unique == Protocol.PlannedIds(policy, ToSet(SnapshotsOf(manifests)));
    return SortedIds(unique);
  }

  /** The planning half of `forget` on one state, damaged or not. */
  method IdsToForget(r: Repo, policy: Policy, store: Store, forgotten: set<Id>) returns (result: Result<seq<Id>, Error>)
    ensures var read := Visibility.ReadCommittedFrom(r, store, forgotten, CommittedIds(store));
            result == if read.Err? then Err(read.error) else Ok(IdsOfPlan(policy, read.value))
    ensures StoreInv(r, store) ==>
              var visible := CommittedIds(store) - forgotten;
              && (result.Ok? <==> Protocol.AllReadable(r, store, visible))
              && (result.Ok? ==>
                    result.value == SortedIds(Protocol.PlannedIds(policy, Protocol.ReadSnapshots(r, store, visible))))
  {
    hide StoreInv, Visibility.ReadCommittedFrom, Protocol.AllReadable, Protocol.ReadSnapshots, CommittedIds,
         SeqDistinctIds, SortedIds, ToSet;
    SnapshotsReadAreDistinct(r, store, forgotten, CommittedIds(store));
    if StoreInv(r, store) {
      ReadingGivesTheSnapshots(r, store, forgotten);
    }
    var manifests := Visibility.ReadCommittedFrom(r, store, forgotten, CommittedIds(store));
    if manifests.Err? {
      return Err(manifests.error);
    }
    var ids := PlanIds(policy, manifests.value);
    return Ok(ids);
  }

  // ---------- Reading step by step while others work ----------

  /** The manifests read later give the plan of the moment of the listing. */
  lemma {:induction false} PlanReadLaterIsTheSame(r: Repo, listed: Store, later: Store, forgotten: set<Id>)
    requires StoreInv(r, listed) && Grows(listed, later)
    ensures Visibility.ReadCommittedFrom(r, later, forgotten, CommittedIds(listed))
            == Visibility.ReadCommittedFrom(r, listed, forgotten, CommittedIds(listed))
  {
    hide StoreInv, Grows, Visibility.ReadVisible, Visibility.SortManifests, SortedIds, CommittedIds;
    var ids := SortedIds(CommittedIds(listed));
    forall i | 0 <= i < |ids|
      ensures CommitKey(ids[i]) in listed
    {
      assert ids[i] in ids;
      CommittedIsStored(listed, ids[i]);
    }
    Visibility.SameVisible(r, listed, later, forgotten, ids);
  }

  /** What the forget client of module Protocol does next, after a plan. */
  function AfterPlan(plan: Result<seq<Id>, Error>, now: nat): Protocol.ForgetPhase {
    if plan.Err? || plan.value == [] then Protocol.ForgetFailed else Protocol.Marking(plan.value, now)
  }

  /** The forget client's step, given the reader's result in the state of the listing. */
  lemma ForgetStepIsPlan(r: Repo, policy: Policy, store: Store, forgotten: set<Id>, input: Protocol.Input)
    requires StoreInv(r, store)
    ensures var read := Visibility.ReadCommittedFrom(r, store, forgotten, CommittedIds(store));
            Protocol.ForgetStep(r, policy, store, Protocol.ListCommits(forgotten), input)
            == (store, AfterPlan(if read.Err? then Err(read.error) else Ok(IdsOfPlan(policy, read.value)), input.now))
  {
    hide StoreInv, Visibility.ReadCommittedFrom, Protocol.AllReadable, Protocol.ReadSnapshots, CommittedIds,
         SeqDistinctIds, ToSet, Protocol.PlannedIds;
    ReadingGivesTheSnapshots(r, store, forgotten);
  }

  /**
   The whole first half of `forget`, operation by operation beside any other
   clients: it plans what the forget client of module Protocol plans in one
   step at the time of the listing.
   */
  method ForgetPlanStepwise(r: Repo, policy: Policy, history: nat -> Store, ghost input: Protocol.Input)
    returns (result: Result<seq<Id>, Error>)
    ensures var read := Visibility.CommittedAlong(r, history);
            read.Err? ==> result == Err(read.error)
    ensures Visibility.IsHistory(r, history) ==>
              var listed := history(Visibility.ListedAt(history));
              Protocol.ForgetStep(r, policy, listed, Protocol.ListCommits(ForgottenIds(history(0))), input)
              == (listed, AfterPlan(result, input.now))
  {
    hide Visibility.CommittedAlong, SeqDistinctIds, StoreInv, Grows, Protocol.ForgetStep, Visibility.ListedAt,
         Visibility.ReadCommittedFrom, IdsOfPlan, CommittedIds, ForgottenIds;
    var manifests := Visibility.ReadCommittedStepwise(r, history);
    if Visibility.IsHistory(r, history) {
      StepwiseReadsListed(r, history);
      ForgetStepIsPlan(r, policy, history(Visibility.ListedAt(history)), ForgottenIds(history(0)), input);
    }
    if manifests.Err? {
      return Err(manifests.error);
    }
    AlongIsPlannable(r, history);
    var ids := PlanIds(policy, manifests.value);
    return Ok(ids);
  }

  lemma {:induction false} AlongIsPlannable(r: Repo, history: nat -> Store)
    requires Visibility.CommittedAlong(r, history).Ok?
    ensures SeqDistinctIds(SnapshotsOf(Visibility.CommittedAlong(r, history).value))
  {
    hide Visibility.MarkersAlong, Visibility.ManifestsAlong, Visibility.ListedAt, Visibility.SortManifests, SortedIds;
    var listed := Visibility.ListedAt(history);
    var ids := SortedIds(CommittedIds(history(listed)));
    var forgotten := Visibility.MarkersAlong(history, SortedIds(ForgottenIds(history(0))), 1).value;
    Visibility.AlongIsDistinct(r, history, forgotten, ids, listed + 1);
    Visibility.SortKeepsDistinct(Visibility.ManifestsAlong(r, history, forgotten, ids, listed + 1).value);
  }

  lemma {:induction false} StepwiseReadsListed(r: Repo, history: nat -> Store)
    requires Visibility.IsHistory(r, history)
    ensures var listed := history(Visibility.ListedAt(history));
            StoreInv(r, listed)
            && Visibility.CommittedAlong(r, history)
               == Visibility.ReadCommittedFrom(r, listed, ForgottenIds(history(0)), CommittedIds(listed))
  {
    hide StoreInv, Grows, Visibility.CommittedAlong, Visibility.ReadCommittedFrom, CommittedIds, ForgottenIds,
         Visibility.ListedAt;
    Visibility.StepwiseReadsFrom(r, history);
    assert StoreInv(r, history(Visibility.ListedAt(history)));
    assert Grows(history(Visibility.ListedAt(history)), history(Visibility.EndsAt(history)));
    PlanReadLaterIsTheSame(r, history(Visibility.ListedAt(history)), history(Visibility.EndsAt(history)),
                           ForgottenIds(history(0)));
  }
}
