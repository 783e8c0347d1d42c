/**
 Which snapshots a reader sees (crates/fileferry-core/src/lib.rs,
 `read_forgotten_snapshot_ids` and `read_committed_snapshot_manifests`).

 The reader performs one store operation after another while writers and
 forgets go on; `history(n)` is the store its n-th operation meets.
 */
module Visibility {
  import opened Common
  import opened Repository
  import opened Readers
  import opened ObjectStore
  import opened Integrity

  // ---------- Reading from one state ----------

  /** `read_snapshot_forget_marker` */
  function ReadMarker(store: Store, id: Id): Result<Id, Error> {
    var key := ForgetKey(id);
    if key !in store then Err(StorageNotFound(key))
    else if !store[key].ForgetDoc? then Err(ForgetMarkerDecode(key))
    else
      var m := store[key].marker;
      if m.schemaVersion != 0 || m.snapshotId != id || m.manifestObject != ManifestKey(id)
         || m.commitObject != CommitKey(id)
      then Err(InvalidForgetMarker(key))
      else Ok(m.snapshotId)
  }

  /** One round of the commit loop: nothing for a forgotten snapshot, its manifest otherwise. */
  function ReadListed(r: Repo, marker: Store, manifest: Store, forgotten: set<Id>, id: Id)
    : Result<seq<Manifest>, Error> {
    var key := CommitKey(id);
    if key !in marker then Err(StorageNotFound(key))
    else if !marker[key].CommitDoc? then Err(CommitDecode(key))
    else
      var commit := marker[key].commit;
      if commit.schemaVersion != 0 then Err(InvalidCommitMarker(key))
      else if commit.snapshotId in forgotten then Ok([])
      else if commit.snapshotId != id || commit.manifestObject != ManifestKey(id) then Err(InvalidCommitMarker(key))
      else
        var m := Referenced(ReadManifest(r, manifest, id), ReferencedObjectMissing(ManifestKey(id)));
        if m.Err? then Err(m.error) else Ok([m.value])
  }

  function ReadVisible(r: Repo, store: Store, forgotten: set<Id>, ids: seq<Id>): Result<seq<Manifest>, Error> {
    if ids == [] then Ok([])
    else
      var before := ReadVisible(r, store, forgotten, ids[..|ids| - 1]);
      if before.Err? then before
      else
        var last := ReadListed(r, store, store, forgotten, ids[|ids| - 1]);
        if last.Err? then last else Ok(before.value + last.value)
  }

  /** `compare_snapshot_manifests` */
  predicate NotAfter(a: Manifest, b: Manifest) {
    a.body.createdAt < b.body.createdAt || (a.body.createdAt == b.body.createdAt && a.snapshotId <= b.snapshotId)
  }

  /** By time, and then by id. */
  predicate InOrder(ms: seq<Manifest>) {
    forall i, j :: 0 <= i < j < |ms| ==>
      || ms[i].body.createdAt < ms[j].body.createdAt
      || (ms[i].body.createdAt == ms[j].body.createdAt && ms[i].snapshotId <= ms[j].snapshotId)
  }

  function InsertManifest(ms: seq<Manifest>, m: Manifest): (r: seq<Manifest>)
    requires InOrder(ms)
    ensures InOrder(r) && |r| == |ms| + 1
    ensures forall x :: x in r <==> x == m || x in ms
  {
    if ms == [] || NotAfter(ms[|ms| - 1], m) then ms + [m]
    else
      var init, last := ms[..|ms| - 1], ms[|ms| - 1];
      assert ms == init + [last];
      var r := InsertManifest(init, m);
      assert forall i :: 0 <= i < |r| ==> r[i] in r;
      r + [last]
  }

  function SortManifests(ms: seq<Manifest>): (r: seq<Manifest>)
    ensures InOrder(r) && |r| == |ms|
    ensures forall x :: x in r <==> x in ms
  {
    if ms == [] then []
    else
      assert ms == ms[..|ms| - 1] + [ms[|ms| - 1]];
      InsertManifest(SortManifests(ms[..|ms| - 1]), ms[|ms| - 1])
  }

  function ReadCommittedFrom(r: Repo, store: Store, forgotten: set<Id>, committed: set<Id>)
    : Result<seq<Manifest>, Error> {
    var visible := ReadVisible(r, store, forgotten, SortedIds(committed));
    if visible.Err? then visible else Ok(SortManifests(visible.value))
  }

  /** The ids in the listed forget markers, or the first marker that cannot be read. */
  function ReadMarkers(store: Store, ids: seq<Id>): Result<set<Id>, Error> {
    if ids == [] then Ok({})
    else
      var before := ReadMarkers(store, ids[..|ids| - 1]);
      if before.Err? then before
      else
        var last := ReadMarker(store, ids[|ids| - 1]);
        if last.Err? then Err(last.error) else Ok(before.value + {last.value})
  }

  /** `read_committed_snapshot_manifests` when nothing else happens. */
  function ReadCommitted(r: Repo, store: Store): Result<seq<Manifest>, Error> {
    var forgotten := ReadMarkers(store, SortedIds(ForgottenIds(store)));
    if forgotten.Err? then Err(forgotten.error)
    else ReadCommittedFrom(r, store, forgotten.value, CommittedIds(store))
  }

  // ---------- Reading operation by operation, whatever the store does ----------

  /** The listed markers, one read after the other from operation `at` on. */
  function MarkersAlong(history: nat -> Store, ids: seq<Id>, at: nat): Result<set<Id>, Error> {
    if ids == [] then Ok({})
    else
      var n := |ids| - 1;
      var before := MarkersAlong(history, ids[..n], at);
      if before.Err? then before
      else
        var last := ReadMarker(history(at + n), ids[n]);
        if last.Err? then Err(last.error) else Ok(before.value + {last.value})
  }

  /** The listed commits, a marker read and a manifest read for each. */
  function ManifestsAlong(r: Repo, history: nat -> Store, forgotten: set<Id>, ids: seq<Id>, at: nat)
    : Result<seq<Manifest>, Error>
  {
    if ids == [] then Ok([])
    else
      var n := |ids| - 1;
      var before := ManifestsAlong(r, history, forgotten, ids[..n], at);
      if before.Err? then before
      else
        var last := ReadListed(r, history(at + 2 * n), history(at + 2 * n + 1), forgotten, ids[n]);
        if last.Err? then last else Ok(before.value + last.value)
  }

  /** When the commits are listed: after one read for each forget marker. */
  function ListedAt(history: nat -> Store): nat {
    1 + |SortedIds(ForgottenIds(history(0)))|
  }

  function CommittedAlong(r: Repo, history: nat -> Store): Result<seq<Manifest>, Error> {
    var forgotten := MarkersAlong(history, SortedIds(ForgottenIds(history(0))), 1);
    if forgotten.Err? then Err(forgotten.error)
    else
      var listed := ListedAt(history);
      var ms := ManifestsAlong(r, history, forgotten.value, SortedIds(CommittedIds(history(listed))), listed + 1);
      if ms.Err? then ms else Ok(SortManifests(ms.value))
  }

  lemma {:induction false} MarkersAlongFails(history: nat -> Store, ids: seq<Id>, at: nat, n: nat)
    requires n <= |ids| && MarkersAlong(history, ids[..n], at).Err?
    ensures MarkersAlong(history, ids, at) == MarkersAlong(history, ids[..n], at)
    decreases |ids|
  {
    if n < |ids| {
      assert ids[..|ids| - 1][..n] == ids[..n];
      MarkersAlongFails(history, ids[..|ids| - 1], at, n);
    } else {
      assert ids[..n] == ids;
    }
  }

  lemma {:induction false} ManifestsAlongFails(r: Repo, history: nat -> Store, forgotten: set<Id>, ids: seq<Id>,
                                               at: nat, n: nat)
    requires n <= |ids| && ManifestsAlong(r, history, forgotten, ids[..n], at).Err?
    ensures ManifestsAlong(r, history, forgotten, ids, at) == ManifestsAlong(r, history, forgotten, ids[..n], at)
    decreases |ids|
  {
    if n < |ids| {
      assert ids[..|ids| - 1][..n] == ids[..n];
      ManifestsAlongFails(r, history, forgotten, ids[..|ids| - 1], at, n);
    } else {
      assert ids[..n] == ids;
    }
  }

  lemma NoMarkers(history: nat -> Store, at: nat)
    ensures MarkersAlong(history, [], at) == Ok({})
  {
  }

  lemma {:induction false} MarkersAlongStep(history: nat -> Store, ids: seq<Id>, at: nat, i: nat)
    requires i < |ids| && MarkersAlong(history, ids[..i], at).Ok?
    ensures var marker := ReadMarker(history(at + i), ids[i]);
            MarkersAlong(history, ids[..i + 1], at) ==
            if marker.Err? then Err(marker.error) else Ok(MarkersAlong(history, ids[..i], at).value + {marker.value})
  {
    hide ReadMarker;
    assert ids[..i + 1][..i] == ids[..i];
  }

  /** `read_forgotten_snapshot_ids`: one listing, then one read per marker until one fails. */
  method ReadForgotten(history: nat -> Store, start: nat) returns (result: Result<set<Id>, Error>)
    ensures result == MarkersAlong(history, SortedIds(ForgottenIds(history(start))), start + 1)
  {
    hide ForgottenIds, ReadMarker, SortedIds, MarkersAlong;
    var ids := SortedIds(ForgottenIds(history(start)));
    var forgotten: set<Id> := {};
    assert ids[..0] == [];
    NoMarkers(history, start + 1);
    for i := 0 to |ids|
      invariant MarkersAlong(history, ids[..i], start + 1) == Ok(forgotten)
    {
      MarkersAlongStep(history, ids, start + 1, i);
      var marker := ReadMarker(history(start + 1 + i), ids[i]);
      if marker.Err? {
        MarkersAlongFails(history, ids, start + 1, i + 1);
        return Err(marker.error);
      }
      forgotten := forgotten + {marker.value};
    }
    assert ids[..|ids|] == ids;
    return Ok(forgotten);
  }

  /** The commit loop: a marker read and a manifest read for each listed commit, until one fails. */
  method ReadAll(r: Repo, history: nat -> Store, forgotten: set<Id>, ids: seq<Id>, start: nat)
    returns (result: Result<seq<Manifest>, Error>)
    ensures result == ManifestsAlong(r, history, forgotten, ids, start)
  {
    hide ReadListed;
    var manifests: seq<Manifest> := [];
    for i := 0 to |ids|
      invariant ManifestsAlong(r, history, forgotten, ids[..i], start) == Ok(manifests)
    {
      assert ids[..i + 1][..i] == ids[..i];
      var now := start + 2 * i;
      var read := ReadListed(r, history(now), history(now + 1), forgotten, ids[i]);
      if read.Err? {
        ManifestsAlongFails(r, history, forgotten, ids, start, i + 1);
        return read;
      }
      manifests := manifests + read.value;
    }
    assert ids[..|ids|] == ids;
    return Ok(manifests);
  }

  /** `read_committed_snapshot_manifests`, operation by operation. */
  method ReadCommittedStepwise(r: Repo, history: nat -> Store) returns (result: Result<seq<Manifest>, Error>)
    ensures result == CommittedAlong(r, history)
  {
    hide MarkersAlong, ManifestsAlong, ForgottenIds, CommittedIds, SortedIds, SortManifests;
    var forgotten := ReadForgotten(history, 0);
    if forgotten.Err? {
      return Err(forgotten.error);
    }
    var listed := ListedAt(history);
    var manifests := ReadAll(r, history, forgotten.value, SortedIds(CommittedIds(history(listed))), listed + 1);
    if manifests.Err? {
      return manifests;
    }
    return Ok(SortManifests(manifests.value));
  }

  // ---------- Reading while the store grows ----------

  ghost predicate Growing(history: nat -> Store) {
    forall m, n :: m <= n ==> Grows(history(m), history(n))
  }

  ghost predicate IsHistory(r: Repo, history: nat -> Store) {
    (forall n :: StoreInv(r, history(n))) && Growing(history)
  }

  lemma MarkerStays(earlier: Store, later: Store, id: Id)
    requires Grows(earlier, later) && ForgetKey(id) in earlier
    ensures ReadMarker(later, id) == ReadMarker(earlier, id)
  {
  }

  /** Objects never change, so the markers read as they were listed, the damaged ones too. */
  lemma {:induction false} ListedMarkersRead(history: nat -> Store, listed: nat, ids: seq<Id>, at: nat)
    requires Growing(history) && listed <= at
    requires forall i :: 0 <= i < |ids| ==> ids[i] in ForgottenIds(history(listed))
    ensures MarkersAlong(history, ids, at) == ReadMarkers(history(listed), ids)
    decreases |ids|
  {
    hide ReadMarker, Grows;
    if ids != [] {
      var n := |ids| - 1;
      ListedMarkersRead(history, listed, ids[..n], at);
      assert ids[n] in ForgottenIds(history(listed));
      MarkerStays(history(listed), history(at + n), ids[n]);
    }
  }

  /** In a repository in order every marker reads as its own id. */
  lemma {:induction false} MarkersInOrder(r: Repo, store: Store, ids: seq<Id>)
    requires StoreInv(r, store) && forall i :: 0 <= i < |ids| ==> ids[i] in ForgottenIds(store)
    ensures ReadMarkers(store, ids).Ok? && forall id :: id in ReadMarkers(store, ids).value <==> id in ids
    decreases |ids|
  {
    hide StoreInv, ReadMarker, ForgottenIds;
    if ids != [] {
      var init, last := ids[..|ids| - 1], ids[|ids| - 1];
      MarkersInOrder(r, store, init);
      MarkerReads(r, store, last);
      assert ids == init + [last];
    }
  }

  lemma MarkerReads(r: Repo, store: Store, id: Id)
    requires StoreInv(r, store) && id in ForgottenIds(store)
    ensures ReadMarker(store, id) == Ok(id)
  {
    assert ForgetKey(id) in store;
    assert ObjectOk(r, store, ForgetKey(id));
  }

  lemma {:induction false} AllMarkersInOrder(r: Repo, store: Store)
    requires StoreInv(r, store)
    ensures ReadMarkers(store, SortedIds(ForgottenIds(store))) == Ok(ForgottenIds(store))
  {
    hide StoreInv, ReadMarkers, ForgottenIds, SortedIds;
    var ids := SortedIds(ForgottenIds(store));
    forall i | 0 <= i < |ids|
      ensures ids[i] in ForgottenIds(store)
    {
      assert ids[i] in ids;
    }
    MarkersInOrder(r, store, ids);
    assert ReadMarkers(store, ids).value == ForgottenIds(store);
  }

  lemma ListedReadsTheSame(r: Repo, now: Store, next: Store, later: Store, forgotten: set<Id>, id: Id)
    requires StoreInv(r, now) && Grows(now, next) && Grows(next, later) && CommitKey(id) in now
    ensures ReadListed(r, now, next, forgotten, id) == ReadListed(r, later, later, forgotten, id)
  {
    assert ObjectOk(r, now, CommitKey(id));
    assert now[CommitKey(id)] == later[CommitKey(id)];
    assert ManifestKey(id) in now && now[ManifestKey(id)] == next[ManifestKey(id)] == later[ManifestKey(id)];
  }

  lemma CommitReads(r: Repo, history: nat -> Store, listed: nat, now: nat, end: nat, forgotten: set<Id>, id: Id)
    requires IsHistory(r, history) && listed <= now < end && id in CommittedIds(history(listed))
    ensures ReadListed(r, history(now), history(now + 1), forgotten, id)
            == ReadListed(r, history(end), history(end), forgotten, id)
  {
    hide StoreInv, ReadListed;
    assert StoreInv(r, history(now));
    assert Grows(history(listed), history(now)) && Grows(history(now), history(now + 1))
           && Grows(history(now + 1), history(end));
    assert CommitKey(id) in history(listed);
    ListedReadsTheSame(r, history(now), history(now + 1), history(end), forgotten, id);
  }

  /** In a repository in order each commit reads as the final state holds it. */
  lemma {:induction false} ListedCommitsRead(r: Repo, history: nat -> Store, forgotten: set<Id>, ids: seq<Id>,
                                             listed: nat, at: nat, end: nat)
    requires IsHistory(r, history) && listed <= at && at + 2 * |ids| <= end
    requires forall i :: 0 <= i < |ids| ==> ids[i] in CommittedIds(history(listed))
    ensures ManifestsAlong(r, history, forgotten, ids, at) == ReadVisible(r, history(end), forgotten, ids)
    decreases |ids|
  {
    hide IsHistory, ReadListed, CommittedIds;
    if ids != [] {
      var n := |ids| - 1;
      ListedCommitsRead(r, history, forgotten, ids[..n], listed, at, end);
      CommitReads(r, history, listed, at + 2 * n, end, forgotten, ids[n]);
    }
  }

  function EndsAt(history: nat -> Store): nat {
    ListedAt(history) + 1 + 2 * |SortedIds(CommittedIds(history(ListedAt(history))))|
  }

  /**
   On a repository in order the stepwise reader gives the commits of its
   listing without those forgotten at its start, as its last state holds them.
   */
  lemma {:induction false} StepwiseReadsFrom(r: Repo, history: nat -> Store)
    requires IsHistory(r, history)
    ensures CommittedAlong(r, history) ==
            ReadCommittedFrom(r, history(EndsAt(history)), ForgottenIds(history(0)),
                              CommittedIds(history(ListedAt(history))))
  {
    hide StoreInv, Grows, MarkersAlong, ManifestsAlong, ReadMarkers, ReadVisible, ForgottenIds, CommittedIds, SortedIds,
         SortManifests;
    var markers := SortedIds(ForgottenIds(history(0)));
    forall i | 0 <= i < |markers|
      ensures markers[i] in ForgottenIds(history(0))
    {
      assert markers[i] in markers;
    }
    ListedMarkersRead(history, 0, markers, 1);
    AllMarkersInOrder(r, history(0));
    var listed := ListedAt(history);
    var ids := SortedIds(CommittedIds(history(listed)));
    forall i | 0 <= i < |ids|
      ensures ids[i] in CommittedIds(history(listed))
    {
      assert ids[i] in ids;
    }
    ListedCommitsRead(r, history, ForgottenIds(history(0)), ids, listed, listed + 1, EndsAt(history));
  }

  // ---------- What the reader is promised ----------

  ghost function SnapshotIds(ms: seq<Manifest>): set<Id> {
    set m | m in ms :: m.snapshotId
  }

  ghost predicate DistinctSnapshots(ms: seq<Manifest>) {
    forall i, j :: 0 <= i < j < |ms| ==> ms[i].snapshotId != ms[j].snapshotId
  }

  /** Reading stops at the first id whose commit cannot be read, and otherwise collects what each of them gives. */
  ghost predicate ReadsInTurn(r: Repo, store: Store, forgotten: set<Id>, ids: seq<Id>,
                              result: Result<seq<Manifest>, Error>) {
    if result.Ok? then
      && (forall i :: 0 <= i < |ids| ==> ReadListed(r, store, store, forgotten, ids[i]).Ok?)
      && (forall m :: m in result.value <==>
                      m.snapshotId in ids && ReadListed(r, store, store, forgotten, m.snapshotId) == Ok([m]))
    else
      exists i :: 0 <= i < |ids| && FailsFirst(r, store, forgotten, ids, i, result.error)
  }

  ghost predicate FailsFirst(r: Repo, store: Store, forgotten: set<Id>, ids: seq<Id>, i: nat, error: Error)
    requires i < |ids|
  {
    ReadListed(r, store, store, forgotten, ids[i]) == Err(error)
    && forall j :: 0 <= j < i ==> ReadListed(r, store, store, forgotten, ids[j]).Ok?
  }

  lemma {:induction false} ReadVisibleInTurn(r: Repo, store: Store, forgotten: set<Id>, ids: seq<Id>)
    ensures ReadsInTurn(r, store, forgotten, ids, ReadVisible(r, store, forgotten, ids))
    decreases |ids|
  {
    hide ReadListed;
    if ids != [] {
      var n := |ids| - 1;
      ReadVisibleInTurn(r, store, forgotten, ids[..n]);
      ListedHasItsId(r, store, store, forgotten, ids[n]);
      OneMoreInTurn(r, store, forgotten, ids, ReadVisible(r, store, forgotten, ids[..n]));
    }
  }

  lemma {:induction false} OneMoreInTurn(r: Repo, store: Store, forgotten: set<Id>, ids: seq<Id>,
                                         before: Result<seq<Manifest>, Error>)
    requires ids != [] && ReadsInTurn(r, store, forgotten, ids[..|ids| - 1], before)
    ensures var last := ReadListed(r, store, store, forgotten, ids[|ids| - 1]);
            ReadsInTurn(r, store, forgotten, ids,
                        if before.Err? then before else if last.Err? then last else Ok(before.value + last.value))
  {
    hide ReadListed;
    var n := |ids| - 1;
    var init, last := ids[..n], ReadListed(r, store, store, forgotten, ids[n]);
    assert ids == init + [ids[n]];
    ListedHasItsId(r, store, store, forgotten, ids[n]);
    if before.Err? {
      var i :| 0 <= i < n && FailsFirst(r, store, forgotten, init, i, before.error);
      assert FailsFirst(r, store, forgotten, ids, i, before.error);
    } else if last.Err? {
      assert FailsFirst(r, store, forgotten, ids, n, last.error);
    } else {
      assert forall i :: 0 <= i < n ==> ids[i] == init[i];
      assert forall m :: m in last.value <==> last.value == [m];
    }
  }

  lemma SmallerIsEarlier(ids: seq<Id>, j: nat, i: nat)
    requires StrictlyIncreasing(ids) && i < |ids| && j < |ids|
    ensures ids[j] < ids[i] ==> j < i
  {
  }

  /**
   Whatever the store holds, damaged or not: reading the listed commits fails
   with the failure of the smallest id that fails, and otherwise returns the
   manifests that the single commits give, in order and each once.
   */
  lemma {:induction false} ReadCommittedFromExactly(r: Repo, store: Store, forgotten: set<Id>, committed: set<Id>)
    ensures var result := ReadCommittedFrom(r, store, forgotten, committed);
            && (result.Ok? <==> forall id :: id in committed ==> ReadListed(r, store, store, forgotten, id).Ok?)
            && (result.Ok? ==>
                  && InOrder(result.value) && DistinctSnapshots(result.value)
                  && forall m :: m in result.value <==>
                       m.snapshotId in committed && ReadListed(r, store, store, forgotten, m.snapshotId) == Ok([m]))
            && (result.Err? ==>
                  exists id :: id in committed && ReadListed(r, store, store, forgotten, id) == Err(result.error)
                    && forall lower :: lower in committed && lower < id ==>
                         ReadListed(r, store, store, forgotten, lower).Ok?)
  {
    hide ReadListed, ReadVisible, SortManifests, SortedIds, InOrder, DistinctSnapshots, StrictlyIncreasing;
    var ids := SortedIds(committed);
    var read := ReadVisible(r, store, forgotten, ids);
    ReadVisibleInTurn(r, store, forgotten, ids);
    if read.Ok? {
      VisibleIdsIncrease(r, store, forgotten, ids);
      SortKeepsDistinct(read.value);
      forall id | id in committed
        ensures ReadListed(r, store, store, forgotten, id).Ok?
      {
        assert id in ids;
      }
    } else {
      var i :| 0 <= i < |ids| && FailsFirst(r, store, forgotten, ids, i, read.error);
      assert ids[i] in ids;
      forall lower | lower in committed && lower < ids[i]
        ensures ReadListed(r, store, store, forgotten, lower).Ok?
      {
        assert lower in ids;
        var j :| 0 <= j < |ids| && ids[j] == lower;
        SmallerIsEarlier(ids, j, i);
      }
    }
  }

  lemma {:induction false} ReadVisibleMeaning(r: Repo, store: Store, forgotten: set<Id>, ids: seq<Id>)
    requires StoreInv(r, store)
    requires forall i :: 0 <= i < |ids| ==> CommitKey(ids[i]) in store
    ensures ReadVisible(r, store, forgotten, ids).Ok?
            <==> forall i :: 0 <= i < |ids| && ids[i] !in forgotten ==> ReadManifest(r, store, ids[i]).Ok?
    ensures ReadVisible(r, store, forgotten, ids).Ok? ==>
              var ms := ReadVisible(r, store, forgotten, ids).value;
              && (forall m :: m in ms <==> m.snapshotId in ids && m.snapshotId !in forgotten
                                           && ReadManifest(r, store, m.snapshotId) == Ok(m))
  {
    hide StoreInv, ReadListed, ReadManifest, ReadVisible;
    ReadVisibleInTurn(r, store, forgotten, ids);
    forall i | 0 <= i < |ids|
      ensures var read := ReadListed(r, store, store, forgotten, ids[i]);
              && (read.Ok? <==> ids[i] in forgotten || ReadManifest(r, store, ids[i]).Ok?)
              && (read.Ok? ==> read.value == if ids[i] in forgotten then [] else [ReadManifest(r, store, ids[i]).value])
    {
      ListedInOrder(r, store, forgotten, ids[i]);
    }
  }

  lemma ListedInOrder(r: Repo, store: Store, forgotten: set<Id>, id: Id)
    requires StoreInv(r, store) && CommitKey(id) in store
    ensures var read := ReadListed(r, store, store, forgotten, id);
            && (read.Ok? <==> id in forgotten || ReadManifest(r, store, id).Ok?)
            && (read.Ok? ==> read.value == if id in forgotten then [] else [ReadManifest(r, store, id).value])
  {
    hide ReadManifest;
    assert ObjectOk(r, store, CommitKey(id));
  }

  lemma ListedHasItsId(r: Repo, marker: Store, manifest: Store, forgotten: set<Id>, id: Id)
    ensures var read := ReadListed(r, marker, manifest, forgotten, id);
            read.Ok? ==> read.value == [] || (|read.value| == 1 && read.value[0].snapshotId == id)
  {
    hide ReadManifest;
    ReadManifestKeepsId(r, manifest, id);
  }

  ghost predicate IdsAmong(ms: seq<Manifest>, ids: seq<Id>) {
    forall i :: 0 <= i < |ms| ==> ms[i].snapshotId in ids
  }

  lemma {:induction false} VisibleIdsIncrease(r: Repo, store: Store, forgotten: set<Id>, ids: seq<Id>)
    requires StrictlyIncreasing(ids) && ReadVisible(r, store, forgotten, ids).Ok?
    ensures DistinctSnapshots(ReadVisible(r, store, forgotten, ids).value)
    ensures IdsAmong(ReadVisible(r, store, forgotten, ids).value, ids)
    decreases |ids|
  {
    if ids != [] {
      hide ReadListed, DistinctSnapshots, IdsAmong, StrictlyIncreasing;
      var init, last := ids[..|ids| - 1], ids[|ids| - 1];
      LastIsNew(ids);
      VisibleIdsIncrease(r, store, forgotten, init);
      ListedHasItsId(r, store, store, forgotten, last);
      OneMoreDistinct(ReadVisible(r, store, forgotten, init).value,
                      ReadListed(r, store, store, forgotten, last).value, ids);
    }
  }

  lemma LastIsNew(ids: seq<Id>)
    requires ids != [] && StrictlyIncreasing(ids)
    ensures StrictlyIncreasing(ids[..|ids| - 1]) && ids[|ids| - 1] !in ids[..|ids| - 1]
  {
  }

  lemma OneMoreDistinct(ms: seq<Manifest>, more: seq<Manifest>, ids: seq<Id>)
    requires ids != [] && ids[|ids| - 1] !in ids[..|ids| - 1]
    requires DistinctSnapshots(ms) && IdsAmong(ms, ids[..|ids| - 1])
    requires more == [] || (|more| == 1 && more[0].snapshotId == ids[|ids| - 1])
    ensures DistinctSnapshots(ms + more) && IdsAmong(ms + more, ids)
  {
    assert ids == ids[..|ids| - 1] + [ids[|ids| - 1]];
  }

  lemma {:induction false} LastAlong(r: Repo, history: nat -> Store, forgotten: set<Id>, ids: seq<Id>, at: nat)
    returns (last: seq<Manifest>)
    requires ids != [] && ManifestsAlong(r, history, forgotten, ids, at).Ok?
    ensures var before := ManifestsAlong(r, history, forgotten, ids[..|ids| - 1], at);
            before.Ok? && ManifestsAlong(r, history, forgotten, ids, at).value == before.value + last
    ensures last == [] || (|last| == 1 && last[0].snapshotId == ids[|ids| - 1])
  {
    hide ReadListed;
    var n := |ids| - 1;
    last := ReadListed(r, history(at + 2 * n), history(at + 2 * n + 1), forgotten, ids[n]).value;
    ListedHasItsId(r, history(at + 2 * n), history(at + 2 * n + 1), forgotten, ids[n]);
  }

  /** Whatever the store does meanwhile, the reader returns each snapshot once, in order. */
  lemma {:induction false} AlongIsDistinct(r: Repo, history: nat -> Store, forgotten: set<Id>, ids: seq<Id>, at: nat)
    requires StrictlyIncreasing(ids) && ManifestsAlong(r, history, forgotten, ids, at).Ok?
    ensures DistinctSnapshots(ManifestsAlong(r, history, forgotten, ids, at).value)
    ensures IdsAmong(ManifestsAlong(r, history, forgotten, ids, at).value, ids)
    decreases |ids|
  {
    if ids != [] {
      hide DistinctSnapshots, IdsAmong, StrictlyIncreasing, ManifestsAlong;
      LastIsNew(ids);
      var last := LastAlong(r, history, forgotten, ids, at);
      AlongIsDistinct(r, history, forgotten, ids[..|ids| - 1], at);
      OneMoreDistinct(ManifestsAlong(r, history, forgotten, ids[..|ids| - 1], at).value, last, ids);
    }
  }

  lemma {:induction false} InsertKeepsDistinct(ms: seq<Manifest>, m: Manifest)
    requires InOrder(ms) && DistinctSnapshots(ms) && forall i :: 0 <= i < |ms| ==> ms[i].snapshotId != m.snapshotId
    ensures DistinctSnapshots(InsertManifest(ms, m))
    decreases |ms|
  {
    if ms != [] && !NotAfter(ms[|ms| - 1], m) {
      var init, last := ms[..|ms| - 1], ms[|ms| - 1];
      InsertKeepsDistinct(init, m);
      var t := InsertManifest(init, m);
      forall i | 0 <= i < |t|
        ensures t[i].snapshotId != last.snapshotId
      {
        assert t[i] in t;
      }
    }
  }

  lemma {:induction false} SortKeepsDistinct(ms: seq<Manifest>)
    requires DistinctSnapshots(ms)
    ensures DistinctSnapshots(SortManifests(ms))
    decreases |ms|
  {
    if ms != [] {
      var init, last := ms[..|ms| - 1], ms[|ms| - 1];
      SortKeepsDistinct(init);
      var sorted := SortManifests(init);
      forall i | 0 <= i < |sorted|
        ensures sorted[i].snapshotId != last.snapshotId
      {
        assert sorted[i] in init;
      }
      InsertKeepsDistinct(sorted, last);
    }
  }

  /** The promise to a reader whose listings came from `first` and `listed` and whose last read from `last`. */
  ghost predicate SeesPublicationAtomically(r: Repo, first: Store, last: Store, ms: seq<Manifest>) {
    && CommittedIds(first) - ForgottenIds(last) <= SnapshotIds(ms)
    && SnapshotIds(ms) <= CommittedIds(last) - ForgottenIds(first)
    && InOrder(ms) && DistinctSnapshots(ms)
    && forall m :: m in ms ==> ReadManifest(r, last, m.snapshotId) == Ok(m)
  }

  lemma {:induction false} SortedSees(r: Repo, first: Store, listed: Store, last: Store, ms: seq<Manifest>)
    requires Grows(first, listed) && Grows(listed, last) && DistinctSnapshots(ms)
    requires forall m :: m in ms <==> m.snapshotId in CommittedIds(listed) && m.snapshotId !in ForgottenIds(first)
                                      && ReadManifest(r, last, m.snapshotId) == Ok(m)
    requires forall id :: id in CommittedIds(listed) && id !in ForgottenIds(first) ==> ReadManifest(r, last, id).Ok?
    ensures SeesPublicationAtomically(r, first, last, SortManifests(ms))
  {
    hide ReadManifest, SortManifests;
    SortKeepsDistinct(ms);
    forall id | id in CommittedIds(first) - ForgottenIds(last)
      ensures id in SnapshotIds(SortManifests(ms))
    {
      assert CommitKey(id) in listed && ForgetKey(id) !in first;
      ReadManifestKeepsId(r, last, id);
      assert ReadManifest(r, last, id).value in SortManifests(ms);
    }
  }

  /** The promise of a reading in one late state, after the two listings. */
  lemma LateReadingSees(r: Repo, first: Store, listed: Store, last: Store)
    requires StoreInv(r, last) && Grows(first, listed) && Grows(listed, last)
    ensures var result := ReadCommittedFrom(r, last, ForgottenIds(first), CommittedIds(listed));
            && (result.Ok? ==> SeesPublicationAtomically(r, first, last, result.value))
            && (result.Err? ==> exists id :: id in CommittedIds(last) && ReadManifest(r, last, id).Err?)
  {
    hide StoreInv, ReadManifest, SortManifests, SeesPublicationAtomically, ReadVisible, ForgottenIds, SortedIds;
    var ids := SortedIds(CommittedIds(listed));
    forall i | 0 <= i < |ids|
      ensures CommitKey(ids[i]) in last && ids[i] in CommittedIds(last)
    {
      assert ids[i] in ids;
    }
    ReadVisibleMeaning(r, last, ForgottenIds(first), ids);
    var visible := ReadVisible(r, last, ForgottenIds(first), ids);
    if visible.Ok? {
      VisibleIdsIncrease(r, last, ForgottenIds(first), ids);
      forall id | id in CommittedIds(listed) && id !in ForgottenIds(first)
        ensures ReadManifest(r, last, id).Ok?
      {
        assert id in ids;
      }
      SortedSees(r, first, listed, last, visible.value);
    }
  }

  /**
   Beside any writers and forgets, a reader that works operation by operation
   and returns gives every snapshot that was visible throughout, none that is
   uncommitted at the end or was forgotten at the start, each once and with
   its stored manifest, in order of time and id.  It fails only when a
   committed snapshot cannot be read.
   */
  lemma ReadersSeePublicationAtomically(r: Repo, history: nat -> Store)
    requires IsHistory(r, history)
    ensures var result, last := CommittedAlong(r, history), history(EndsAt(history));
            && (result.Ok? ==> SeesPublicationAtomically(r, history(0), last, result.value))
            && (result.Err? ==> exists id :: id in CommittedIds(last) && ReadManifest(r, last, id).Err?)
  {
    hide StoreInv, Grows, ReadManifest, CommittedAlong, ReadCommittedFrom, SeesPublicationAtomically, CommittedIds,
         ForgottenIds, ListedAt;
    StepwiseReadsFrom(r, history);
    EndsAfterListing(history);
    var listed, end := ListedAt(history), EndsAt(history);
    assert StoreInv(r, history(end)) && Grows(history(0), history(listed)) && Grows(history(listed), history(end));
    LateReadingSees(r, history(0), history(listed), history(end));
  }

  lemma EndsAfterListing(history: nat -> Store)
    ensures ListedAt(history) <= EndsAt(history)
  {
  }

  /** Steps that publish neither a commit nor a forget marker change nothing a reader sees. */
  lemma {:induction false} UncommittedStepsAreInvisible(r: Repo, before: Store, after: Store)
    requires StoreInv(r, before) && Grows(before, after)
    requires CommittedIds(after) == CommittedIds(before) && ForgottenIds(after) == ForgottenIds(before)
    ensures ReadCommitted(r, after) == ReadCommitted(r, before)
  {
    hide StoreInv, SortedIds, ReadVisible, ReadMarkers, SortManifests, ForgottenIds, Grows;
    var ids := SortedIds(CommittedIds(before));
    forall i | 0 <= i < |ids|
      ensures CommitKey(ids[i]) in before
    {
      assert ids[i] in ids;
    }
    AllMarkersInOrder(r, before);
    SameMarkers(before, after, SortedIds(ForgottenIds(before)));
    SameVisible(r, before, after, ForgottenIds(before), ids);
  }

  lemma {:induction false} SameMarkers(before: Store, after: Store, ids: seq<Id>)
    requires Grows(before, after) && forall id :: id in ids ==> id in ForgottenIds(before)
    ensures ReadMarkers(after, ids) == ReadMarkers(before, ids)
    decreases |ids|
  {
    hide ReadMarker, Grows;
    if ids != [] {
      var init, last := ids[..|ids| - 1], ids[|ids| - 1];
      SameMarkers(before, after, init);
      assert last in ids;
      MarkerStays(before, after, last);
    }
  }

  lemma {:induction false} SameVisible(r: Repo, before: Store, after: Store, forgotten: set<Id>, ids: seq<Id>)
    requires StoreInv(r, before) && Grows(before, after)
    requires forall i :: 0 <= i < |ids| ==> CommitKey(ids[i]) in before
    ensures ReadVisible(r, after, forgotten, ids) == ReadVisible(r, before, forgotten, ids)
    decreases |ids|
  {
    if ids != [] {
      SameVisible(r, before, after, forgotten, ids[..|ids| - 1]);
      ListedReadsTheSame(r, before, before, after, forgotten, ids[|ids| - 1]);
    }
  }
}
