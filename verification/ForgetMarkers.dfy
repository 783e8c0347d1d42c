/**
 Writing forget markers (crates/fileferry-core/src/lib.rs,
 `write_snapshot_forget_markers`).  The forget client of module Protocol, run
 alone, leaves the same markers.
 */
module ForgetMarkers {
  import opened Common
  import opened Repository
  import opened Backup
  import opened ObjectStore
  import opened Protocol
  import Retention
  import WriterRuns

  type SharedStore = FakeObjectStore<Key, Object>

  datatype MarkerWrite = MarkerWrite(snapshotId: Id, markerObject: Key, created: bool)

  datatype ForgetError = NoSnapshotsMatched | MarkerStorage | Reading(error: Error)

  // ---------- Markers ----------

  /** The store has the marker that forgets this snapshot at this time. */
  predicate Marked(store: Store, id: Id, now: nat) {
    && ForgetKey(id) in store
    && store[ForgetKey(id)] == ForgetDoc(ForgetMarker(0, id, ManifestKey(id), CommitKey(id), now))
  }

  /** Nothing else is in the way of that marker. */
  predicate CanMark(store: Store, id: Id, now: nat) {
    ForgetKey(id) in store ==> Marked(store, id, now)
  }

  /** These ids were marked, and nothing else was added or changed. */
  ghost predicate OnlyMarked(before: Store, after: Store, ids: set<Id>, now: nat) {
    && (forall k :: k in before ==> k in after && after[k] == before[k])
    && (forall id :: id in ids ==> Marked(after, id, now))
    && (forall k :: k in after && k !in before ==> k.ForgetKey? && k.id in ids)
  }

  lemma OnlyMarkedIsUnique(before: Store, a: Store, b: Store, ids: set<Id>, now: nat)
    requires OnlyMarked(before, a, ids, now) && OnlyMarked(before, b, ids, now)
    ensures a == b
  {
    forall k | k in a
      ensures k in b && b[k] == a[k]
    {
      assert k in before || Marked(a, k.id, now);
    }
    assert a.Keys == b.Keys;
  }

  lemma MarkOneMore(before: Store, now: Store, ids: set<Id>, id: Id, time: nat)
    requires OnlyMarked(before, now, ids, time)
    ensures CanMark(now, id, time) <==> CanMark(before, id, time)
    ensures var put := Put(now, ForgetKey(id), MarkerFor(id, time));
            && (put.status.Ok? <==> CanMark(before, id, time))
            && (put.status.Ok? ==> OnlyMarked(before, put.objects, ids + {id}, time))
            && (put.status.Err? ==> put.objects == now)
            && (put.status == Ok(Created) <==> ForgetKey(id) !in before && id !in ids)
  {
  }

  function IdSet(ids: seq<Id>): set<Id> {
    set id | id in ids
  }

  function SmallerIds(ids: seq<Id>, bound: Id): set<Id> {
    set id | id in ids && id < bound
  }

  /** The first `n` of these ids. */
  ghost function FirstIds(ids: seq<Id>, n: nat): set<Id>
    requires n <= |ids|
  {
    set i | 0 <= i < n :: ids[i]
  }

  lemma NoneMarked(store: Store, ids: seq<Id>, now: nat)
    ensures FirstIds(ids, 0) == {} && OnlyMarked(store, store, {}, now)
  {
  }

  lemma OneMoreId(ids: seq<Id>, n: nat)
    requires n < |ids|
    ensures FirstIds(ids, n + 1) == FirstIds(ids, n) + {ids[n]}
  {
  }

  /** One write for each id, in order, and what it says of the store before. */
  ghost predicate Reports(before: Store, ids: seq<Id>, n: nat, writes: seq<MarkerWrite>)
    requires n <= |ids|
  {
    |writes| == n
    && forall i :: 0 <= i < n ==> writes[i] == MarkerWrite(ids[i], ForgetKey(ids[i]), ForgetKey(ids[i]) !in before)
  }

  /** The loop of `write_snapshot_forget_markers`, up to the first marker that is refused. */
  method MarkAll(store: SharedStore, ids: seq<Id>, now: nat) returns (result: Result<seq<MarkerWrite>, ForgetError>)
    requires StrictlyIncreasing(ids)
    modifies store
    ensures result.Ok? ==>
              && (forall id :: id in ids ==> CanMark(old(store.objects), id, now))
              && OnlyMarked(old(store.objects), store.objects, FirstIds(ids, |ids|), now)
              && Reports(old(store.objects), ids, |ids|, result.value)
    ensures result.Err? ==> result.error == MarkerStorage && StopsAtMark(old(store.objects), store.objects, ids, now)
  {
    hide OnlyMarked, Reports, FirstIds, Put, CanMark, StopsAtMark;
    ghost var before := store.objects;
    var writes: seq<MarkerWrite> := [];
    NoneMarked(before, ids, now);
    NothingReported(before, ids);
    for i := 0 to |ids|
      invariant forall j :: 0 <= j < i ==> CanMark(before, ids[j], now)
      invariant OnlyMarked(before, store.objects, FirstIds(ids, i), now) && Reports(before, ids, i, writes)
    {
      MarkOneMore(before, store.objects, FirstIds(ids, i), ids[i], now);
      OneMoreId(ids, i);
      var status := store.PutIfAbsent(ForgetKey(ids[i]), MarkerFor(ids[i], now));
      if status.Err? {
        MarkRefused(before, store.objects, ids, now, i);
        return Err(MarkerStorage);
      }
      LaterIdIsNew(ids, i);
      OneMoreReported(before, ids, i, writes, status.value == Created);
      writes := writes + [MarkerWrite(ids[i], ForgetKey(ids[i]), status.value == Created)];
    }
    return Ok(writes);
  }

  lemma NothingReported(before: Store, ids: seq<Id>)
    ensures Reports(before, ids, 0, [])
  {
  }

  lemma OneMoreReported(before: Store, ids: seq<Id>, n: nat, writes: seq<MarkerWrite>, created: bool)
    requires n < |ids| && Reports(before, ids, n, writes) && (created <==> ForgetKey(ids[n]) !in before)
    ensures Reports(before, ids, n + 1, writes + [MarkerWrite(ids[n], ForgetKey(ids[n]), created)])
  {
  }

  lemma LaterIdIsNew(ids: seq<Id>, n: nat)
    requires n < |ids| && StrictlyIncreasing(ids)
    ensures ids[n] !in FirstIds(ids, n)
  {
  }

  /** Some id cannot be marked; exactly the smaller ones were. */
  ghost predicate StopsAtMark(before: Store, after: Store, ids: seq<Id>, now: nat) {
    exists bad :: bad in ids && StopsAtId(before, after, ids, now, bad)
  }

  ghost predicate StopsAtId(before: Store, after: Store, ids: seq<Id>, now: nat, bad: Id) {
    && !CanMark(before, bad, now)
    && (forall id :: id in ids && id < bad ==> CanMark(before, id, now))
    && OnlyMarked(before, after, SmallerIds(ids, bad), now)
  }

  lemma MarkRefused(before: Store, after: Store, ids: seq<Id>, now: nat, i: nat)
    requires i < |ids| && StrictlyIncreasing(ids) && !CanMark(before, ids[i], now)
    requires (forall j :: 0 <= j < i ==> CanMark(before, ids[j], now))
    requires OnlyMarked(before, after, FirstIds(ids, i), now)
    ensures StopsAtMark(before, after, ids, now)
  {
    hide OnlyMarked, CanMark;
    SmallerAreFirst(ids, i);
    forall id | id in ids && id < ids[i]
      ensures CanMark(before, id, now)
    {
      assert id in FirstIds(ids, i);
    }
    assert StopsAtId(before, after, ids, now, ids[i]);
  }

  lemma SmallerAreFirst(ids: seq<Id>, i: nat)
    requires i < |ids| && StrictlyIncreasing(ids)
    ensures FirstIds(ids, i) == SmallerIds(ids, ids[i])
  {
  }

  lemma FirstIdsAreAll(ids: seq<Id>)
    ensures FirstIds(ids, |ids|) == IdSet(ids)
  {
  }

  /** The ids that are reported are these ids, each once and in order, each with its marker's key. */
  ghost predicate ReportsAll(before: Store, ids: seq<Id>, writes: seq<MarkerWrite>) {
    && (forall i, j :: 0 <= i < j < |writes| ==> writes[i].snapshotId < writes[j].snapshotId)
    && (forall id :: id in ids <==> MarkerWrite(id, ForgetKey(id), ForgetKey(id) !in before) in writes)
    && (forall w :: w in writes ==> w == MarkerWrite(w.snapshotId, ForgetKey(w.snapshotId),
                                                     ForgetKey(w.snapshotId) !in before))
  }

  lemma {:induction false} ReportsThese(before: Store, ids: seq<Id>, sorted: seq<Id>, writes: seq<MarkerWrite>)
    requires StrictlyIncreasing(sorted) && (forall id :: id in sorted <==> id in ids)
    requires Reports(before, sorted, |sorted|, writes)
    ensures ReportsAll(before, ids, writes)
  {
    forall id | id in ids
      ensures MarkerWrite(id, ForgetKey(id), ForgetKey(id) !in before) in writes
    {
      var i :| 0 <= i < |sorted| && sorted[i] == id;
      assert writes[i] in writes;
    }
  }

  /**
   `write_snapshot_forget_markers`: fails on no ids; otherwise marks each id,
   or, when something else is in the way of a marker, those below the smallest
   such id.
   */
  method WriteForgetMarkers(store: SharedStore, ids: seq<Id>, now: nat)
    returns (result: Result<seq<MarkerWrite>, ForgetError>)
    modifies store
    ensures result.Ok? <==> ids != [] && forall id :: id in ids ==> CanMark(old(store.objects), id, now)
    ensures result.Ok? ==>
              && OnlyMarked(old(store.objects), store.objects, IdSet(ids), now)
              && ReportsAll(old(store.objects), ids, result.value)
    ensures ids == [] ==> result == Err(NoSnapshotsMatched) && store.objects == old(store.objects)
    ensures result.Err? && ids != [] ==>
              result.error == MarkerStorage && StopsAtMark(old(store.objects), store.objects, ids, now)
  {
    hide OnlyMarked, Reports, ReportsAll, StopsAtId, CanMark;
    if ids == [] {
      return Err(NoSnapshotsMatched);
    }
    var sorted := SortedIds(IdSet(ids));
    FirstIdsAreAll(sorted);
    assert IdSet(sorted) == IdSet(ids);
    ghost var before := store.objects;
    result := MarkAll(store, sorted, now);
    match result {
      case Ok(writes) =>
        ReportsThese(before, ids, sorted, writes);
      case Err(_) =>
        StopsAtSame(before, store.objects, ids, sorted, now);
    }
  }

  lemma {:induction false} StopsAtSame(before: Store, after: Store, ids: seq<Id>, sorted: seq<Id>, now: nat)
    requires (forall id :: id in sorted <==> id in ids) && StopsAtMark(before, after, sorted, now)
    ensures StopsAtMark(before, after, ids, now)
    ensures !forall id :: id in ids ==> CanMark(before, id, now)
  {
    hide OnlyMarked, CanMark;
    var bad :| bad in sorted && StopsAtId(before, after, sorted, now, bad);
    assert SmallerIds(sorted, bad) == SmallerIds(ids, bad);
    assert StopsAtId(before, after, ids, now, bad);
  }

  // ---------- The forget client of module Protocol ----------

  lemma ForgetStepAt(r: Repo, policy: Retention.Policy, w: World, c: nat, input: Input)
    requires c < |w.clients| && w.clients[c].ForgetClient?
    ensures var (store, next) := ForgetStep(r, policy, w.store, w.clients[c].forget, input);
            Step(r, policy, w, c, input) == World(store, w.clients[c := ForgetClient(next)])
  {
    hide ForgetStep;
  }

  lemma MarkingStep(r: Repo, policy: Retention.Policy, w: World, c: nat, todo: seq<Id>, now: nat, input: Input)
    requires c < |w.clients| && w.clients[c] == ForgetClient(Marking(todo, now)) && todo != []
    ensures var put := Put(w.store, ForgetKey(todo[0]), MarkerFor(todo[0], now));
            Step(r, policy, w, c, input)
            == World(put.objects,
                     w.clients[c := ForgetClient(if put.status.Ok? then Marking(todo[1..], now) else ForgetFailed)])
  {
    hide MarkerFor, Put;
    ForgetStepAt(r, policy, w, c, input);
  }

  lemma RunFirst(r: Repo, policy: Retention.Policy, w: World, e: Event, rest: seq<Event>)
    ensures Run(r, policy, w, [e] + rest) == Run(r, policy, Step(r, policy, w, e.client, e.input), rest)
  {
    hide Step;
    assert ([e] + rest)[1..] == rest;
  }

  /** Only this client takes steps. */
  predicate OnlyClient(events: seq<Event>, c: nat) {
    forall i :: 0 <= i < |events| ==> events[i].client == c
  }

  /** The n-th id is the first that cannot be marked, and those before it were. */
  ghost predicate FailsAt(before: Store, after: Store, todo: seq<Id>, n: nat, now: nat, marked: set<Id>)
    requires n < |todo|
  {
    && !CanMark(before, todo[n], now)
    && (forall i :: 0 <= i < n ==> CanMark(before, todo[i], now))
    && OnlyMarked(before, after, marked + FirstIds(todo, n), now)
  }

  /**
   How a client ends that has `todo` left: it has marked these ids and has
   nothing left, or it has failed at the first id that it could not mark.
   */
  ghost predicate MarkingEnds(before: Store, end: World, clients: seq<Client>, c: nat, todo: seq<Id>, now: nat,
                              marked: set<Id>, steps: nat)
    requires c < |clients|
  {
    if forall id :: id in todo ==> CanMark(before, id, now) then
      && steps == |todo| && end.clients == clients[c := ForgetClient(Marking([], now))]
      && OnlyMarked(before, end.store, marked + IdSet(todo), now)
    else
      && end.clients == clients[c := ForgetClient(ForgetFailed)]
      && exists n :: 0 <= n < |todo| && FailsAt(before, end.store, todo, n, now, marked)
  }

  lemma {:induction false} FailsLater(before: Store, after: Store, todo: seq<Id>, n: nat, now: nat, marked: set<Id>)
    requires todo != [] && n < |todo| - 1 && CanMark(before, todo[0], now)
    requires FailsAt(before, after, todo[1..], n, now, marked + {todo[0]})
    ensures FailsAt(before, after, todo, n + 1, now, marked)
  {
    hide OnlyMarked, CanMark;
    forall i | 0 <= i < n + 1
      ensures CanMark(before, todo[i], now)
    {
      assert i > 0 ==> todo[1..][i - 1] == todo[i];
    }
    assert FirstIds(todo, n + 1) == {todo[0]} + FirstIds(todo[1..], n) by {
      assert forall i :: 0 < i < n + 1 ==> todo[i] == todo[1..][i - 1];
    }
    assert marked + {todo[0]} + FirstIds(todo[1..], n) == marked + FirstIds(todo, n + 1);
  }

  lemma {:induction false} MarkedOneMore(before: Store, end: World, clients: seq<Client>, c: nat, todo: seq<Id>,
                                         now: nat, marked: set<Id>, steps: nat)
    requires c < |clients| && todo != [] && CanMark(before, todo[0], now)
    requires MarkingEnds(before, end, clients[c := ForgetClient(Marking(todo[1..], now))], c, todo[1..], now,
                         marked + {todo[0]}, steps)
    ensures MarkingEnds(before, end, clients, c, todo, now, marked, steps + 1)
  {
    hide OnlyMarked, CanMark, FailsAt;
    assert todo == [todo[0]] + todo[1..];
    assert marked + {todo[0]} + IdSet(todo[1..]) == marked + IdSet(todo);
    if n :| 0 <= n < |todo| - 1 && FailsAt(before, end.store, todo[1..], n, now, marked + {todo[0]}) {
      FailsLater(before, end.store, todo, n, now, marked);
    }
  }

  lemma {:induction false} NothingToMark(before: Store, end: World, clients: seq<Client>, c: nat, now: nat,
                                         marked: set<Id>)
    requires c < |clients| && clients[c] == ForgetClient(Marking([], now)) && end.clients == clients
    requires OnlyMarked(before, end.store, marked, now)
    ensures MarkingEnds(before, end, clients, c, [], now, marked, 0)
  {
    hide OnlyMarked;
    assert marked + IdSet([]) == marked;
  }

  lemma {:induction false} RefusedAtOnce(before: Store, end: World, clients: seq<Client>, c: nat, todo: seq<Id>,
                                         now: nat, marked: set<Id>)
    requires c < |clients| && todo != [] && !CanMark(before, todo[0], now)
    requires end.clients == clients[c := ForgetClient(ForgetFailed)] && OnlyMarked(before, end.store, marked, now)
    ensures MarkingEnds(before, end, clients, c, todo, now, marked, 1)
  {
    hide OnlyMarked, CanMark;
    assert marked + FirstIds(todo, 0) == marked;
    assert FailsAt(before, end.store, todo, 0, now, marked);
  }

  /** A forget client that takes as many steps as it has ids left, while all others pause. */
  lemma {:induction false} MarkingIsARun(r: Repo, policy: Retention.Policy, w: World, c: nat, todo: seq<Id>, now: nat,
                                         before: Store, marked: set<Id>)
    returns (events: seq<Event>)
    requires c < |w.clients| && w.clients[c] == ForgetClient(Marking(todo, now))
    requires OnlyMarked(before, w.store, marked, now)
    ensures |events| <= |todo| && OnlyClient(events, c)
    ensures MarkingEnds(before, Run(r, policy, w, events), w.clients, c, todo, now, marked, |events|)
    decreases |todo|
  {
    hide OnlyMarked, CanMark, Put, MarkerFor, Step, MarkingEnds;
    events := [];
    if todo == [] {
      NothingToMark(before, w, w.clients, c, now, marked);
    } else {
      hide Run;
      var input := Input(0, now);
      MarkOneMore(before, w.store, marked, todo[0], now);
      MarkingStep(r, policy, w, c, todo, now, input);
      var next := Step(r, policy, w, c, input);
      if CanMark(before, todo[0], now) {
        var rest := MarkingIsARun(r, policy, next, c, todo[1..], now, before, marked + {todo[0]});
        events := [Event(c, input)] + rest;
        RunFirst(r, policy, w, Event(c, input), rest);
        MarkedOneMore(before, Run(r, policy, next, rest), w.clients, c, todo, now, marked, |rest|);
      } else {
        events := [Event(c, input)];
        WriterRuns.RunOne(r, policy, w, Event(c, input));
        RefusedAtOnce(before, next, w.clients, c, todo, now, marked);
      }
    }
  }

  /** The smallest id that cannot be marked is the first one in order. */
  lemma {:induction false} SameStop(before: Store, a: Store, b: Store, ids: seq<Id>, n: nat, now: nat)
    requires StrictlyIncreasing(ids) && n < |ids|
    requires FailsAt(before, a, ids, n, now, {}) && StopsAtMark(before, b, ids, now)
    ensures a == b
  {
    hide OnlyMarked, CanMark;
    var bad :| bad in ids && StopsAtId(before, b, ids, now, bad);
    var i :| 0 <= i < |ids| && ids[i] == bad;
    assert ids[n] in ids;
    assert i == n;
    SmallerAreFirst(ids, n);
    assert {} + FirstIds(ids, n) == SmallerIds(ids, bad);
    OnlyMarkedIsUnique(before, a, b, SmallerIds(ids, bad), now);
  }

  /**
   `write_snapshot_forget_markers` and the forget client with the same plan:
   run alone, the client leaves the same store, and has marked all of its plan
   exactly when the writer succeeds.
   */
  method WriteMarkersAsClient(store: SharedStore, ids: seq<Id>, now: nat, ghost r: Repo,
                              ghost policy: Retention.Policy, ghost w: World, ghost c: nat)
    returns (result: Result<seq<MarkerWrite>, ForgetError>, ghost events: seq<Event>)
    requires ids != [] && StrictlyIncreasing(ids) && store.objects == w.store
    requires c < |w.clients| && w.clients[c] == ForgetClient(Marking(ids, now))
    modifies store
    ensures OnlyClient(events, c) && |events| <= |ids| && (result.Ok? ==> |events| == |ids|)
    ensures Run(r, policy, w, events)
            == World(store.objects,
                     w.clients[c := ForgetClient(if result.Ok? then Marking([], now) else ForgetFailed)])
    ensures result.Ok? <==> forall id :: id in ids ==> CanMark(old(store.objects), id, now)
    ensures result.Ok? ==> OnlyMarked(old(store.objects), store.objects, IdSet(ids), now)
    ensures result.Err? ==> StopsAtMark(old(store.objects), store.objects, ids, now)
  {
    hide OnlyMarked, CanMark, Run, ReportsAll, StopsAtMark, FailsAt;
    ghost var before := store.objects;
    result := WriteForgetMarkers(store, ids, now);
    NoneMarked(before, ids, now);
    events := MarkingIsARun(r, policy, w, c, ids, now, before, {});
    ghost var end := Run(r, policy, w, events);
    if result.Ok? {
      assert {} + IdSet(ids) == IdSet(ids);
      OnlyMarkedIsUnique(before, end.store, store.objects, IdSet(ids), now);
    } else {
      ghost var n :| 0 <= n < |ids| && FailsAt(before, end.store, ids, n, now, {});
      SameStop(before, end.store, store.objects, ids, n, now);
    }
  }

  /** A forget client with nothing in its way puts a marker for each id it has planned, and nothing else. */
  lemma {:induction false} ForgetMarksItsPlan(r: Repo, policy: Retention.Policy, w: World, c: nat, todo: seq<Id>,
                                              now: nat)
    returns (events: seq<Event>)
    requires c < |w.clients| && w.clients[c] == ForgetClient(Marking(todo, now))
    requires forall id :: id in todo ==> ForgetKey(id) !in w.store
    ensures |events| == |todo| && OnlyClient(events, c)
    ensures var end := Run(r, policy, w, events);
            && end.clients == w.clients[c := ForgetClient(Marking([], now))]
            && (forall id :: id in todo ==>
                  && ForgetKey(id) in end.store
                  && end.store[ForgetKey(id)]
                     == ForgetDoc(ForgetMarker(0, id, ManifestKey(id), CommitKey(id), now)))
            && (forall k :: k in w.store ==> k in end.store && end.store[k] == w.store[k])
            && (forall k :: k in end.store && k !in w.store ==> k.ForgetKey? && k.id in todo)
  {
    hide Run;
    NoneMarked(w.store, todo, now);
    events := MarkingIsARun(r, policy, w, c, todo, now, w.store, {});
    assert {} + IdSet(todo) == IdSet(todo);
    forall id | id in todo
      ensures Marked(Run(r, policy, w, events).store, id, now)
    {
      assert id in IdSet(todo);
    }
  }
}
