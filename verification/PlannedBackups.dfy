/**
 From a backup to the plans of later forgets: planning sees each backup with
 the time and tags it was written with, so one with a tag that the policy
 keeps is never marked (crates/fileferry-core/src/lib.rs, `write_snapshot`
 and `read_committed_snapshot_manifests`; crates/fileferry-cli/src/lib.rs,
 `forget`).
 */
module PlannedBackups {
  import opened Common
  import opened Repository
  import opened Readers
  import opened Backup
  import opened ObjectStore
  import opened Integrity
  import opened Protocol
  import opened RetentionRuns
  import opened WriterRuns
  import opened Retention
  import ForgetPlan
  import RetentionPlan
  import RoundTrip
  import Visibility
  import W = WriteSnapshot

  /** Among these snapshots, the one with this id has this time and these tags. */
  ghost predicate SeenAs(snapshots: set<Snapshot>, id: Id, time: nat, tags: seq<string>) {
    && Snapshot(id, time, tags) in snapshots
    && forall s :: s in snapshots && s.id == id ==> s == Snapshot(id, time, tags)
  }

  lemma ReadAsWritten(r: Repo, store: Store, ids: set<Id>, id: Id, time: nat, tags: seq<string>)
    requires AllReadable(r, store, ids) && id in ids
    requires ReadManifest(r, store, id).value.body.createdAt == time
    requires ReadManifest(r, store, id).value.body.tags == tags
    ensures SeenAs(ReadSnapshots(r, store, ids), id, time, tags)
  {
    hide ReadManifest;
    forall other | other in ids { ReadManifestKeepsId(r, store, other); }
  }

  /** What `write_snapshot` has published is planned for with its time and tags, whatever was added since. */
  lemma WrittenIsPlanned(r: Repo, env: W.Env, sources: seq<W.SourceEntry>, tags: seq<string>, before: Store,
                         after: Store, written: W.WriteResult, later: Store, ids: set<Id>)
    requires W.Published(r, env, sources, tags, before, after, written) && Grows(after, later)
    requires AllReadable(r, later, ids) && written.snapshotId in ids
    ensures SeenAs(ReadSnapshots(r, later, ids), written.snapshotId, env.now, tags)
  {
    hide W.HoldsIndex, W.IndexesReferences, W.Describes;
    ReadAsWritten(r, later, ids, written.snapshotId, env.now, tags);
  }

  /** The same of a backup that is done, in every later state of every run. */
  lemma {:induction false} DoneIsPlanned(r: Repo, policy: Policy, w0: World, events: seq<Event>, more: seq<Event>,
                                         c: nat, ids: set<Id>)
    requires CollisionFree(r) && Init(w0) && RoundTrip.IsDone(Run(r, policy, w0, events), c)
    requires var client := Run(r, policy, w0, events).clients[c];
             RoundTrip.SnapshotOfClient(r, client) in ids
    requires AllReadable(r, Run(r, policy, Run(r, policy, w0, events), more).store, ids)
    ensures var w := Run(r, policy, w0, events);
            SeenAs(ReadSnapshots(r, Run(r, policy, w, more).store, ids), RoundTrip.SnapshotOfClient(r, w.clients[c]),
                   w.clients[c].backup.now, w.clients[c].job.tags)
  {
    hide CollisionFree, StoreInv, ReadManifest, AllReadable, EntriesOf, IndexDoc, Run, Init;
    var client := Run(r, policy, w0, events).clients[c];
    RoundTrip.DoneStaysCommitted(r, policy, w0, events, more, c);
    var later := Run(r, policy, Run(r, policy, w0, events), more).store;
    RoundTrip.StoredManifestIsOurs(r, later, client.job, client.backup.now);
    assert ReadManifest(r, later, RoundTrip.SnapshotOfClient(r, client)).Ok? by { ReadableMember(r, later, ids); }
    ReadAsWritten(r, later, ids, RoundTrip.SnapshotOfClient(r, client), client.backup.now, client.job.tags);
  }

  lemma ReadableMember(r: Repo, store: Store, ids: set<Id>)
    requires AllReadable(r, store, ids)
    ensures forall id :: id in ids ==> ReadManifest(r, store, id).Ok?
  {
  }

  /** The whole reader with the listing, as `forget` plans with it. */
  lemma WrittenIsRead(r: Repo, env: W.Env, sources: seq<W.SourceEntry>, tags: seq<string>, before: Store,
                      after: Store, written: W.WriteResult, later: Store, forgotten: set<Id>)
    requires W.Published(r, env, sources, tags, before, after, written) && Grows(after, later)
    requires StoreInv(r, later) && written.snapshotId !in forgotten
    ensures var read := Visibility.ReadCommittedFrom(r, later, forgotten, CommittedIds(later));
            read.Ok? ==> SeenAs(RetentionPlan.ToSet(ForgetPlan.SnapshotsOf(read.value)),
                                written.snapshotId, env.now, tags)
  {
    hide StoreInv, W.HoldsManifest, W.HoldsIndex, W.IndexesReferences, SeenAs, AllReadable, ReadSnapshots,
         Visibility.ReadCommittedFrom;
    ForgetPlan.ReadingGivesTheSnapshots(r, later, forgotten);
    assert CommitKey(written.snapshotId) in later;
    if AllReadable(r, later, CommittedIds(later) - forgotten) {
      WrittenIsPlanned(r, env, sources, tags, before, after, written, later, CommittedIds(later) - forgotten);
    }
  }

  // ---------- Tags that the policy keeps ----------

  /** A committed snapshot with a tag that the policy keeps. */
  ghost predicate HasKeptTag(policy: Policy, store: Store, id: Id) {
    && CommitKey(id) in store && HasManifest(store, id) && store[ManifestKey(id)].payload.manifest.snapshotId == id
    && exists tag :: tag in store[ManifestKey(id)].payload.manifest.body.tags && tag in policy.keepTags
  }

  lemma KeptTagIsKept(policy: Policy, store: Store, id: Id)
    requires HasKeptTag(policy, store, id)
    ensures id in KeptIds(policy, store)
  {
    var tag :| tag in store[ManifestKey(id)].payload.manifest.body.tags && tag in policy.keepTags;
    var all, s := AllSnapshots(store), SnapshotAt(store, id);
    assert id in CommittedIds(store);
    assert s in all;
    TagRuleSelects(policy, all, s, tag);
  }

  lemma TagRuleSelects(policy: Policy, all: set<Snapshot>, s: Snapshot, tag: string)
    requires s in all && tag in s.tags && tag in policy.keepTags
    ensures s in Kept(policy, all)
  {
    var i :| 0 <= i < |policy.keepTags| && policy.keepTags[i] == tag;
    assert TagRules(policy.keepTags)[i] == KeepTag(tag);
    assert KeepTag(tag) in RulesOf(policy) && Selects(KeepTag(tag), all, s);
  }

  lemma {:induction false} KeptTagIsNeverMarked(r: Repo, policy: Policy, w: World, events: seq<Event>, id: Id)
    requires CollisionFree(r) && RetentionInv(r, policy, w) && HasKeptTag(policy, w.store, id)
    ensures ForgetKey(id) !in Run(r, policy, w, events).store
  {
    hide CollisionFree, StoreInv, KeptIds, HasKeptTag;
    RunKeepsRetention(r, policy, w, events);
    RunKeepsInv(r, policy, w, events);
    TagStays(policy, w.store, Run(r, policy, w, events).store, id);
    KeptTagIsKept(policy, Run(r, policy, w, events).store, id);
    assert ForgetKey(id) in Run(r, policy, w, events).store ==> id in ForgottenIds(Run(r, policy, w, events).store);
  }

  lemma TagStays(policy: Policy, earlier: Store, later: Store, id: Id)
    requires Grows(earlier, later) && HasKeptTag(policy, earlier, id)
    ensures HasKeptTag(policy, later, id)
  {
  }

  lemma NewClientKeepsRetention(r: Repo, policy: Policy, w: World, client: Client)
    requires RetentionInv(r, policy, w) && client.BackupClient? && IsStart(client)
    ensures RetentionInv(r, policy, World(w.store, w.clients + [client]))
  {
    hide StoreInv, KeptIds;
    NextChunkIsOk(r, w.store, client.job, 0);
  }

  lemma PublishedHasKeptTag(r: Repo, policy: Policy, env: W.Env, sources: seq<W.SourceEntry>, tags: seq<string>,
                            tag: string, before: Store, after: Store, written: W.WriteResult)
    requires W.Published(r, env, sources, tags, before, after, written) && tag in tags && tag in policy.keepTags
    ensures HasKeptTag(policy, after, written.snapshotId)
  {
    hide W.HoldsIndex, W.IndexesReferences, W.Describes;
    var m := after[ManifestKey(written.snapshotId)].payload.manifest;
    assert tag in m.body.tags && tag in policy.keepTags;
  }

  /**
   A backup with a tag that the policy keeps, written in any reachable state:
   whatever backups, forgets and key additions do from then on, no forget
   marker for it ever appears.
   */
  method KeepTaggedBackup(store: W.SharedStore, r: Repo, env: W.Env, sources: seq<W.SourceEntry>, tags: seq<string>,
                          ghost tag: string, ghost policy: Policy, ghost w0: World, ghost events: seq<Event>)
    returns (result: Result<W.WriteResult, W.WriteError>, ghost end: World)
    requires CollisionFree(r) && Init(w0) && store.objects == Run(r, policy, w0, events).store
    requires tag in tags && tag in policy.keepTags
    modifies store
    ensures end.store == store.objects
    ensures var w := Run(r, policy, w0, events);
            |end.clients| == |w.clients| + 1 && end.clients[..|w.clients|] == w.clients
    ensures result.Ok? ==>
              forall more: seq<Event> :: ForgetKey(result.value.snapshotId) !in Run(r, policy, end, more).store
  {
    hide CollisionFree, RetentionInv, HasKeptTag, W.Published, Run, Init, StoreInv, ManifestDoc, IsStart;
    InitHasRetention(r, policy, w0);
    RunKeepsRetention(r, policy, w0, events);
    ghost var w, before := Run(r, policy, w0, events), store.objects;
    ghost var client, own;
    result, client, own := WriteAsClient(store, r, env, sources, tags, policy, w);
    ghost var joined := World(w.store, w.clients + [client]);
    end := Run(r, policy, joined, own);
    NewClientKeepsRetention(r, policy, w, client);
    RunKeepsRetention(r, policy, joined, own);
    if result.Ok? {
      PublishedHasKeptTag(r, policy, env, sources, tags, tag, before, store.objects, result.value);
      forall more: seq<Event>
        ensures ForgetKey(result.value.snapshotId) !in Run(r, policy, end, more).store
      {
        KeptTagIsNeverMarked(r, policy, end, more, result.value.snapshotId);
      }
    }
  }
}
