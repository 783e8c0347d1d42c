/**
 Which snapshots a retention policy keeps.

 `Kept` is the reference: a snapshot is kept when some rule selects it among
 the snapshots it competes with.  Rules look only at the set of snapshots,
 never at a listing order.
 */
module Retention {
  import opened Common
  import Calendar

  datatype Snapshot = Snapshot(id: Id, time: nat, tags: seq<string>)

  type Count = n: nat | 0 < n < 0x1_0000_0000 witness 1

  datatype Policy = Policy(
    keepLast: Option<Count>, keepHourly: Option<Count>, keepDaily: Option<Count>,
    keepWeekly: Option<Count>, keepMonthly: Option<Count>, keepYearly: Option<Count>,
    keepTags: seq<string>)

  datatype Period = EachSnapshot | Hour | Day | Week | Month | Year

  datatype Rule = KeepNewest(period: Period, count: Count) | KeepTag(tag: string)

  function CountRule(period: Period, count: Option<Count>): seq<Rule> {
    if count.None? then [] else [KeepNewest(period, count.value)]
  }

  function TagRules(tags: seq<string>): (r: seq<Rule>) {
    seq(|tags|, i requires 0 <= i < |tags| => KeepTag(tags[i]))
  }

  function CountRules(policy: Policy): seq<Rule> {
    CountRule(EachSnapshot, policy.keepLast) + CountRule(Hour, policy.keepHourly)
    + CountRule(Day, policy.keepDaily) + CountRule(Week, policy.keepWeekly)
    + CountRule(Month, policy.keepMonthly) + CountRule(Year, policy.keepYearly)
  }

  function RulesOf(policy: Policy): seq<Rule> {
    CountRules(policy) + TagRules(policy.keepTags)
  }

  /** Newest first: by time, then by id. */
  predicate Newer(a: Snapshot, b: Snapshot) {
    a.time > b.time || (a.time == b.time && a.id > b.id)
  }

  datatype Bucket = Itself(snapshot: Snapshot) | Block(number: int)

  /** Weeks are blocks of 604800 seconds from the epoch, not calendar weeks. */
  function BucketOf(period: Period): Snapshot -> Bucket {
    match period
    case EachSnapshot => (s: Snapshot) => Itself(s)
    case Hour => (s: Snapshot) => Block(s.time / 3600)
    case Day => (s: Snapshot) => Block(s.time / 86400)
    case Week => (s: Snapshot) => Block(s.time / 604800)
    case Month => (s: Snapshot) => Block(Calendar.MonthBucket(s.time))
    case Year => (s: Snapshot) => Block(Calendar.YearBucket(s.time))
  }

  ghost function NewerBuckets(bucket: Snapshot -> Bucket, among: set<Snapshot>, s: Snapshot): set<Bucket> {
    set t | t in among && Newer(t, s) :: bucket(t)
  }

  ghost predicate IsLeader(bucket: Snapshot -> Bucket, among: set<Snapshot>, s: Snapshot) {
    forall t :: t in among && Newer(t, s) ==> bucket(t) != bucket(s)
  }

  /** `s` is newest in its bucket, and fewer than `count` buckets are newer. */
  ghost predicate LeadsRecentBucket(bucket: Snapshot -> Bucket, count: Count, among: set<Snapshot>, s: Snapshot) {
    IsLeader(bucket, among, s) && |NewerBuckets(bucket, among, s)| < count
  }

  ghost predicate Selects(rule: Rule, among: set<Snapshot>, s: Snapshot) {
    match rule
    case KeepNewest(period, count) => LeadsRecentBucket(BucketOf(period), count, among, s)
    case KeepTag(tag) => tag in s.tags
  }

  ghost predicate IsKept(policy: Policy, among: set<Snapshot>, s: Snapshot) {
    exists rule :: rule in RulesOf(policy) && Selects(rule, among, s)
  }

  ghost function Kept(policy: Policy, among: set<Snapshot>): set<Snapshot> {
    set s | s in among && IsKept(policy, among, s)
  }

  predicate DistinctIds(among: set<Snapshot>) {
    forall a, b :: a in among && b in among && a.id == b.id ==> a == b
  }

  // ---------- Rules on smaller and larger sets ----------

  /** A selected snapshot stays selected when competitors disappear. */
  lemma SelectionIsInherited(rule: Rule, all: set<Snapshot>, some: set<Snapshot>, s: Snapshot)
    requires some <= all && Selects(rule, all, s)
    ensures Selects(rule, some, s)
  {
    if rule.KeepNewest? {
      var bucket := BucketOf(rule.period);
      SubsetIsSmaller(NewerBuckets(bucket, some, s), NewerBuckets(bucket, all, s));
    }
  }

  lemma {:induction false} NewestOf(among: set<Snapshot>) returns (newest: Snapshot)
    requires among != {} && DistinctIds(among)
    ensures newest in among && forall t :: t in among && t != newest ==> Newer(newest, t)
    decreases |among|
  {
    newest :| newest in among;
    var others := among - {newest};
    if others != {} {
      var rest := NewestOf(others);
      assert forall t :: t in among ==> t == newest || t in others;
      if Newer(rest, newest) {
        newest := rest;
      }
    }
  }

  lemma LeaderOf(bucket: Snapshot -> Bucket, among: set<Snapshot>, t: Snapshot) returns (leader: Snapshot)
    requires t in among && DistinctIds(among)
    ensures leader in among && IsLeader(bucket, among, leader)
    ensures bucket(leader) == bucket(t) && (leader == t || Newer(leader, t))
  {
    var same := set u | u in among && bucket(u) == bucket(t);
    assert t in same;
    leader := NewestOf(same);
    assert forall u :: u in among && Newer(u, leader) ==> u !in same;
  }

  ghost function Leaders(bucket: Snapshot -> Bucket, count: Count, among: set<Snapshot>): set<Snapshot> {
    set s | s in among && LeadsRecentBucket(bucket, count, among, s)
  }

  /** If enough buckets are newer than `u`, their selected leaders fill the quota. */
  lemma {:induction false} LeadersFillTheQuota(bucket: Snapshot -> Bucket, count: Count, among: set<Snapshot>,
                                               u: Snapshot)
    requires DistinctIds(among) && |NewerBuckets(bucket, among, u)| >= count
    ensures |NewerBuckets(bucket, Leaders(bucket, count, among), u)| >= count
    decreases |set t | t in among && Newer(t, u)|
  {
    var leaders := Leaders(bucket, count, among);
    if leader :| leader in among && Newer(leader, u) && IsLeader(bucket, among, leader) && leader !in leaders {
      FewerAreNewerThanNewer(among, leader, u);
      LeadersFillTheQuota(bucket, count, among, leader);
      SubsetIsSmaller(NewerBuckets(bucket, leaders, leader), NewerBuckets(bucket, leaders, u));
    } else {
      forall b | b in NewerBuckets(bucket, among, u)
        ensures b in NewerBuckets(bucket, leaders, u)
      {
        var t :| t in among && Newer(t, u) && bucket(t) == b;
        var leader := LeaderOf(bucket, among, t);
        assert leader in leaders && Newer(leader, u);
      }
      SubsetIsSmaller(NewerBuckets(bucket, among, u), NewerBuckets(bucket, leaders, u));
    }
  }

  lemma FewerAreNewerThanNewer(among: set<Snapshot>, newer: Snapshot, u: Snapshot)
    requires newer in among && Newer(newer, u)
    ensures |set t | t in among && Newer(t, newer)| < |set t | t in among && Newer(t, u)|
  {
    var fewer, more := set t | t in among && Newer(t, newer), set t | t in among && Newer(t, u);
    assert newer in more && fewer <= more - {newer};
    SubsetIsSmaller(fewer, more - {newer});
  }

  lemma PruningKeepsLeaders(bucket: Snapshot -> Bucket, count: Count, all: set<Snapshot>, some: set<Snapshot>,
                            s: Snapshot)
    requires DistinctIds(all) && Leaders(bucket, count, all) <= some <= all && s in some
    requires !LeadsRecentBucket(bucket, count, all, s)
    ensures !LeadsRecentBucket(bucket, count, some, s)
  {
    var leaders := Leaders(bucket, count, all);
    if |NewerBuckets(bucket, all, s)| >= count {
      LeadersFillTheQuota(bucket, count, all, s);
      SubsetIsSmaller(NewerBuckets(bucket, leaders, s), NewerBuckets(bucket, some, s));
    } else {
      var t :| t in all && Newer(t, s) && bucket(t) == bucket(s);
      var leader := LeaderOf(bucket, all, t);
      assert NewerBuckets(bucket, all, leader) <= NewerBuckets(bucket, all, s);
      SubsetIsSmaller(NewerBuckets(bucket, all, leader), NewerBuckets(bucket, all, s));
      assert leader in leaders && Newer(leader, s);
    }
  }

  ghost function Selected(rule: Rule, among: set<Snapshot>): set<Snapshot> {
    set s | s in among && Selects(rule, among, s)
  }

  /** Dropping snapshots a rule does not select never makes it select others. */
  lemma PruningKeepsSelection(rule: Rule, all: set<Snapshot>, some: set<Snapshot>, s: Snapshot)
    requires DistinctIds(all) && Selected(rule, all) <= some <= all && s in some
    ensures Selects(rule, some, s) <==> Selects(rule, all, s)
  {
    if Selects(rule, all, s) {
      SelectionIsInherited(rule, all, some, s);
    } else if rule.KeepNewest? {
      assert Leaders(BucketOf(rule.period), rule.count, all) == Selected(rule, all);
      PruningKeepsLeaders(BucketOf(rule.period), rule.count, all, some, s);
    }
  }

  // ---------- What policies keep ----------

  lemma KeptIsInherited(policy: Policy, all: set<Snapshot>, some: set<Snapshot>)
    requires some <= all
    ensures Kept(policy, all) * some <= Kept(policy, some)
  {
    forall s | s in Kept(policy, all) * some
      ensures s in Kept(policy, some)
    {
      var rule :| rule in RulesOf(policy) && Selects(rule, all, s);
      SelectionIsInherited(rule, all, some, s);
    }
  }

  /** Forgetting snapshots outside the kept set changes nothing about what is kept. */
  lemma ForgettingKeepsKept(policy: Policy, all: set<Snapshot>, some: set<Snapshot>)
    requires DistinctIds(all) && Kept(policy, all) <= some <= all
    ensures Kept(policy, some) == Kept(policy, all)
  {
    KeptIsInherited(policy, all, some);
    forall s | s in Kept(policy, some)
      ensures s in Kept(policy, all)
    {
      var rule :| rule in RulesOf(policy) && Selects(rule, some, s);
      assert Selected(rule, all) <= Kept(policy, all);
      PruningKeepsSelection(rule, all, some, s);
    }
  }

  /** Path independence: pruning before new snapshots arrive or after is the same. */
  lemma KeptIsPathIndependent(policy: Policy, before: set<Snapshot>, arrived: set<Snapshot>)
    requires DistinctIds(before + arrived)
    ensures Kept(policy, before + arrived) == Kept(policy, Kept(policy, before) + arrived)
  {
    KeptIsInherited(policy, before + arrived, before);
    ForgettingKeepsKept(policy, before + arrived, Kept(policy, before) + arrived);
  }

  predicate AtLeastAsGenerous(more: Rule, less: Rule) {
    match less
    case KeepNewest(period, count) => more.KeepNewest? && more.period == period && more.count >= count
    case KeepTag(_) => more == less
  }

  /** Raising counts or adding rules never turns Keep into Forget. */
  lemma GenerosityIsMonotone(less: Policy, more: Policy, among: set<Snapshot>)
    requires forall r :: r in RulesOf(less) ==> exists q :: q in RulesOf(more) && AtLeastAsGenerous(q, r)
    ensures Kept(less, among) <= Kept(more, among)
  {
    forall s | s in Kept(less, among)
      ensures s in Kept(more, among)
    {
      var r :| r in RulesOf(less) && Selects(r, among, s);
      var q :| q in RulesOf(more) && AtLeastAsGenerous(q, r);
      assert Selects(q, among, s);
    }
  }

  /** Any count rule keeps the newest snapshot. */
  lemma NewestIsKept(policy: Policy, among: set<Snapshot>, newest: Snapshot)
    requires newest in among && (forall t :: t in among ==> !Newer(t, newest))
    requires CountRules(policy) != []
    ensures newest in Kept(policy, among)
  {
    var rule := CountRules(policy)[0];
    assert rule in RulesOf(policy);
    assert NewerBuckets(BucketOf(rule.period), among, newest) == {};
    assert Selects(rule, among, newest);
  }

  /** `keep-last` keeps exactly the snapshots with fewer than `count` newer ones. */
  lemma KeepLastMeansNewest(count: Count, among: set<Snapshot>, s: Snapshot)
    ensures Selects(KeepNewest(EachSnapshot, count), among, s)
            <==> |set t | t in among && Newer(t, s)| < count
  {
    var newer := set t | t in among && Newer(t, s);
    ItselfIsInjective(newer);
    assert NewerBuckets(BucketOf(EachSnapshot), among, s) == set t | t in newer :: Itself(t);
  }

  lemma {:induction false} ItselfIsInjective(snapshots: set<Snapshot>)
    ensures |set t | t in snapshots :: Itself(t)| == |snapshots|
    decreases |snapshots|
  {
    if s :| s in snapshots {
      ItselfIsInjective(snapshots - {s});
      assert (set t | t in snapshots :: Itself(t)) == (set t | t in snapshots - {s} :: Itself(t)) + {Itself(s)};
    }
  }
}
