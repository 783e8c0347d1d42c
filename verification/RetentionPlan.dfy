/**
 `RetentionPolicy::plan` (crates/fileferry-policy/src/lib.rs): sort newest
 first, let each rule add its reason to the snapshots it selects, then decide.
 */
module RetentionPlan {
  import opened Common
  import opened Retention
  import opened PlanMeaning

  datatype Action = Keep | Forget

  datatype Decision = Decision(snapshot: Snapshot, action: Action, reasons: set<string>)

  const NOT_MATCHED := "not-matched-by-keep-rule"

  function PeriodLabel(period: Period): string {
    match period
    case EachSnapshot => "keep-last"
    case Hour => "keep-hourly"
    case Day => "keep-daily"
    case Week => "keep-weekly"
    case Month => "keep-monthly"
    case Year => "keep-yearly"
  }

  function Label(rule: Rule): string {
    match rule
    case KeepNewest(period, _) => PeriodLabel(period)
    case KeepTag(tag) => "keep-tag:" + tag
  }

  // ---------- What a plan must say ----------

  ghost function Reasons(policy: Policy, among: set<Snapshot>, s: Snapshot): set<string> {
    set rule | rule in RulesOf(policy) && Selects(rule, among, s) :: Label(rule)
  }

  ghost function DecisionFor(policy: Policy, among: set<Snapshot>, s: Snapshot): Decision {
    if s in Kept(policy, among) then Decision(s, Keep, Reasons(policy, among, s))
    else Decision(s, Forget, {NOT_MATCHED})
  }

  // ---------- What a plan says, field by field ----------

  /** Kept for the reasons that the policy gives, or forgotten because it gives none. */
  ghost predicate Explains(policy: Policy, among: set<Snapshot>, d: Decision) {
    match d.action
    case Keep => d.reasons != {} && SaysWhy(policy, among, d.snapshot, d.reasons)
    case Forget => d.reasons == {"not-matched-by-keep-rule"} && SaysWhy(policy, among, d.snapshot, {})
  }

  /** The sixth character tells the labels apart. */
  lemma LabelTellsRule(rule: Rule, tag: string)
    ensures Label(rule) == "keep-last" <==> rule.KeepNewest? && rule.period == EachSnapshot
    ensures Label(rule) == "keep-hourly" <==> rule.KeepNewest? && rule.period == Hour
    ensures Label(rule) == "keep-daily" <==> rule.KeepNewest? && rule.period == Day
    ensures Label(rule) == "keep-weekly" <==> rule.KeepNewest? && rule.period == Week
    ensures Label(rule) == "keep-monthly" <==> rule.KeepNewest? && rule.period == Month
    ensures Label(rule) == "keep-yearly" <==> rule.KeepNewest? && rule.period == Year
    ensures Label(rule) == "keep-tag:" + tag <==> rule == KeepTag(tag)
  {
    assert |Label(rule)| > 5 && ("keep-tag:" + tag)[5] == 't';
    if rule.KeepTag? {
      assert Label(rule)[9..] == rule.tag && ("keep-tag:" + tag)[9..] == tag;
      assert Label(rule)[5] == 't';
    }
    assert "keep-last"[5] == 'l' && "keep-hourly"[5] == 'h' && "keep-daily"[5] == 'd';
    assert "keep-weekly"[5] == 'w' && "keep-monthly"[5] == 'm' && "keep-yearly"[5] == 'y';
  }

  /** The one rule that can give a label decides whether it is a reason. */
  lemma ReasonOfRule(policy: Policy, among: set<Snapshot>, s: Snapshot, rule: Rule)
    requires forall other :: other in RulesOf(policy) && Label(other) == Label(rule) ==> other == rule
    ensures Label(rule) in Reasons(policy, among, s) <==> rule in RulesOf(policy) && Selects(rule, among, s)
  {
    hide RulesOf, Selects;
  }

  lemma PeriodReason(policy: Policy, among: set<Snapshot>, s: Snapshot, period: Period, count: Option<Count>)
    requires forall n: Count :: KeepNewest(period, n) in RulesOf(policy) <==> count == Some(n)
    ensures PeriodLabel(period) in Reasons(policy, among, s)
            <==> count.Some? && Selects(KeepNewest(period, count.value), among, s)
  {
    hide RulesOf, Selects;
    forall other: Rule | Label(other) == PeriodLabel(period)
      ensures other.KeepNewest? && other.period == period
    {
      LabelTellsRule(other, "");
    }
    if count.Some? {
      ReasonOfRule(policy, among, s, KeepNewest(period, count.value));
    }
  }

  lemma ReasonsSayWhy(policy: Policy, among: set<Snapshot>, s: Snapshot)
    ensures SaysWhy(policy, among, s, Reasons(policy, among, s))
  {
    hide RulesOf, Selects, AmongTheLatest, Reasons, MonthOf, YearOf, Label;
    forall n: Count { RulesOfPolicy(policy, n, ""); }
    forall n: Count { RulesMeanPeriods(n, among, s); }
    PeriodReason(policy, among, s, EachSnapshot, policy.keepLast);
    PeriodReason(policy, among, s, Hour, policy.keepHourly);
    PeriodReason(policy, among, s, Day, policy.keepDaily);
    PeriodReason(policy, among, s, Week, policy.keepWeekly);
    PeriodReason(policy, among, s, Month, policy.keepMonthly);
    PeriodReason(policy, among, s, Year, policy.keepYearly);
    forall tag
      ensures "keep-tag:" + tag in Reasons(policy, among, s) <==> tag in policy.keepTags && tag in s.tags
    {
      TagReason(policy, among, s, tag);
    }
    forall reason | reason in Reasons(policy, among, s)
      ensures || reason in {"keep-last", "keep-hourly", "keep-daily", "keep-weekly", "keep-monthly", "keep-yearly"}
              || exists tag :: reason == "keep-tag:" + tag
    {
      ReasonIsKnown(policy, among, s, reason);
    }
  }

  lemma TagReason(policy: Policy, among: set<Snapshot>, s: Snapshot, tag: string)
    ensures "keep-tag:" + tag in Reasons(policy, among, s) <==> tag in policy.keepTags && tag in s.tags
  {
    hide RulesOf, Reasons;
    forall other: Rule { LabelTellsRule(other, tag); }
    ReasonOfRule(policy, among, s, KeepTag(tag));
    RulesOfPolicy(policy, 1, tag);
  }

  lemma ReasonIsKnown(policy: Policy, among: set<Snapshot>, s: Snapshot, reason: string)
    requires reason in Reasons(policy, among, s)
    ensures || reason in {"keep-last", "keep-hourly", "keep-daily", "keep-weekly", "keep-monthly", "keep-yearly"}
            || exists tag :: reason == "keep-tag:" + tag
  {
    hide RulesOf, Selects;
    var rule :| rule in RulesOf(policy) && Selects(rule, among, s) && Label(rule) == reason;
    if rule.KeepTag? {
      assert reason == "keep-tag:" + rule.tag;
    }
  }

  /** There is a reason to keep it. */
  ghost predicate HasReason(policy: Policy, among: set<Snapshot>, s: Snapshot) {
    exists reasons: set<string> :: reasons != {} && SaysWhy(policy, among, s, reasons)
  }

  /** The kept snapshots are those with a reason. */
  lemma KeptMeansReason(policy: Policy, among: set<Snapshot>, s: Snapshot)
    requires s in among
    ensures s in Kept(policy, among) <==> HasReason(policy, among, s)
  {
    hide Kept, Reasons, AmongTheLatest;
    ReasonsSayWhy(policy, among, s);
    ReasonsMeanKept(policy, among, s);
    var known := Reasons(policy, among, s);
    if reasons: set<string> :| reasons != {} && SaysWhy(policy, among, s, reasons) {
      var reason :| reason in reasons;
      assert reason in known;
    }
  }

  lemma DecisionExplains(policy: Policy, among: set<Snapshot>, s: Snapshot)
    requires s in among
    ensures Explains(policy, among, DecisionFor(policy, among, s))
  {
    hide SaysWhy, Reasons;
    ReasonsSayWhy(policy, among, s);
    ReasonsMeanKept(policy, among, s);
  }

  // ---------- Sorting ----------

  ghost function ToSet(snapshots: seq<Snapshot>): set<Snapshot> {
    set s | s in snapshots
  }

  predicate SeqDistinctIds(snapshots: seq<Snapshot>) {
    forall i, j :: 0 <= i < j < |snapshots| ==> snapshots[i].id != snapshots[j].id
  }

  predicate NewestFirst(snapshots: seq<Snapshot>) {
    forall i, j :: 0 <= i < j < |snapshots| ==> !Newer(snapshots[j], snapshots[i])
  }

  function Insert(s: Snapshot, sorted: seq<Snapshot>): (r: seq<Snapshot>)
    requires NewestFirst(sorted)
    ensures NewestFirst(r) && |r| == |sorted| + 1
    ensures forall t :: t in r <==> t == s || t in sorted
  {
    if sorted == [] then [s]
    else if Newer(sorted[0], s) then
      var rest := Insert(s, sorted[1..]);
      assert forall t :: t in rest ==> !Newer(t, sorted[0]);
      assert forall t :: t in sorted <==> t == sorted[0] || t in sorted[1..];
      [sorted[0]] + rest
    else
      assert forall t :: t in sorted ==> !Newer(t, s);
      [s] + sorted
  }

  lemma {:induction false} InsertAdds(s: Snapshot, sorted: seq<Snapshot>)
    requires NewestFirst(sorted)
    ensures multiset(Insert(s, sorted)) == multiset(sorted) + multiset{s}
  {
    if sorted != [] {
      assert sorted == [sorted[0]] + sorted[1..];
      if Newer(sorted[0], s) {
        InsertAdds(s, sorted[1..]);
      }
    }
  }

  /** The stable `sort_by` of the source. */
  function SortNewestFirst(snapshots: seq<Snapshot>): (r: seq<Snapshot>)
    ensures NewestFirst(r) && multiset(r) == multiset(snapshots) && |r| == |snapshots|
  {
    if snapshots == [] then []
    else
      assert snapshots == [snapshots[0]] + snapshots[1..];
      InsertAdds(snapshots[0], SortNewestFirst(snapshots[1..]));
      Insert(snapshots[0], SortNewestFirst(snapshots[1..]))
  }

  // ---------- Rules seen from positions in the sorted list ----------

  ghost function BucketsBefore(bucket: Snapshot -> Bucket, ordered: seq<Snapshot>, i: nat): set<Bucket>
    requires i <= |ordered|
  {
    set j | 0 <= j < i :: bucket(ordered[j])
  }

  ghost predicate SelectedAt(rule: Rule, ordered: seq<Snapshot>, i: nat)
    requires i < |ordered|
  {
    match rule
    case KeepNewest(period, count) =>
      if period == EachSnapshot then i < count else OpensBucket(BucketOf(period), count, ordered, i)
    case KeepTag(tag) => tag in ordered[i].tags
  }

  ghost predicate OpensBucket(bucket: Snapshot -> Bucket, count: Count, ordered: seq<Snapshot>, i: nat)
    requires i < |ordered|
  {
    bucket(ordered[i]) !in BucketsBefore(bucket, ordered, i) && |BucketsBefore(bucket, ordered, i)| < count
  }

  lemma BucketsBeforeStep(bucket: Snapshot -> Bucket, ordered: seq<Snapshot>, i: nat)
    requires i < |ordered|
    ensures BucketsBefore(bucket, ordered, i + 1) == BucketsBefore(bucket, ordered, i) + {bucket(ordered[i])}
  {
  }

  lemma {:induction false} DistinctBucketsCount(bucket: Snapshot -> Bucket, ordered: seq<Snapshot>, i: nat)
    requires i <= |ordered|
    requires forall j, k :: 0 <= j < k < i ==> bucket(ordered[j]) != bucket(ordered[k])
    ensures |BucketsBefore(bucket, ordered, i)| == i
  {
    if i > 0 {
      DistinctBucketsCount(bucket, ordered, i - 1);
      BucketsBeforeStep(bucket, ordered, i - 1);
    }
  }

  lemma EarlierIsNewer(ordered: seq<Snapshot>, i: nat, j: nat)
    requires NewestFirst(ordered) && SeqDistinctIds(ordered) && i < |ordered| && j < |ordered|
    ensures j < i <==> Newer(ordered[j], ordered[i])
  {
    if j < i {
      assert !Newer(ordered[i], ordered[j]) && ordered[j].id != ordered[i].id;
    } else if i < j {
      assert !Newer(ordered[j], ordered[i]);
    }
  }

  lemma BucketsBeforeAreNewer(bucket: Snapshot -> Bucket, ordered: seq<Snapshot>, i: nat)
    requires NewestFirst(ordered) && SeqDistinctIds(ordered) && i < |ordered|
    ensures BucketsBefore(bucket, ordered, i) == NewerBuckets(bucket, ToSet(ordered), ordered[i])
  {
    forall j | 0 <= j < |ordered|
      ensures j < i <==> Newer(ordered[j], ordered[i])
    {
      EarlierIsNewer(ordered, i, j);
    }
  }

  lemma SelectedAtMeansSelects(rule: Rule, ordered: seq<Snapshot>, i: nat)
    requires NewestFirst(ordered) && SeqDistinctIds(ordered) && i < |ordered|
    ensures SelectedAt(rule, ordered, i) <==> Selects(rule, ToSet(ordered), ordered[i])
  {
    if rule.KeepNewest? {
      var bucket := BucketOf(rule.period);
      BucketsBeforeAreNewer(bucket, ordered, i);
      assert IsLeader(bucket, ToSet(ordered), ordered[i])
             <==> bucket(ordered[i]) !in NewerBuckets(bucket, ToSet(ordered), ordered[i]);
      if rule.period == EachSnapshot {
        DistinctBucketsCount(bucket, ordered, i);
        assert forall t :: Newer(t, ordered[i]) ==> bucket(t) != bucket(ordered[i]);
      }
    }
  }

  // ---------- Collecting reasons ----------

  type ReasonMap = map<Id, set<string>>

  function ReasonsFor(reasons: ReasonMap, id: Id): set<string> {
    if id in reasons then reasons[id] else {}
  }

  predicate NoEmptyReasons(reasons: ReasonMap) {
    forall id :: id in reasons ==> reasons[id] != {}
  }

  /** The reason that `rule` gives to `id` by snapshots before position `upTo`. */
  ghost function ReasonFrom(rule: Rule, ordered: seq<Snapshot>, upTo: nat, id: Id): set<string>
    requires upTo <= |ordered|
  {
    if exists i :: 0 <= i < upTo && ordered[i].id == id && SelectedAt(rule, ordered, i) then {Label(rule)} else {}
  }

  ghost function ReasonsFrom(rules: seq<Rule>, ordered: seq<Snapshot>, id: Id): set<string> {
    if rules == [] then {}
    else ReasonsFrom(rules[..|rules| - 1], ordered, id) + ReasonFrom(rules[|rules| - 1], ordered, |ordered|, id)
  }

  lemma {:induction false} ReasonsFromAppend(rules: seq<Rule>, rule: Rule, ordered: seq<Snapshot>, id: Id)
    ensures ReasonsFrom(rules + [rule], ordered, id)
            == ReasonsFrom(rules, ordered, id) + ReasonFrom(rule, ordered, |ordered|, id)
  {
    assert (rules + [rule])[..|rules|] == rules;
  }

  /** `reasons` holds exactly what `rules` give to the snapshots of `ordered`. */
  ghost predicate Collected(reasons: ReasonMap, rules: seq<Rule>, ordered: seq<Snapshot>) {
    NoEmptyReasons(reasons) && forall id :: ReasonsFor(reasons, id) == ReasonsFrom(rules, ordered, id)
  }

  method KeepReason(reasons: ReasonMap, s: Snapshot, reason: string) returns (r: ReasonMap)
    ensures forall id :: ReasonsFor(r, id) == ReasonsFor(reasons, id) + (if id == s.id then {reason} else {})
    ensures NoEmptyReasons(reasons) ==> NoEmptyReasons(r)
  {
    r := reasons[s.id := ReasonsFor(reasons, s.id) + {reason}];
  }

  lemma ReasonFromStep(rule: Rule, ordered: seq<Snapshot>, i: nat, id: Id)
    requires i < |ordered|
    ensures ReasonFrom(rule, ordered, i + 1, id)
            == ReasonFrom(rule, ordered, i, id)
               + (if ordered[i].id == id && SelectedAt(rule, ordered, i) then {Label(rule)} else {})
  {
    if j :| 0 <= j < i && ordered[j].id == id && SelectedAt(rule, ordered, j) {
      assert 0 <= j < i + 1;
    }
  }

  /** The reasons of `rules`, and those of `rule` for the first `i` snapshots. */
  ghost predicate CollectedUpTo(reasons: ReasonMap, rules: seq<Rule>, rule: Rule, ordered: seq<Snapshot>, i: nat)
    requires i <= |ordered|
  {
    NoEmptyReasons(reasons)
    && forall id :: ReasonsFor(reasons, id) == ReasonsFrom(rules, ordered, id) + ReasonFrom(rule, ordered, i, id)
  }

  lemma CollectOne(reasons: ReasonMap, reasons': ReasonMap, rules: seq<Rule>, rule: Rule, ordered: seq<Snapshot>,
                   i: nat)
    requires i < |ordered| && CollectedUpTo(reasons, rules, rule, ordered, i) && NoEmptyReasons(reasons')
    requires forall id :: ReasonsFor(reasons', id) ==
                          ReasonsFor(reasons, id)
                          + (if id == ordered[i].id && SelectedAt(rule, ordered, i) then {Label(rule)} else {})
    ensures CollectedUpTo(reasons', rules, rule, ordered, i + 1)
  {
    forall id
      ensures ReasonsFor(reasons', id) == ReasonsFrom(rules, ordered, id) + ReasonFrom(rule, ordered, i + 1, id)
    {
      ReasonFromStep(rule, ordered, i, id);
    }
  }

  lemma CollectNone(reasons: ReasonMap, rules: seq<Rule>, rule: Rule, ordered: seq<Snapshot>)
    requires Collected(reasons, rules, ordered)
    ensures NoEmptyReasons(reasons) && CollectedUpTo(reasons, rules, rule, ordered, 0)
  {
  }

  /** Once no later snapshot is selected, the rule is done. */
  lemma CollectRest(reasons: ReasonMap, rules: seq<Rule>, rule: Rule, ordered: seq<Snapshot>, i: nat)
    requires i <= |ordered| && CollectedUpTo(reasons, rules, rule, ordered, i)
    requires forall j :: i <= j < |ordered| ==> !SelectedAt(rule, ordered, j)
    ensures Collected(reasons, rules + [rule], ordered)
  {
    forall id
      ensures ReasonsFor(reasons, id) == ReasonsFrom(rules + [rule], ordered, id)
    {
      ReasonsFromAppend(rules, rule, ordered, id);
      assert ReasonFrom(rule, ordered, |ordered|, id) == ReasonFrom(rule, ordered, i, id);
    }
  }

  lemma FullQuotaSelectsNoMore(period: Period, count: Count, ordered: seq<Snapshot>, from: nat)
    requires from <= |ordered| && |BucketsBefore(BucketOf(period), ordered, from)| >= count && period != EachSnapshot
    ensures forall j :: from <= j < |ordered| ==> !SelectedAt(KeepNewest(period, count), ordered, j)
  {
    var bucket := BucketOf(period);
    forall j | from <= j < |ordered|
      ensures !SelectedAt(KeepNewest(period, count), ordered, j)
    {
      MoreOfTheListMoreBuckets(bucket, ordered, from, j);
    }
  }

  lemma MoreOfTheListMoreBuckets(bucket: Snapshot -> Bucket, ordered: seq<Snapshot>, from: nat, to: nat)
    requires from <= to <= |ordered|
    ensures |BucketsBefore(bucket, ordered, from)| <= |BucketsBefore(bucket, ordered, to)|
  {
    SubsetIsSmaller(BucketsBefore(bucket, ordered, from), BucketsBefore(bucket, ordered, to));
  }

  /** `keep-last`: the first `count` of the list. */
  method KeepLast(reasons: ReasonMap, ordered: seq<Snapshot>, count: Option<Count>, ghost rules: seq<Rule>)
    returns (r: ReasonMap)
    requires Collected(reasons, rules, ordered)
    ensures Collected(r, rules + CountRule(EachSnapshot, count), ordered)
  {
    r := reasons;
    if count.None? {
      assert rules + CountRule(EachSnapshot, count) == rules;
      return;
    }
    ghost var rule := KeepNewest(EachSnapshot, count.value);
    var n := if count.value < |ordered| then count.value else |ordered|;
    for i := 0 to n
      invariant CollectedUpTo(r, rules, rule, ordered, i)
    {
      ghost var before := r;
      r := KeepReason(r, ordered[i], PeriodLabel(EachSnapshot));
      CollectOne(before, r, rules, rule, ordered, i);
    }
    CollectRest(r, rules, rule, ordered, n);
  }

  /** `keep_periodic`: the first snapshot of each new bucket, until `count` buckets are seen. */
  method KeepPeriodic(reasons: ReasonMap, ordered: seq<Snapshot>, count: Option<Count>, period: Period,
                      ghost rules: seq<Rule>)
    returns (r: ReasonMap)
    requires period != EachSnapshot && Collected(reasons, rules, ordered)
    ensures Collected(r, rules + CountRule(period, count), ordered)
  {
    if count.None? {
      assert rules + CountRule(period, count) == rules;
      return reasons;
    }
    r := KeepBuckets(reasons, ordered, count.value, period, rules);
  }

  method KeepBuckets(reasons: ReasonMap, ordered: seq<Snapshot>, count: Count, period: Period, ghost rules: seq<Rule>)
    returns (r: ReasonMap)
    requires period != EachSnapshot && Collected(reasons, rules, ordered)
    ensures Collected(r, rules + [KeepNewest(period, count)], ordered)
  {
    hide Collected, CollectedUpTo, BucketOf, BucketsBefore, SelectedAt, ReasonsFor, NoEmptyReasons;
    ghost var rule := KeepNewest(period, count);
    r := reasons;
    CollectNone(r, rules, rule, ordered);
    var bucket := BucketOf(period);
    var keptBuckets: set<Bucket> := {};
    assert BucketsBefore(bucket, ordered, 0) == {} by { NoBucketsYet(bucket, ordered); }
    var i := 0;
    while i < |ordered|
      invariant 0 <= i <= |ordered| && NoEmptyReasons(r) && CollectedUpTo(r, rules, rule, ordered, i)
      invariant keptBuckets == BucketsBefore(bucket, ordered, i) && |keptBuckets| < count
    {
      ghost var before := r;
      var b := bucket(ordered[i]);
      var isNew := b !in keptBuckets;
      if isNew {
        r := KeepReason(r, ordered[i], PeriodLabel(period));
      }
      PeriodicStep(before, r, rules, period, count, ordered, i);
      keptBuckets := keptBuckets + {b};
      i := i + 1;
      if isNew && |keptBuckets| >= count {
        FullQuotaSelectsNoMore(period, count, ordered, i);
        break;
      }
    }
    CollectRest(r, rules, rule, ordered, i);
  }

  lemma NoBucketsYet(bucket: Snapshot -> Bucket, ordered: seq<Snapshot>)
    ensures BucketsBefore(bucket, ordered, 0) == {}
  {
  }

  /** Inside `keep_periodic`: the snapshot gets the reason when its bucket is new. */
  lemma PeriodicStep(before: ReasonMap, after: ReasonMap, rules: seq<Rule>, period: Period, count: Count,
                     ordered: seq<Snapshot>, i: nat)
    requires i < |ordered| && period != EachSnapshot
    requires CollectedUpTo(before, rules, KeepNewest(period, count), ordered, i)
    requires |BucketsBefore(BucketOf(period), ordered, i)| < count
    requires NoEmptyReasons(after)
    requires forall id :: ReasonsFor(after, id) ==
                          ReasonsFor(before, id)
                          + (if id == ordered[i].id
                                && BucketOf(period)(ordered[i]) !in BucketsBefore(BucketOf(period), ordered, i)
                             then {PeriodLabel(period)} else {})
    ensures CollectedUpTo(after, rules, KeepNewest(period, count), ordered, i + 1)
    ensures BucketsBefore(BucketOf(period), ordered, i + 1)
            == BucketsBefore(BucketOf(period), ordered, i) + {BucketOf(period)(ordered[i])}
  {
    hide CollectedUpTo, BucketOf, BucketsBefore, ReasonsFor;
    BucketsBeforeStep(BucketOf(period), ordered, i);
    CollectOne(before, after, rules, KeepNewest(period, count), ordered, i);
  }

  /** One `keep-tag` rule. */
  method KeepTagged(reasons: ReasonMap, ordered: seq<Snapshot>, tag: string, ghost rules: seq<Rule>)
    returns (r: ReasonMap)
    requires Collected(reasons, rules, ordered)
    ensures Collected(r, rules + [KeepTag(tag)], ordered)
  {
    r := reasons;
    ghost var rule := KeepTag(tag);
    for i := 0 to |ordered|
      invariant CollectedUpTo(r, rules, rule, ordered, i)
    {
      ghost var before := r;
      if tag in ordered[i].tags {
        r := KeepReason(r, ordered[i], "keep-tag:" + tag);
      }
      CollectOne(before, r, rules, rule, ordered, i);
    }
    CollectRest(r, rules, rule, ordered, |ordered|);
  }

  method CollectReasons(policy: Policy, ordered: seq<Snapshot>) returns (r: ReasonMap)
    ensures Collected(r, RulesOf(policy), ordered)
  {
    assert Collected(map[], [], ordered);
    hide Collected, CountRule;
    r := map[];
    ghost var rules: seq<Rule> := [];
    r := KeepLast(r, ordered, policy.keepLast, rules);
    rules := rules + CountRule(EachSnapshot, policy.keepLast);
    r := KeepPeriodic(r, ordered, policy.keepHourly, Hour, rules);
    rules := rules + CountRule(Hour, policy.keepHourly);
    r := KeepPeriodic(r, ordered, policy.keepDaily, Day, rules);
    rules := rules + CountRule(Day, policy.keepDaily);
    r := KeepPeriodic(r, ordered, policy.keepWeekly, Week, rules);
    rules := rules + CountRule(Week, policy.keepWeekly);
    r := KeepPeriodic(r, ordered, policy.keepMonthly, Month, rules);
    rules := rules + CountRule(Month, policy.keepMonthly);
    r := KeepPeriodic(r, ordered, policy.keepYearly, Year, rules);
    rules := rules + CountRule(Year, policy.keepYearly);
    assert rules == CountRules(policy);
    for i := 0 to |policy.keepTags|
      invariant rules == CountRules(policy) + TagRules(policy.keepTags[..i])
      invariant Collected(r, rules, ordered)
    {
      r := KeepTagged(r, ordered, policy.keepTags[i], rules);
      rules := rules + [KeepTag(policy.keepTags[i])];
      assert TagRules(policy.keepTags[..i + 1]) == TagRules(policy.keepTags[..i]) + [KeepTag(policy.keepTags[i])];
    }
    assert policy.keepTags[..|policy.keepTags|] == policy.keepTags;
  }

  // ---------- Deciding ----------

  lemma {:induction false} ReasonsFromMembers(rules: seq<Rule>, ordered: seq<Snapshot>, id: Id, reason: string)
    ensures reason in ReasonsFrom(rules, ordered, id)
            <==> exists rule :: rule in rules && reason in ReasonFrom(rule, ordered, |ordered|, id)
  {
    if rules != [] {
      var init, last := rules[..|rules| - 1], rules[|rules| - 1];
      ReasonsFromMembers(init, ordered, id, reason);
      assert rules == init + [last];
    }
  }

  /** With distinct ids, the collected reasons are the labels of the rules that select. */
  lemma {:induction false} CollectedReasonsAreReasons(policy: Policy, ordered: seq<Snapshot>, i: nat)
    requires NewestFirst(ordered) && SeqDistinctIds(ordered) && i < |ordered|
    ensures ReasonsFrom(RulesOf(policy), ordered, ordered[i].id) == Reasons(policy, ToSet(ordered), ordered[i])
  {
    var s := ordered[i];
    forall rule: Rule
      ensures ReasonFrom(rule, ordered, |ordered|, s.id)
              == if Selects(rule, ToSet(ordered), s) then {Label(rule)} else {}
    {
      SelectedAtMeansSelects(rule, ordered, i);
      assert forall j :: 0 <= j < |ordered| && ordered[j].id == s.id ==> j == i;
    }
    forall reason
      ensures reason in ReasonsFrom(RulesOf(policy), ordered, s.id) <==> reason in Reasons(policy, ToSet(ordered), s)
    {
      ReasonsFromMembers(RulesOf(policy), ordered, s.id, reason);
    }
  }

  lemma LabelsAreNotTheFallback(rule: Rule)
    ensures Label(rule) != NOT_MATCHED
  {
    assert Label(rule)[0] == 'k' && NOT_MATCHED[0] == 'n';
  }

  lemma {:induction false} ReasonsDecide(policy: Policy, ordered: seq<Snapshot>, i: nat)
    requires NewestFirst(ordered) && SeqDistinctIds(ordered) && i < |ordered|
    ensures var reasons := ReasonsFrom(RulesOf(policy), ordered, ordered[i].id);
            && NOT_MATCHED !in reasons
            && DecisionFor(policy, ToSet(ordered), ordered[i]) ==
               if reasons != {} then Decision(ordered[i], Keep, reasons)
               else Decision(ordered[i], Forget, {NOT_MATCHED})
  {
    hide ReasonsFrom, RulesOf, Kept, Reasons;
    assert ordered[i] in ToSet(ordered);
    CollectedReasonsAreReasons(policy, ordered, i);
    ReasonsMeanKept(policy, ToSet(ordered), ordered[i]);
  }

  lemma ReasonsMeanKept(policy: Policy, among: set<Snapshot>, s: Snapshot)
    requires s in among
    ensures NOT_MATCHED !in Reasons(policy, among, s)
    ensures Reasons(policy, among, s) != {} <==> s in Kept(policy, among)
  {
    if rule :| rule in RulesOf(policy) && Selects(rule, among, s) {
      assert Label(rule) in Reasons(policy, among, s);
    }
    forall rule: Rule { LabelsAreNotTheFallback(rule); }
  }

  /**
   `plan`.  The decisions follow the sorted list; with distinct ids each one
   is what the reference says of that snapshot among all of them.
   */
  method Plan(policy: Policy, snapshots: seq<Snapshot>) returns (decisions: seq<Decision>)
    ensures |decisions| == |snapshots|
    ensures forall i :: 0 <= i < |decisions| ==> decisions[i].snapshot == SortNewestFirst(snapshots)[i]
    ensures SeqDistinctIds(snapshots) ==> forall i :: 0 <= i < |decisions| ==>
              decisions[i] == DecisionFor(policy, ToSet(snapshots), SortNewestFirst(snapshots)[i])
    ensures SeqDistinctIds(snapshots) ==> forall d :: d in decisions ==> Explains(policy, ToSet(snapshots), d)
    ensures SeqDistinctIds(snapshots) ==> forall i, j :: 0 <= i < j < |decisions| ==>
              var a, b := decisions[i].snapshot, decisions[j].snapshot;
              a.time > b.time || (a.time == b.time && a.id > b.id)
  {
    hide SortNewestFirst, NewestFirst, RulesOf, ReasonsFrom, Kept, Reasons, Explains;
    var ordered := SortNewestFirst(snapshots);
    var reasons: ReasonMap := CollectReasons(policy, ordered);
    ghost var distinct := SeqDistinctIds(snapshots);
    ghost var rules := RulesOf(policy);
    if distinct {
      SortingKeepsTheSet(snapshots);
    }
    decisions := [];
    for i := 0 to |ordered|
      invariant |decisions| == i && NoEmptyReasons(reasons)
      invariant forall j :: 0 <= j < i ==> decisions[j].snapshot == ordered[j]
      invariant distinct ==> forall j :: i <= j < |ordered| ==>
                               ReasonsFor(reasons, ordered[j].id) == ReasonsFrom(rules, ordered, ordered[j].id)
      invariant distinct ==> forall j :: 0 <= j < i ==>
                               decisions[j] == DecisionFor(policy, ToSet(snapshots), ordered[j])
    {
      var s := ordered[i];
      var found := if s.id in reasons then reasons[s.id] else {NOT_MATCHED};
      var action := if NOT_MATCHED in found then Forget else Keep;
      if distinct {
        ReasonsDecide(policy, ordered, i);
      }
      reasons := map id: Id | id in reasons && id != s.id :: reasons[id];
      decisions := decisions + [Decision(s, action, found)];
    }
    if distinct {
      DecisionsExplain(policy, snapshots, decisions);
    }
  }

  lemma {:induction false} DecisionsExplain(policy: Policy, snapshots: seq<Snapshot>, decisions: seq<Decision>)
    requires SeqDistinctIds(snapshots) && |decisions| == |snapshots|
    requires forall i :: 0 <= i < |decisions| ==>
               decisions[i] == DecisionFor(policy, ToSet(snapshots), SortNewestFirst(snapshots)[i])
    ensures forall d :: d in decisions ==> Explains(policy, ToSet(snapshots), d)
    ensures forall i, j :: 0 <= i < j < |decisions| ==>
              var a, b := decisions[i].snapshot, decisions[j].snapshot;
              a.time > b.time || (a.time == b.time && a.id > b.id)
  {
    hide Explains, Kept, Reasons;
    var ordered := SortNewestFirst(snapshots);
    SortingKeepsTheSet(snapshots);
    forall d | d in decisions
      ensures Explains(policy, ToSet(snapshots), d)
    {
      var i :| 0 <= i < |decisions| && decisions[i] == d;
      assert ordered[i] in ToSet(ordered);
      DecisionExplains(policy, ToSet(snapshots), ordered[i]);
    }
    forall i, j | 0 <= i < j < |decisions|
      ensures var a, b := decisions[i].snapshot, decisions[j].snapshot;
              a.time > b.time || (a.time == b.time && a.id > b.id)
    {
      EarlierIsNewer(ordered, j, i);
    }
  }

  // ---------- Input order does not matter ----------

  lemma {:induction false} SortingKeepsTheSet(snapshots: seq<Snapshot>)
    requires SeqDistinctIds(snapshots)
    ensures ToSet(SortNewestFirst(snapshots)) == ToSet(snapshots)
    ensures SeqDistinctIds(SortNewestFirst(snapshots))
  {
    hide NewestFirst, SortNewestFirst, Newer;
    var sorted := SortNewestFirst(snapshots);
    forall s ensures s in sorted <==> s in snapshots {
      assert s in multiset(sorted) <==> s in multiset(snapshots);
    }
    forall i, j | 0 <= i < j < |sorted|
      ensures sorted[i].id != sorted[j].id
    {
      if sorted[i] == sorted[j] {
        RepeatsInMultiset(sorted, i, j);
        DistinctHasNoRepeats(snapshots, sorted[i]);
      }
      assert sorted[i] in snapshots && sorted[j] in snapshots;
      var k :| 0 <= k < |snapshots| && snapshots[k] == sorted[i];
      var l :| 0 <= l < |snapshots| && snapshots[l] == sorted[j];
    }
  }

  lemma RepeatsInMultiset(s: seq<Snapshot>, i: nat, j: nat)
    requires i < j < |s| && s[i] == s[j]
    ensures multiset(s)[s[i]] >= 2
  {
    assert s == s[..j] + s[j..];
    assert s[i] in multiset(s[..j]) by { assert s[..j][i] == s[i]; }
    assert s[j] in multiset(s[j..]) by { assert s[j..][0] == s[j]; }
  }

  lemma {:induction false} DistinctHasNoRepeats(s: seq<Snapshot>, x: Snapshot)
    requires SeqDistinctIds(s)
    ensures multiset(s)[x] <= 1
  {
    if s != [] {
      assert s == [s[0]] + s[1..];
      DistinctHasNoRepeats(s[1..], x);
      if x == s[0] {
        assert x !in s[1..];
        assert x !in multiset(s[1..]);
      }
    }
  }

  lemma EmptyToSet(a: seq<Snapshot>)
    ensures ToSet(a) == {} <==> a == []
  {
    if a != [] {
      assert a[0] in ToSet(a);
    }
  }

  /** Two listings of the same snapshots are sorted into the same list. */
  lemma {:induction false} SortedListIsUnique(a: seq<Snapshot>, b: seq<Snapshot>)
    requires NewestFirst(a) && NewestFirst(b) && SeqDistinctIds(a) && SeqDistinctIds(b)
    requires ToSet(a) == ToSet(b)
    ensures a == b
  {
    if a == [] || b == [] {
      EmptyToSet(a);
      EmptyToSet(b);
    } else {
      FirstIsNewest(a, b);
      RestOfSorted(a);
      RestOfSorted(b);
      hide ToSet, NewestFirst, SeqDistinctIds;
      SortedListIsUnique(a[1..], b[1..]);
      assert a == [a[0]] + a[1..] && b == [b[0]] + b[1..];
    }
  }

  lemma {:induction false} RestOfSorted(a: seq<Snapshot>)
    requires a != [] && NewestFirst(a) && SeqDistinctIds(a)
    ensures NewestFirst(a[1..]) && SeqDistinctIds(a[1..]) && ToSet(a[1..]) == ToSet(a) - {a[0]}
  {
    hide Newer;
    assert a == [a[0]] + a[1..];
    forall i, j | 0 <= i < j < |a[1..]|
      ensures !Newer(a[1..][j], a[1..][i])
    {
      assert !Newer(a[j + 1], a[i + 1]);
    }
    forall i | 0 <= i < |a[1..]|
      ensures a[1..][i] != a[0]
    {
      assert a[0].id != a[i + 1].id;
    }
    forall s
      ensures s in a[1..] <==> s in a && s != a[0]
    {
    }
  }

  lemma FirstIsNewest(a: seq<Snapshot>, b: seq<Snapshot>)
    requires a != [] && b != [] && NewestFirst(a) && NewestFirst(b) && SeqDistinctIds(a)
    requires ToSet(a) == ToSet(b)
    ensures a[0] == b[0]
  {
    assert a[0] in ToSet(b) && b[0] in ToSet(a);
    var i :| 0 <= i < |b| && b[i] == a[0];
    var j :| 0 <= j < |a| && a[j] == b[0];
    assert !Newer(a[0], b[0]) && !Newer(b[0], a[0]);
  }

  /** The plan does not depend on the order in which snapshots are listed. */
  lemma {:induction false} PlanIgnoresInputOrder(a: seq<Snapshot>, b: seq<Snapshot>)
    requires SeqDistinctIds(a) && SeqDistinctIds(b) && ToSet(a) == ToSet(b)
    ensures SortNewestFirst(a) == SortNewestFirst(b)
  {
    SortingKeepsTheSet(a);
    SortingKeepsTheSet(b);
    SortedListIsUnique(SortNewestFirst(a), SortNewestFirst(b));
  }
}
