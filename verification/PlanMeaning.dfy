/**
 What the reasons of a retention plan say about dates and times
 (crates/fileferry-policy/src/lib.rs, `RetentionPolicy::plan` and its bucket
 functions), without rules, buckets or labels.
 */
module PlanMeaning {
  import opened Common
  import opened Retention
  import Calendar

  // ---------- Periods ----------

  /** `time` lies in the k-th stretch of so many seconds since the epoch. */
  ghost predicate InHour(k: nat, time: nat) {
    3600 * k <= time < 3600 * (k + 1)
  }

  ghost predicate InDay(k: nat, time: nat) {
    86400 * k <= time < 86400 * (k + 1)
  }

  ghost predicate InWeek(k: nat, time: nat) {
    604800 * k <= time < 604800 * (k + 1)
  }

  lemma HoursAreStretches(a: Snapshot, b: Snapshot)
    ensures BucketOf(Hour)(a) == BucketOf(Hour)(b) <==> exists k: nat :: InHour(k, a.time) && InHour(k, b.time)
  {
    assert InHour(a.time / 3600, a.time) && InHour(b.time / 3600, b.time);
  }

  lemma DaysAreStretches(a: Snapshot, b: Snapshot)
    ensures BucketOf(Day)(a) == BucketOf(Day)(b) <==> exists k: nat :: InDay(k, a.time) && InDay(k, b.time)
  {
    assert InDay(a.time / 86400, a.time) && InDay(b.time / 86400, b.time);
  }

  lemma WeeksAreStretches(a: Snapshot, b: Snapshot)
    ensures BucketOf(Week)(a) == BucketOf(Week)(b) <==> exists k: nat :: InWeek(k, a.time) && InWeek(k, b.time)
  {
    assert InWeek(a.time / 604800, a.time) && InWeek(b.time / 604800, b.time);
  }

  /** Up to the last year that an i32 holds, months and years are those of the calendar. */
  lemma MonthsAndYearsAreThoseOfTheCalendar(a: Snapshot, b: Snapshot)
    requires a.time < Calendar.YEAR_OVERFLOW_SECONDS && b.time < Calendar.YEAR_OVERFLOW_SECONDS
    ensures var d, e := Calendar.WideCivilFromDays(a.time / 86400), Calendar.WideCivilFromDays(b.time / 86400);
            && (BucketOf(Month)(a) == BucketOf(Month)(b) <==> d.year == e.year && d.month == e.month)
            && (BucketOf(Year)(a) == BucketOf(Year)(b) <==> d.year == e.year)
  {
    hide Calendar.WideCivilFromDays, Calendar.MonthBucket, Calendar.YearBucket;
    if a.time <= b.time {
      Calendar.BucketsFollowTheCalendar(a.time, b.time);
    } else {
      Calendar.BucketsFollowTheCalendar(b.time, a.time);
    }
  }

  /** The number of the hour, day or week, and the date as the code has it, with its 32-bit year. */
  function HourOf(s: Snapshot): int {
    s.time / 3600
  }

  function DayOf(s: Snapshot): int {
    s.time / 86400
  }

  function WeekOf(s: Snapshot): int {
    s.time / 604800
  }

  function MonthOf(s: Snapshot): (int, int) {
    (Calendar.CivilFromUnixSeconds(s.time).year, Calendar.CivilFromUnixSeconds(s.time).month)
  }

  function YearOf(s: Snapshot): int {
    Calendar.CivilFromUnixSeconds(s.time).year
  }

  lemma MonthTellsBucket(a: Snapshot, b: Snapshot)
    ensures MonthOf(a) == MonthOf(b) <==> BucketOf(Month)(a) == BucketOf(Month)(b)
  {
    hide Calendar.CivilFromUnixSeconds;
    MonthIsValid(a.time);
    MonthIsValid(b.time);
  }

  lemma MonthIsValid(time: nat)
    ensures 1 <= Calendar.CivilFromUnixSeconds(time).month <= 12
  {
    hide Calendar.WideCivilFromDays, Calendar.AsI32;
    Calendar.CivilRoundTrip(time / 86400);
  }

  // ---------- What each reason says ----------

  /** A later time, or the same time and a larger id. */
  ghost function LaterThan(among: set<Snapshot>, s: Snapshot): set<Snapshot> {
    set t | t in among && (t.time > s.time || (t.time == s.time && t.id > s.id))
  }

  ghost function Groups<A>(snapshots: set<Snapshot>, f: Snapshot -> A): set<A> {
    set s | s in snapshots :: f(s)
  }

  /** The latest of its period, with fewer than `count` later periods. */
  ghost predicate AmongTheLatest<P>(period: Snapshot -> P, count: nat, among: set<Snapshot>, s: Snapshot) {
    && (forall t :: t in LaterThan(among, s) ==> period(t) != period(s))
    && |Groups(LaterThan(among, s), period)| < count
  }

  /** Which fields of the policy give which reasons. */
  ghost predicate SaysWhy(policy: Policy, among: set<Snapshot>, s: Snapshot, reasons: set<string>) {
    && ("keep-last" in reasons <==> policy.keepLast.Some? && |LaterThan(among, s)| < policy.keepLast.value)
    && ("keep-hourly" in reasons <==>
          policy.keepHourly.Some? && AmongTheLatest(HourOf, policy.keepHourly.value, among, s))
    && ("keep-daily" in reasons <==>
          policy.keepDaily.Some? && AmongTheLatest(DayOf, policy.keepDaily.value, among, s))
    && ("keep-weekly" in reasons <==>
          policy.keepWeekly.Some? && AmongTheLatest(WeekOf, policy.keepWeekly.value, among, s))
    && ("keep-monthly" in reasons <==>
          policy.keepMonthly.Some? && AmongTheLatest(MonthOf, policy.keepMonthly.value, among, s))
    && ("keep-yearly" in reasons <==>
          policy.keepYearly.Some? && AmongTheLatest(YearOf, policy.keepYearly.value, among, s))
    && (forall tag :: "keep-tag:" + tag in reasons <==> tag in policy.keepTags && tag in s.tags)
    && (forall reason :: reason in reasons ==>
          || reason in {"keep-last", "keep-hourly", "keep-daily", "keep-weekly", "keep-monthly", "keep-yearly"}
          || exists tag :: reason == "keep-tag:" + tag)
  }

  // ---------- Rules mean that ----------

  ghost predicate SharesGroup<A>(xs: set<Snapshot>, x: Snapshot, f: Snapshot -> A) {
    exists y :: y in xs && f(y) == f(x)
  }

  lemma GroupsWithOneMore<A>(xs: set<Snapshot>, x: Snapshot, f: Snapshot -> A)
    requires x in xs
    ensures |Groups(xs, f)| == |Groups(xs - {x}, f)| + (if SharesGroup(xs - {x}, x, f) then 0 else 1)
  {
    assert Groups(xs, f) == Groups(xs - {x}, f) + {f(x)};
    assert f(x) in Groups(xs - {x}, f) <==> SharesGroup(xs - {x}, x, f);
  }

  /** Two ways to name the same groups count the same number of groups. */
  lemma {:induction false} SameGroupsSameCount<A, B>(xs: set<Snapshot>, f: Snapshot -> A, g: Snapshot -> B)
    requires forall x, y :: x in xs && y in xs ==> (f(x) == f(y) <==> g(x) == g(y))
    ensures |Groups(xs, f)| == |Groups(xs, g)|
    decreases |xs|
  {
    if xs == {} {
      assert Groups(xs, f) == {} && Groups(xs, g) == {};
    } else {
      var x :| x in xs;
      SameGroupsSameCount(xs - {x}, f, g);
      GroupsWithOneMore(xs, x, f);
      GroupsWithOneMore(xs, x, g);
      assert SharesGroup(xs - {x}, x, f) <==> SharesGroup(xs - {x}, x, g);
    }
  }

  lemma LeadingIsAmongTheLatest<P>(name: Snapshot -> P, period: Period, count: Count, among: set<Snapshot>,
                                   s: Snapshot)
    requires forall a, b :: name(a) == name(b) <==> BucketOf(period)(a) == BucketOf(period)(b)
    ensures Selects(KeepNewest(period, count), among, s) <==> AmongTheLatest(name, count, among, s)
  {
    hide BucketOf;
    var bucket := BucketOf(period);
    SameGroupsSameCount(LaterThan(among, s), bucket, name);
    assert NewerBuckets(bucket, among, s) == Groups(LaterThan(among, s), bucket);
  }

  /** Each kind of rule, said with dates and times. */
  lemma RulesMeanPeriods(count: Count, among: set<Snapshot>, s: Snapshot)
    ensures Selects(KeepNewest(EachSnapshot, count), among, s) <==> |LaterThan(among, s)| < count
    ensures Selects(KeepNewest(Hour, count), among, s) <==> AmongTheLatest(HourOf, count, among, s)
    ensures Selects(KeepNewest(Day, count), among, s) <==> AmongTheLatest(DayOf, count, among, s)
    ensures Selects(KeepNewest(Week, count), among, s) <==> AmongTheLatest(WeekOf, count, among, s)
    ensures Selects(KeepNewest(Month, count), among, s) <==> AmongTheLatest(MonthOf, count, among, s)
    ensures Selects(KeepNewest(Year, count), among, s) <==> AmongTheLatest(YearOf, count, among, s)
  {
    hide Selects, AmongTheLatest, Calendar.CivilFromUnixSeconds;
    KeepLastMeansNewest(count, among, s);
    assert LaterThan(among, s) == set t | t in among && Newer(t, s);
    forall a, b { MonthTellsBucket(a, b); }
    LeadingIsAmongTheLatest(HourOf, Hour, count, among, s);
    LeadingIsAmongTheLatest(DayOf, Day, count, among, s);
    LeadingIsAmongTheLatest(WeekOf, Week, count, among, s);
    hide MonthOf;
    LeadingIsAmongTheLatest(MonthOf, Month, count, among, s);
    LeadingIsAmongTheLatest(YearOf, Year, count, among, s);
  }

  function CountOf(policy: Policy, period: Period): Option<Count> {
    match period
    case EachSnapshot => policy.keepLast
    case Hour => policy.keepHourly
    case Day => policy.keepDaily
    case Week => policy.keepWeekly
    case Month => policy.keepMonthly
    case Year => policy.keepYearly
  }

  lemma CountRuleMembers(policy: Policy, period: Period, count: Count)
    ensures KeepNewest(period, count) in CountRules(policy) <==> CountOf(policy, period) == Some(count)
    ensures forall rule :: rule in CountRules(policy) ==> rule.KeepNewest?
  {
    forall p: Period, n: Option<Count> { CountRuleMember(p, n, KeepNewest(period, count)); }
    hide CountRule;
  }

  lemma CountRuleMember(period: Period, count: Option<Count>, rule: Rule)
    ensures rule in CountRule(period, count) <==> count.Some? && rule == KeepNewest(period, count.value)
    ensures forall other :: other in CountRule(period, count) ==> other.KeepNewest?
  {
  }

  /** The rules of a policy, field by field. */
  lemma RulesOfPolicy(policy: Policy, count: Count, tag: string)
    ensures KeepNewest(EachSnapshot, count) in RulesOf(policy) <==> policy.keepLast == Some(count)
    ensures KeepNewest(Hour, count) in RulesOf(policy) <==> policy.keepHourly == Some(count)
    ensures KeepNewest(Day, count) in RulesOf(policy) <==> policy.keepDaily == Some(count)
    ensures KeepNewest(Week, count) in RulesOf(policy) <==> policy.keepWeekly == Some(count)
    ensures KeepNewest(Month, count) in RulesOf(policy) <==> policy.keepMonthly == Some(count)
    ensures KeepNewest(Year, count) in RulesOf(policy) <==> policy.keepYearly == Some(count)
    ensures KeepTag(tag) in RulesOf(policy) <==> tag in policy.keepTags
  {
    var tags := TagRules(policy.keepTags);
    CountRuleMembers(policy, EachSnapshot, count);
    CountRuleMembers(policy, Hour, count);
    CountRuleMembers(policy, Day, count);
    CountRuleMembers(policy, Week, count);
    CountRuleMembers(policy, Month, count);
    CountRuleMembers(policy, Year, count);
    hide CountRules;
    assert forall rule :: rule in RulesOf(policy) <==> rule in CountRules(policy) || rule in tags;
    if tag in policy.keepTags {
      var i :| 0 <= i < |policy.keepTags| && policy.keepTags[i] == tag;
      assert tags[i] == KeepTag(tag);
    }
  }
}
