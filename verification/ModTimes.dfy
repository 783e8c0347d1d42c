/**
 Modification times of a restore (crates/fileferry-core/src/lib.rs,
 `apply_restored_modified_timestamp` and `plan_restored_modified_timestamp`):
 which are set, which give a warning, and that all of them hold at the end.
 */
module ModTimes {
  import opened Common
  import opened Repository
  import opened Readers
  import opened Destination

  /** Nanoseconds since the epoch, which hold every time with an i64 of seconds. */
  function Instant(t: Timestamp): int {
    t.seconds * 1_000_000_000 + t.nanoseconds
  }

  /** A restored file or directory and the time it had. */
  datatype Dated = Dated(path: RelPath, modified: ModTime)

  predicate Usable(d: Dated) {
    d.modified.Captured? && d.modified.value.nanoseconds < 1_000_000_000
  }

  /** The reasons of `restored_modified_time_or_warn` */
  function TimeWarning(d: Dated): (w: Warning)
    requires !Usable(d)
  {
    Warning(d.path, "modified",
            match d.modified
            case Captured(_) => "modified timestamp is outside the supported system time range"
            case Unsupported => "modified timestamp was not captured"
            case Denied(reason) => "modified timestamp was denied during backup: " + reason)
  }

  function TimeWarnings(dates: seq<Dated>): seq<Warning> {
    if dates == [] then []
    else
      var before, last := TimeWarnings(dates[..|dates| - 1]), dates[|dates| - 1];
      if Usable(last) then before else before + [TimeWarning(last)]
  }

  function UsableCount(dates: seq<Dated>): nat {
    if dates == [] then 0
    else UsableCount(dates[..|dates| - 1]) + (if Usable(dates[|dates| - 1]) then 1 else 0)
  }

  /** Every date is either set or warned about. */
  lemma {:induction false} SetOrWarned(dates: seq<Dated>)
    ensures UsableCount(dates) + |TimeWarnings(dates)| == |dates|
    decreases |dates|
  {
    if dates != [] {
      SetOrWarned(dates[..|dates| - 1]);
    }
  }

  // ---------- The dates of restored contents ----------

  function FileDates(c: Contents): seq<Dated> {
    seq(|c.files|, i requires 0 <= i < |c.files| => Dated(c.files[i].path, c.files[i].modified))
  }

  function DirectoryDates(c: Contents): seq<Dated> {
    seq(|c.directories|, i requires 0 <= i < |c.directories| => Dated(c.directories[i].path, c.directories[i].modified))
  }

  /** Files first, then directories, whose times the writes below them would change. */
  function Dates(c: Contents): seq<Dated> {
    FileDates(c) + DirectoryDates(c)
  }

  // ---------- Setting times ----------

  type Times = map<Path, int>

  /** The effect of one date on an item that takes a time or not, in nanoseconds and with the reasons in full. */
  predicate Applied(d: Dated, dest: Path, takes: bool, before: Times, after: Times, applied: nat,
                    warnings: seq<Warning>)
  {
    match d.modified
    case Captured(t) =>
      if t.nanoseconds < 1_000_000_000
      then takes ==> after == before[dest := t.seconds * 1_000_000_000 + t.nanoseconds]
                     && applied == 1 && warnings == []
      else && after == before && applied == 0
           && warnings == [Warning(d.path, "modified",
                                   "modified timestamp is outside the supported system time range")]
    case Unsupported =>
      && after == before && applied == 0
      && warnings == [Warning(d.path, "modified", "modified timestamp was not captured")]
    case Denied(reason) =>
      && after == before && applied == 0
      && warnings == [Warning(d.path, "modified", "modified timestamp was denied during backup: " + reason)]
  }

  lemma AppliedMeans(d: Dated, dest: Path, takes: bool, before: Times, after: Times, applied: nat,
                     warnings: seq<Warning>)
    requires Applied(d, dest, takes, before, after, applied, warnings)
    ensures Usable(d) && takes ==> after == before[dest := Instant(d.modified.value)] && applied == 1 && warnings == []
    ensures !Usable(d) ==> after == before && applied == 0 && warnings == [TimeWarning(d)]
  {
  }

  /** The times after setting one date after the other. */
  function SetTimes(times: Times, items: seq<Item>, dates: seq<Dated>): Times
    requires |items| == |dates|
  {
    if items == [] then times
    else
      var n := |items| - 1;
      var before := SetTimes(times, items[..n], dates[..n]);
      if Usable(dates[n]) then before[items[n].path := Instant(dates[n].modified.value)] else before
  }

  /** Read literally, in nanoseconds since the epoch. */
  predicate HoldsTime(times: Times, dest: Path, d: Dated) {
    d.modified.Captured? && d.modified.value.nanoseconds < 1_000_000_000 ==>
      && dest in times
      && times[dest] == d.modified.value.seconds * 1_000_000_000 + d.modified.value.nanoseconds
  }

  predicate DistinctItems(items: seq<Item>) {
    forall i, j :: 0 <= i < j < |items| ==> items[i].path != items[j].path
  }

  /** On different paths no date overwrites another. */
  lemma {:induction false} AllTimesHold(times: Times, items: seq<Item>, dates: seq<Dated>, i: nat)
    requires |items| == |dates| && DistinctItems(items) && i < |items|
    ensures HoldsTime(SetTimes(times, items, dates), items[i].path, dates[i])
    decreases |items|
  {
    var n := |items| - 1;
    if i < n {
      AllTimesHold(times, items[..n], dates[..n], i);
    }
  }

  lemma {:induction false} SetTimesConcat(times: Times, a: seq<Item>, b: seq<Item>, x: seq<Dated>, y: seq<Dated>)
    requires |a| == |x| && |b| == |y|
    ensures SetTimes(times, a + b, x + y) == SetTimes(SetTimes(times, a, x), b, y)
    decreases |b|
  {
    if b == [] {
      assert a + b == a && x + y == x;
    } else {
      var n := |b| - 1;
      SetTimesConcat(times, a, b[..n], x, y[..n]);
      assert (a + b)[..|a + b| - 1] == a + b[..n] && (x + y)[..|x + y| - 1] == x + y[..n];
    }
  }

  lemma {:induction false} WarningsConcat(x: seq<Dated>, y: seq<Dated>)
    ensures TimeWarnings(x + y) == TimeWarnings(x) + TimeWarnings(y)
    ensures UsableCount(x + y) == UsableCount(x) + UsableCount(y)
    decreases |y|
  {
    hide TimeWarnings, UsableCount, Usable, TimeWarning;
    if y == [] {
      NoDates();
      assert x + y == x;
    } else {
      var init, last := y[..|y| - 1], y[|y| - 1];
      WarningsConcat(x, init);
      OneMoreDate(init, last);
      OneMoreDate(x + init, last);
      assert y == init + [last] && x + y == (x + init) + [last];
    }
  }

  lemma NoDates()
    ensures TimeWarnings([]) == [] && UsableCount([]) == 0
  {
  }

  lemma OneMoreDate(dates: seq<Dated>, d: Dated)
    ensures TimeWarnings(dates + [d]) == TimeWarnings(dates) + if Usable(d) then [] else [TimeWarning(d)]
    ensures UsableCount(dates + [d]) == UsableCount(dates) + if Usable(d) then 1 else 0
  {
    hide Usable, TimeWarning;
    assert (dates + [d])[..|dates + [d]| - 1] == dates;
  }
}
