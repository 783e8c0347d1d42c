/**
 Partial data checks (crates/fileferry-core/src/lib.rs, `selected_count` and
 `select_check_chunk_ids`): a subset check reads a prefix of what the full
 check reads.
 */
module Subset {
  import opened Repository
  import opened Readers
  import opened Check

  /** A selection reads no more chunks than another one, whatever the total. */
  predicate SmallerSelection(a: Selection, b: Selection) {
    b == Full || (a.Count? && b.Count? && a.count <= b.count) || (a.Percent? && b.Percent? && a.percent <= b.percent)
  }

  lemma SelectedCountIsMonotone(a: Selection, b: Selection, total: nat)
    requires SmallerSelection(a, b)
    ensures SelectedCount(a, total) <= SelectedCount(b, total)
    ensures ValidSelection(a) && total > 0 ==> 1 <= SelectedCount(a, total)
  {
    hide SelectedCount;
    SelectedCountIsWithinTotal(a, total);
    CountsAndFull(a, total);
    CountsAndFull(b, total);
    if a.Percent? {
      if b.Percent? {
        PercentOf(a.percent, total);
        PercentOf(b.percent, total);
        MoreOfTheSame(total, a.percent, b.percent);
      }
      if ValidSelection(a) && total > 0 {
        PercentOf(a.percent, total);
        MoreOfTheSame(total, 1, a.percent);
      }
    }
  }

  lemma MoreOfTheSame(total: nat, a: nat, b: nat)
    requires a <= b
    ensures total * a <= total * b
  {
  }

  lemma CountsAndFull(s: Selection, total: nat)
    ensures s == Full ==> SelectedCount(s, total) == total
    ensures s.Count? ==> SelectedCount(s, total) == Min(s.count, total)
  {
  }

  lemma PercentOf(percent: nat, total: nat)
    ensures SelectedCount(Percent(percent), total)
            == if total == 0 then 0 else Min((Min(total * percent, MAX_USIZE) + 99) / 100, total)
  {
  }

  /** The largest product that the saturating computation still rounds up correctly. */
  const LAST_EXACT_PRODUCT: nat := 18_446_744_073_709_551_700

  /** The percentage is rounded up exactly as long as the product does not saturate past it. */
  lemma PercentIsCeiling(percent: nat, total: nat)
    requires 1 <= percent <= 100
    ensures SelectedCount(Percent(percent), total) == (total * percent + 99) / 100
            <==> total * percent <= LAST_EXACT_PRODUCT
  {
    hide SelectedCount;
    PercentOfTotal(percent, total);
    CeilingSaturates(total * percent, total);
  }

  lemma PercentOfTotal(percent: nat, total: nat)
    requires percent <= 100
    ensures total * percent <= total * 100
    ensures SelectedCount(Percent(percent), total) == Min((Min(total * percent, MAX_USIZE) + 99) / 100, total)
  {
    if total == 0 {
      assert total * percent == 0;
    }
  }

  lemma CeilingSaturates(product: nat, total: nat)
    requires product <= total * 100
    ensures (product + 99) / 100 <= total
    ensures Min((Min(product, MAX_USIZE) + 99) / 100, total) == (product + 99) / 100 <==> product <= LAST_EXACT_PRODUCT
  {
    var exact, shown := (product + 99) / 100, (Min(product, MAX_USIZE) + 99) / 100;
    assert 100 * exact <= product + 99 < 100 * exact + 100;
    if product > MAX_USIZE {
      assert shown == 184_467_440_737_095_517;
    }
  }

  /** A failing subset check fails every larger check with the same error. */
  lemma SubsetFailureIsFullFailure(r: Repo, store: Store, a: Selection, b: Selection, now: nat)
    requires SmallerSelection(a, b) && CheckRepository(r, store, a, now).Err?
    ensures CheckRepository(r, store, b, now) == CheckRepository(r, store, a, now)
  {
    hide SelectedCount, SortedIds, CheckChunks, CheckCommits, SelectedIds;
    var progress := CheckCommits(r, store, SortedIds(CommittedIds(store)));
    if progress.Ok? {
      var targets := progress.value.targets;
      SmallerIsPrefix(a, b, targets);
      CheckChunksFails(r, store, targets, SelectedIds(b, targets), |SelectedIds(a, targets)|);
    }
  }

  lemma SmallerIsPrefix(a: Selection, b: Selection, targets: IndexMap)
    requires SmallerSelection(a, b)
    ensures |SelectedIds(a, targets)| <= |SelectedIds(b, targets)|
    ensures SelectedIds(b, targets)[..|SelectedIds(a, targets)|] == SelectedIds(a, targets)
  {
    hide SelectedCount, SortedIds;
    SelectedCountIsMonotone(a, b, |targets.Keys|);
    SelectedCountIsWithinTotal(b, |targets.Keys|);
  }

  /** The selection is the first ids in sorted order: everything left out is larger. */
  lemma SelectionIsPrefix(s: Selection, targets: IndexMap)
    ensures SelectedIds(s, targets) <= SortedIds(targets.Keys)
    ensures |SelectedIds(s, targets)| == SelectedCount(s, |targets.Keys|)
    ensures forall x, y :: x in SelectedIds(s, targets) && y in targets && y !in SelectedIds(s, targets) ==> x < y
  {
    hide SelectedCount, SortedIds;
    SelectedCountIsWithinTotal(s, |targets.Keys|);
    var sorted, selected := SortedIds(targets.Keys), SelectedIds(s, targets);
    forall x, y | x in selected && y in targets && y !in selected
      ensures x < y
    {
      assert y in sorted;
      var i :| 0 <= i < |selected| && selected[i] == x;
      var j :| 0 <= j < |sorted| && sorted[j] == y;
      assert forall k :: 0 <= k < |selected| ==> selected[k] == sorted[k] && sorted[k] != y;
      assert i < j;
    }
  }
}
