/**
 The structure a manifest must have before anything is restored from it
 (crates/fileferry-core/src/lib.rs, `validate_snapshot_manifest`).
 */
module Manifests {
  import opened Common
  import opened Repository

  const MAX_U64: nat := 0xffff_ffff_ffff_ffff

  predicate IsNormal(path: RelPath) {
    forall i :: 0 <= i < |path| ==> path[i].Normal?
  }

  function TotalLength(chunks: seq<ChunkRef>): nat {
    if chunks == [] then 0 else TotalLength(chunks[..|chunks| - 1]) + chunks[|chunks| - 1].length
  }

  predicate SizeMatches(e: Entry) {
    e.metadata.kind == RegularFile && e.metadata.size.Some? ==>
      TotalLength(e.chunks) == e.metadata.size.value && TotalLength(e.chunks) <= MAX_U64
  }

  predicate ValidEntry(e: Entry) {
    && IsNormal(e.path)
    && (e.path == [] ==> e.metadata.kind == Directory)
    && (e.metadata.kind != RegularFile ==> e.chunks == [])
    && SizeMatches(e)
  }

  predicate DistinctPaths(entries: seq<Entry>) {
    forall i, j :: 0 <= i < j < |entries| ==> entries[i].path != entries[j].path
  }

  predicate IsProperAncestor(a: RelPath, p: RelPath) {
    |a| < |p| && p[..|a|] == a
  }

  /** No recorded file, symlink or other node has entries below it. */
  predicate AncestorsAreDirectories(entries: seq<Entry>) {
    forall i, j :: 0 <= i < |entries| && 0 <= j < |entries| && entries[i].path != []
                   && IsProperAncestor(entries[i].path, entries[j].path)
                   ==> entries[i].metadata.kind == Directory
  }

  predicate ValidEntries(entries: seq<Entry>) {
    && (forall i :: 0 <= i < |entries| ==> ValidEntry(entries[i]))
    && DistinctPaths(entries)
    && AncestorsAreDirectories(entries)
  }

  datatype Violation =
    | NotNormalized | RootNotDirectory | DuplicatePath | ChunksOnNonFile | LengthOverflow | SizeMismatch | BadAncestor

  /** What each rejection reason says about the entry it names. */
  predicate Violates(entries: seq<Entry>, i: nat, v: Violation)
    requires i < |entries|
  {
    var e := entries[i];
    match v
    case NotNormalized => !IsNormal(e.path)
    case RootNotDirectory => e.path == [] && e.metadata.kind != Directory
    case DuplicatePath => exists j :: 0 <= j < i && entries[j].path == e.path
    case ChunksOnNonFile => e.metadata.kind != RegularFile && e.chunks != []
    case LengthOverflow => e.metadata.kind == RegularFile && e.metadata.size.Some? && TotalLength(e.chunks) > MAX_U64
    case SizeMismatch =>
      e.metadata.kind == RegularFile && e.metadata.size.Some? && TotalLength(e.chunks) != e.metadata.size.value
    case BadAncestor =>
      exists j :: 0 <= j < |entries| && entries[j].path != [] && entries[j].metadata.kind != Directory
                  && IsProperAncestor(entries[j].path, e.path)
  }

  lemma {:induction false} TotalLengthGrows(chunks: seq<ChunkRef>, n: nat)
    requires n <= |chunks|
    ensures TotalLength(chunks[..n]) <= TotalLength(chunks)
    decreases |chunks|
  {
    if n < |chunks| {
      var init := chunks[..|chunks| - 1];
      TotalLengthGrows(init, n);
      assert init[..n] == chunks[..n];
    } else {
      assert chunks[..n] == chunks;
    }
  }

  /** `try_fold` with `checked_add`: None when some partial sum overflows. */
  method CheckedTotal(chunks: seq<ChunkRef>) returns (total: Option<nat>)
    ensures total == if TotalLength(chunks) <= MAX_U64 then Some(TotalLength(chunks)) else None
  {
    var sum := 0;
    for i := 0 to |chunks|
      invariant sum == TotalLength(chunks[..i]) <= MAX_U64
    {
      assert chunks[..i + 1][..i] == chunks[..i];
      sum := sum + chunks[i].length;
      if sum > MAX_U64 {
        TotalLengthGrows(chunks, i + 1);
        return None;
      }
    }
    assert chunks[..|chunks|] == chunks;
    return Some(sum);
  }

  type KindMap = map<RelPath, Kind>

  /** What the map of the first loop holds after `n` entries. */
  ghost predicate RecordsKinds(kinds: KindMap, entries: seq<Entry>, n: nat)
    requires n <= |entries|
  {
    && (forall j :: 0 <= j < n ==> entries[j].path in kinds && kinds[entries[j].path] == entries[j].metadata.kind)
    && (forall p :: p in kinds ==> exists j :: 0 <= j < n && entries[j].path == p)
  }

  /** The first `n` entries pass the first loop. */
  ghost predicate ValidSoFar(entries: seq<Entry>, n: nat)
    requires n <= |entries|
  {
    && (forall j :: 0 <= j < n ==> ValidEntry(entries[j]))
    && (forall j, k :: 0 <= j < k < n ==> entries[j].path != entries[k].path)
  }

  /** The checks of one entry, in the order of the source. */
  method ValidateEntry(entries: seq<Entry>, i: nat, kinds: KindMap) returns (fault: Option<Violation>)
    requires i < |entries| && RecordsKinds(kinds, entries, i)
    ensures fault.None? <==> ValidEntry(entries[i]) && entries[i].path !in kinds
    ensures fault.Some? ==> Violates(entries, i, fault.value)
  {
    var e := entries[i];
    if !IsNormal(e.path) {
      return Some(NotNormalized);
    }
    if e.path == [] && e.metadata.kind != Directory {
      return Some(RootNotDirectory);
    }
    if e.path in kinds {
      return Some(DuplicatePath);
    }
    if e.metadata.kind != RegularFile && e.chunks != [] {
      return Some(ChunksOnNonFile);
    }
    if e.metadata.kind == RegularFile && e.metadata.size.Some? {
      var total := CheckedTotal(e.chunks);
      if total.None? {
        return Some(LengthOverflow);
      }
      if total.value != e.metadata.size.value {
        return Some(SizeMismatch);
      }
    }
    return None;
  }

  lemma RecordOne(kinds: KindMap, entries: seq<Entry>, i: nat)
    requires i < |entries| && RecordsKinds(kinds, entries, i) && ValidSoFar(entries, i)
    requires entries[i].path !in kinds && ValidEntry(entries[i])
    ensures RecordsKinds(kinds[entries[i].path := entries[i].metadata.kind], entries, i + 1)
    ensures ValidSoFar(entries, i + 1)
  {
    hide ValidEntry;
    var path, kinds' := entries[i].path, kinds[entries[i].path := entries[i].metadata.kind];
    forall p | p in kinds'
      ensures exists j :: 0 <= j < i + 1 && entries[j].path == p
    {
      if p != path {
        var j :| 0 <= j < i && entries[j].path == p;
      }
    }
    forall j | 0 <= j < i
      ensures entries[j].path != path
    {
      assert entries[j].path in kinds;
    }
  }

  /** Looks up every non-empty proper ancestor, longest first. */
  method ValidateAncestors(entries: seq<Entry>, i: nat, kinds: KindMap) returns (ok: bool)
    requires i < |entries| && RecordsKinds(kinds, entries, |entries|)
    ensures ok <==> !Violates(entries, i, BadAncestor)
  {
    var path := entries[i].path;
    var n := |path|;
    while n > 1
      invariant n <= |path|
      invariant forall l :: n <= l < |path| && 0 < l && path[..l] in kinds ==> kinds[path[..l]] == Directory
    {
      n := n - 1;
      var ancestor := path[..n];
      if ancestor in kinds && kinds[ancestor] != Directory {
        ghost var j :| 0 <= j < |entries| && entries[j].path == ancestor;
        assert IsProperAncestor(entries[j].path, path);
        return false;
      }
    }
    forall j | 0 <= j < |entries| && entries[j].path != [] && IsProperAncestor(entries[j].path, path)
      ensures entries[j].metadata.kind == Directory
    {
      assert path[..|entries[j].path|] == entries[j].path;
    }
    return true;
  }

  /** `validate_snapshot_manifest`: accepts exactly the valid manifests, and a rejection names a real fault. */
  method Validate(m: Manifest) returns (result: Result<(), (nat, Violation)>)
    ensures result.Ok? <==> ValidEntries(m.body.entries)
    ensures result.Err? ==> result.error.0 < |m.body.entries|
                            && Violates(m.body.entries, result.error.0, result.error.1)
  {
    hide Violates, ValidEntries, ValidEntry;
    var entries := m.body.entries;
    var kinds: KindMap := map[];
    for i := 0 to |entries|
      invariant RecordsKinds(kinds, entries, i) && ValidSoFar(entries, i)
    {
      var fault := ValidateEntry(entries, i, kinds);
      if fault.Some? {
        FaultRefutes(entries, i, fault.value);
        return Err((i, fault.value));
      }
      RecordOne(kinds, entries, i);
      kinds := kinds[entries[i].path := entries[i].metadata.kind];
    }
    for i := 0 to |entries|
      invariant forall j :: 0 <= j < i ==> !Violates(entries, j, BadAncestor)
    {
      var ok := ValidateAncestors(entries, i, kinds);
      if !ok {
        FaultRefutes(entries, i, BadAncestor);
        return Err((i, BadAncestor));
      }
    }
    NoFaultsMeanValid(entries);
    return Ok(());
  }

  lemma FaultRefutes(entries: seq<Entry>, i: nat, v: Violation)
    requires i < |entries| && Violates(entries, i, v)
    ensures !ValidEntries(entries)
  {
  }

  lemma NoFaultsMeanValid(entries: seq<Entry>)
    requires ValidSoFar(entries, |entries|)
    requires forall j :: 0 <= j < |entries| ==> !Violates(entries, j, BadAncestor)
    ensures ValidEntries(entries)
  {
    forall i, j | 0 <= i < |entries| && 0 <= j < |entries| && entries[i].path != []
                  && IsProperAncestor(entries[i].path, entries[j].path)
      ensures entries[i].metadata.kind == Directory
    {
      assert !Violates(entries, j, BadAncestor);
    }
  }
}
