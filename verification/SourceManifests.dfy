/**
 From the walk to the manifest: which backups are accepted again by
 `validate_snapshot_manifest` (crates/fileferry-core/src/lib.rs).
 */
module SourceManifests {
  import opened Repository
  import opened Exclusion
  import opened Backup
  import opened Chunking
  import opened WriteSnapshot
  import opened Walker
  import Manifests

  function ToRel(names: Names): (path: RelPath)
    ensures |path| == |names|
  {
    seq(|names|, i requires 0 <= i < |names| => Normal(names[i]))
  }

  lemma ToRelIsInjective(a: Names, b: Names)
    ensures ToRel(a) == ToRel(b) ==> a == b
  {
    if ToRel(a) == ToRel(b) {
      forall i | 0 <= i < |a|
        ensures a[i] == b[i]
      {
        assert ToRel(a)[i] == ToRel(b)[i];
      }
    }
  }

  lemma ToRelPrefix(names: Names, k: nat)
    requires k <= |names|
    ensures ToRel(names)[..k] == ToRel(names[..k])
  {
  }

  function SourceOf(f: Found): SourceEntry {
    SourceEntry(ToRel(f.path), MetadataOf(f.node))
  }

  function SourcesOf(found: seq<Found>): (sources: seq<SourceEntry>) {
    seq(|found|, i requires 0 <= i < |found| => SourceOf(found[i]))
  }

  /** `walk`: the listings of all roots, one after the other. */
  function WalkRoots(rules: seq<Rule>, roots: seq<Node>): seq<Found> {
    if roots == [] then [] else WalkRoots(rules, roots[..|roots| - 1]) + WalkRoot(rules, roots[|roots| - 1])
  }

  lemma {:induction false} RootIsListed(rules: seq<Rule>, roots: seq<Node>, i: nat) returns (j: nat)
    requires i < |roots|
    ensures j < |WalkRoots(rules, roots)| && WalkRoots(rules, roots)[j] == Found([], roots[i])
    ensures j >= |WalkRoots(rules, roots[..i])|
    ensures j < |WalkRoots(rules, roots[..i + 1])|
    decreases |roots|
  {
    var init := roots[..|roots| - 1];
    if i == |roots| - 1 {
      j := |WalkRoots(rules, init)|;
      assert roots[..i + 1] == roots;
    } else {
      j := RootIsListed(rules, init, i);
      assert init[..i] == roots[..i] && init[..i + 1] == roots[..i + 1];
    }
  }

  /** The bytes read for a file have the length that was captured for it. */
  predicate SizesAgree(env: Env, sources: seq<SourceEntry>) {
    forall i :: 0 <= i < |sources| && sources[i].metadata.kind == RegularFile
                && sources[i].metadata.size.Some? && env.read(sources[i].path).Some?
                ==> |env.read(sources[i].path).value| == sources[i].metadata.size.value
  }

  /** File sizes are u64 values. */
  predicate SizesFit(env: Env, sources: seq<SourceEntry>) {
    forall i :: 0 <= i < |sources| && env.read(sources[i].path).Some?
                ==> |env.read(sources[i].path).value| <= Manifests.MAX_U64
  }

  ghost predicate ChunkerCovers(env: Env) {
    forall d :: Covers(env.chunk(d), |d|)
  }

  lemma EntrySize(r: Repo, env: Env, source: SourceEntry, e: JobEntry)
    requires EntryMatches(env, source, e) && ChunkerCovers(env) && source.metadata.kind == RegularFile
    ensures Manifests.TotalLength(EntryOf(r, e).chunks) == |env.read(source.path).value|
  {
    var data := env.read(source.path).value;
    assert Covers(env.chunk(data), |data|);
    PiecesRebuildData(e.pieces, data, env.chunk(data));
    RefLengths(r, e.pieces);
  }

  lemma SourceEntryIsValid(r: Repo, env: Env, rules: seq<Rule>, root: Node, found: seq<Found>,
                           entries: seq<JobEntry>, i: nat)
    requires root.Dir? && IsListingOf(rules, root, found) && JobMatches(env, SourcesOf(found), entries)
    requires ChunkerCovers(env) && SizesFit(env, SourcesOf(found)) && i < |found|
    requires SizesAgree(env, SourcesOf(found))
    ensures Manifests.ValidEntry(EntryOf(r, entries[i]))
  {
    hide ChunkerCovers, SizesFit;
    assert EntryMatches(env, SourcesOf(found)[i], entries[i]);
    if found[i].path == [] {
      assert found[i] in found && At(root, [], found[i].node);
    }
    if found[i].node.File? {
      EntrySize(r, env, SourcesOf(found)[i], entries[i]);
      FileFits(env, SourcesOf(found), i);
    }
  }

  lemma FileFits(env: Env, sources: seq<SourceEntry>, i: nat)
    requires SizesFit(env, sources) && i < |sources| && sources[i].metadata.kind == RegularFile
    requires env.read(sources[i].path).Some?
    ensures |env.read(sources[i].path).value| <= Manifests.MAX_U64
  {
  }

  lemma {:induction false} ListingHasDirectoryAncestors(rules: seq<Rule>, root: Node, found: seq<Found>, i: nat, j: nat)
    requires WellFormed(root) && IsListingOf(rules, root, found) && i < |found| && j < |found|
    requires |found[i].path| < |found[j].path| && found[j].path[..|found[i].path|] == found[i].path
    ensures found[i].node.Dir?
  {
    assert found[i] in found && found[j] in found;
    var dir := AncestorsAreDirs(root, found[j].path, found[j].node, |found[i].path|);
    NodesAreUnique(root, found[i].path, found[i].node, dir);
  }

  /** The manifest of one unchanging directory root always passes validation. */
  lemma {:induction false} DirectoryManifestIsValid(r: Repo, env: Env, rules: seq<Rule>, root: Node,
                                                    entries: seq<JobEntry>)
    requires WellFormed(root) && root.Dir? && JobMatches(env, SourcesOf(WalkRoot(rules, root)), entries)
    requires ChunkerCovers(env) && SizesFit(env, SourcesOf(WalkRoot(rules, root)))
    requires SizesAgree(env, SourcesOf(WalkRoot(rules, root)))
    ensures Manifests.ValidEntries(EntriesOf(r, entries))
  {
    hide WalkRoot, IsListingOf, SizesAgree, SizesFit, ChunkerCovers, EntryMatches;
    var found, es := WalkRoot(rules, root), EntriesOf(r, entries);
    WalkIsExact(rules, root);
    forall i | 0 <= i < |es|
      ensures es[i].path == ToRel(found[i].path) && es[i].metadata == MetadataOf(found[i].node)
      ensures Manifests.ValidEntry(es[i])
    {
      MatchedEntry(env, SourcesOf(found)[i], entries[i]);
      SourceEntryIsValid(r, env, rules, root, found, entries, i);
    }
    forall i, j | 0 <= i < j < |es|
      ensures es[i].path != es[j].path
    {
      ListingIsDistinct(rules, root, found);
      ToRelIsInjective(found[i].path, found[j].path);
    }
    forall i, j | 0 <= i < |es| && 0 <= j < |es| && es[i].path != []
                  && Manifests.IsProperAncestor(es[i].path, es[j].path)
      ensures es[i].metadata.kind == Directory
    {
      ToRelPrefix(found[j].path, |found[i].path|);
      ToRelIsInjective(found[i].path, found[j].path[..|found[i].path|]);
      ListingHasDirectoryAncestors(rules, root, found, i, j);
    }
  }

  lemma MatchedEntry(env: Env, source: SourceEntry, e: JobEntry)
    requires EntryMatches(env, source, e)
    ensures e.path == source.path && e.metadata == source.metadata
  {
  }

  lemma ListingIsDistinct(rules: seq<Rule>, root: Node, found: seq<Found>)
    requires IsListingOf(rules, root, found)
    ensures ListsEachPathOnce(found)
  {
  }

  /** Two roots list the empty path twice; a root that is no directory may not have it. */
  lemma {:induction false} OtherRootsAreRejected(r: Repo, env: Env, rules: seq<Rule>, roots: seq<Node>,
                                                 entries: seq<JobEntry>)
    requires JobMatches(env, SourcesOf(WalkRoots(rules, roots)), entries)
    requires |roots| >= 2 || (|roots| == 1 && !roots[0].Dir?)
    ensures !Manifests.ValidEntries(EntriesOf(r, entries))
  {
    var found, es := WalkRoots(rules, roots), EntriesOf(r, entries);
    var a := RootIsListed(rules, roots, 0);
    assert EntryMatches(env, SourcesOf(found)[a], entries[a]);
    assert es[a].path == [] && es[a].metadata == MetadataOf(roots[0]);
    if |roots| >= 2 {
      var b := RootIsListed(rules, roots, 1);
      assert EntryMatches(env, SourcesOf(found)[b], entries[b]);
      assert es[b].path == [] && a < b;
    } else {
      assert !Manifests.ValidEntry(es[a]);
    }
  }

  lemma DisagreeingSizeIsRejected(r: Repo, env: Env, sources: seq<SourceEntry>, entries: seq<JobEntry>)
    requires JobMatches(env, sources, entries) && ChunkerCovers(env) && !SizesAgree(env, sources)
    ensures !Manifests.ValidEntries(EntriesOf(r, entries))
  {
    var i :| 0 <= i < |sources| && sources[i].metadata.kind == RegularFile
             && sources[i].metadata.size.Some? && env.read(sources[i].path).Some?
             && |env.read(sources[i].path).value| != sources[i].metadata.size.value;
    assert EntryMatches(env, sources[i], entries[i]);
    EntrySize(r, env, sources[i], entries[i]);
    assert !Manifests.ValidEntry(EntriesOf(r, entries)[i]);
  }

  /**
   A written snapshot is readable exactly when it had no root at all or one
   root that is a directory, and every file still had its captured size
   when it was read.
   */
  lemma {:induction false} ManifestIsValidExactly(r: Repo, env: Env, rules: seq<Rule>, roots: seq<Node>,
                                                  entries: seq<JobEntry>)
    requires forall i :: 0 <= i < |roots| ==> WellFormed(roots[i])
    requires JobMatches(env, SourcesOf(WalkRoots(rules, roots)), entries)
    requires ChunkerCovers(env) && SizesFit(env, SourcesOf(WalkRoots(rules, roots)))
    ensures Manifests.ValidEntries(EntriesOf(r, entries))
            <==> (roots == [] || (|roots| == 1 && roots[0].Dir?)) && SizesAgree(env, SourcesOf(WalkRoots(rules, roots)))
  {
    hide WalkRoot, SizesAgree, SizesFit, EntryMatches, ChunkerCovers, WellFormed;
    if !SizesAgree(env, SourcesOf(WalkRoots(rules, roots))) {
      DisagreeingSizeIsRejected(r, env, SourcesOf(WalkRoots(rules, roots)), entries);
    } else if roots == [] {
    } else if |roots| == 1 && roots[0].Dir? {
      assert roots[..0] == [];
      assert WalkRoots(rules, roots) == WalkRoot(rules, roots[0]);
      DirectoryManifestIsValid(r, env, rules, roots[0], entries);
    } else {
      OtherRootsAreRejected(r, env, rules, roots, entries);
    }
  }
}
