/**
 Exclusion rules over whole paths (crates/fileferry-core/src/lib.rs,
 `ExclusionRule` and `path_segments_match`).
 */
module Exclusion {
  import opened Glob

  type Segments = seq<string>

  /** `path_segments_match`: `**` may stand for any run of segments. */
  predicate SegmentsMatch(pattern: Segments, path: Segments)
    decreases |pattern| + |path|
  {
    if pattern == [] then path == []
    else if pattern[0] == "**" then
      SegmentsMatch(pattern[1..], path) || (path != [] && SegmentsMatch(pattern, path[1..]))
    else path != [] && Wildcard(pattern[0], path[0]) && SegmentsMatch(pattern[1..], path[1..])
  }

  /**
   The meaning of a segment pattern: `cuts` divides the path so that pattern
   segment `i` covers `path[cuts[i]..cuts[i + 1]]`.
   */
  ghost predicate SegmentsFit(pattern: Segments, path: Segments, cuts: seq<nat>) {
    && |cuts| == |pattern| + 1
    && cuts[0] == 0 && cuts[|pattern|] == |path|
    && (forall i :: 0 <= i < |pattern| ==> SegmentCovers(pattern[i], path, cuts[i], cuts[i + 1]))
  }

  ghost predicate SegmentCovers(segment: string, path: Segments, lo: nat, hi: nat) {
    lo <= hi <= |path|
    && (segment != "**" ==> hi == lo + 1 && Wildcard(segment, path[lo]))
  }

  lemma {:induction false} MatchGivesCuts(pattern: Segments, path: Segments) returns (cuts: seq<nat>)
    requires SegmentsMatch(pattern, path)
    ensures SegmentsFit(pattern, path, cuts)
    decreases |pattern| + |path|
  {
    if pattern == [] {
      cuts := [0];
    } else if pattern[0] == "**" && SegmentsMatch(pattern[1..], path) {
      var rest := MatchGivesCuts(pattern[1..], path);
      cuts := [0] + rest;
      hide SegmentCovers, Wildcard;
      assert forall i :: 1 <= i < |pattern| ==> SegmentCovers(pattern[1..][i - 1], path, rest[i - 1], rest[i]);
    } else if pattern[0] == "**" {
      var rest := MatchGivesCuts(pattern, path[1..]);
      cuts := [0] + Shifted(rest[1..]);
      ShiftedCovers(pattern, path, rest, 0);
    } else {
      var rest := MatchGivesCuts(pattern[1..], path[1..]);
      cuts := [0] + Shifted(rest);
      ShiftedCovers(pattern[1..], path, rest, 0);
      assert forall i :: 1 <= i < |pattern| ==> pattern[1..][i - 1] == pattern[i];
    }
  }

  function Shifted(cuts: seq<nat>): seq<nat> {
    seq(|cuts|, i requires 0 <= i < |cuts| => cuts[i] + 1)
  }

  lemma ShiftedCovers(pattern: Segments, path: Segments, cuts: seq<nat>, lo: nat)
    requires path != [] && SegmentsFit(pattern, path[1..], cuts)
    ensures forall i :: 0 <= i < |pattern| ==> SegmentCovers(pattern[i], path, cuts[i] + 1, cuts[i + 1] + 1)
  {
    forall i | 0 <= i < |pattern|
      ensures SegmentCovers(pattern[i], path, cuts[i] + 1, cuts[i + 1] + 1)
    {
      assert SegmentCovers(pattern[i], path[1..], cuts[i], cuts[i + 1]);
    }
  }

  lemma {:induction false} CutsGiveMatch(pattern: Segments, path: Segments, cuts: seq<nat>)
    requires SegmentsFit(pattern, path, cuts)
    ensures SegmentsMatch(pattern, path)
    decreases |pattern| + |path|
  {
    if pattern != [] {
      assert SegmentCovers(pattern[0], path, cuts[0], cuts[1]);
      if pattern[0] == "**" && cuts[1] == 0 {
        CutsGiveMatch(pattern[1..], path, cuts[1..]);
      } else {
        CutsStayPositive(pattern, path, cuts, |pattern|);
        var less := seq(|pattern|, i requires 0 <= i < |pattern| => if cuts[i + 1] > 0 then cuts[i + 1] - 1 else 0);
        forall i | 1 <= i < |pattern|
          ensures SegmentCovers(pattern[i], path[1..], less[i - 1], less[i])
        {
          CutsStayPositive(pattern, path, cuts, i);
          CutsStayPositive(pattern, path, cuts, i + 1);
          assert SegmentCovers(pattern[i], path, cuts[i], cuts[i + 1]);
        }
        if pattern[0] == "**" {
          assert SegmentCovers(pattern[0], path[1..], 0, less[0]) by {
            CutsStayPositive(pattern, path, cuts, 1);
          }
          CutsGiveMatch(pattern, path[1..], [0] + less);
        } else {
          CutsGiveMatch(pattern[1..], path[1..], less);
        }
      }
    }
  }

  lemma {:induction false} CutsStayPositive(pattern: Segments, path: Segments, cuts: seq<nat>, i: nat)
    requires SegmentsFit(pattern, path, cuts) && 1 <= i <= |pattern| && cuts[1] > 0
    ensures 0 < cuts[i] <= |path|
  {
    assert SegmentCovers(pattern[i - 1], path, cuts[i - 1], cuts[i]);
    if i > 1 {
      CutsStayPositive(pattern, path, cuts, i - 1);
    }
  }

  /** The recursion decides exactly whether the pattern can be laid over the path. */
  lemma {:induction false} SegmentsMatchMeaning(pattern: Segments, path: Segments)
    ensures SegmentsMatch(pattern, path) <==> exists cuts :: SegmentsFit(pattern, path, cuts)
  {
    if SegmentsMatch(pattern, path) {
      var cuts := MatchGivesCuts(pattern, path);
    }
    if cuts :| SegmentsFit(pattern, path, cuts) {
      CutsGiveMatch(pattern, path, cuts);
    }
  }

  // ---------- Rules ----------

  datatype Rule = Rule(pattern: string, segments: Segments, directoryPrefix: bool)

  function TrimStart(s: string): string {
    if s != "" && s[0] == '/' then TrimStart(s[1..]) else s
  }

  function TrimEnd(s: string): string {
    if s != "" && s[|s| - 1] == '/' then TrimEnd(s[..|s| - 1]) else s
  }

  function SlashesForward(s: string): string {
    seq(|s|, i requires 0 <= i < |s| => if s[i] == '\\' then '/' else s[i])
  }

  function NonEmpty(parts: Segments): (r: Segments)
    ensures "" !in r
    ensures forall p :: p in parts && p != "" ==> p in r
    ensures forall p :: p in r ==> p in parts
  {
    if parts == [] then [] else (if parts[0] == "" then [] else [parts[0]]) + NonEmpty(parts[1..])
  }

  /** `ExclusionRule::new` */
  function NewRule(pattern: string): Rule {
    Rule(pattern,
         NonEmpty(Split(SlashesForward(TrimEnd(TrimStart(pattern))), '/')),
         pattern != "" && pattern[|pattern| - 1] == '/')
  }

  predicate IsBareName(pattern: string) {
    '/' !in pattern && '\\' !in pattern
  }

  /** `ExclusionRule::matches` */
  predicate RuleMatches(rule: Rule, path: Segments) {
    if path == [] || rule.segments == [] then false
    else if rule.directoryPrefix && |path| < |rule.segments| then false
    else if IsBareName(rule.pattern) then exists i :: 0 <= i < |path| && Wildcard(rule.segments[0], path[i])
    else if rule.directoryPrefix then SegmentsMatch(rule.segments, path[..|rule.segments|])
    else SegmentsMatch(rule.segments, path)
  }

  predicate IsExcluded(rules: seq<Rule>, path: Segments) {
    exists i :: 0 <= i < |rules| && RuleMatches(rules[i], path)
  }

  // ---------- Rules as they are built ----------

  lemma {:induction false} SlashesStayForward(s: string)
    requires IsBareName(s)
    ensures SlashesForward(s) == s && TrimStart(s) == s && TrimEnd(s) == s
  {
    assert s != "" ==> s[0] in s && s[|s| - 1] in s;
  }

  /** The segments of a rule are names: not empty, and without a slash. */
  lemma RuleSegmentsAreNames(pattern: string, i: nat)
    requires i < |NewRule(pattern).segments|
    ensures NewRule(pattern).segments[i] != "" && '/' !in NewRule(pattern).segments[i]
  {
    assert NewRule(pattern).segments[i] in NewRule(pattern).segments;
  }

  /** A rule that is one name excludes every path with a component that matches it. */
  lemma {:induction false} BareNameRule(name: string, path: Segments)
    requires name != "" && IsBareName(name)
    ensures RuleMatches(NewRule(name), path) <==> exists i :: 0 <= i < |path| && Wildcard(name, path[i])
  {
    hide Wildcard;
    SlashesStayForward(name);
    NoSeparatorNoSplit(name, '/');
    OnlyName(name);
  }

  lemma {:induction false} OnlyName(name: string)
    requires name != ""
    ensures NonEmpty([name]) == [name]
  {
    assert [name][1..] == [];
  }

  /** A name with a slash behind it excludes the matching entries at the top, and everything below them. */
  lemma {:induction false} DirectoryRule(name: string, path: Segments)
    requires name != "" && IsBareName(name)
    ensures RuleMatches(NewRule(name + "/"), path) <==> path != [] && Wildcard(name, path[0])
  {
    hide Wildcard;
    SlashesStayForward(name);
    NoSeparatorNoSplit(name, '/');
    OnlyName(name);
    SlashIsTrimmed(name);
    hide TrimStart, TrimEnd, SlashesForward, NonEmpty, SegmentsMatch, Split;
    assert (name + "/")[|name|] == '/';
    if path != [] {
      OneSegment(name, path[0]);
      assert path[..1] == [path[0]];
    }
  }

  lemma {:induction false} SlashIsTrimmed(name: string)
    requires name != "" && IsBareName(name)
    ensures TrimEnd(TrimStart(name + "/")) == name
  {
    SlashesStayForward(name);
    var dir := name + "/";
    assert name[0] in name && dir[0] == name[0];
    assert TrimStart(dir) == dir;
    assert dir[|dir| - 1] == '/' && dir[..|dir| - 1] == name;
    assert TrimEnd(dir) == TrimEnd(name);
  }

  lemma {:induction false} OneSegment(segment: string, component: string)
    ensures SegmentsMatch([segment], [component]) <==> Wildcard(segment, component)
  {
    hide Wildcard;
    DoubleStarMatchesAll(component);
    assert [segment][1..] == [] && [component][1..] == [];
    assert SegmentsMatch([segment], []) <==> segment == "**";
  }

  /** Bare names and directory rules also match everything below what they match. */
  lemma ExclusionIsInherited(rule: Rule, path: Segments, below: Segments)
    requires IsBareName(rule.pattern) || rule.directoryPrefix
    requires RuleMatches(rule, path)
    ensures RuleMatches(rule, path + below)
  {
    if IsBareName(rule.pattern) {
      var i :| 0 <= i < |path| && Wildcard(rule.segments[0], path[i]);
      assert (path + below)[i] == path[i];
    } else {
      assert (path + below)[..|rule.segments|] == path[..|rule.segments|];
    }
  }
}
