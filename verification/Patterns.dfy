/**
 What an exclusion pattern says, read from its text alone
 (crates/fileferry-core/src/lib.rs, `ExclusionRule::new` and `matches`), and
 what a walk with such patterns lists.
 */
module Patterns {
  import opened Glob
  import opened Exclusion
  import opened Walker

  predicate IsSeparator(c: char) {
    c == '/' || c == '\\'
  }

  predicate IsName(s: string) {
    s != "" && forall i :: 0 <= i < |s| ==> !IsSeparator(s[i])
  }

  /** The pattern is these names, with one or more separators between them and any number around them. */
  predicate Spells(pattern: string, names: Segments)
    decreases |pattern|
  {
    if pattern == "" then names == []
    else if IsSeparator(pattern[0]) then Spells(pattern[1..], names)
    else
      && names != [] && IsName(names[0]) && names[0] <= pattern
      && var rest := pattern[|names[0]|..];
         (rest == "" || IsSeparator(rest[0])) && Spells(rest, names[1..])
  }

  /** What a pattern with these names excludes. */
  ghost predicate Excludes(pattern: string, names: Segments, path: Segments) {
    && path != [] && names != []
    && if forall i :: 0 <= i < |pattern| ==> !IsSeparator(pattern[i])
       then exists i :: 0 <= i < |path| && Wildcard(names[0], path[i])
       else if pattern[|pattern| - 1] == '/'
       then |names| <= |path| && exists cuts :: SegmentsFit(names, path[..|names|], cuts)
       else exists cuts :: SegmentsFit(names, path, cuts)
  }

  // ---------- A rule has the names of its pattern ----------

  lemma {:induction false} FirstPart(s: string, sep: char)
    ensures Split(s, sep)[0] == "" <==> s == "" || s[0] == sep
  {
  }

  lemma {:induction false} ForwardTail(s: string)
    requires s != ""
    ensures SlashesForward(s)[1..] == SlashesForward(s[1..])
    ensures SlashesForward(s) != "" && SlashesForward(s)[0] == if s[0] == '\\' then '/' else s[0]
  {
  }

  /** The part of the first name after its first character. */
  lemma {:induction false} OneMoreCharacter(s: string, part: string, names: Segments)
    requires s != "" && !IsSeparator(s[0]) && part != "" && Spells(s[1..], [part] + names)
    requires s[1..] != "" && !IsSeparator(s[1])
    ensures Spells(s, [[s[0]] + part] + names)
  {
    var name, all := [s[0]] + part, [[s[0]] + part] + names;
    assert ([part] + names)[0] == part && ([part] + names)[1..] == names && all[1..] == names;
    assert IsName(part) && part <= s[1..];
    assert s == [s[0]] + s[1..];
    assert name <= s && s[|name|..] == s[1..][|part|..];
    assert IsName(name) by {
      forall i | 0 <= i < |name|
        ensures !IsSeparator(name[i])
      {
        assert i > 0 ==> name[i] == part[i - 1];
      }
    }
  }

  /** The names of a string, one character at a time. */
  lemma {:induction false} NamesStep(s: string)
    requires s != ""
    ensures var rest := Split(SlashesForward(s[1..]), '/');
            && NonEmpty(Split(SlashesForward(s), '/'))
               == (if IsSeparator(s[0]) then NonEmpty(rest) else [[s[0]] + rest[0]] + NonEmpty(rest[1..]))
            && NonEmpty(rest) == (if rest[0] == "" then [] else [rest[0]]) + NonEmpty(rest[1..])
            && (rest[0] == "" <==> s[1..] == "" || IsSeparator(s[1..][0]))
  {
    var rest := Split(SlashesForward(s[1..]), '/');
    ForwardTail(s);
    FirstPart(SlashesForward(s[1..]), '/');
    if s[1..] != "" {
      ForwardTail(s[1..]);
    }
    hide SlashesForward;
    assert ([""] + rest)[1..] == rest;
    var first := [s[0]] + rest[0];
    assert ([first] + rest[1..])[1..] == rest[1..];
  }

  lemma {:induction false} SplitSpells(s: string)
    ensures Spells(s, NonEmpty(Split(SlashesForward(s), '/')))
    decreases |s|
  {
    if s == "" {
      NothingSpelled();
    } else {
      NamesStep(s);
      SplitSpells(s[1..]);
      var rest := Split(SlashesForward(s[1..]), '/');
      hide Split, NonEmpty, SlashesForward;
      if !IsSeparator(s[0]) {
        if rest[0] == "" {
          assert [s[0]] + rest[0] == [s[0]] && [] + NonEmpty(rest[1..]) == NonEmpty(rest[1..]);
          OneCharacterName(s, NonEmpty(rest[1..]));
        } else {
          OneMoreCharacter(s, rest[0], NonEmpty(rest[1..]));
        }
      }
    }
  }

  lemma NothingSpelled()
    ensures NonEmpty(Split(SlashesForward(""), '/')) == []
  {
    assert SlashesForward("") == "" && Split("", '/') == [""] && [""][1..] == [];
  }

  lemma {:induction false} OneCharacterName(s: string, names: Segments)
    requires s != "" && !IsSeparator(s[0]) && (s[1..] == "" || IsSeparator(s[1..][0])) && Spells(s[1..], names)
    ensures Spells(s, [[s[0]]] + names)
  {
    var first := [s[0]];
    assert first <= s && s[|first|..] == s[1..] && ([first] + names)[1..] == names;
  }

  lemma {:induction false} SlashBefore(s: string, names: Segments)
    requires Spells(TrimStart(s), names)
    ensures Spells(s, names)
    decreases |s|
  {
    if s != "" && s[0] == '/' {
      SlashBefore(s[1..], names);
    }
  }

  lemma {:induction false} SeparatorBehind(s: string, names: Segments, sep: char)
    requires Spells(s, names) && IsSeparator(sep)
    ensures Spells(s + [sep], names)
    decreases |s|
  {
    if s == "" {
      assert ([sep])[1..] == "" && s + [sep] == [sep];
    } else if IsSeparator(s[0]) {
      SeparatorBehind(s[1..], names, sep);
      assert (s + [sep])[1..] == s[1..] + [sep];
    } else {
      var n := |names[0]|;
      SeparatorBehind(s[n..], names[1..], sep);
      assert (s + [sep])[n..] == s[n..] + [sep];
    }
  }

  lemma {:induction false} SlashesBehind(s: string, names: Segments)
    requires Spells(TrimEnd(s), names)
    ensures Spells(s, names)
    decreases |s|
  {
    if s != "" && s[|s| - 1] == '/' {
      SlashesBehind(s[..|s| - 1], names);
      SeparatorBehind(s[..|s| - 1], names, '/');
      assert s == s[..|s| - 1] + ['/'];
    }
  }

  /** Every pattern spells the segments of its rule, and nothing else. */
  lemma {:induction false} RuleSpellsItsPattern(pattern: string)
    ensures Spells(pattern, NewRule(pattern).segments)
  {
    var trimmed := TrimEnd(TrimStart(pattern));
    SplitSpells(trimmed);
    SlashesBehind(TrimStart(pattern), NewRule(pattern).segments);
    SlashBefore(pattern, NewRule(pattern).segments);
  }

  lemma {:induction false} NamesAreUnique(pattern: string, a: Segments, b: Segments)
    requires Spells(pattern, a) && Spells(pattern, b)
    ensures a == b
    decreases |pattern|
  {
    if pattern != "" {
      if IsSeparator(pattern[0]) {
        NamesAreUnique(pattern[1..], a, b);
      } else {
        SameFirstName(pattern, a[0], b[0]);
        NamesAreUnique(pattern[|a[0]|..], a[1..], b[1..]);
        assert a == [a[0]] + a[1..] && b == [b[0]] + b[1..];
      }
    }
  }

  lemma SameFirstName(pattern: string, a: string, b: string)
    requires IsName(a) && a <= pattern && (|a| < |pattern| ==> IsSeparator(pattern[|a|]))
    requires IsName(b) && b <= pattern && (|b| < |pattern| ==> IsSeparator(pattern[|b|]))
    ensures a == b
  {
    assert a == pattern[..|a|] && b == pattern[..|b|];
    assert forall i :: 0 <= i < |a| ==> !IsSeparator(pattern[i]);
    assert forall i :: 0 <= i < |b| ==> !IsSeparator(pattern[i]);
  }

  // ---------- What a rule matches ----------

  lemma BareMeansNoSeparator(pattern: string)
    ensures IsBareName(pattern) <==> forall i :: 0 <= i < |pattern| ==> !IsSeparator(pattern[i])
  {
  }

  /** A rule matches exactly what its pattern says, whatever the pattern is. */
  lemma {:induction false} RuleMeansItsPattern(pattern: string, names: Segments, path: Segments)
    requires Spells(pattern, names)
    ensures RuleMatches(NewRule(pattern), path) <==> Excludes(pattern, names, path)
  {
    hide Wildcard, SegmentsFit, SegmentsMatch, Spells, Split, SlashesForward, TrimStart, TrimEnd, NonEmpty;
    RuleSpellsItsPattern(pattern);
    NamesAreUnique(pattern, names, NewRule(pattern).segments);
    BareMeansNoSeparator(pattern);
    SegmentsMatchMeaning(names, path);
    if |names| <= |path| {
      SegmentsMatchMeaning(names, path[..|names|]);
    }
  }

  // ---------- Names joined by slashes ----------

  predicate AreNames(names: Segments) {
    forall i :: 0 <= i < |names| ==> IsName(names[i])
  }

  function Joined(names: Segments, sep: char): string
    requires names != []
  {
    if |names| == 1 then names[0] else names[0] + [sep] + Joined(names[1..], sep)
  }

  lemma {:induction false} JoinedSpells(names: Segments, sep: char)
    requires names != [] && AreNames(names) && IsSeparator(sep)
    ensures Joined(names, sep) != "" && Joined(names, sep)[0] == names[0][0]
    ensures Spells(Joined(names, sep), names)
    decreases |names|
  {
    var p := Joined(names, sep);
    assert IsName(names[0]);
    if |names| == 1 {
      assert p[|names[0]|..] == "" && names[1..] == [];
    } else {
      JoinedSpells(names[1..], sep);
      var rest := [sep] + Joined(names[1..], sep);
      assert p == names[0] + rest && p[|names[0]|..] == rest;
      assert rest[1..] == Joined(names[1..], sep);
    }
  }

  lemma {:induction false} LastCharacter(names: Segments, sep: char)
    requires names != [] && AreNames(names)
    ensures var p, last := Joined(names, sep), names[|names| - 1]; p != "" && p[|p| - 1] == last[|last| - 1]
    ensures |names| > 1 ==> sep in Joined(names, sep)
    decreases |names|
  {
    assert IsName(names[0]);
    if |names| > 1 {
      LastCharacter(names[1..], sep);
      assert Joined(names, sep)[|names[0]|] == sep;
    }
  }

  /** The names can be laid over the whole path. */
  ghost predicate LaidOver(names: Segments, path: Segments) {
    exists cuts :: SegmentsFit(names, path, cuts)
  }

  /** Two or more names with slashes or backslashes between them are laid over the whole path. */
  lemma {:induction false} InnerSlashRule(names: Segments, sep: char, path: Segments)
    requires |names| > 1 && AreNames(names) && IsSeparator(sep)
    ensures RuleMatches(NewRule(Joined(names, sep)), path) <==> path != [] && LaidOver(names, path)
  {
    hide SegmentsFit, RuleMatches, NewRule, Spells, Joined;
    var p := Joined(names, sep);
    JoinedSpells(names, sep);
    LastCharacter(names, sep);
    RuleMeansItsPattern(p, names, path);
    assert exists i :: 0 <= i < |p| && IsSeparator(p[i]);
    assert IsName(names[|names| - 1]);
  }

  /** A slash in front makes the names a path from the top. */
  lemma {:induction false} LeadingSlashRule(names: Segments, path: Segments)
    requires names != [] && AreNames(names)
    ensures RuleMatches(NewRule("/" + Joined(names, '/')), path) <==> path != [] && LaidOver(names, path)
  {
    hide SegmentsFit, RuleMatches, NewRule, Joined;
    var p := "/" + Joined(names, '/');
    JoinedSpells(names, '/');
    LastCharacter(names, '/');
    assert IsSeparator(p[0]) && p[1..] == Joined(names, '/');
    RuleMeansItsPattern(p, names, path);
    assert IsName(names[|names| - 1]);
  }

  /** With a slash behind them, the names are laid over as many components from the top. */
  lemma {:induction false} TrailingSlashRule(names: Segments, path: Segments)
    requires names != [] && AreNames(names)
    ensures RuleMatches(NewRule(Joined(names, '/') + "/"), path)
            <==> |names| <= |path| && LaidOver(names, path[..|names|])
  {
    hide SegmentsFit, RuleMatches, NewRule, Joined, Spells;
    var p := Joined(names, '/') + ['/'];
    JoinedSpells(names, '/');
    SeparatorBehind(Joined(names, '/'), names, '/');
    assert p == Joined(names, '/') + "/" && IsSeparator(p[|p| - 1]);
    RuleMeansItsPattern(p, names, path);
  }

  // ---------- Walks ----------

  /** The rules of these patterns. */
  function RulesFor(patterns: seq<string>): seq<Rule> {
    seq(|patterns|, i requires 0 <= i < |patterns| => NewRule(patterns[i]))
  }

  /** What some of these patterns say of the path. */
  ghost predicate SomeExcludes(patterns: seq<string>, path: Segments) {
    exists i, names :: 0 <= i < |patterns| && Spells(patterns[i], names) && Excludes(patterns[i], names, path)
  }

  lemma {:induction false} ExcludedMeansPatterns(patterns: seq<string>, path: Segments)
    ensures IsExcluded(RulesFor(patterns), path) <==> SomeExcludes(patterns, path)
  {
    hide RuleMatches, NewRule, Excludes, Spells;
    if i :| 0 <= i < |patterns| && RuleMatches(RulesFor(patterns)[i], path) {
      RuleSpellsItsPattern(patterns[i]);
      RuleMeansItsPattern(patterns[i], NewRule(patterns[i]).segments, path);
      assert Excludes(patterns[i], NewRule(patterns[i]).segments, path);
    }
    if i, names :| 0 <= i < |patterns| && Spells(patterns[i], names) && Excludes(patterns[i], names, path) {
      RuleMeansItsPattern(patterns[i], names, path);
      assert RuleMatches(RulesFor(patterns)[i], path);
    }
  }

  /**
   With any patterns, a walk lists exactly the nodes of the tree for which no
   pattern excludes the node or a directory above it.
   */
  lemma {:induction false} WalkByPatterns(patterns: seq<string>, root: Node, f: Found)
    ensures f in WalkRoot(RulesFor(patterns), root)
            <==> && At(root, f.path, f.node)
                 && forall k :: 0 < k <= |f.path| ==> !SomeExcludes(patterns, f.path[..k])
  {
    hide IsExcluded, SomeExcludes, RulesFor, At, WalkRoot;
    BelowRoot(RulesFor(patterns), root, f);
    forall k | 0 < k <= |f.path|
      ensures IsExcluded(RulesFor(patterns), f.path[..k]) <==> SomeExcludes(patterns, f.path[..k])
    {
      ExcludedMeansPatterns(patterns, f.path[..k]);
    }
  }

  /** The patterns that exclude these names at any depth. */
  function AnywherePatterns(names: seq<string>): seq<string> {
    seq(|names|, i requires 0 <= i < |names| => "**/" + names[i])
  }

  lemma {:induction false} AnywhereRule(name: string, path: Segments)
    requires IsName(name)
    ensures RuleMatches(NewRule("**/" + name), path) <==> path != [] && Wildcard(name, path[|path| - 1])
  {
    hide RuleMatches, NewRule, Wildcard, SegmentsFit;
    var names := ["**", name];
    assert IsName("**") && AreNames(names);
    assert Joined(names, '/') == "**/" + name by {
      assert names[1..] == [name];
    }
    InnerSlashRule(names, '/', path);
    if path != [] {
      LastComponent(name, path);
    }
  }

  lemma {:induction false} LastComponent(name: string, path: Segments)
    requires path != []
    ensures LaidOver(["**", name], path) <==> Wildcard(name, path[|path| - 1])
  {
    hide Wildcard;
    var names, n := ["**", name], |path|;
    DoubleStarMatchesAll(path[n - 1]);
    if cuts :| SegmentsFit(names, path, cuts) {
      assert SegmentCovers(names[1], path, cuts[1], cuts[2]);
    }
    if Wildcard(name, path[n - 1]) {
      assert SegmentCovers(names[0], path, 0, n - 1) && SegmentCovers(names[1], path, n - 1, n);
      assert SegmentsFit(names, path, [0, n - 1, n]);
    }
  }

  /** With such patterns, exactly the nodes are listed on whose path no component matches any of the names. */
  lemma {:induction false} WalkWithoutNames(names: seq<string>, root: Node, f: Found)
    requires forall i :: 0 <= i < |names| ==> IsName(names[i])
    ensures f in WalkRoot(RulesFor(AnywherePatterns(names)), root)
            <==> && At(root, f.path, f.node)
                 && forall i, k :: 0 <= i < |names| && 0 <= k < |f.path| ==> !Wildcard(names[i], f.path[k])
  {
    hide RuleMatches, NewRule, Wildcard, At, WalkRoot;
    var rules := RulesFor(AnywherePatterns(names));
    BelowRoot(rules, root, f);
    forall i, k | 0 <= i < |names| && 0 < k <= |f.path|
      ensures RuleMatches(rules[i], f.path[..k]) <==> Wildcard(names[i], f.path[k - 1])
    {
      AnywhereRule(names[i], f.path[..k]);
    }
    if NotPruned(rules, f.path, 0) {
      forall i, k | 0 <= i < |names| && 0 <= k < |f.path|
        ensures !Wildcard(names[i], f.path[k])
      {
        assert !IsExcluded(rules, f.path[..k + 1]);
        assert !RuleMatches(rules[i], f.path[..k + 1]);
      }
    }
  }
}
