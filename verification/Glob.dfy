/**
 Exclusion patterns (crates/fileferry-core/src/lib.rs, `ExclusionRule`,
 `path_segments_match`, `wildcard_match`).

 `Glob` and `SegmentsFit` say what `*` and `**` mean; the matching code is
 compared with them.
 */
module Glob {

  import opened Common

  // ---------- What `*` means inside one segment ----------

  ghost predicate Matches(pattern: string, value: string) {
    if pattern == "" then value == ""
    else if pattern[0] == '*' then exists k :: 0 <= k <= |value| && Matches(pattern[1..], value[k..])
    else value != "" && value[0] == pattern[0] && Matches(pattern[1..], value[1..])
  }

  // ---------- String helpers of the Rust standard library ----------

  predicate StartsWith(value: string, prefix: string) {
    |prefix| <= |value| && value[..|prefix|] == prefix
  }

  predicate OccursAt(hay: string, needle: string, k: int) {
    0 <= k <= |hay| - |needle| && hay[k..k + |needle|] == needle
  }

  /** `str::find`: the first position at which `needle` occurs. */
  function Find(hay: string, needle: string): (r: Option<nat>)
    ensures r.Some? ==> OccursAt(hay, needle, r.value)
    ensures forall k :: OccursAt(hay, needle, k) ==> r.Some? && r.value <= k
  {
    FindFrom(hay, needle, 0)
  }

  function FindFrom(hay: string, needle: string, from: nat): (r: Option<nat>)
    requires from <= |hay|
    ensures r.Some? ==> from <= r.value && OccursAt(hay, needle, r.value)
    ensures forall k :: from <= k && OccursAt(hay, needle, k) ==> r.Some? && r.value <= k
    decreases |hay| - from
  {
    if OccursAt(hay, needle, from) then Some(from)
    else if from == |hay| then None
    else FindFrom(hay, needle, from + 1)
  }

  /** `str::split`: the pieces between the separators. */
  function Split(s: string, sep: char): (parts: seq<string>)
    ensures |parts| >= 1
    ensures forall p :: p in parts ==> sep !in p
  {
    if s == "" then [""]
    else
      var rest := Split(s[1..], sep);
      if s[0] == sep then [""] + rest else [[s[0]] + rest[0]] + rest[1..]
  }

  /** The parts, each preceded by a star. */
  function Starred(parts: seq<string>): string {
    if parts == [] then "" else "*" + parts[0] + Starred(parts[1..])
  }

  lemma {:induction false} SplitRejoins(s: string)
    ensures var parts := Split(s, '*'); s == parts[0] + Starred(parts[1..])
  {
    if s != "" {
      SplitRejoins(s[1..]);
      var rest := Split(s[1..], '*');
      var parts := Split(s, '*');
      if s[0] == '*' {
        assert parts[1..] == rest;
        assert Starred(rest) == "*" + rest[0] + Starred(rest[1..]);
      } else {
        assert parts[1..] == rest[1..];
      }
    }
  }

  // ---------- The matching code ----------

  /** The loop over the parts after the first: each is taken at its first occurrence. */
  predicate MatchParts(parts: seq<string>, remaining: string, endsWithWildcard: bool) {
    if parts == [] then endsWithWildcard || remaining == ""
    else if parts[0] == "" then MatchParts(parts[1..], remaining, endsWithWildcard)
    else
      match Find(remaining, parts[0])
      case None => false
      case Some(i) =>
        var rest := remaining[i + |parts[0]|..];
        if |parts| == 1 && !endsWithWildcard then rest == ""
        else MatchParts(parts[1..], rest, endsWithWildcard)
  }

  predicate EndsWithStar(pattern: string) {
    pattern != "" && pattern[|pattern| - 1] == '*'
  }

  predicate Wildcard(pattern: string, value: string) {
    pattern == "*" ||
    var parts := Split(pattern, '*');
    pattern != "" && StartsWith(value, parts[0])
    && MatchParts(parts[1..], value[|parts[0]|..], EndsWithStar(pattern))
  }

  lemma {:induction false} DoubleStarMatchesAll(value: string)
    ensures Wildcard("**", value)
  {
    NoSeparatorNoSplit("", '*');
    SplitAtSeparator("", "*", '*');
    SplitAtSeparator("", "", '*');
    assert [] + ['*'] + "*" == "**" && [] + ['*'] + "" == "*";
    assert Split("**", '*') == ["", "", ""];
    assert ["", "", ""][1..] == ["", ""] && ["", ""][1..] == [""] && [""][1..] == [];
    assert MatchParts([""], value, true) && MatchParts(["", ""], value, true);
    assert value[0..] == value;
  }

  method WildcardMatch(pattern: string, value: string) returns (matched: bool)
    ensures matched == Wildcard(pattern, value)
  {
    hide Wildcard, Split, MatchParts, FindFrom, Find, StartsWith;
    WildcardBegins(pattern, value);
    if pattern == "*" {
      return true;
    }
    var remaining := value;
    var parts := Split(pattern, '*');
    var startsWithWildcard := pattern != "" && pattern[0] == '*';
    var endsWithWildcard := pattern != "" && pattern[|pattern| - 1] == '*';
    var first := parts[0];
    if first != "" {
      if !StartsWith(remaining, first) {
        return false;
      }
      remaining := remaining[|first|..];
    } else if !startsWithWildcard {
      return false;
    }

    var next := 1;
    while next < |parts|
      invariant 1 <= next <= |parts|
      invariant Wildcard(pattern, value) == MatchParts(parts[next..], remaining, endsWithWildcard)
    {
      MatchPartsStep(parts, next, remaining, endsWithWildcard);
      var part := parts[next];
      next := next + 1;
      if part == "" {
        continue;
      }
      match Find(remaining, part) {
        case Some(index) =>
          remaining := remaining[index + |part|..];
          if next == |parts| && !endsWithWildcard {
            return remaining == "";
          }
        case None =>
          return false;
      }
    }
    NoPartsLeft(parts, remaining, endsWithWildcard);
    return endsWithWildcard || remaining == "";
  }

  /** What is decided before the loop. */
  lemma WildcardBegins(pattern: string, value: string)
    ensures Wildcard("*", value)
    ensures var parts := Split(pattern, '*');
            && (parts[0] == "" <==> pattern == "" || pattern[0] == '*')
            && (pattern != "*" ==>
                  if pattern != "" && StartsWith(value, parts[0]) then
                    |parts[0]| <= |value|
                    && (Wildcard(pattern, value)
                        <==> MatchParts(parts[1..], value[|parts[0]|..], EndsWithStar(pattern)))
                  else !Wildcard(pattern, value))
            && StartsWith(value, "") && value[0..] == value
  {
    hide MatchParts;
  }

  lemma NoPartsLeft(parts: seq<string>, remaining: string, endsWithWildcard: bool)
    ensures MatchParts(parts[|parts|..], remaining, endsWithWildcard) <==> endsWithWildcard || remaining == ""
  {
  }

  lemma {:induction false} MatchPartsStep(parts: seq<string>, next: nat, remaining: string, endsWithWildcard: bool)
    requires next < |parts|
    ensures MatchParts(parts[next..], remaining, endsWithWildcard) ==
            var part := parts[next];
            if part == "" then MatchParts(parts[next + 1..], remaining, endsWithWildcard)
            else
              match Find(remaining, part)
              case None => false
              case Some(i) =>
                if next + 1 == |parts| && !endsWithWildcard then remaining[i + |part|..] == ""
                else MatchParts(parts[next + 1..], remaining[i + |part|..], endsWithWildcard)
  {
    assert parts[next..][1..] == parts[next + 1..];
  }

  // ---------- Soundness and completeness ----------

  /** `Matches(Starred(parts), value)`, with each part placed at once. */
  ghost predicate Floats(parts: seq<string>, value: string) {
    if parts == [] then value == ""
    else exists k :: FloatsAt(parts, value, k)
  }

  ghost predicate FloatsAt(parts: seq<string>, value: string, k: int)
    requires parts != []
  {
    OccursAt(value, parts[0], k) && Floats(parts[1..], value[k + |parts[0]|..])
  }

  lemma {:induction false} LiteralPrefix(literal: string, rest: string, value: string)
    requires '*' !in literal
    ensures Matches(literal + rest, value)
            <==> StartsWith(value, literal) && Matches(rest, value[|literal|..])
  {
    if literal == "" {
      assert literal + rest == rest && value[0..] == value;
    } else {
      assert (literal + rest)[1..] == literal[1..] + rest;
      assert (literal + rest)[0] == literal[0];
      if value != "" {
        LiteralPrefix(literal[1..], rest, value[1..]);
        if value[0] == literal[0] {
          if |literal| <= |value| {
            assert value[1..][|literal| - 1..] == value[|literal|..];
          }
          if StartsWith(value, literal) {
            assert value[1..][..|literal| - 1] == value[..|literal|][1..] == literal[1..];
          }
          if StartsWith(value[1..], literal[1..]) {
            assert value[..|literal|] == [value[0]] + value[1..][..|literal| - 1];
          }
        } else {
          assert |literal| <= |value| ==> value[..|literal|][0] == value[0];
        }
      }
    }
  }

  lemma {:induction false} StarredMeansFloats(parts: seq<string>, value: string)
    requires forall p :: p in parts ==> '*' !in p
    ensures Matches(Starred(parts), value) <==> Floats(parts, value)
  {
    if parts != [] {
      hide Matches, Starred, FloatsAt;
      var part, rest := parts[0], Starred(parts[1..]);
      StarTakesSome(parts, value);
      forall k | 0 <= k <= |value|
        ensures Matches(part + rest, value[k..]) <==> FloatsAt(parts, value, k)
      {
        if k + |part| <= |value| {
          StarredMeansFloats(parts[1..], value[k + |part|..]);
        }
        StarredAt(parts, value, k);
      }
      if Matches(Starred(parts), value) {
        var k :| 0 <= k <= |value| && Matches(part + rest, value[k..]);
        assert FloatsAt(parts, value, k);
      }
      if k :| FloatsAt(parts, value, k) {
        FloatsWithin(parts, value, k);
        assert Matches(part + rest, value[k..]);
      }
    }
  }

  lemma StarTakesSome(parts: seq<string>, value: string)
    requires parts != []
    ensures Matches(Starred(parts), value)
            <==> exists k :: 0 <= k <= |value| && Matches(parts[0] + Starred(parts[1..]), value[k..])
  {
    assert Starred(parts)[1..] == parts[0] + Starred(parts[1..]);
  }

  lemma FloatsWithin(parts: seq<string>, value: string, k: int)
    requires parts != [] && FloatsAt(parts, value, k)
    ensures 0 <= k <= |value|
  {
  }

  lemma {:induction false} StarredAt(parts: seq<string>, value: string, k: nat)
    requires parts != [] && '*' !in parts[0] && k <= |value|
    requires k + |parts[0]| <= |value| ==>
               var tail := value[k + |parts[0]|..];
               Matches(Starred(parts[1..]), tail) <==> Floats(parts[1..], tail)
    ensures Matches(parts[0] + Starred(parts[1..]), value[k..]) <==> FloatsAt(parts, value, k)
  {
    hide Matches, Starred, Floats;
    var part := parts[0];
    LiteralPrefix(part, Starred(parts[1..]), value[k..]);
    if k + |part| <= |value| {
      assert value[k..][..|part|] == value[k..k + |part|];
      assert value[k..][|part|..] == value[k + |part|..];
    }
  }

  lemma {:induction false} PatternMeaning(pattern: string, value: string)
    ensures var parts := Split(pattern, '*');
            Matches(pattern, value)
            <==> StartsWith(value, parts[0]) && Floats(parts[1..], value[|parts[0]|..])
  {
    var parts := Split(pattern, '*');
    SplitRejoins(pattern);
    LiteralPrefix(parts[0], Starred(parts[1..]), value);
    if StartsWith(value, parts[0]) {
      StarredMeansFloats(parts[1..], value[|parts[0]|..]);
    }
  }

  predicate LastIsEmpty(parts: seq<string>) {
    parts != [] && parts[|parts| - 1] == ""
  }

  lemma {:induction false} StarsInSplit(pattern: string)
    ensures |Split(pattern, '*')| == 1 <==> '*' !in pattern
    ensures EndsWithStar(pattern) <==> LastIsEmpty(Split(pattern, '*')[1..])
  {
    hide Split;
    if pattern == "" {
      NoSeparatorNoSplit(pattern, '*');
    } else {
      var tail := pattern[1..];
      StarsInSplit(tail);
      SplitFirst(pattern);
      LastStar(pattern);
      assert pattern == [pattern[0]] + tail;
      if pattern[0] == '*' && '*' !in tail {
        NoSeparatorNoSplit(tail, '*');
      }
    }
  }

  lemma LastStar(pattern: string)
    requires pattern != ""
    ensures EndsWithStar(pattern) <==> if |pattern| == 1 then pattern[0] == '*' else EndsWithStar(pattern[1..])
  {
  }

  lemma SplitFirst(pattern: string)
    requires pattern != ""
    ensures var rest, parts := Split(pattern[1..], '*'), Split(pattern, '*');
            && |parts| == |rest| + (if pattern[0] == '*' then 1 else 0)
            && parts[1..] == if pattern[0] == '*' then rest else rest[1..]
    ensures |pattern| == 1 ==> Split(pattern[1..], '*') == [""]
  {
  }

  lemma {:induction false} NoSeparatorNoSplit(s: string, sep: char)
    requires sep !in s
    ensures Split(s, sep) == [s]
  {
    if s != "" {
      NoSeparatorNoSplit(s[1..], sep);
      assert s == [s[0]] + s[1..];
    }
  }

  lemma {:induction false} SplitAtSeparator(head: string, tail: string, sep: char)
    requires sep !in head
    ensures Split(head + [sep] + tail, sep) == [head] + Split(tail, sep)
  {
    var s := head + [sep] + tail;
    if head == "" {
      assert s[1..] == tail;
    } else {
      SplitAtSeparator(head[1..], tail, sep);
      assert s[1..] == head[1..] + [sep] + tail;
      assert head == [head[0]] + head[1..];
    }
  }

  lemma {:induction false} MatchPartsIsSound(parts: seq<string>, remaining: string, ends: bool)
    requires parts != [] ==> ends == LastIsEmpty(parts)
    requires parts == [] ==> !ends
    requires MatchParts(parts, remaining, ends)
    ensures Floats(parts, remaining)
  {
    if parts == [] {
    } else if |parts| == 1 {
      if ends {
        assert FloatsAt(parts, remaining, |remaining|);
      } else {
        assert FloatsAt(parts, remaining, Find(remaining, parts[0]).value);
      }
    } else {
      var i := if parts[0] == "" then 0 else Find(remaining, parts[0]).value;
      var rest := remaining[i + |parts[0]|..];
      assert parts[0] == "" ==> rest == remaining;
      MatchPartsIsSound(parts[1..], rest, ends);
      assert FloatsAt(parts, remaining, i);
    }
  }

  /** Whatever the code accepts, the pattern means. */
  lemma {:induction false} WildcardIsSound(pattern: string, value: string)
    requires Wildcard(pattern, value)
    ensures Matches(pattern, value)
  {
    PatternMeaning(pattern, value);
    StarsInSplit(pattern);
    var parts := Split(pattern, '*');
    if pattern == "*" {
      assert parts == ["", ""];
      assert FloatsAt(parts[1..], value[0..], |value|);
    } else {
      MatchPartsIsSound(parts[1..], value[|parts[0]|..], EndsWithStar(pattern));
    }
  }

  /** A leading star absorbs more text in front. */
  lemma {:induction false} FloatsInLonger(parts: seq<string>, value: string, i: nat, k: nat)
    requires parts != [] && i <= k <= |value| && Floats(parts, value[k..])
    ensures Floats(parts, value[i..])
  {
    var j :| FloatsAt(parts, value[k..], j);
    var n := |parts[0]|;
    assert value[i..][k - i + j..k - i + j + n] == value[k..][j..j + n];
    assert OccursAt(value[i..], parts[0], k - i + j);
    assert value[i..][k - i + j + n..] == value[k..][j + n..];
    assert FloatsAt(parts, value[i..], k - i + j);
  }

  /** Taking each part as early as possible loses no match when a star comes last. */
  lemma {:induction false} GreedyIsComplete(parts: seq<string>, value: string)
    requires LastIsEmpty(parts) && Floats(parts, value)
    ensures MatchParts(parts, value, true)
  {
    var k :| FloatsAt(parts, value, k);
    if |parts| > 1 {
      var n := |parts[0]|;
      if n == 0 {
        FloatsInLonger(parts[1..], value, 0, k);
        assert value[0..] == value;
        GreedyIsComplete(parts[1..], value);
      } else {
        var i := Find(value, parts[0]).value;
        FloatsInLonger(parts[1..], value, i + n, k + n);
        GreedyIsComplete(parts[1..], value[i + n..]);
      }
    }
  }

  lemma {:induction false} WildcardIsComplete(pattern: string, value: string)
    requires pattern != "" && ('*' !in pattern || EndsWithStar(pattern))
    requires Matches(pattern, value)
    ensures Wildcard(pattern, value)
  {
    PatternMeaning(pattern, value);
    StarsInSplit(pattern);
    var parts := Split(pattern, '*');
    if EndsWithStar(pattern) {
      GreedyIsComplete(parts[1..], value[|parts[0]|..]);
    }
  }

  /** The parts in a row, the last one twice. */
  function Doubled(parts: seq<string>): string
    requires parts != []
  {
    if |parts| == 1 then parts[0] + parts[0] else parts[0] + Doubled(parts[1..])
  }

  /** Greedy matching stops at the first copy of a doubled last part. */
  lemma {:induction false} GreedyMissesDoubled(parts: seq<string>)
    requires parts != [] && parts[|parts| - 1] != ""
    ensures Floats(parts, Doubled(parts))
    ensures !MatchParts(parts, Doubled(parts), false)
  {
    var v, n := Doubled(parts), |parts[0]|;
    if |parts| == 1 {
      assert v[n..n + n] == parts[0] && v[n + n..] == "";
      assert FloatsAt(parts, v, n);
      assert v[0..0 + n] == parts[0];
    } else {
      GreedyMissesDoubled(parts[1..]);
      assert v[0..0 + n] == parts[0] && v[n..] == Doubled(parts[1..]);
      assert FloatsAt(parts, v, 0);
      if n > 0 {
        assert Find(v, parts[0]) == Some(0);
      }
    }
  }

  /** The value that shows a pattern is not matched completely. */
  function MissedValue(pattern: string): string {
    var parts := Split(pattern, '*');
    if |parts| == 1 then pattern else parts[0] + Doubled(parts[1..])
  }

  lemma {:induction false} WildcardMisses(pattern: string)
    requires '*' in pattern && !EndsWithStar(pattern)
    ensures Matches(pattern, MissedValue(pattern)) && !Wildcard(pattern, MissedValue(pattern))
  {
    StarsInSplit(pattern);
    var parts, value := Split(pattern, '*'), MissedValue(pattern);
    GreedyMissesDoubled(parts[1..]);
    assert value[..|parts[0]|] == parts[0] && value[|parts[0]|..] == Doubled(parts[1..]);
    PatternMeaning(pattern, value);
  }

  /**
   `wildcard_match` agrees with the meaning of the pattern on every value
   exactly when the pattern is non-empty and has no star, or ends in one.
   */
  lemma {:induction false} WildcardIsExact(pattern: string)
    ensures (forall value :: Wildcard(pattern, value) <==> Matches(pattern, value))
            <==> pattern != "" && ('*' !in pattern || EndsWithStar(pattern))
  {
    if pattern != "" && ('*' !in pattern || EndsWithStar(pattern)) {
      forall value ensures Wildcard(pattern, value) <==> Matches(pattern, value) {
        if Wildcard(pattern, value) {
          WildcardIsSound(pattern, value);
        } else if Matches(pattern, value) {
          WildcardIsComplete(pattern, value);
        }
      }
    } else if pattern == "" {
      assert Matches(pattern, "") && !Wildcard(pattern, "");
    } else {
      WildcardMisses(pattern);
    }
  }

  /** For example `*.tmp` means ".tmp.tmp", but the code does not accept it. */
  lemma {:induction false} RepeatedSuffixIsMissed(suffix: string)
    requires suffix != "" && '*' !in suffix
    ensures Matches("*" + suffix, suffix + suffix) && !Wildcard("*" + suffix, suffix + suffix)
  {
    var pattern := "*" + suffix;
    SplitAtSeparator("", suffix, '*');
    NoSeparatorNoSplit(suffix, '*');
    assert pattern == "" + ['*'] + suffix;
    assert Split(pattern, '*')[1..] == [suffix];
    assert MissedValue(pattern) == "" + Doubled([suffix]) == suffix + suffix;
    assert pattern[0] == '*' && pattern[|pattern| - 1] == suffix[|suffix| - 1];
    WildcardMisses(pattern);
  }
}
