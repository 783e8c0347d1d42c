/**
 Object keys (crates/fileferry-storage/src/lib.rs, `validate_key`,
 `ObjectKeyPrefix::contains`): slash-separated names.
 */
module Keys {
  import opened Glob

  type Path = seq<string>

  predicate IsKeyChar(c: char) {
    'a' <= c <= 'z' || 'A' <= c <= 'Z' || '0' <= c <= '9' || c == '.' || c == '_' || c == '-' || c == '='
  }

  predicate ValidSegment(segment: string) {
    segment != "" && segment != "." && segment != ".." && forall c :: c in segment ==> IsKeyChar(c)
  }

  /** `validate_key` */
  predicate ValidKey(value: string, allowEmpty: bool) {
    if value == "" then allowEmpty
    else if value[0] == '/' || value[|value| - 1] == '/' || '\\' in value then false
    else forall segment :: segment in Split(value, '/') ==> ValidSegment(segment)
  }

  /** `relative_path` of a key. */
  function Segments(key: string): Path {
    Split(key, '/')
  }

  function Join(path: Path): string
    requires path != []
  {
    if |path| == 1 then path[0] else path[0] + "/" + Join(path[1..])
  }

  /** `ObjectKeyPrefix::contains` */
  predicate Contains(prefix: string, key: string) {
    prefix == "" || key == prefix
    || (StartsWith(key, prefix) && StartsWith(key[|prefix|..], "/"))
  }

  /** `relative_path` of a prefix, which drops empty parts. */
  function PrefixSegments(prefix: string): Path {
    if prefix == "" then [] else Split(prefix, '/')
  }

  lemma {:induction false} JoinSegments(key: string)
    ensures Join(Segments(key)) == key
  {
    if key != "" {
      JoinSegments(key[1..]);
      var rest := Split(key[1..], '/');
      if key[0] == '/' {
        assert ([""] + rest)[1..] == rest;
      } else {
        assert ([[key[0]] + rest[0]] + rest[1..])[1..] == rest[1..];
      }
    }
  }

  lemma SegmentsAreInjective(a: string, b: string)
    ensures Segments(a) == Segments(b) ==> a == b
  {
    JoinSegments(a);
    JoinSegments(b);
  }

  lemma {:induction false} SegmentsOfConcat(a: string, b: string)
    ensures Segments(a + "/" + b) == Segments(a) + Segments(b)
  {
    var s := a + "/" + b;
    if a == "" {
      assert s[1..] == b;
    } else {
      assert s[1..] == a[1..] + "/" + b;
      SegmentsOfConcat(a[1..], b);
      PrependToSplit(a[0], Segments(a[1..]), Segments(b));
    }
  }

  lemma PrependToSplit(c: char, rest: Path, more: Path)
    requires rest != []
    ensures [[c] + (rest + more)[0]] + (rest + more)[1..] == ([[c] + rest[0]] + rest[1..]) + more
  {
  }

  lemma {:induction false} JoinOfConcat(a: Path, b: Path)
    requires a != [] && b != []
    ensures Join(a + b) == Join(a) + "/" + Join(b)
  {
    if |a| > 1 {
      JoinOfConcat(a[1..], b);
      assert (a + b)[1..] == a[1..] + b;
    } else {
      assert (a + b)[1..] == b;
    }
  }

  /** The string test agrees with walking a directory tree: whole segments are compared. */
  lemma ContainsMeansSegmentPrefix(prefix: string, key: string)
    ensures Contains(prefix, key) <==> PrefixSegments(prefix) <= Segments(key)
  {
    if prefix != "" {
      if Contains(prefix, key) && key != prefix {
        var rest := key[|prefix| + 1..];
        assert key[|prefix|..][..1] == "/";
        assert key == prefix + "/" + rest;
        SegmentsOfConcat(prefix, rest);
      }
      if Segments(prefix) <= Segments(key) {
        var n := |Segments(prefix)|;
        JoinSegments(prefix);
        JoinSegments(key);
        if n < |Segments(key)| {
          assert Segments(key) == Segments(prefix) + Segments(key)[n..];
          JoinOfConcat(Segments(prefix), Segments(key)[n..]);
          assert key[|prefix|..][..1] == "/";
        } else {
          assert Segments(key) == Segments(prefix);
        }
      }
    }
  }

  lemma FirstSegment(dir: string, key: string)
    requires dir != "" && '/' !in dir
    ensures Segments(key)[0] == dir <==> key == dir || StartsWith(key, dir + "/")
  {
    NoSeparatorNoSplit(dir, '/');
    ContainsMeansSegmentPrefix(dir, key);
    assert Segments(key)[0] == dir <==> [dir] <= Segments(key);
    var n := |dir|;
    if StartsWith(key, dir) && StartsWith(key[n..], "/") {
      assert key[..n + 1] == key[..n] + key[n..][..1];
    }
    if StartsWith(key, dir + "/") {
      assert key[..n] == key[..n + 1][..n] == dir && key[n..][..1] == key[..n + 1][n..] == "/";
    }
  }

  // ---------- Which keys there are ----------

  /** A name of letters, digits and four other characters that is neither `.` nor `..`. */
  predicate IsKeyName(name: string) {
    && name != "" && name != "." && name != ".."
    && forall i :: 0 <= i < |name| ==>
         || 'a' <= name[i] <= 'z' || 'A' <= name[i] <= 'Z' || '0' <= name[i] <= '9'
         || name[i] == '.' || name[i] == '_' || name[i] == '-' || name[i] == '='
  }

  predicate AreKeyNames(path: Path) {
    forall i :: 0 <= i < |path| ==> IsKeyName(path[i])
  }

  lemma KeyName(name: string)
    ensures ValidSegment(name) <==> IsKeyName(name)
    ensures IsKeyName(name) ==> '/' !in name && '\\' !in name
  {
    assert forall i :: 0 <= i < |name| ==> name[i] in name;
  }

  lemma {:induction false} SegmentsOfJoin(path: Path)
    requires path != [] && AreKeyNames(path)
    ensures Segments(Join(path)) == path && Join(path) != ""
    decreases |path|
  {
    KeyName(path[0]);
    NoSeparatorNoSplit(path[0], '/');
    if |path| > 1 {
      SegmentsOfJoin(path[1..]);
      SegmentsOfConcat(path[0], Join(path[1..]));
    }
  }

  /** A key is valid exactly when it is one or more such names joined by slashes. */
  lemma {:induction false} KeysAreJoinedNames(value: string)
    requires value != ""
    ensures forall allowEmpty :: ValidKey(value, allowEmpty)
                                 <==> exists path :: path != [] && AreKeyNames(path) && value == Join(path)
  {
    hide ValidSegment, IsKeyName;
    forall name { KeyName(name); }
    if exists allowEmpty :: ValidKey(value, allowEmpty) {
      var path := Segments(value);
      JoinSegments(value);
      assert forall i :: 0 <= i < |path| ==> path[i] in path;
      assert AreKeyNames(path);
    }
    if path :| path != [] && AreKeyNames(path) && value == Join(path) {
      SegmentsOfJoin(path);
      EndsOfJoin(path);
    }
  }

  lemma {:induction false} EndsOfJoin(path: Path)
    requires path != [] && AreKeyNames(path)
    ensures Join(path) != "" && Join(path)[0] != '/' && Join(path)[|Join(path)| - 1] != '/' && '\\' !in Join(path)
    decreases |path|
  {
    KeyName(path[0]);
    assert IsKeyName(path[0]);
    hide IsKeyName;
    var name := path[0];
    assert name[0] in name && name[|name| - 1] in name;
    if |path| > 1 {
      EndsOfJoin(path[1..]);
      JoinEnds(name, Join(path[1..]));
    }
  }

  lemma JoinEnds(name: string, rest: string)
    requires name != "" && rest != "" && '\\' !in name && '\\' !in rest
    ensures var key := name + "/" + rest;
            key[0] == name[0] && key[|key| - 1] == rest[|rest| - 1] && '\\' !in key
  {
  }
}
