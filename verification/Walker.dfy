/**
 The source walk (crates/fileferry-core/src/lib.rs, `SourceWalker`): a
 breadth-first queue over a directory tree that stays unchanged, with
 excluded children pruned and symlinks not followed.
 */
module Walker {
  import opened Common
  import opened Repository
  import opened Exclusion

  type Names = seq<string>

  /** The children of a directory in the order of their names. */
  datatype Node =
    | File(data: Data, modified: ModTime)
    | Dir(children: seq<Child>, modified: ModTime)
    | Link(target: MetadataValue<string>, modified: ModTime)
    | Special(modified: ModTime)

  datatype Child = Child(name: string, node: Node)

  /** Names in one directory differ, all the way down. */
  predicate WellFormed(n: Node) {
    n.Dir? ==>
      && (forall i, j :: 0 <= i < j < |n.children| ==> n.children[i].name != n.children[j].name)
      && (forall i :: 0 <= i < |n.children| ==> WellFormed(n.children[i].node))
  }

  /** `capture_metadata`, which does not follow symlinks. */
  function MetadataOf(n: Node): Metadata {
    match n
    case File(data, modified) => Metadata(RegularFile, Some(|data|), Unsupported, modified)
    case Dir(_, modified) => Metadata(Directory, None, Unsupported, modified)
    case Link(target, modified) => Metadata(Symlink, None, target, modified)
    case Special(modified) => Metadata(Other, None, Unsupported, modified)
  }

  // ---------- The reference: paths of the tree ----------

  ghost predicate At(root: Node, path: Names, n: Node)
    decreases |path|
  {
    if path == [] then n == root
    else root.Dir? && exists i :: 0 <= i < |root.children| && root.children[i].name == path[0]
                                  && At(root.children[i].node, path[1..], n)
  }

  /** No prefix longer than `from` segments is excluded. */
  predicate NotPruned(rules: seq<Rule>, path: Names, from: nat) {
    forall k :: from < k <= |path| ==> !IsExcluded(rules, path[..k])
  }

  // ---------- The walk ----------

  datatype Found = Found(path: Names, node: Node)

  function Children(rules: seq<Rule>, path: Names, children: seq<Child>): seq<Found> {
    if children == [] then []
    else
      var before, last := Children(rules, path, children[..|children| - 1]), children[|children| - 1];
      if IsExcluded(rules, path + [last.name]) then before else before + [Found(path + [last.name], last.node)]
  }

  function Directories(found: seq<Found>): (dirs: seq<Found>)
    ensures forall d :: d in dirs ==> d in found && d.node.Dir?
  {
    if found == [] then []
    else
      var before, last := Directories(found[..|found| - 1]), found[|found| - 1];
      if last.node.Dir? then before + [last] else before
  }

  function Size(n: Node): nat {
    if n.Dir? then 1 + ChildrenSize(n.children) else 1
  }

  function ChildrenSize(children: seq<Child>): nat {
    if children == [] then 0
    else
      assert children[|children| - 1].node < children[|children| - 1];
      ChildrenSize(children[..|children| - 1]) + Size(children[|children| - 1].node)
  }

  /** Nodes that are still to be visited below the queued directories. */
  function QueueSize(queue: seq<Found>): nat {
    if queue == [] then 0 else QueueSize(queue[..|queue| - 1]) + Size(queue[|queue| - 1].node)
  }

  lemma {:induction false} QueueSizeConcat(a: seq<Found>, b: seq<Found>)
    ensures QueueSize(a + b) == QueueSize(a) + QueueSize(b)
    decreases |b|
  {
    if b == [] {
      assert a + b == a;
    } else {
      assert (a + b)[..|a + b| - 1] == a + b[..|b| - 1];
      QueueSizeConcat(a, b[..|b| - 1]);
    }
  }

  lemma {:induction false} QueuedChildrenFit(rules: seq<Rule>, path: Names, children: seq<Child>)
    ensures QueueSize(Directories(Children(rules, path, children))) <= ChildrenSize(children)
    decreases |children|
  {
    if children != [] {
      var init, last := children[..|children| - 1], children[|children| - 1];
      QueuedChildrenFit(rules, path, init);
      if !IsExcluded(rules, path + [last.name]) {
        var before, found := Children(rules, path, init), Found(path + [last.name], last.node);
        assert (before + [found])[..|before + [found]| - 1] == before;
        if last.node.Dir? {
          var dirs := Directories(before);
          assert (dirs + [found])[..|dirs + [found]| - 1] == dirs;
        }
      }
    }
  }

  lemma {:induction false} QueueShrinks(rules: seq<Rule>, queue: seq<Found>)
    requires queue != [] && queue[0].node.Dir?
    ensures QueueSize(queue[1..] + Directories(Children(rules, queue[0].path, queue[0].node.children)))
            < QueueSize(queue)
  {
    var dirs := Directories(Children(rules, queue[0].path, queue[0].node.children));
    QueueSizeConcat(queue[1..], dirs);
    QueuedChildrenFit(rules, queue[0].path, queue[0].node.children);
    assert queue == [queue[0]] + queue[1..];
    QueueSizeConcat([queue[0]], queue[1..]);
    assert QueueSize([queue[0]]) == Size(queue[0].node) by { assert [queue[0]][..0] == []; }
  }

  predicate AllDirectories(queue: seq<Found>) {
    forall i :: 0 <= i < |queue| ==> queue[i].node.Dir?
  }

  /** What the loop appends from this queue on. */
  function WalkFrom(rules: seq<Rule>, queue: seq<Found>): seq<Found>
    requires AllDirectories(queue)
    decreases QueueSize(queue)
  {
    if queue == [] then []
    else
      var children := Children(rules, queue[0].path, queue[0].node.children);
      QueueShrinks(rules, queue);
      assert forall d :: d in Directories(children) ==> d.node.Dir?;
      children + WalkFrom(rules, queue[1..] + Directories(children))
  }

  function WalkRoot(rules: seq<Rule>, root: Node): seq<Found> {
    [Found([], root)] + (if root.Dir? then WalkFrom(rules, [Found([], root)]) else [])
  }

  lemma {:induction false} AppendFound(found: seq<Found>, f: Found)
    ensures Directories(found + [f]) == Directories(found) + (if f.node.Dir? then [f] else [])
  {
    assert (found + [f])[..|found|] == found;
  }

  lemma {:induction false} ChildrenStep(rules: seq<Rule>, path: Names, children: seq<Child>, i: nat)
    requires i < |children|
    ensures var before, c := Children(rules, path, children[..i]), children[i];
            Children(rules, path, children[..i + 1]) ==
            if IsExcluded(rules, path + [c.name]) then before else before + [Found(path + [c.name], c.node)]
  {
    assert children[..i + 1][..i] == children[..i];
  }

  /** The inner loop: one directory's children, in order. */
  method VisitChildren(rules: seq<Rule>, directory: Found, entries: seq<Found>, pending: seq<Found>)
    returns (entries': seq<Found>, pending': seq<Found>)
    requires directory.node.Dir?
    ensures entries' == entries + Children(rules, directory.path, directory.node.children)
    ensures pending' == pending + Directories(Children(rules, directory.path, directory.node.children))
  {
    var children := directory.node.children;
    entries', pending' := entries, pending;
    assert children[..0] == [];
    hide Children, Directories, IsExcluded;
    for i := 0 to |children|
      invariant entries' == entries + Children(rules, directory.path, children[..i])
      invariant pending' == pending + Directories(Children(rules, directory.path, children[..i]))
    {
      ChildrenStep(rules, directory.path, children, i);
      var path := directory.path + [children[i].name];
      if IsExcluded(rules, path) {
        continue;
      }
      var found := Found(path, children[i].node);
      ghost var before := Children(rules, directory.path, children[..i]);
      AppendFound(before, found);
      AppendIsAssociative(entries, before, [found]);
      AppendIsAssociative(pending, Directories(before), [found]);
      if children[i].node.Dir? {
        pending' := pending' + [found];
      }
      entries' := entries' + [found];
    }
    assert children[..|children|] == children;
  }

  /** `walk_root` */
  method Walk(rules: seq<Rule>, root: Node) returns (entries: seq<Found>)
    ensures entries == WalkRoot(rules, root)
  {
    hide WalkFrom, Children, Directories, QueueSize;
    entries := [Found([], root)];
    if !root.Dir? {
      return;
    }
    var pending := [Found([], root)];
    while pending != []
      invariant AllDirectories(pending)
      invariant entries + WalkFrom(rules, pending) == WalkRoot(rules, root)
      decreases QueueSize(pending)
    {
      WalkOne(rules, pending, entries);
      entries, pending := VisitChildren(rules, pending[0], entries, pending[1..]);
    }
    assert WalkFrom(rules, pending) == [] by { WalkNone(rules, pending); }
  }

  lemma {:induction false} WalkNone(rules: seq<Rule>, queue: seq<Found>)
    requires queue == []
    ensures WalkFrom(rules, queue) == []
  {
  }

  lemma {:induction false} WalkOne(rules: seq<Rule>, queue: seq<Found>, done: seq<Found>)
    requires queue != [] && AllDirectories(queue)
    ensures var children := Children(rules, queue[0].path, queue[0].node.children);
            var rest := queue[1..] + Directories(children);
            && AllDirectories(rest)
            && QueueSize(rest) < QueueSize(queue)
            && done + WalkFrom(rules, queue) == (done + children) + WalkFrom(rules, rest)
  {
    var children := Children(rules, queue[0].path, queue[0].node.children);
    QueueShrinks(rules, queue);
    QueueOfDirectories(queue[1..], children);
    AppendIsAssociative(done, children, WalkFrom(rules, queue[1..] + Directories(children)));
  }

  lemma AppendIsAssociative(a: seq<Found>, b: seq<Found>, c: seq<Found>)
    ensures a + (b + c) == (a + b) + c
  {
  }

  lemma {:induction false} QueueOfDirectories(rest: seq<Found>, children: seq<Found>)
    requires AllDirectories(rest)
    ensures AllDirectories(rest + Directories(children))
  {
    var dirs := Directories(children);
    assert forall i :: 0 <= i < |dirs| ==> dirs[i] in dirs;
  }

  // ---------- What a walk lists ----------

  /** `f` lies strictly below `q`, and nothing on the way down is excluded. */
  ghost predicate Below(rules: seq<Rule>, q: Found, f: Found) {
    && |q.path| < |f.path| && f.path[..|q.path|] == q.path
    && At(q.node, f.path[|q.path|..], f.node)
    && NotPruned(rules, f.path, |q.path|)
  }

  ghost predicate BelowSome(rules: seq<Rule>, queue: seq<Found>, f: Found) {
    exists i :: 0 <= i < |queue| && Below(rules, queue[i], f)
  }

  lemma {:induction false} ChildrenMeaning(rules: seq<Rule>, path: Names, children: seq<Child>, f: Found)
    ensures f in Children(rules, path, children)
            <==> exists i :: 0 <= i < |children| && f == Found(path + [children[i].name], children[i].node)
                             && !IsExcluded(rules, f.path)
    decreases |children|
  {
    if children != [] {
      var init, last := children[..|children| - 1], children[|children| - 1];
      ChildrenMeaning(rules, path, init, f);
      assert children == init + [last];
    }
  }

  lemma {:induction false} DirectoriesMeaning(found: seq<Found>, d: Found)
    ensures d in Directories(found) <==> d in found && d.node.Dir?
    decreases |found|
  {
    if found != [] {
      DirectoriesMeaning(found[..|found| - 1], d);
      assert found == found[..|found| - 1] + [found[|found| - 1]];
    }
  }

  /** Below a directory is: one of its children, or below one of them. */
  lemma {:induction false} BelowDirectory(rules: seq<Rule>, d: Found, f: Found)
    requires d.node.Dir?
    ensures Below(rules, d, f)
            <==> f in Children(rules, d.path, d.node.children)
                 || BelowSome(rules, Directories(Children(rules, d.path, d.node.children)), f)
  {
    hide Below, At, IsExcluded, Children, Directories, WellFormed;
    var listed := Children(rules, d.path, d.node.children);
    if Below(rules, d, f) {
      BelowGoesThroughChild(rules, d, f);
    }
    if f in listed {
      ChildIsBelow(rules, d, f);
    }
    if BelowSome(rules, Directories(listed), f) {
      var j :| 0 <= j < |Directories(listed)| && Below(rules, Directories(listed)[j], f);
      var c := Directories(listed)[j];
      DirectoriesMeaning(listed, c);
      assert c in listed;
      BelowChildIsBelow(rules, d, c, f);
    }
  }

  lemma {:induction false} ChildIsBelow(rules: seq<Rule>, d: Found, f: Found)
    requires d.node.Dir? && f in Children(rules, d.path, d.node.children)
    ensures Below(rules, d, f)
  {
    var children := d.node.children;
    ChildrenMeaning(rules, d.path, children, f);
    hide Children, Directories, IsExcluded;
    var i :| 0 <= i < |children| && f == Found(d.path + [children[i].name], children[i].node)
             && !IsExcluded(rules, f.path);
    assert f.path[|d.path|..] == [children[i].name];
    assert At(children[i].node, f.path[|d.path|..][1..], f.node);
    assert f.path[..|d.path|] == d.path && f.path[..|f.path|] == f.path;
  }

  lemma {:induction false} BelowGoesThroughChild(rules: seq<Rule>, d: Found, f: Found)
    requires d.node.Dir? && Below(rules, d, f)
    ensures var listed := Children(rules, d.path, d.node.children);
            f in listed || BelowSome(rules, Directories(listed), f)
  {
    var children, n, rest := d.node.children, |d.path|, f.path[|d.path|..];
    var i :| 0 <= i < |children| && children[i].name == rest[0] && At(children[i].node, rest[1..], f.node);
    var c := Found(d.path + [children[i].name], children[i].node);
    assert f.path[..n + 1] == c.path;
    assert !IsExcluded(rules, f.path[..n + 1]);
    ChildrenMeaning(rules, d.path, children, c);
    if |f.path| == n + 1 {
      assert f.path == f.path[..n + 1];
      assert rest[1..] == [];
    } else {
      assert f.path[n + 1..] == rest[1..];
      var listed := Children(rules, d.path, children);
      DirectoriesMeaning(listed, c);
      assert Below(rules, c, f);
      var j :| 0 <= j < |Directories(listed)| && Directories(listed)[j] == c;
    }
  }

  lemma {:induction false} BelowChildIsBelow(rules: seq<Rule>, d: Found, c: Found, f: Found)
    requires d.node.Dir? && c in Children(rules, d.path, d.node.children) && Below(rules, c, f)
    ensures Below(rules, d, f)
  {
    var children, n := d.node.children, |d.path|;
    ChildrenMeaning(rules, d.path, children, c);
    var i :| 0 <= i < |children| && c == Found(d.path + [children[i].name], children[i].node)
             && !IsExcluded(rules, c.path);
    assert f.path[..n] == f.path[..n + 1][..n] == d.path;
    assert f.path[n] == f.path[..n + 1][n] == children[i].name;
    assert f.path[n..][1..] == f.path[n + 1..];
    assert At(children[i].node, f.path[n..][1..], f.node);
    forall k | n < k <= |f.path|
      ensures !IsExcluded(rules, f.path[..k])
    {
      if k == n + 1 { assert f.path[..k] == c.path; }
    }
  }

  /** The walk from a queue lists exactly what lies below the queued directories. */
  lemma {:induction false} WalkFromMeaning(rules: seq<Rule>, queue: seq<Found>, f: Found)
    requires AllDirectories(queue)
    ensures f in WalkFrom(rules, queue) <==> BelowSome(rules, queue, f)
    decreases QueueSize(queue)
  {
    if queue != [] {
      var d, rest := queue[0], queue[1..];
      var children := Children(rules, d.path, d.node.children);
      QueueShrinks(rules, queue);
      QueueOfDirectories(rest, children);
      WalkFromMeaning(rules, rest + Directories(children), f);
      BelowDirectory(rules, d, f);
      BelowSomeConcat(rules, rest, Directories(children), f);
      assert queue == [d] + rest;
      BelowSomeConcat(rules, [d], rest, f);
      assert BelowSome(rules, [d], f) <==> Below(rules, d, f) by {
        assert [d][0] == d;
      }
    }
  }

  lemma BelowSomeConcat(rules: seq<Rule>, a: seq<Found>, b: seq<Found>, f: Found)
    ensures BelowSome(rules, a + b, f) <==> BelowSome(rules, a, f) || BelowSome(rules, b, f)
  {
    if i :| 0 <= i < |b| && Below(rules, b[i], f) {
      assert (a + b)[|a| + i] == b[i];
    }
    if i :| 0 <= i < |a| && Below(rules, a[i], f) {
      assert (a + b)[i] == a[i];
    }
  }

  // ---------- Once each, parents first ----------

  predicate ListsEachPathOnce(found: seq<Found>) {
    forall i, j :: 0 <= i < j < |found| ==> found[i].path != found[j].path
  }

  /** No queued directory lies at or below another one. */
  predicate Independent(queue: seq<Found>) {
    forall i, j :: 0 <= i < |queue| && 0 <= j < |queue| && i != j ==> !(queue[i].path <= queue[j].path)
  }

  predicate AllWellFormed(queue: seq<Found>) {
    forall i :: 0 <= i < |queue| ==> WellFormed(queue[i].node)
  }

  lemma ChildOf(rules: seq<Rule>, d: Found, i: nat) returns (k: nat)
    requires d.node.Dir? && i < |Children(rules, d.path, d.node.children)|
    ensures k < |d.node.children|
    ensures Children(rules, d.path, d.node.children)[i]
            == Found(d.path + [d.node.children[k].name], d.node.children[k].node)
  {
    var f := Children(rules, d.path, d.node.children)[i];
    ChildrenMeaning(rules, d.path, d.node.children, f);
    k :| 0 <= k < |d.node.children| && f == Found(d.path + [d.node.children[k].name], d.node.children[k].node);
  }

  lemma {:induction false} ChildrenAreDistinct(rules: seq<Rule>, path: Names, children: seq<Child>)
    requires forall i, j :: 0 <= i < j < |children| ==> children[i].name != children[j].name
    ensures ListsEachPathOnce(Children(rules, path, children))
    decreases |children|
  {
    if children != [] {
      var init, last := children[..|children| - 1], children[|children| - 1];
      ChildrenAreDistinct(rules, path, init);
      var before := Children(rules, path, init);
      forall i | 0 <= i < |before|
        ensures before[i].path != path + [last.name]
      {
        ChildrenMeaning(rules, path, init, before[i]);
        var k :| 0 <= k < |init| && before[i] == Found(path + [init[k].name], init[k].node);
        assert before[i].path[|path|] == init[k].name;
      }
    }
  }

  lemma {:induction false} DirectoriesAreDistinct(found: seq<Found>)
    requires ListsEachPathOnce(found)
    ensures ListsEachPathOnce(Directories(found))
    decreases |found|
  {
    if found != [] {
      var init := found[..|found| - 1];
      DirectoriesAreDistinct(init);
      var dirs := Directories(init);
      forall i | 0 <= i < |dirs|
        ensures dirs[i].path != found[|found| - 1].path
      {
        assert dirs[i] in init;
      }
    }
  }

  lemma {:induction false} NextQueueIsIndependent(rules: seq<Rule>, queue: seq<Found>)
    requires queue != [] && AllDirectories(queue) && Independent(queue) && AllWellFormed(queue)
    ensures var next := queue[1..] + Directories(Children(rules, queue[0].path, queue[0].node.children));
            Independent(next) && AllWellFormed(next)
  {
    assert queue[0].node.Dir?;
    hide Children, Directories, WellFormed, AllDirectories;
    var d, rest := queue[0], queue[1..];
    var dirs := Directories(Children(rules, d.path, d.node.children));
    QueuedChildren(rules, d);
    var next := rest + dirs;
    forall i | 0 <= i < |rest|
      ensures queue[i + 1] == rest[i]
    {
    }
    forall i, j | 0 <= i < |next| && 0 <= j < |next| && i != j
      ensures !(next[i].path <= next[j].path)
    {
      if i < |rest| && j >= |rest| {
        PrefixOfChild(rest[i].path, d.path, next[j].path);
      } else if i >= |rest| && j < |rest| {
        PrefixesCompose(d.path, next[i].path, rest[j].path);
      }
    }
  }

  /** The directories that a round appends lie side by side, one level further down. */
  lemma {:induction false} QueuedChildren(rules: seq<Rule>, d: Found)
    requires d.node.Dir? && WellFormed(d.node)
    ensures var dirs := Directories(Children(rules, d.path, d.node.children));
            && Independent(dirs)
            && forall i :: 0 <= i < |dirs| ==>
                 |dirs[i].path| == |d.path| + 1 && d.path <= dirs[i].path && WellFormed(dirs[i].node)
  {
    var listed := Children(rules, d.path, d.node.children);
    var dirs := Directories(listed);
    ChildrenAreDistinct(rules, d.path, d.node.children);
    DirectoriesAreDistinct(listed);
    hide Children, Directories;
    forall i | 0 <= i < |dirs|
      ensures |dirs[i].path| == |d.path| + 1 && d.path <= dirs[i].path && WellFormed(dirs[i].node)
    {
      assert dirs[i] in listed;
      var k :| 0 <= k < |listed| && listed[k] == dirs[i];
      var c := ChildOf(rules, d, k);
    }
  }

  lemma PrefixOfChild(a: Names, parent: Names, child: Names)
    requires parent <= child && |child| == |parent| + 1
    ensures a <= child ==> a <= parent || a == child
  {
    if a <= child && |a| <= |parent| {
      assert parent == child[..|parent|];
      assert a == child[..|a|] == parent[..|a|];
    }
  }

  lemma PrefixesCompose(a: Names, b: Names, c: Names)
    ensures a <= b <= c ==> a <= c
  {
  }

  lemma ListedBelowQueue(rules: seq<Rule>, queue: seq<Found>, f: Found) returns (i: nat)
    requires AllDirectories(queue) && f in WalkFrom(rules, queue)
    ensures i < |queue| && queue[i].path < f.path
  {
    WalkFromMeaning(rules, queue, f);
    i :| 0 <= i < |queue| && Below(rules, queue[i], f);
  }

  lemma {:induction false} WalkFromIsDistinct(rules: seq<Rule>, queue: seq<Found>)
    requires AllDirectories(queue) && Independent(queue) && AllWellFormed(queue)
    ensures ListsEachPathOnce(WalkFrom(rules, queue))
    decreases QueueSize(queue)
  {
    if queue != [] {
      var d := queue[0];
      var listed := Children(rules, d.path, d.node.children);
      var next := queue[1..] + Directories(listed);
      QueueShrinks(rules, queue);
      QueueOfDirectories(queue[1..], listed);
      NextQueueIsIndependent(rules, queue);
      WalkFromIsDistinct(rules, next);
      assert WellFormed(d.node);
      ChildrenAreDistinct(rules, d.path, d.node.children);
      var later := WalkFrom(rules, next);
      forall i, j | 0 <= i < |listed| && 0 <= j < |later|
        ensures listed[i].path != later[j].path
      {
        ChildIsNotLater(rules, queue, i, later[j]);
      }
      assert WalkFrom(rules, queue) == listed + later;
    }
  }

  lemma {:induction false} ChildIsNotLater(rules: seq<Rule>, queue: seq<Found>, i: nat, f: Found)
    requires queue != [] && AllDirectories(queue) && Independent(queue)
    requires i < |Children(rules, queue[0].path, queue[0].node.children)|
    requires var next := queue[1..] + Directories(Children(rules, queue[0].path, queue[0].node.children));
             AllDirectories(next) && f in WalkFrom(rules, next)
    ensures Children(rules, queue[0].path, queue[0].node.children)[i].path != f.path
  {
    var d := queue[0];
    var listed := Children(rules, d.path, d.node.children);
    var next := queue[1..] + Directories(listed);
    var q := ListedBelowQueue(rules, next, f);
    var k := ChildOf(rules, d, i);
    PrefixOfChild(next[q].path, d.path, listed[i].path);
    if q < |queue[1..]| {
      assert next[q] == queue[q + 1];
    } else {
      var dir := Directories(listed)[q - |queue[1..]|];
      assert dir in listed;
      var m :| 0 <= m < |listed| && listed[m] == dir;
      var c := ChildOf(rules, d, m);
    }
  }

  /** The parent of entry `i` is queued at the start or listed earlier. */
  ghost predicate ParentKnown(queue: seq<Found>, found: seq<Found>, i: nat)
    requires i < |found|
  {
    found[i].path != [] &&
    var parent := found[i].path[..|found[i].path| - 1];
    (exists j :: 0 <= j < |queue| && queue[j].path == parent) || (exists j :: 0 <= j < i && found[j].path == parent)
  }

  lemma {:induction false} ParentsComeFirst(rules: seq<Rule>, queue: seq<Found>, i: nat)
    requires AllDirectories(queue) && i < |WalkFrom(rules, queue)|
    ensures ParentKnown(queue, WalkFrom(rules, queue), i)
    decreases QueueSize(queue)
  {
    hide Children, QueueSize, Directories;
    var d := queue[0];
    var listed := Children(rules, d.path, d.node.children);
    var next := queue[1..] + Directories(listed);
    QueueShrinks(rules, queue);
    QueueOfDirectories(queue[1..], listed);
    var later := WalkFrom(rules, next);
    var all := WalkFrom(rules, queue);
    assert all == listed + later;
    if i < |listed| {
      var k := ChildOf(rules, d, i);
      assert all[i].path[..|all[i].path| - 1] == d.path;
    } else {
      ParentsComeFirst(rules, next, i - |listed|);
      ParentStaysKnown(queue, listed, later, i - |listed|);
    }
  }

  /** What is known of the later part of a walk, seen from before its first directory is listed. */
  lemma {:induction false} ParentStaysKnown(queue: seq<Found>, listed: seq<Found>, later: seq<Found>, i: nat)
    requires queue != [] && i < |later| && ParentKnown(queue[1..] + Directories(listed), later, i)
    ensures ParentKnown(queue, listed + later, |listed| + i)
  {
    var next, all := queue[1..] + Directories(listed), listed + later;
    assert all[|listed| + i] == later[i];
    var parent := later[i].path[..|later[i].path| - 1];
    if j :| 0 <= j < |next| && next[j].path == parent {
      if j < |queue[1..]| {
        assert queue[j + 1].path == parent;
      } else {
        assert Directories(listed)[j - |queue[1..]|] in listed;
        var m :| 0 <= m < |listed| && listed[m].path == parent;
        assert all[m].path == parent;
      }
    } else {
      var j :| 0 <= j < i && later[j].path == parent;
      assert all[|listed| + j].path == parent;
    }
  }

  // ---------- The walk of one root ----------

  /** The listing of one unchanging root. */
  ghost predicate IsListingOf(rules: seq<Rule>, root: Node, found: seq<Found>) {
    && (forall f :: f in found <==> At(root, f.path, f.node) && NotPruned(rules, f.path, 0))
    && ListsEachPathOnce(found)
    && found != [] && found[0] == Found([], root)
    && (forall i :: 0 < i < |found| ==> ParentKnown([], found, i))
  }

  /**
   The walk lists each node of the tree that has no excluded
   self-or-ancestor exactly once, parents before children.
   */
  lemma {:induction false} WalkIsExact(rules: seq<Rule>, root: Node)
    requires WellFormed(root)
    ensures IsListingOf(rules, root, WalkRoot(rules, root))
  {
    hide At, NotPruned, ParentKnown, WalkFrom, WellFormed;
    var found := WalkRoot(rules, root);
    forall f
      ensures f in found <==> At(root, f.path, f.node) && NotPruned(rules, f.path, 0)
    {
      BelowRoot(rules, root, f);
    }
    ListedOnce(rules, root);
    forall i | 0 < i < |found|
      ensures ParentKnown([], found, i)
    {
      ParentIsListed(rules, root, i);
    }
  }

  lemma {:induction false} ListedOnce(rules: seq<Rule>, root: Node)
    requires WellFormed(root)
    ensures ListsEachPathOnce(WalkRoot(rules, root))
  {
    var start := [Found([], root)];
    if root.Dir? {
      var later := WalkFrom(rules, start);
      WalkFromIsDistinct(rules, start);
      forall i | 0 <= i < |later|
        ensures later[i].path != []
      {
        ParentsComeFirst(rules, start, i);
      }
      assert WalkRoot(rules, root) == start + later;
    }
  }

  lemma {:induction false} ParentIsListed(rules: seq<Rule>, root: Node, i: nat)
    requires WellFormed(root) && 0 < i < |WalkRoot(rules, root)|
    ensures ParentKnown([], WalkRoot(rules, root), i)
  {
    hide WalkFrom, Children, Directories, WellFormed, QueueSize;
    var start, found := [Found([], root)], WalkRoot(rules, root);
    var later := WalkFrom(rules, start);
    assert found == start + later && found[i] == later[i - 1];
    ParentsComeFirst(rules, start, i - 1);
    var parent := later[i - 1].path[..|later[i - 1].path| - 1];
    if parent == [] {
      assert found[0].path == parent;
    } else {
      var j :| 0 <= j < i - 1 && later[j].path == parent;
      assert found[j + 1].path == parent;
    }
  }

  lemma {:induction false} BelowRoot(rules: seq<Rule>, root: Node, f: Found)
    ensures f in WalkRoot(rules, root) <==> At(root, f.path, f.node) && NotPruned(rules, f.path, 0)
  {
    var start := [Found([], root)];
    assert f.path[0..] == f.path && f.path[..0] == [];
    if root.Dir? {
      WalkFromMeaning(rules, start, f);
      assert BelowSome(rules, start, f) <==> Below(rules, start[0], f);
    }
  }

  lemma {:induction false} NodesAreUnique(root: Node, path: Names, m: Node, n: Node)
    requires WellFormed(root) && At(root, path, m) && At(root, path, n)
    ensures m == n
    decreases |path|
  {
    if path != [] {
      var i :| 0 <= i < |root.children| && root.children[i].name == path[0] && At(root.children[i].node, path[1..], m);
      var j :| 0 <= j < |root.children| && root.children[j].name == path[0] && At(root.children[j].node, path[1..], n);
      assert i == j;
      NodesAreUnique(root.children[i].node, path[1..], m, n);
    }
  }

  lemma {:induction false} AncestorsAreDirs(root: Node, path: Names, n: Node, k: nat) returns (dir: Node)
    requires At(root, path, n) && k < |path|
    ensures At(root, path[..k], dir) && dir.Dir?
    decreases |path|
  {
    var i :| 0 <= i < |root.children| && root.children[i].name == path[0] && At(root.children[i].node, path[1..], n);
    if k == 0 {
      dir := root;
    } else {
      dir := AncestorsAreDirs(root.children[i].node, path[1..], n, k - 1);
      assert path[..k][1..] == path[1..][..k - 1];
    }
  }
}
