/**
 A local put that nobody disturbs (crates/fileferry-storage/src/lib.rs,
 `LocalStore::put_if_absent`): the writer of module LocalStore, run alone to
 its end, answers as the atomic store does and leaves no temporary file.
 */
module LocalPut {
  import opened Common
  import opened Keys
  import opened ObjectStore
  import opened LocalStore

  /** Nothing is in the way of the writer's temporary file, and its key is not one that listings skip. */
  predicate CanStart(s: State, w: nat) {
    && w < |s.writers| && s.writers[w].phase == Starting
    && TempPath(s.writers[w]) !in s.links && [TEMP_DIR] !in s.links
    && ObjectPath(s.writers[w]) != [TEMP_DIR] && ObjectPath(s.writers[w]) != TempPath(s.writers[w])
  }

  /** Up to the synced temporary file. */
  function Prepared(s: State, w: nat): State
    requires w < |s.writers|
  {
    var me := s.writers[w];
    State(s.links[TempPath(me) := WrittenBy(w)],
          s.writers[w := me.(phase := Synced, written := |me.bytes|)])
  }

  lemma {:induction false} RunOne(s: State, e: Event, rest: seq<Event>)
    ensures Run(s, [e] + rest) == Run(Step(s, e.writer, e.action), rest)
  {
    hide Step;
    assert ([e] + rest)[1..] == rest;
  }

  lemma NoEvents(s: State)
    ensures Run(s, []) == s
  {
  }

  lemma FirstSteps(s: State, w: nat)
    requires CanStart(s, w) && s.writers[w].written == 0
    ensures var a := Step(s, w, CreateTemp);
            var b := Step(a, w, Write(|s.writers[w].bytes|));
            Step(b, w, Sync) == Prepared(s, w)
  {
    hide Segments;
  }

  /** The key is free: five steps, and the object is there. */
  lemma CreatingSteps(s: State, w: nat)
    requires CanStart(s, w) && ObjectPath(s.writers[w]) !in s.links
    ensures var linked := Step(Prepared(s, w), w, Link);
            var done := Step(linked, w, RemoveTemp);
            && done.links == s.links[ObjectPath(s.writers[w]) := WrittenBy(w)]
            && done.writers == s.writers[w := s.writers[w].(phase := Finished(Ok(Created)), linked := true,
                                                            written := |s.writers[w].bytes|)]
  {
    hide Segments;
    var me := s.writers[w];
    assert (s.links[TempPath(me) := WrittenBy(w)][ObjectPath(me) := WrittenBy(w)]) - {TempPath(me)}
           == s.links[ObjectPath(me) := WrittenBy(w)];
  }

  /** The key is taken: six steps, and everything is as it was. */
  lemma RefusedSteps(s: State, w: nat)
    requires CanStart(s, w) && Inv(s) && ObjectPath(s.writers[w]) in s.links
    ensures var refused := Step(Prepared(s, w), w, Link);
            var compared := Step(Step(refused, w, RemoveTemp), w, Compare);
            var me := s.writers[w];
            && compared.links == s.links
            && compared.writers == s.writers[w := me.(phase := Finished(
                 if Content(s, s.links[ObjectPath(me)]) == me.bytes then Ok(AlreadyPresent)
                 else Err(ObjectAlreadyExists)), written := |me.bytes|)]
  {
    hide Segments;
    var me := s.writers[w];
    assert WriterOk(s, w) && LinkOk(s, ObjectPath(me));
    assert (s.links[TempPath(me) := WrittenBy(w)]) - {TempPath(me)} == s.links;
    var between := Step(Step(Prepared(s, w), w, Link), w, RemoveTemp);
    assert between.links == s.links && between.writers[w].phase == Comparing;
    SameContent(s, between, w, s.links[ObjectPath(me)]);
  }

  lemma SameContent(s: State, later: State, w: nat, f: File)
    requires w < |s.writers| == |later.writers| && f != WrittenBy(w)
    requires forall v :: 0 <= v < |s.writers| && v != w ==> later.writers[v] == s.writers[v]
    ensures Content(later, f) == Content(s, f)
  {
  }

  /**
   Alone, a put takes five or six steps.  It is Created and adds exactly its
   object when the key is free; otherwise it changes nothing and says whether
   the object has the same bytes.
   */
  lemma {:induction false} AloneItFinishes(s: State, w: nat) returns (events: seq<Event>)
    requires Inv(s) && CanStart(s, w)
    ensures |events| <= 6 && forall i :: 0 <= i < |events| ==> events[i].writer == w
    ensures var me, p, end := s.writers[w], ObjectPath(s.writers[w]), Run(s, events);
            && |end.writers| == |s.writers|
            && if p !in s.links
               then && end.writers[w].phase == Finished(Ok(Created))
                    && end.links == s.links[p := WrittenBy(w)] && Content(end, WrittenBy(w)) == me.bytes
               else && end.links == s.links
                    && end.writers[w].phase == Finished(if Content(s, s.links[p]) == me.bytes then Ok(AlreadyPresent)
                                                        else Err(ObjectAlreadyExists))
  {
    hide Step, Prepared, Inv, CanStart, Segments;
    StartsEmpty(s, w);
    var me := s.writers[w];
    FirstSteps(s, w);
    var a := Step(s, w, CreateTemp);
    var b := Step(a, w, Write(|me.bytes|));
    var c := Prepared(s, w);
    var linked := Step(c, w, Link);
    var done := Step(linked, w, RemoveTemp);
    var last: seq<Event>;
    if ObjectPath(me) !in s.links {
      last := [Event(w, RemoveTemp)] + [];
      CreatingSteps(s, w);
      assert me.bytes[..|me.bytes|] == me.bytes;
      NoEvents(done);
      RunOne(linked, Event(w, RemoveTemp), []);
    } else {
      last := [Event(w, RemoveTemp)] + ([Event(w, Compare)] + []);
      RefusedSteps(s, w);
      NoEvents(Step(done, w, Compare));
      RunOne(done, Event(w, Compare), []);
      RunOne(linked, Event(w, RemoveTemp), [Event(w, Compare)] + []);
    }
    RunOne(c, Event(w, Link), last);
    RunOne(b, Event(w, Sync), [Event(w, Link)] + last);
    RunOne(a, Event(w, Write(|me.bytes|)), [Event(w, Sync)] + ([Event(w, Link)] + last));
    RunOne(s, Event(w, CreateTemp), [Event(w, Write(|me.bytes|))] + ([Event(w, Sync)] + ([Event(w, Link)] + last)));
    events := [Event(w, CreateTemp)] + ([Event(w, Write(|me.bytes|))] + ([Event(w, Sync)] + ([Event(w, Link)] + last)));
  }

  lemma StartsEmpty(s: State, w: nat)
    requires Inv(s) && CanStart(s, w)
    ensures w < |s.writers| && s.writers[w].written == 0 && !s.writers[w].linked
  {
    assert WriterOk(s, w);
  }
}
