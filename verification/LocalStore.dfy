/**
 `LocalStore::put_if_absent` (crates/fileferry-storage/src/lib.rs) as the
 steps it takes on a file system: create a temporary file, write it piece by
 piece, sync, hard-link it to the object path, remove the temporary name, and
 compare when the path was taken.

 Any number of writers interleave; each may fail or crash after any step.
 Nothing is deleted.  `Abs` is the map an observer sees, and every run of the
 steps is a run of the atomic store.
 */
module LocalStore {
  import opened Common
  import opened Glob
  import opened Keys
  import opened ObjectStore

  type Bytes = seq<bv8>

  const TEMP_DIR := ".fileferry-tmp"

  /** A file that was there at the start, or the temporary file of a writer. */
  datatype File = Initial(bytes: Bytes) | WrittenBy(writer: nat)

  datatype Phase =
    | Starting
    | Writing
    | Synced
    | Linked
    | Refused
    | Comparing
    | Finished(status: Result<PutStatus, StorageError>)
    | Failed
    | Crashed

  /** `linked` remembers that the hard link was made, whatever happened later. */
  datatype Writer = Writer(key: string, bytes: Bytes, temp: string, phase: Phase, written: nat, linked: bool)

  datatype State = State(links: map<Path, File>, writers: seq<Writer>)

  datatype Action = CreateTemp | Write(upTo: nat) | Sync | Link | RemoveTemp | Compare | Fail | Crash

  function NewWriter(key: string, bytes: Bytes, temp: string): Writer {
    Writer(key, bytes, temp, Starting, 0, false)
  }

  function ObjectPath(w: Writer): Path {
    Segments(w.key)
  }

  function TempPath(w: Writer): Path {
    [TEMP_DIR, w.temp]
  }

  function Content(s: State, f: File): Bytes {
    match f
    case Initial(bytes) => bytes
    case WrittenBy(w) =>
      if w < |s.writers| && s.writers[w].written <= |s.writers[w].bytes|
      then s.writers[w].bytes[..s.writers[w].written] else []
  }

  function SetPhase(s: State, w: nat, phase: Phase): State
    requires w < |s.writers|
  {
    s.(writers := s.writers[w := s.writers[w].(phase := phase)])
  }

  /**
   One step of writer `w`; an action that does not fit its phase does nothing.
   The temporary directory is there once a temporary file is: a file of its
   name is in its way, and it is in the way of a link and cannot be read.
   */
  function Step(s: State, w: nat, a: Action): State {
    if w >= |s.writers| then s
    else
      var me := s.writers[w];
      match a
      case CreateTemp =>
        if me.phase != Starting then s
        else if TempPath(me) in s.links || [TEMP_DIR] in s.links then SetPhase(s, w, Failed)
        else SetPhase(s, w, Writing).(links := s.links[TempPath(me) := WrittenBy(w)])
      case Write(upTo) =>
        if me.phase != Writing || !(me.written <= upTo <= |me.bytes|) then s
        else s.(writers := s.writers[w := me.(written := upTo)])
      case Sync =>
        if me.phase != Writing || me.written != |me.bytes| then s else SetPhase(s, w, Synced)
      case Link =>
        if me.phase != Synced then s
        else if ObjectPath(me) in s.links || ObjectPath(me) == [TEMP_DIR] then SetPhase(s, w, Refused)
        else State(s.links[ObjectPath(me) := WrittenBy(w)],
                   s.writers[w := me.(phase := Linked, linked := true)])
      case RemoveTemp =>
        if me.phase == Linked then SetPhase(s, w, Finished(Ok(Created))).(links := s.links - {TempPath(me)})
        else if me.phase == Refused then SetPhase(s, w, Comparing).(links := s.links - {TempPath(me)})
        else s
      case Compare =>
        if me.phase != Comparing then s
        else if ObjectPath(me) !in s.links then SetPhase(s, w, Failed)
        else if Content(s, s.links[ObjectPath(me)]) == me.bytes then SetPhase(s, w, Finished(Ok(AlreadyPresent)))
        else SetPhase(s, w, Finished(Err(ObjectAlreadyExists)))
      case Fail => if me.phase.Finished? || me.phase == Crashed then s else SetPhase(s, w, Failed)
      case Crash => SetPhase(s, w, Crashed)
  }

  datatype Event = Event(writer: nat, action: Action)

  function Run(s: State, events: seq<Event>): State
    decreases |events|
  {
    if events == [] then s else Run(Step(s, events[0].writer, events[0].action), events[1..])
  }

  /** The objects an observer can read; what lies in the temporary directory is not part of them. */
  function Abs(s: State): map<Path, Bytes> {
    map p | p in s.links && IsObjectPath(p) :: Content(s, s.links[p])
  }

  predicate IsObjectPath(p: Path) {
    p != [] && (p[0] == TEMP_DIR ==> |p| == 1)
  }

  /** Keys below the temporary directory's name. */
  predicate Reserved(key: string) {
    Segments(key)[0] == TEMP_DIR && |Segments(key)| > 1
  }

  // ---------- The invariant ----------

  predicate HoldsTemp(phase: Phase) {
    phase in {Writing, Synced, Linked, Refused}
  }

  /** What the phase of a writer says about the files. */
  predicate WriterOk(s: State, w: nat)
    requires w < |s.writers|
  {
    var me := s.writers[w];
    && me.written <= |me.bytes|
    && (me.phase == Starting ==> !me.linked && me.written == 0)
    && (me.phase == Writing ==> !me.linked)
    && (me.phase in {Synced, Linked, Refused, Comparing} || me.phase.Finished? ==> me.written == |me.bytes|)
    && (me.phase in {Synced, Refused, Comparing} ==> !me.linked)
    && (me.phase == Linked || me.phase == Finished(Ok(Created)) ==> me.linked)
    && (HoldsTemp(me.phase) ==> TempPath(me) in s.links && s.links[TempPath(me)] == WrittenBy(w))
    && (me.linked ==> me.written == |me.bytes| && TempPath(me) != ObjectPath(me)
                      && ObjectPath(me) in s.links && s.links[ObjectPath(me)] == WrittenBy(w))
  }

  /** What a writer has reported so far still holds of the files. */
  predicate ReportOk(s: State, w: nat)
    requires w < |s.writers|
  {
    var me := s.writers[w];
    !Reserved(me.key) ==>
      && (me.phase == Refused || me.phase == Comparing ==> ObjectPath(me) in s.links || ObjectPath(me) == [TEMP_DIR])
      && (me.phase.Finished? ==>
            && ObjectPath(me) in s.links
            && (me.phase.status.Ok? <==> Content(s, s.links[ObjectPath(me)]) == me.bytes))
  }

  predicate LinkOk(s: State, p: Path)
    requires p in s.links
  {
    s.links[p].WrittenBy? ==>
      var w := s.links[p].writer;
      && w < |s.writers|
      && s.writers[w].phase != Starting
      && (p == TempPath(s.writers[w]) || (p == ObjectPath(s.writers[w]) && s.writers[w].linked))
  }

  ghost predicate Inv(s: State) {
    && (forall w :: 0 <= w < |s.writers| ==> WriterOk(s, w) && ReportOk(s, w))
    && (forall p :: p in s.links ==> LinkOk(s, p))
  }

  /** Any files, and writers that have not started. */
  ghost predicate Init(s: State) {
    && (forall p :: p in s.links ==> s.links[p].Initial?)
    && (forall w :: 0 <= w < |s.writers| ==>
          s.writers[w] == NewWriter(s.writers[w].key, s.writers[w].bytes, s.writers[w].temp))
  }

  lemma InitHasInv(s: State)
    requires Init(s)
    ensures Inv(s)
  {
  }

  /** What a step of writer `w` leaves alone: other writers, and all files but its temporary one. */
  ghost predicate Frames(s: State, w: nat, s': State)
    requires w < |s.writers|
  {
    && |s'.writers| == |s.writers|
    && (forall v :: 0 <= v < |s.writers| && v != w ==> s'.writers[v] == s.writers[v])
    && (forall p :: p in s.links ==>
          (p in s'.links && s'.links[p] == s.links[p])
          || (p == TempPath(s.writers[w]) && HoldsTemp(s.writers[w].phase)))
    && (forall p :: p in s'.links && p !in s.links ==>
          s'.links[p] == WrittenBy(w) && (p == TempPath(s.writers[w]) || p == ObjectPath(s.writers[w])))
  }

  lemma StepFrames(s: State, w: nat, a: Action)
    requires w < |s.writers|
    ensures Frames(s, w, Step(s, w, a))
  {
    hide Segments, Content;
  }

  /** What a writer never changes of itself, and how far it has written. */
  lemma StepKeepsIdentity(s: State, w: nat, a: Action)
    requires w < |s.writers| && WriterOk(s, w)
    ensures var me, me' := s.writers[w], Step(s, w, a).writers[w];
            && me'.key == me.key && me'.bytes == me.bytes && me'.temp == me.temp
            && (me'.written == me.written || me.phase == Writing)
            && (me'.linked == me.linked || (me.phase == Synced && a == Link && ObjectPath(me) !in s.links))
            && (me'.phase == Starting ==> me'.phase == me.phase)
  {
    hide Segments, Content;
  }

  lemma StepKeepsWriter(s: State, w: nat, a: Action, v: nat)
    requires Inv(s) && w < |s.writers| && v < |s.writers|
    ensures |Step(s, w, a).writers| == |s.writers|
    ensures WriterOk(Step(s, w, a), v)
  {
    hide Segments, Content, ReportOk, LinkOk;
    StepFrames(s, w, a);
    assert WriterOk(s, v) && WriterOk(s, w);
    if v == w {
      hide Frames;
      StepKeepsItself(s, w, a);
    } else {
      hide Step;
      OthersStayOk(s, w, Step(s, w, a), v);
    }
  }

  lemma StepKeepsItself(s: State, w: nat, a: Action)
    requires w < |s.writers| && WriterOk(s, w)
    ensures |Step(s, w, a).writers| == |s.writers| && WriterOk(Step(s, w, a), w)
  {
    hide Segments, Content;
    match a
    case CreateTemp =>
    case Write(_) =>
    case Sync =>
    case Link =>
    case RemoveTemp =>
    case Compare =>
    case Fail =>
    case Crash =>
  }

  lemma OthersStayOk(s: State, w: nat, s': State, v: nat)
    requires w < |s.writers| && v < |s.writers| && v != w
    requires WriterOk(s, v) && WriterOk(s, w) && Frames(s, w, s')
    ensures WriterOk(s', v)
  {
    hide Segments, Content;
  }

  lemma StepKeepsLinks(s: State, w: nat, a: Action, p: Path)
    requires Inv(s) && w < |s.writers| && p in Step(s, w, a).links
    ensures LinkOk(Step(s, w, a), p)
  {
    hide Segments, Content, ReportOk;
    assert WriterOk(s, w);
    StepFrames(s, w, a);
    StepKeepsIdentity(s, w, a);
    if p in s.links {
      hide Step;
      assert LinkOk(s, p);
    }
  }

  /** The bytes behind a visible name never change, and visible names stay. */
  lemma StepKeepsObjects(s: State, w: nat, a: Action, p: Path)
    requires Inv(s) && w < |s.writers| && p in s.links && IsObjectPath(p)
    ensures p in Step(s, w, a).links && Step(s, w, a).links[p] == s.links[p]
    ensures Content(Step(s, w, a), s.links[p]) == Content(s, s.links[p])
  {
    hide Segments, ReportOk;
    assert WriterOk(s, w) && LinkOk(s, p);
    StepFrames(s, w, a);
    StepKeepsIdentity(s, w, a);
    hide Step;
    if s.links[p].WrittenBy? {
      assert WriterOk(s, s.links[p].writer);
    }
  }

  lemma StepKeepsReport(s: State, w: nat, a: Action, v: nat)
    requires Inv(s) && w < |s.writers| && v < |s.writers|
    ensures |Step(s, w, a).writers| == |s.writers|
    ensures ReportOk(Step(s, w, a), v)
  {
    hide Content, LinkOk, WriterOk;
    var me := s.writers[v];
    var p := ObjectPath(me);
    assert WriterOk(s, w) && WriterOk(s, v) && ReportOk(s, v);
    StepFrames(s, w, a);
    StepKeepsIdentity(s, w, a);
    if !Reserved(me.key) {
      if p in s.links {
        StepKeepsObjects(s, w, a, p);
      }
      if v == w {
        StepKeepsOwnReport(s, w, a);
      } else {
        hide Step, Inv;
      }
    }
  }

  lemma StepKeepsOwnReport(s: State, w: nat, a: Action)
    requires w < |s.writers| && WriterOk(s, w) && ReportOk(s, w) && !Reserved(s.writers[w].key)
    requires |Step(s, w, a).writers| == |s.writers|
    requires var p := ObjectPath(s.writers[w]);
             p in s.links ==> p in Step(s, w, a).links && Step(s, w, a).links[p] == s.links[p]
                              && Content(Step(s, w, a), s.links[p]) == Content(s, s.links[p])
    ensures ReportOk(Step(s, w, a), w)
  {
    var me := s.writers[w];
    var s' := Step(s, w, a);
    if a == RemoveTemp && me.phase == Linked {
      assert s'.links[ObjectPath(me)] == WrittenBy(w);
      assert me.bytes[..|me.bytes|] == me.bytes;
    }
  }

  lemma StepKeepsInv(s: State, w: nat, a: Action)
    requires Inv(s)
    ensures Inv(Step(s, w, a))
  {
    if w < |s.writers| {
      var s' := Step(s, w, a);
      forall v | 0 <= v < |s.writers|
        ensures |s'.writers| == |s.writers| && WriterOk(s', v) && ReportOk(s', v)
      {
        StepKeepsWriter(s, w, a, v);
        StepKeepsReport(s, w, a, v);
      }
      forall p | p in s'.links
        ensures LinkOk(s', p)
      {
        StepKeepsLinks(s, w, a, p);
      }
      StepKeepsWriter(s, w, a, w);
    }
  }

  // ---------- Refinement ----------

  /** The put of the atomic store that a step completes, if any. */
  function Completes(s: State, w: nat, a: Action): Option<Result<PutStatus, StorageError>> {
    if w >= |s.writers| || Reserved(s.writers[w].key) then None
    else if a == Link && s.writers[w].phase == Synced && Step(s, w, a).writers[w].phase == Linked
    then Some(Ok(Created))
    else if a == Compare && s.writers[w].phase == Comparing && Step(s, w, a).writers[w].phase.Finished?
    then Some(Step(s, w, a).writers[w].phase.status)
    else None
  }

  lemma AbsAt(s: State, p: Path)
    ensures p in Abs(s) <==> p in s.links && IsObjectPath(p)
    ensures p in Abs(s) ==> Abs(s)[p] == Content(s, s.links[p])
  {
    hide Content, IsObjectPath;
  }

  lemma VisibleStay(s: State, w: nat, a: Action)
    requires Inv(s) && w < |s.writers|
    ensures Grows(Abs(s), Abs(Step(s, w, a)))
  {
    hide Step, Inv, Abs, Content, IsObjectPath;
    forall p | p in Abs(s)
      ensures p in Abs(Step(s, w, a)) && Abs(Step(s, w, a))[p] == Abs(s)[p]
    {
      AbsAt(s, p);
      StepKeepsObjects(s, w, a, p);
      AbsAt(Step(s, w, a), p);
    }
  }

  /** The only new visible name is the one that a link makes. */
  lemma NewName(s: State, w: nat, a: Action, p: Path)
    requires w < |s.writers| && WriterOk(s, w)
    requires p in Step(s, w, a).links && IsObjectPath(p) && p !in s.links
    ensures p == ObjectPath(s.writers[w]) && Completes(s, w, a) == Some(Ok(Created))
  {
    hide Content;
  }

  lemma LinkCreates(s: State, w: nat, a: Action)
    requires w < |s.writers| && WriterOk(s, w) && Completes(s, w, a) == Some(Ok(Created))
    ensures var p, s' := ObjectPath(s.writers[w]), Step(s, w, a);
            && p !in s.links && p in s'.links && IsObjectPath(p)
            && Content(s', s'.links[p]) == s.writers[w].bytes
  {
    var me := s.writers[w];
    assert me.bytes[..|me.bytes|] == me.bytes;
  }

  lemma CreationIsAPut(s: State, w: nat, a: Action)
    requires Inv(s) && w < |s.writers| && Completes(s, w, a) == Some(Ok(Created))
    ensures Put(Abs(s), ObjectPath(s.writers[w]), s.writers[w].bytes)
            == PutResult(Abs(Step(s, w, a)), Ok(Created))
  {
    hide Step, Abs, Content, Segments, Completes, Inv;
    assert WriterOk(s, w) by { WritersAreOk(s, w); }
    hide WriterOk;
    var p, s' := ObjectPath(s.writers[w]), Step(s, w, a);
    LinkCreates(s, w, a);
    VisibleStay(s, w, a);
    AbsAt(s, p);
    AbsAt(s', p);
    forall q | q in Abs(s') && q !in Abs(s)
      ensures q == p
    {
      AbsAt(s, q);
      AbsAt(s', q);
      NewName(s, w, a, q);
    }
    assert Abs(s') == Abs(s)[p := s.writers[w].bytes];
  }

  lemma WritersAreOk(s: State, w: nat)
    requires Inv(s) && w < |s.writers|
    ensures WriterOk(s, w) && ReportOk(s, w)
  {
  }

  lemma OtherStepsAddNothing(s: State, w: nat, a: Action)
    requires Inv(s) && w < |s.writers| && Completes(s, w, a) != Some(Ok(Created))
    ensures Abs(Step(s, w, a)) == Abs(s)
  {
    hide Step, Abs, Content, Segments, Completes, Inv;
    WritersAreOk(s, w);
    hide WriterOk, ReportOk;
    VisibleStay(s, w, a);
    forall q | q in Abs(Step(s, w, a))
      ensures q in Abs(s)
    {
      AbsAt(s, q);
      AbsAt(Step(s, w, a), q);
      if q !in s.links {
        NewName(s, w, a, q);
      }
    }
  }

  /** A comparison finds the path taken, and answers as the atomic store does. */
  lemma ComparisonIsAPut(s: State, w: nat, a: Action)
    requires w < |s.writers| && ReportOk(s, w)
    requires Completes(s, w, a).Some? && Completes(s, w, a) != Some(Ok(Created))
    ensures var me := s.writers[w];
            && ObjectPath(me) in s.links && IsObjectPath(ObjectPath(me))
            && Completes(s, w, a).value == if Content(s, s.links[ObjectPath(me)]) == me.bytes then Ok(AlreadyPresent)
                                           else Err(ObjectAlreadyExists)
  {
    hide Content;
  }

  /** A step either leaves the visible objects alone or is one whole put of the atomic store. */
  lemma StepRefines(s: State, w: nat, a: Action)
    requires Inv(s)
    ensures Completes(s, w, a) == None ==> Abs(Step(s, w, a)) == Abs(s)
    ensures Completes(s, w, a).Some? ==>
              Put(Abs(s), ObjectPath(s.writers[w]), s.writers[w].bytes)
              == PutResult(Abs(Step(s, w, a)), Completes(s, w, a).value)
  {
    if w < |s.writers| {
      hide Step, Abs, Content, Segments, Completes, Inv, WriterOk, ReportOk;
      if Completes(s, w, a) == Some(Ok(Created)) {
        CreationIsAPut(s, w, a);
      } else {
        OtherStepsAddNothing(s, w, a);
        if Completes(s, w, a).Some? {
          WritersAreOk(s, w);
          ComparisonIsAPut(s, w, a);
          AbsAt(s, ObjectPath(s.writers[w]));
        }
      }
    }
  }

  // ---------- Whole runs ----------

  /** A put that completed, as the observer sees it. */
  datatype PutEvent = PutEvent(path: Path, bytes: Bytes, status: Result<PutStatus, StorageError>)

  /** The completed puts of a run, in the order in which they took effect. */
  function Completed(s: State, events: seq<Event>): seq<PutEvent>
    decreases |events|
  {
    if events == [] then []
    else
      var w, a := events[0].writer, events[0].action;
      var done := Completes(s, w, a);
      (if done.Some? then [PutEvent(ObjectPath(s.writers[w]), s.writers[w].bytes, done.value)] else [])
      + Completed(Step(s, w, a), events[1..])
  }

  /** `puts` is a run of the atomic store from `before` to `after`, with these results. */
  predicate AtomicRun(before: map<Path, Bytes>, puts: seq<PutEvent>, after: map<Path, Bytes>)
    decreases |puts|
  {
    if puts == [] then before == after
    else
      var r := Put(before, puts[0].path, puts[0].bytes);
      r.status == puts[0].status && AtomicRun(r.objects, puts[1..], after)
  }

  lemma {:induction false} RunKeepsInv(s: State, events: seq<Event>)
    requires Inv(s)
    ensures Inv(Run(s, events))
    decreases |events|
  {
    if events != [] {
      StepKeepsInv(s, events[0].writer, events[0].action);
      RunKeepsInv(Step(s, events[0].writer, events[0].action), events[1..]);
    }
  }

  /** Every interleaving, with every failure and crash, is a sequence of atomic puts. */
  lemma {:induction false} RunsAreAtomic(s: State, events: seq<Event>)
    requires Inv(s)
    ensures AtomicRun(Abs(s), Completed(s, events), Abs(Run(s, events)))
    decreases |events|
  {
    if events != [] {
      var w, a := events[0].writer, events[0].action;
      StepRefines(s, w, a);
      StepKeepsInv(s, w, a);
      RunsAreAtomic(Step(s, w, a), events[1..]);
      var rest := Completed(Step(s, w, a), events[1..]);
      var puts := Completed(s, events);
      if Completes(s, w, a).Some? {
        assert puts[1..] == rest;
      } else {
        assert puts == rest;
      }
    }
  }

  /** A visible object never changes or disappears. */
  lemma {:induction false} ObjectsAreImmutable(s: State, events: seq<Event>)
    requires Inv(s)
    ensures Grows(Abs(s), Abs(Run(s, events)))
    decreases |events|
  {
    if events != [] {
      var w, a := events[0].writer, events[0].action;
      StepRefines(s, w, a);
      StepKeepsInv(s, w, a);
      if Completes(s, w, a).Some? {
        PutNeverChangesObjects(Abs(s), ObjectPath(s.writers[w]), s.writers[w].bytes);
      }
      ObjectsAreImmutable(Step(s, w, a), events[1..]);
    }
  }

  /**
   What callers were told is true: a visible object made here holds all the
   bytes of one put, Created and AlreadyPresent mean the key holds the
   caller's bytes, a conflict means it holds others, and a key is created
   at most once.
   */
  lemma {:induction false} ReportsAreTrue(s0: State, events: seq<Event>)
    requires Init(s0)
    ensures var s := Run(s0, events);
            && (forall p :: p in s.links && IsObjectPath(p) && s.links[p].WrittenBy? ==>
                  var w := s.links[p].writer;
                  w < |s.writers| && p == ObjectPath(s.writers[w]) && Abs(s)[p] == s.writers[w].bytes)
            && (forall w :: 0 <= w < |s.writers| && s.writers[w].phase.Finished? && !Reserved(s.writers[w].key) ==>
                  var p := ObjectPath(s.writers[w]);
                  p in Abs(s) && (s.writers[w].phase.status.Ok? <==> Abs(s)[p] == s.writers[w].bytes))
            && (forall v, w :: 0 <= v < w < |s.writers| && s.writers[v].key == s.writers[w].key ==>
                  !(s.writers[v].phase == Finished(Ok(Created)) && s.writers[w].phase == Finished(Ok(Created))))
  {
    InitHasInv(s0);
    RunKeepsInv(s0, events);
    var s := Run(s0, events);
    forall p | p in s.links && IsObjectPath(p) && s.links[p].WrittenBy?
      ensures var w := s.links[p].writer;
              w < |s.writers| && p == ObjectPath(s.writers[w]) && Abs(s)[p] == s.writers[w].bytes
    {
      assert LinkOk(s, p) && WriterOk(s, s.links[p].writer);
    }
    forall w | 0 <= w < |s.writers| && s.writers[w].phase.Finished? && !Reserved(s.writers[w].key)
      ensures var p := ObjectPath(s.writers[w]);
              p in Abs(s) && (s.writers[w].phase.status.Ok? <==> Abs(s)[p] == s.writers[w].bytes)
    {
      assert ReportOk(s, w);
    }
    forall v, w | 0 <= v < w < |s.writers| && s.writers[v].key == s.writers[w].key
      ensures !(s.writers[v].phase == Finished(Ok(Created)) && s.writers[w].phase == Finished(Ok(Created)))
    {
      assert WriterOk(s, v) && WriterOk(s, w);
    }
  }

  // ---------- Listing ----------

  /** `list_prefix`: every file below the prefix path, then the two filters. */
  predicate Listed(s: State, prefix: string, key: string) {
    Segments(key) in s.links && PrefixSegments(prefix) <= Segments(key)
    && Contains(prefix, key) && !StartsWith(key, TEMP_DIR + "/")
  }

  lemma TempKeys(key: string)
    ensures Reserved(key) <==> StartsWith(key, TEMP_DIR + "/")
  {
    FirstSegment(TEMP_DIR, key);
    if StartsWith(key, TEMP_DIR + "/") {
      var rest := key[|TEMP_DIR + "/"|..];
      SplitAtSeparator(TEMP_DIR, rest, '/');
      assert key == TEMP_DIR + ['/'] + rest;
    } else if key == TEMP_DIR {
      NoSeparatorNoSplit(key, '/');
    }
  }

  /**
   A listing shows exactly the visible objects under the prefix, as the
   atomic store lists them.  Objects below the temporary directory's name
   are never shown, although `validate_key` accepts such keys.
   */
  lemma ListingShowsVisibleObjects(s: State, prefix: string, key: string)
    ensures Listed(s, prefix, key) <==> Segments(key) in Abs(s) && Contains(prefix, key)
  {
    TempKeys(key);
    ContainsMeansSegmentPrefix(prefix, key);
  }

  lemma TempFilesAreNeverListed(s: State, prefix: string, w: Writer)
    ensures !Listed(s, prefix, Join(TempPath(w)))
  {
    assert TempPath(w)[1..] == [w.temp];
    assert Join(TempPath(w)) == TEMP_DIR + "/" + w.temp;
  }

  /** `validate_key` accepts every name under the temporary directory's. */
  lemma {:induction false} ReservedKeysAreValid(name: string)
    requires ValidSegment(name)
    ensures ValidKey(TEMP_DIR + "/" + name, false) && Reserved(TEMP_DIR + "/" + name)
    ensures Segments(TEMP_DIR + "/" + name) == [TEMP_DIR, name]
  {
    var key := TEMP_DIR + "/" + name;
    SplitAtSeparator(TEMP_DIR, name, '/');
    NoSlash(name);
    NoSeparatorNoSplit(name, '/');
    assert key == TEMP_DIR + ['/'] + name;
    assert Split(key, '/') == [TEMP_DIR, name];
    assert key[|key| - 1] == name[|name| - 1] && name[|name| - 1] in name;
    forall c | c in key
      ensures c != '\\'
    {
      assert c in TEMP_DIR || c == '/' || c in name;
    }
  }

  lemma NoSlash(name: string)
    requires ValidSegment(name)
    ensures '/' !in name && '\\' !in name
  {
    assert !IsKeyChar('/') && !IsKeyChar('\\');
  }

  /** One writer alone puts an empty object under such a key: it is told Created, and the object is not listed. */
  lemma {:induction false} ReservedKeyIsLost(name: string, temp: string)
    requires ValidSegment(name) && name != temp
    ensures var key := TEMP_DIR + "/" + name;
            var s := Run(State(map[], [NewWriter(key, [], temp)]),
                         [Event(0, CreateTemp), Event(0, Sync), Event(0, Link), Event(0, RemoveTemp)]);
            && ValidKey(key, false)
            && s.writers[0].phase == Finished(Ok(Created))
            && !Listed(s, "", key)
  {
    hide ValidKey, Listed, Segments, Contains, Abs, IsObjectPath;
    var key := TEMP_DIR + "/" + name;
    ReservedKeysAreValid(name);
    var me := NewWriter(key, [], temp);
    var t, o := TempPath(me), ObjectPath(me);
    assert t[1] != o[1];
    var s0 := State(map[], [me]);
    var all := [Event(0, CreateTemp), Event(0, Sync), Event(0, Link), Event(0, RemoveTemp)];
    assert all[1..] == [Event(0, Sync), Event(0, Link), Event(0, RemoveTemp)];
    assert all[1..][1..] == [Event(0, Link), Event(0, RemoveTemp)];
    assert all[1..][1..][1..] == [Event(0, RemoveTemp)];
    assert all[1..][1..][1..][1..] == [];
    var s1 := Step(s0, 0, CreateTemp);
    var s2 := Step(s1, 0, Sync);
    var s3 := Step(s2, 0, Link);
    var s4 := Step(s3, 0, RemoveTemp);
    assert s1 == State(map[t := WrittenBy(0)], [me.(phase := Writing)]);
    assert s2 == State(map[t := WrittenBy(0)], [me.(phase := Synced)]);
    assert s3 == State(map[t := WrittenBy(0), o := WrittenBy(0)], [me.(phase := Linked, linked := true)]);
    assert s4.writers == [me.(phase := Finished(Ok(Created)), linked := true)];
    hide Step;
    assert Run(s0, all) == Run(s1, all[1..]) == Run(s2, all[1..][1..]) == Run(s3, all[1..][1..][1..]) == s4;
    ReservedIsNotListed(s4, key);
  }

  lemma ReservedIsNotListed(s: State, key: string)
    requires Reserved(key)
    ensures !Listed(s, "", key)
  {
    hide Listed, Segments, Contains, Content;
    ListingShowsVisibleObjects(s, "", key);
  }

  /** After a Created report, the key can be listed exactly when it is not reserved. */
  lemma {:induction false} CreatedIsListedUnlessReserved(s0: State, events: seq<Event>, w: nat)
    requires Init(s0) && w < |Run(s0, events).writers|
    requires Run(s0, events).writers[w].phase == Finished(Ok(Created))
    ensures Listed(Run(s0, events), "", Run(s0, events).writers[w].key)
            <==> !Reserved(Run(s0, events).writers[w].key)
  {
    InitHasInv(s0);
    RunKeepsInv(s0, events);
    assert WriterOk(Run(s0, events), w);
    ListingShowsVisibleObjects(Run(s0, events), "", Run(s0, events).writers[w].key);
  }
}
