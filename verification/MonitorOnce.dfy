/**
 When a run returns every Collection of a ring at most once: when the ring is never reset. A reset
 is the process let go of, or its interpreter evicted for room, and either is enough to have what
 the ring still holds read and returned again.
 */
module MonitorOnce {
  import opened Prelude
  import opened Records
  import opened Observation
  import opened Cursors
  import opened CursorLaws
  import opened CursorRuns
  import opened MonitorRun
  import opened MonitorSpans
  import RW = RingWriter

  // ---- runs that never reset a ring -----------------------------------------------------

  /** Whether this step leaves the interpreter of `key` its accumulators. */
  ghost predicate Undropped(pid: int, w: World, s: Step, key: RingKey) {
    match s
    case EndPoll => NeverDrops(w.cursor.(polls := w.cursor.polls + 1), pid, Candidates(w.pending), key.interpreter)
    case LetGo => false
    case _ => true
  }

  ghost predicate Undisturbed(pid: int, w: World, steps: seq<Step>, key: RingKey)
    decreases |steps|
  {
    steps == [] || !RingsValid(pid, w) || !Enabled(pid, w, steps[0]) ||
    (Undropped(pid, w, steps[0], key) && Undisturbed(pid, Take(pid, w, steps[0]), steps[1..], key))
  }

  lemma {:induction false} FoldOneSpan(s: CursorState, pid: int, cands: seq<Record>, key: RingKey, spans: Spans)
    requires spans != [] && NeverDrops(s, pid, cands, key.interpreter)
    ensures |FoldSpans(s, pid, cands, key, spans)| == |spans|
    decreases |cands|
  {
    if cands != [] {
      FoldOneSpan(Offer(Retain(s, pid, cands[0].interpreter), pid, cands[0]), pid, cands[1..], key,
                  OneSpans(s, pid, cands[0], key, spans));
    }
  }

  lemma {:induction false} StepOneSpan(pid: int, w: World, s: Step, key: RingKey, spans: Spans)
    requires spans != [] && Undropped(pid, w, s, key)
    ensures |StepSpans(pid, w, s, key, spans)| == |spans|
  {
    if s.EndPoll? {
      FoldOneSpan(w.cursor.(polls := w.cursor.polls + 1), pid, Candidates(w.pending), key, spans);
    }
  }

  lemma {:induction false} OneSpan(pid: int, w: World, steps: seq<Step>, key: RingKey, spans: Spans)
    requires spans != [] && Undisturbed(pid, w, steps, key)
    ensures |PathSpans(pid, w, steps, key, spans)| == |spans|
    decreases |steps|
  {
    if steps != [] && RingsValid(pid, w) && Enabled(pid, w, steps[0]) {
      StepOneSpan(pid, w, steps[0], key, spans);
      OneSpan(pid, Take(pid, w, steps[0]), steps[1..], key, StepSpans(pid, w, steps[0], key, spans));
    }
  }

  lemma {:induction false} FlattenOne(spans: Spans)
    requires |spans| == 1
    ensures Flatten(spans) == spans[0] && Final(spans) == spans[0]
  {
    FlattenLast([], spans[0]);
    assert [] + [spans[0]] == spans;
  }

  /** A ring never reset gives out each Collection at most once, in order, and its accumulator is the fold of all of them. */
  lemma {:induction false} UndisturbedReturnsOnce(pid: int, w: World, steps: seq<Step>, v: World, key: RingKey)
    requires Attached(pid, w) && Path(pid, w, steps, v) && key.pid == pid && Undisturbed(pid, w, steps, key)
    ensures Increasing(Output(v, key)) && ObservationOf(v.cursor, key) == FoldAll(UNREAD, Output(v, key))
  {
    RunSplits(pid, w, steps, v, key);
    OneSpan(pid, w, steps, key, [[]]);
    FlattenOne(SpansOf(pid, w, steps, key));
  }

  ghost predicate NoLetGo(steps: seq<Step>) {
    forall i :: 0 <= i < |steps| ==> !steps[i].LetGo?
  }

  // ---- few interpreters -----------------------------------------------------------------

  ghost function Interpreters(w: World): set<int> {
    set k | k in w.rings :: k.interpreter
  }

  ghost predicate KeptKnown(pid: int, w: World) {
    RetainedOf(w.cursor, pid).Keys <= Interpreters(w)
  }

  lemma {:induction false} PendingNames(pid: int, w: World)
    requires Inv(pid, w)
    ensures Named(Candidates(w.pending)) <= Interpreters(w)
  {
    CandidateNames(w.pending);
    forall i | i in Named(w.pending) ensures i in Interpreters(w) {
      var r :| r in w.pending && r.interpreter == i;
      assert KeyOf(pid, r) in w.rings;
    }
  }

  lemma {:induction false} FewUndropped(pid: int, w: World, key: RingKey)
    requires Inv(pid, w) && KeptKnown(pid, w) && |Interpreters(w)| <= MAX_RETAINED_INTERPRETERS
    ensures Undropped(pid, w, EndPoll, key)
  {
    PendingNames(pid, w);
    FewNextPoll(w.cursor, pid, Candidates(w.pending), Interpreters(w), key.interpreter);
  }

  lemma FewKept(pid: int, w: World)
    requires Inv(pid, w) && KeptKnown(pid, w) && |Interpreters(w)| <= MAX_RETAINED_INTERPRETERS
    ensures RetainedOf(Admit(w.cursor, pid, w.pending).0, pid).Keys <= Interpreters(w)
  {
    PendingNames(pid, w);
    FewStayFew(w.cursor, pid, w.pending, Interpreters(w));
  }

  /** A process that runs no more interpreters than the bound never has one evicted. */
  lemma {:induction false} FewStep(pid: int, w: World, s: Step, key: RingKey)
    requires Inv(pid, w) && Enabled(pid, w, s) && !s.LetGo?
    requires KeptKnown(pid, w) && |Interpreters(w)| <= MAX_RETAINED_INTERPRETERS
    ensures Undropped(pid, w, s, key)
    ensures KeptKnown(pid, Take(pid, w, s)) && Interpreters(Take(pid, w, s)) == Interpreters(w)
  {
    var v := Take(pid, w, s);
    assert v.rings.Keys == w.rings.Keys;
    match s
    case EndPoll =>
      FewUndropped(pid, w, key);
      FewKept(pid, w);
    case Elsewhere(event) => ApplyFrame(w.cursor, event, pid);
    case _ =>
  }

  lemma {:induction false} FewUndisturbed(pid: int, w: World, steps: seq<Step>, v: World, key: RingKey)
    requires Inv(pid, w) && Path(pid, w, steps, v) && NoLetGo(steps)
    requires KeptKnown(pid, w) && |Interpreters(w)| <= MAX_RETAINED_INTERPRETERS
    ensures Undisturbed(pid, w, steps, key)
    decreases |steps|
  {
    if steps != [] {
      StepKeepsInv(pid, w, steps[0]);
      FewStep(pid, w, steps[0], key);
      FewUndisturbed(pid, Take(pid, w, steps[0]), steps[1..], v, key);
    }
  }

  // ---- an interpreter in every poll -------------------------------------------------------

  /** The interpreters the last poll named. */
  ghost function NextNames(w: World, s: Step, before: set<int>): set<int> {
    if s.EndPoll? then Named(w.pending) else before
  }

  ghost predicate SteadyStep(w: World, s: Step, interpreter: int, before: set<int>) {
    && !s.LetGo?
    && (s.EndPoll? ==>
          interpreter in Named(w.pending) && |before + Named(w.pending)| <= MAX_RETAINED_INTERPRETERS)
  }

  /**
   Past the bound: `interpreter` is in every poll, no two consecutive polls name more than the
   bound together, and the process is not let go of.
   */
  ghost predicate SteadyPath(pid: int, w: World, steps: seq<Step>, interpreter: int, before: set<int>)
    decreases |steps|
  {
    steps == [] || !RingsValid(pid, w) || !Enabled(pid, w, steps[0]) ||
    (&& SteadyStep(w, steps[0], interpreter, before)
     && SteadyPath(pid, Take(pid, w, steps[0]), steps[1..], interpreter, NextNames(w, steps[0], before)))
  }

  /** `interpreter` was in the last poll, which named `before`; or there was none yet. */
  ghost predicate Recent(s: CursorState, pid: int, interpreter: int, since: int, before: set<int>) {
    && since <= s.polls && RecentIn(s, pid, since, before)
    && (SeenSince(s, pid, since, interpreter) || RetainedOf(s, pid) == map[])
  }

  lemma {:induction false} FirstPoll(s: CursorState, pid: int, records: seq<Record>, interpreter: int)
    requires RetainedOf(s, pid) == map[] && interpreter in Named(records) && |Named(records)| <= MAX_RETAINED_INTERPRETERS
    ensures NeverDrops(s.(polls := s.polls + 1), pid, Candidates(records), interpreter)
    ensures var t := Admit(s, pid, records).0; Recent(t, pid, interpreter, t.polls, Named(records))
  {
    var start, cands := s.(polls := s.polls + 1), Candidates(records);
    CandidateNames(records);
    assert RetainedOf(start, pid) == map[];
    FewNeverDrop(start, pid, cands, Named(records), interpreter);
    FoldSeesNames(start, pid, cands, Named(records));
    FoldMarks(start, pid, cands, Named(records), interpreter);
  }

  lemma {:induction false} SteadyEndPoll(s: CursorState, pid: int, records: seq<Record>, since: int, before: set<int>, interpreter: int)
    requires Bounded(s) && Recent(s, pid, interpreter, since, before)
    requires interpreter in Named(records) && |before + Named(records)| <= MAX_RETAINED_INTERPRETERS
    ensures NeverDrops(s.(polls := s.polls + 1), pid, Candidates(records), interpreter)
    ensures var t := Admit(s, pid, records).0; Recent(t, pid, interpreter, t.polls, Named(records))
  {
    if SeenSince(s, pid, since, interpreter) {
      SteadyPoll(s, pid, records, since, before, interpreter);
    } else {
      Subset(Named(records), before + Named(records));
      FirstPoll(s, pid, records, interpreter);
    }
  }

  lemma {:induction false} SteadyPollKeeps(pid: int, w: World, key: RingKey, since: int, before: set<int>)
    requires RingsValid(pid, w) && Bounded(w.cursor) && SteadyStep(w, EndPoll, key.interpreter, before)
    requires Recent(w.cursor, pid, key.interpreter, since, before)
    ensures Undropped(pid, w, EndPoll, key)
    ensures var t := Take(pid, w, EndPoll).cursor; Recent(t, pid, key.interpreter, t.polls, Named(w.pending))
  {
    SteadyEndPoll(w.cursor, pid, w.pending, since, before, key.interpreter);
    var t := Admit(w.cursor, pid, w.pending).0;
    assert Recent(t, pid, key.interpreter, t.polls, Named(w.pending));
    assert Take(pid, w, EndPoll).cursor == t;
  }

  lemma SteadyStepKeeps(pid: int, w: World, s: Step, key: RingKey, since: int, before: set<int>) returns (next: int)
    requires Inv(pid, w) && Enabled(pid, w, s) && SteadyStep(w, s, key.interpreter, before)
    requires Recent(w.cursor, pid, key.interpreter, since, before)
    ensures Undropped(pid, w, s, key)
    ensures Recent(Take(pid, w, s).cursor, pid, key.interpreter, next, NextNames(w, s, before))
  {
    next := since;
    match s
    case EndPoll =>
      SteadyPollKeeps(pid, w, key, since, before);
      next := Take(pid, w, EndPoll).cursor.polls;
    case Elsewhere(event) => ApplyFrame(w.cursor, event, pid);
    case _ =>
  }

  lemma {:induction false} SteadyUndisturbed(pid: int, w: World, steps: seq<Step>, v: World, key: RingKey, since: int, before: set<int>)
    requires Inv(pid, w) && Path(pid, w, steps, v) && SteadyPath(pid, w, steps, key.interpreter, before)
    requires Recent(w.cursor, pid, key.interpreter, since, before)
    ensures Undisturbed(pid, w, steps, key)
    decreases |steps|
  {
    if steps != [] {
      StepKeepsInv(pid, w, steps[0]);
      var next := SteadyStepKeeps(pid, w, steps[0], key, since, before);
      SteadyUndisturbed(pid, Take(pid, w, steps[0]), steps[1..], v, key, next, NextNames(w, steps[0], before));
    }
  }

  /** However many interpreters come and go, one in every poll is returned once, as long as the polls are not crowded. */
  lemma {:induction false} SteadyReturnsOnce(pid: int, w: World, steps: seq<Step>, v: World, key: RingKey)
    requires Attached(pid, w) && Path(pid, w, steps, v) && key.pid == pid
    requires SteadyPath(pid, w, steps, key.interpreter, {})
    ensures Increasing(Output(v, key)) && ObservationOf(v.cursor, key) == FoldAll(UNREAD, Output(v, key))
  {
    AttachedSplits(pid, w, key);
    SteadyUndisturbed(pid, w, steps, v, key, w.cursor.polls, {});
    UndisturbedReturnsOnce(pid, w, steps, v, key);
  }
}
