/**
 Ring by ring, what a run returns. A ring's accumulator starts over when its interpreter is evicted
 for room or its process is let go of; between two such resets a ring's Records come out once each,
 in counter order, and its accumulator is the fold of exactly those.
 */
module MonitorSpans {
  import opened Prelude
  import opened Records
  import opened StableSort
  import opened Observation
  import opened Cursors
  import opened CursorLaws
  import opened CursorRuns
  import opened MonitorRun
  import RW = RingWriter

  /** The Records a run has returned for one ring, in the order it returned them. */
  function Output(w: World, key: RingKey): seq<Record> {
    Filter(InRing(key), w.output)
  }

  // ---- spans -------------------------------------------------------------------------

  /** What came out between resets, the last entry since the latest one. */
  type Spans = seq<seq<Record>>

  function Final(spans: Spans): seq<Record>
    requires spans != []
  {
    spans[|spans| - 1]
  }

  function Closed(spans: Spans): Spans
    requires spans != []
  {
    spans[..|spans| - 1]
  }

  function Extend(spans: Spans, r: Record): Spans
    requires spans != []
  {
    Closed(spans) + [Final(spans) + [r]]
  }

  ghost predicate AllIncreasing(spans: Spans) {
    forall i :: 0 <= i < |spans| ==> Increasing(spans[i])
  }

  /** Each span rises strictly, and the accumulator is the fold of the last. */
  ghost predicate Follows(o: RingObservation, spans: Spans) {
    && spans != [] && AllIncreasing(spans)
    && o == FoldAll(UNREAD, Final(spans))
  }

  lemma {:induction false} SnocIncreases(rs: seq<Record>, r: Record)
    requires Increasing(rs) && Takes(FoldAll(UNREAD, rs), r)
    ensures Increasing(rs + [r]) && FoldAll(UNREAD, rs + [r]) == FoldAll(UNREAD, rs).Fold(r)
  {
    FoldAllConcat(UNREAD, rs, [r]);
    assert [r][1..] == [];
    if rs != [] {
      FoldAllMeaning(rs);
      forall i | 0 <= i < |rs| ensures rs[i].collections < r.collections {
        assert i == |rs| - 1 || rs[i].collections < rs[|rs| - 1].collections;
      }
    }
  }

  lemma {:induction false} ExtendFollows(o: RingObservation, spans: Spans, r: Record)
    requires Follows(o, spans) && Takes(o, r)
    ensures Follows(o.Fold(r), Extend(spans, r)) && Closed(Extend(spans, r)) == Closed(spans)
    ensures Flatten(Extend(spans, r)) == Flatten(spans) + [r]
  {
    var open := Final(spans);
    SnocIncreases(open, r);
    assert spans == Closed(spans) + [open];
    FlattenLast(Closed(spans), open);
    FlattenLast(Closed(spans), open + [r]);
    assert Flatten(Closed(spans)) + (open + [r]) == (Flatten(Closed(spans)) + open) + [r];
  }

  lemma {:induction false} FlattenLast(spans: Spans, open: seq<Record>)
    ensures Flatten(spans + [open]) == Flatten(spans) + open
  {
    FlattenConcat(spans, [open]);
    assert [open][1..] == [];
    assert open + [] == open;
  }

  lemma {:induction false} ResetFollows(spans: Spans)
    requires spans != [] && AllIncreasing(spans)
    ensures Follows(UNREAD, spans + [[]]) && Closed(spans + [[]]) == spans
    ensures Flatten(spans + [[]]) == Flatten(spans)
  {
    var more := spans + [[]];
    FlattenLast(spans, []);
    assert Flatten(spans) + [] == Flatten(spans);
    assert Final(more) == [] && FoldAll(UNREAD, []) == UNREAD;
    forall i | 0 <= i < |more| ensures Increasing(more[i]) {
      assert i < |spans| ==> more[i] == spans[i];
    }
  }

  // ---- one poll ----------------------------------------------------------------------

  /** Whether naming `interpreter` evicts the interpreter of `key` for room. */
  ghost predicate Drops(s: CursorState, pid: int, interpreter: int, key: RingKey) {
    Overflows(s, pid, interpreter) && Stalest(RetainedOf(s, pid)) == key.interpreter
  }

  /** One candidate: it may reset the ring, and it may then come out of it. */
  ghost function OneSpans(s: CursorState, pid: int, r: Record, key: RingKey, spans: Spans): (more: Spans)
    requires spans != []
    ensures more != []
  {
    var kept := if Drops(s, pid, r.interpreter, key) then spans + [[]] else spans;
    if InRing(key)(r) && Takes(ObservationOf(Retain(s, pid, r.interpreter), key), r) then Extend(kept, r) else kept
  }

  ghost function FoldSpans(s: CursorState, pid: int, cands: seq<Record>, key: RingKey, spans: Spans): (more: Spans)
    requires spans != []
    ensures more != []
    decreases |cands|
  {
    if cands == [] then spans
    else
      FoldSpans(Offer(Retain(s, pid, cands[0].interpreter), pid, cands[0]), pid, cands[1..], key,
                OneSpans(s, pid, cands[0], key, spans))
  }

  lemma DropResets(s: CursorState, pid: int, interpreter: int, key: RingKey)
    requires key.pid == pid && Drops(s, pid, interpreter, key)
    ensures ObservationOf(Retain(s, pid, interpreter), key) == UNREAD
  {}

  /** The spans after one candidate follow the accumulator after it. */
  lemma {:induction false} OneFollows(s: CursorState, pid: int, r: Record, key: RingKey, spans: Spans)
    requires key.pid == pid && Follows(ObservationOf(s, key), spans)
    ensures var t, more := Retain(s, pid, r.interpreter), OneSpans(s, pid, r, key, spans);
      && Follows(ObservationOf(Offer(t, pid, r), key), more)
      && Closed(spans) <= Closed(more)
      && Flatten(more) == Flatten(spans) + (if InRing(key)(r) && Takes(ObservationOf(t, key), r) then [r] else [])
  {
    var t := Retain(s, pid, r.interpreter);
    var kept := if Drops(s, pid, r.interpreter, key) then spans + [[]] else spans;
    if Drops(s, pid, r.interpreter, key) {
      DropResets(s, pid, r.interpreter, key);
      ResetFollows(spans);
    } else {
      RetainProject(s, pid, r.interpreter, key);
    }
    OfferProject(t, pid, r, key);
    assert InRing(key)(r) <==> key == KeyOf(pid, r);
    if InRing(key)(r) && Takes(ObservationOf(t, key), r) {
      ExtendFollows(ObservationOf(t, key), kept, r);
    } else {
      assert Flatten(spans) + [] == Flatten(spans);
    }
  }

  /** What a fold takes from one ring is what it appends to that ring's spans. */
  lemma {:induction false} FoldFollows(s: CursorState, pid: int, cands: seq<Record>, key: RingKey, spans: Spans)
    requires key.pid == pid && Follows(ObservationOf(s, key), spans)
    ensures var after, more := FoldCandidates(s, pid, cands), FoldSpans(s, pid, cands, key, spans);
      && Follows(ObservationOf(after.0, key), more)
      && Closed(spans) <= Closed(more)
      && Flatten(more) == Flatten(spans) + Filter(InRing(key), after.1)
    decreases |cands|
  {
    if cands == [] {
      assert Flatten(spans) + [] == Flatten(spans);
    } else {
      var r := cands[0];
      var t := Retain(s, pid, r.interpreter);
      var u, more := Offer(t, pid, r), OneSpans(s, pid, r, key, spans);
      OneFollows(s, pid, r, key, spans);
      FoldFollows(u, pid, cands[1..], key, more);
      var rest := FoldCandidates(u, pid, cands[1..]).1;
      FilterTaken(s, pid, r, key, rest);
      FlattenStep(Flatten(spans), if InRing(key)(r) && Takes(ObservationOf(t, key), r) then [r] else [], Filter(InRing(key), rest));
    }
  }

  lemma FlattenStep(a: seq<Record>, b: seq<Record>, c: seq<Record>)
    ensures (a + b) + c == a + (b + c)
  {}

  lemma {:induction false} FilterTaken(s: CursorState, pid: int, r: Record, key: RingKey, rest: seq<Record>)
    requires key.pid == pid
    ensures var t := Retain(s, pid, r.interpreter);
      Filter(InRing(key), (if Takes(ObservationOf(t, KeyOf(pid, r)), r) then [r] else []) + rest)
      == (if InRing(key)(r) && Takes(ObservationOf(t, key), r) then [r] else []) + Filter(InRing(key), rest)
  {
    var t := Retain(s, pid, r.interpreter);
    assert InRing(key)(r) <==> key == KeyOf(pid, r);
    FilterCons(InRing(key), r, rest);
    assert [] + rest == rest;
    assert [] + Filter(InRing(key), rest) == Filter(InRing(key), rest);
  }

  // ---- in the order they came ----------------------------------------------------------

  lemma KnownComplete(pid: int, w: World, r: Record, key: RingKey)
    requires RingsValid(pid, w) && Known(pid, w, r) && r.IsComplete() && InRing(key)(r) && key.pid == pid
    ensures key in w.rings && RW.Monotone(w.rings[key].history)
    ensures var h := w.rings[key].history;
      && 1 <= r.collections <= |h|
      && r == RW.Decode(RW.Cum(h, r.collections), key.interpreter, key.generation, r.index)
  {
    assert KeyOf(pid, r) == key;
  }

  /** Records of one ring start in counter order. */
  lemma {:induction false} KnownPair(pid: int, w: World, key: RingKey, x: Record, y: Record)
    requires RingsValid(pid, w) && key.pid == pid && x.collections <= y.collections
    requires Known(pid, w, x) && x.IsComplete() && InRing(key)(x)
    requires Known(pid, w, y) && y.IsComplete() && InRing(key)(y)
    ensures StartOrder(x, y)
  {
    KnownComplete(pid, w, x, key);
    KnownComplete(pid, w, y, key);
    if x.collections < y.collections {
      RW.StartsRise(w.rings[key].history, x.collections, y.collections);
    }
  }

  /** What a poll takes from one ring comes in start order as well as counter order. */
  lemma {:induction false} FoldedSorted(pid: int, w: World, key: RingKey, folded: seq<Record>)
    requires RingsValid(pid, w) && key.pid == pid && Sorted(RingOrder, folded)
    requires forall r :: r in folded ==> Known(pid, w, r) && r.IsComplete()
    ensures Sorted(StartOrder, Filter(InRing(key), folded))
  {
    FilterSorted(RingOrder, InRing(key), folded);
    var own := Filter(InRing(key), folded);
    forall i, j | 0 <= i < j < |own| ensures StartOrder(own[i], own[j]) {
      assert own[i] in own && own[j] in own;
      KnownPair(pid, w, key, own[i], own[j]);
    }
  }

  /** So handing a poll's Records out by start keeps each ring's own order. */
  lemma {:induction false} HandedOut(pid: int, w: World, key: RingKey, s: CursorState)
    requires Inv(pid, w) && key.pid == pid
    ensures var t := AdmitSorted(s, pid, Candidates(w.pending));
      Filter(InRing(key), t.1) == Filter(InRing(key), FoldCandidates(s, pid, Candidates(w.pending)).1)
  {
    var cands := Candidates(w.pending);
    RingOrderTotal();
    SortSorts(RingOrder, w.pending);
    FoldOrdered(s, pid, cands);
    FoldTakes(s, pid, cands);
    CandidatesAreRecords(w.pending);
    var folded := FoldCandidates(s, pid, cands).1;
    FoldedSorted(pid, w, key, folded);
    StartOrderTotal();
    SortStable(StartOrder, InRing(key), folded);
  }

  // ---- one step ------------------------------------------------------------------------

  ghost function StepSpans(pid: int, w: World, s: Step, key: RingKey, spans: Spans): (more: Spans)
    requires spans != []
    ensures more != []
  {
    match s
    case EndPoll => FoldSpans(w.cursor.(polls := w.cursor.polls + 1), pid, Candidates(w.pending), key, spans)
    case LetGo => spans + [[]]
    case _ => spans
  }

  /** The spans follow the ring's accumulator, and put end to end they are its output. */
  ghost predicate Splits(w: World, key: RingKey, spans: Spans) {
    && Follows(ObservationOf(w.cursor, key), spans)
    && Flatten(spans) == Output(w, key)
  }

  lemma NextPollSame(s: CursorState, key: RingKey)
    ensures ObservationOf(s.(polls := s.polls + 1), key) == ObservationOf(s, key)
  {}

  /** A poll that leaves `t` takes a ring's spans to `more` by what it hands out of that ring. */
  ghost predicate Appends(t: (CursorState, seq<Record>), key: RingKey, spans: Spans, more: Spans) {
    && Follows(ObservationOf(t.0, key), more) && spans != [] && Closed(spans) <= Closed(more)
    && Flatten(more) == Flatten(spans) + Filter(InRing(key), t.1)
  }

  lemma {:induction false} AdmitNextFollows(pid: int, w: World, s: CursorState, key: RingKey, spans: Spans)
    requires Inv(pid, w) && key.pid == pid && Follows(ObservationOf(s, key), spans)
    ensures Appends(AdmitSorted(s, pid, Candidates(w.pending)), key, spans, FoldSpans(s, pid, Candidates(w.pending), key, spans))
  {
    FoldFollows(s, pid, Candidates(w.pending), key, spans);
    HandedOut(pid, w, key, s);
  }

  lemma {:induction false} AdmitFollows(pid: int, w: World, key: RingKey, spans: Spans)
    requires Inv(pid, w) && key.pid == pid && Follows(ObservationOf(w.cursor, key), spans)
    ensures Appends(Admit(w.cursor, pid, w.pending), key, spans, StepSpans(pid, w, EndPoll, key, spans))
  {
    var s, cands := w.cursor.(polls := w.cursor.polls + 1), Candidates(w.pending);
    NextPollSame(w.cursor, key);
    AdmitNextFollows(pid, w, s, key, spans);
    var t, more := AdmitSorted(s, pid, cands), FoldSpans(s, pid, cands, key, spans);
    assert Appends(t, key, spans, more);
    assert Admit(w.cursor, pid, w.pending) == t && StepSpans(pid, w, EndPoll, key, spans) == more;
  }

  lemma {:induction false} EndPollSplits(pid: int, w: World, key: RingKey, spans: Spans)
    requires Inv(pid, w) && key.pid == pid && Splits(w, key, spans)
    ensures var more := StepSpans(pid, w, EndPoll, key, spans);
      Splits(Take(pid, w, EndPoll), key, more) && Closed(spans) <= Closed(more)
  {
    AdmitFollows(pid, w, key, spans);
    var out := Admit(w.cursor, pid, w.pending).1;
    FilterConcat(InRing(key), w.output, out);
    assert Take(pid, w, EndPoll).output == w.output + out;
  }

  lemma ForgetResets(s: CursorState, key: RingKey)
    ensures ObservationOf(Forget(s, key.pid), key) == UNREAD
  {}

  lemma {:induction false} StepSplits(pid: int, w: World, s: Step, key: RingKey, spans: Spans)
    requires Inv(pid, w) && Enabled(pid, w, s) && key.pid == pid && Splits(w, key, spans)
    ensures var more := StepSpans(pid, w, s, key, spans);
      Splits(Take(pid, w, s), key, more) && Closed(spans) <= Closed(more)
  {
    match s
    case EndPoll => EndPollSplits(pid, w, key, spans);
    case LetGo =>
      ForgetResets(w.cursor, key);
      ResetFollows(spans);
    case Elsewhere(event) => ApplyFrame(w.cursor, event, pid);
    case _ =>
  }

  // ---- what is retired -----------------------------------------------------------------

  /** A retired accumulator is the fold of one closed span. */
  ghost predicate Settled(x: Retired, spans: Spans) {
    exists i :: 0 <= i < |spans| - 1 && spans[i] != [] && x.observation == FoldAll(UNREAD, spans[i])
  }

  /** So is every accumulator retired under `key` that was not retired `before`. */
  ghost predicate Booked(before: seq<Retired>, s: CursorState, key: RingKey, spans: Spans) {
    forall x :: x in s.retired && x.key == key && x !in before ==> Settled(x, spans)
  }

  lemma SettledStays(x: Retired, spans: Spans, more: Spans)
    requires Settled(x, spans) && spans != [] && more != [] && Closed(spans) <= Closed(more)
    ensures Settled(x, more)
  {
    var i :| 0 <= i < |spans| - 1 && spans[i] != [] && x.observation == FoldAll(UNREAD, spans[i]);
    assert Closed(spans)[i] == Closed(more)[i];
  }

  lemma AdmitLeavesRetired(s: CursorState, pid: int, records: seq<Record>)
    ensures Admit(s, pid, records).0.retired == s.retired
  {
    FoldLeavesRetired(s.(polls := s.polls + 1), pid, Candidates(records));
  }

  lemma ForgetRetires(s: CursorState, pid: int, x: Retired)
    requires x in Forget(s, pid).retired && x !in s.retired
    ensures x.key.pid == pid && x.key in s.rings && x.observation == s.rings[x.key]
  {
    var keys := InOrder(PidKeys(s.rings, pid));
    var gone := RetireAll(s.rings, s.evictions, keys);
    var i :| 0 <= i < |gone| && gone[i] == x;
    assert keys[i] in keys;
  }

  lemma {:induction false} LetGoBooks(pid: int, w: World, key: RingKey, spans: Spans, before: seq<Retired>)
    requires Inv(pid, w) && key.pid == pid && Splits(w, key, spans) && Booked(before, w.cursor, key, spans)
    ensures Booked(before, Take(pid, w, LetGo).cursor, key, spans + [[]])
  {
    var more := spans + [[]];
    forall x | x in Forget(w.cursor, pid).retired && x.key == key && x !in before ensures Settled(x, more) {
      if x in w.cursor.retired {
        SettledStays(x, spans, more);
      } else {
        ForgetRetires(w.cursor, pid, x);
        assert RingOk(w.cursor, key);
        assert more[|spans| - 1] == Final(spans);
      }
    }
  }

  lemma {:induction false} StepBooks(pid: int, w: World, s: Step, key: RingKey, spans: Spans, before: seq<Retired>)
    requires Inv(pid, w) && Enabled(pid, w, s) && key.pid == pid
    requires Splits(w, key, spans) && Booked(before, w.cursor, key, spans)
    ensures Booked(before, Take(pid, w, s).cursor, key, StepSpans(pid, w, s, key, spans))
  {
    match s
    case EndPoll =>
      EndPollSplits(pid, w, key, spans);
      AdmitLeavesRetired(w.cursor, pid, w.pending);
      PollBooks(before, w.cursor, Take(pid, w, s).cursor, key, spans, StepSpans(pid, w, s, key, spans));
    case LetGo => LetGoBooks(pid, w, key, spans, before);
    case Elsewhere(event) =>
      if event.Polled? {
        AdmitLeavesRetired(w.cursor, event.pid, event.records);
      } else {
        forall x | x in Forget(w.cursor, event.pid).retired && x !in w.cursor.retired ensures x.key != key {
          ForgetRetires(w.cursor, event.pid, x);
        }
      }
    case _ =>
  }

  lemma PollBooks(before: seq<Retired>, s: CursorState, t: CursorState, key: RingKey, spans: Spans, more: Spans)
    requires Booked(before, s, key, spans) && t.retired == s.retired
    requires spans != [] && more != [] && Closed(spans) <= Closed(more)
    ensures Booked(before, t, key, more)
  {
    forall x | x in t.retired && x.key == key && x !in before ensures Settled(x, more) {
      SettledStays(x, spans, more);
    }
  }

  // ---- whole runs ----------------------------------------------------------------------

  ghost predicate Path(pid: int, w: World, steps: seq<Step>, v: World)
    decreases |steps|
  {
    if steps == [] then v == w
    else RingsValid(pid, w) && Enabled(pid, w, steps[0]) && Path(pid, Take(pid, w, steps[0]), steps[1..], v)
  }

  /** Monitoring begins: rings in any state they can be caught in, nothing of this process being followed. */
  ghost predicate Attached(pid: int, w: World) {
    && RingsValid(pid, w) && Bounded(w.cursor)
    && RetainedOf(w.cursor, pid) == map[]
    && w.pending == [] && w.output == []
  }

  /** A ring's spans over a run. */
  ghost function PathSpans(pid: int, w: World, steps: seq<Step>, key: RingKey, spans: Spans): (more: Spans)
    requires spans != []
    ensures more != []
    decreases |steps|
  {
    if steps == [] || !RingsValid(pid, w) || !Enabled(pid, w, steps[0]) then spans
    else PathSpans(pid, Take(pid, w, steps[0]), steps[1..], key, StepSpans(pid, w, steps[0], key, spans))
  }

  ghost function SpansOf(pid: int, w: World, steps: seq<Step>, key: RingKey): Spans {
    PathSpans(pid, w, steps, key, [[]])
  }

  lemma {:induction false} AttachedSplits(pid: int, w: World, key: RingKey)
    requires Attached(pid, w) && key.pid == pid
    ensures Inv(pid, w) && Splits(w, key, [[]]) && Booked(w.cursor.retired, w.cursor, key, [[]])
    ensures ObservationOf(w.cursor, key) == UNREAD
  {
    assert RingOk(w.cursor, key);
    var none: seq<Record> := [];
    FlattenLast([], none);
    assert [] + [none] == [none];
  }

  lemma {:induction false} PathSplits(pid: int, w: World, steps: seq<Step>, v: World, key: RingKey, spans: Spans, before: seq<Retired>)
    requires Inv(pid, w) && Path(pid, w, steps, v) && key.pid == pid
    requires Splits(w, key, spans) && Booked(before, w.cursor, key, spans)
    ensures Inv(pid, v)
    ensures Splits(v, key, PathSpans(pid, w, steps, key, spans))
    ensures Booked(before, v.cursor, key, PathSpans(pid, w, steps, key, spans))
    decreases |steps|
  {
    if steps != [] {
      StepKeepsInv(pid, w, steps[0]);
      StepSplits(pid, w, steps[0], key, spans);
      StepBooks(pid, w, steps[0], key, spans, before);
      PathSplits(pid, Take(pid, w, steps[0]), steps[1..], v, key, StepSpans(pid, w, steps[0], key, spans), before);
    }
  }

  /**
   Safety of every run, whatever the interleaving: each Record returned is the one a finished
   Collection published.
   */
  lemma {:induction false} RunReturnsTruth(pid: int, w: World, steps: seq<Step>, v: World, r: Record)
    requires Attached(pid, w) && Path(pid, w, steps, v) && r in v.output
    ensures KeyOf(pid, r) in v.rings
    ensures var h := v.rings[KeyOf(pid, r)].history;
      && 1 <= r.collections <= |h|
      && r == RW.Decode(RW.Cum(h, r.collections), r.interpreter, r.generation, r.index)
  {
    AttachedSplits(pid, w, KeyOf(pid, r));
    PathSplits(pid, w, steps, v, KeyOf(pid, r), [[]], w.cursor.retired);
  }

  /**
   Any run, any number of interpreters, any lettings go: a ring's output falls into the spans
   between its resets, no Collection comes out twice in one of them, and the accumulator is the
   fold of the last.
   */
  lemma {:induction false} RunSplits(pid: int, w: World, steps: seq<Step>, v: World, key: RingKey)
    requires Attached(pid, w) && Path(pid, w, steps, v) && key.pid == pid
    ensures var spans := SpansOf(pid, w, steps, key);
      && Flatten(spans) == Output(v, key)
      && AllIncreasing(spans)
      && ObservationOf(v.cursor, key) == FoldAll(UNREAD, Final(spans))
  {
    AttachedSplits(pid, w, key);
    PathSplits(pid, w, steps, v, key, [[]], w.cursor.retired);
  }
}
