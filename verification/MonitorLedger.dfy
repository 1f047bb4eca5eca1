/**
 Accumulators and spans, one for one. Every span of a ring that ended with its process let go of and
 was not empty is one retired accumulator, the span still open is the live one, and those an eviction
 ended are gone; so a run's accumulators of a ring are its surviving spans, each once, in order.
 */
module MonitorLedger {
  import opened Prelude
  import opened Records
  import opened StableSort
  import opened Observation
  import opened Cursors
  import opened CursorLaws
  import opened CursorRuns
  import opened MonitorRun
  import opened MonitorSpans
  import opened MonitorExact
  import Accounting = CursorAccounting
  import Summary

  // ---- how each span ended ---------------------------------------------------------------

  /** For each closed span, whether it ended with the process let go of rather than by eviction. */
  type Ends = seq<bool>

  ghost function OneEnds(s: CursorState, pid: int, r: Record, key: RingKey, ends: Ends): Ends {
    if Drops(s, pid, r.interpreter, key) then ends + [false] else ends
  }

  ghost function FoldEnds(s: CursorState, pid: int, cands: seq<Record>, key: RingKey, ends: Ends): Ends
    decreases |cands|
  {
    if cands == [] then ends
    else
      FoldEnds(Offer(Retain(s, pid, cands[0].interpreter), pid, cands[0]), pid, cands[1..], key,
               OneEnds(s, pid, cands[0], key, ends))
  }

  ghost function StepEnds(pid: int, w: World, s: Step, key: RingKey, ends: Ends): Ends {
    match s
    case EndPoll => FoldEnds(w.cursor.(polls := w.cursor.polls + 1), pid, Candidates(w.pending), key, ends)
    case LetGo => ends + [true]
    case _ => ends
  }

  /** How a ring's closed spans ended, over a run. */
  ghost function PathEnds(pid: int, w: World, steps: seq<Step>, key: RingKey, ends: Ends): Ends
    decreases |steps|
  {
    if steps == [] || !RingsValid(pid, w) || !Enabled(pid, w, steps[0]) then ends
    else PathEnds(pid, Take(pid, w, steps[0]), steps[1..], key, StepEnds(pid, w, steps[0], key, ends))
  }

  ghost function EndsOf(pid: int, w: World, steps: seq<Step>, key: RingKey): Ends {
    PathEnds(pid, w, steps, key, [])
  }

  function SomeOf(span: seq<Record>): Spans {
    if span == [] then [] else [span]
  }

  /** Of the closed spans, the non-empty ones no eviction ended. */
  function Survivors(closed: Spans, ends: Ends): Spans
    requires |closed| == |ends|
  {
    if closed == [] then []
    else
      var n := |closed| - 1;
      Survivors(closed[..n], ends[..n]) + if ends[n] then SomeOf(closed[n]) else []
  }

  lemma {:induction false} SurvivorsSnoc(closed: Spans, ends: Ends, span: seq<Record>, letGo: bool)
    requires |closed| == |ends|
    ensures Survivors(closed + [span], ends + [letGo]) == Survivors(closed, ends) + if letGo then SomeOf(span) else []
  {
    assert (closed + [span])[..|closed|] == closed && (ends + [letGo])[..|ends|] == ends;
  }

  /** A span is closed exactly when it is known how it ended. */
  ghost predicate Matched(spans: Spans, ends: Ends) {
    spans != [] && |spans| == |ends| + 1
  }

  /** Moving on, nothing survives that did not. */
  ghost predicate SameSurvivors(spans: Spans, ends: Ends, more: Spans, then': Ends) {
    && Matched(spans, ends) && Matched(more, then')
    && Survivors(Closed(more), then') == Survivors(Closed(spans), ends)
  }

  lemma OneSurvives(s: CursorState, pid: int, r: Record, key: RingKey, spans: Spans, ends: Ends)
    requires Matched(spans, ends)
    ensures SameSurvivors(spans, ends, OneSpans(s, pid, r, key, spans), OneEnds(s, pid, r, key, ends))
  {
    if Drops(s, pid, r.interpreter, key) {
      SurvivorsSnoc(Closed(spans), ends, Final(spans), false);
      assert Closed(spans + [[]]) == Closed(spans) + [Final(spans)];
    }
    var kept := if Drops(s, pid, r.interpreter, key) then spans + [[]] else spans;
    assert Closed(Extend(kept, r)) == Closed(kept);
    assert Survivors(Closed(spans), ends) + [] == Survivors(Closed(spans), ends);
  }

  lemma {:induction false} FoldSurvives(s: CursorState, pid: int, cands: seq<Record>, key: RingKey, spans: Spans, ends: Ends)
    requires Matched(spans, ends)
    ensures SameSurvivors(spans, ends, FoldSpans(s, pid, cands, key, spans), FoldEnds(s, pid, cands, key, ends))
    decreases |cands|
  {
    if cands != [] {
      OneSurvives(s, pid, cands[0], key, spans, ends);
      FoldSurvives(Offer(Retain(s, pid, cands[0].interpreter), pid, cands[0]), pid, cands[1..], key,
                   OneSpans(s, pid, cands[0], key, spans), OneEnds(s, pid, cands[0], key, ends));
    }
  }

  // ---- the retired list --------------------------------------------------------------------

  function OfKey(key: RingKey): Retired -> bool {
    (x: Retired) => x.key == key
  }

  function Totals(xs: seq<Retired>): (r: seq<RingObservation>)
    ensures |r| == |xs| && forall i :: 0 <= i < |xs| ==> r[i] == xs[i].observation
  {
    seq(|xs|, i requires 0 <= i < |xs| => xs[i].observation)
  }

  function Folds(spans: Spans): (r: seq<RingObservation>)
    ensures |r| == |spans| && forall i :: 0 <= i < |spans| ==> r[i] == FoldAll(UNREAD, spans[i])
  {
    seq(|spans|, i requires 0 <= i < |spans| => FoldAll(UNREAD, spans[i]))
  }

  /** What the retired list holds of one ring. */
  function RetiredTotals(retired: seq<Retired>, key: RingKey): seq<RingObservation> {
    Totals(Filter(OfKey(key), retired))
  }

  lemma RetiredConcat(a: seq<Retired>, b: seq<Retired>, key: RingKey)
    ensures RetiredTotals(a + b, key) == RetiredTotals(a, key) + RetiredTotals(b, key)
  {
    FilterConcat(OfKey(key), a, b);
  }

  lemma {:induction false} RetireOfKey(rings: map<RingKey, RingObservation>, span: nat, keys: seq<RingKey>, key: RingKey)
    requires (forall k :: k in keys ==> k in rings) && Distinct(keys)
    ensures Filter(OfKey(key), RetireAll(rings, span, keys)) == if key in keys then [Retired(key, span, rings[key])] else []
    decreases |keys|
  {
    if keys != [] {
      var rest := keys[1..];
      assert Distinct(rest) && keys == [keys[0]] + rest && keys[0] !in rest;
      RetireOfKey(rings, span, rest, key);
      assert RetireAll(rings, span, keys)[1..] == RetireAll(rings, span, rest);
    }
  }

  /** Retiring a process moves over one ring's accumulator, if it has one, once. */
  lemma {:induction false} ForgetTotals(s: CursorState, key: RingKey)
    ensures RetiredTotals(Forget(s, key.pid).retired, key)
         == RetiredTotals(s.retired, key) + if key in s.rings then [s.rings[key]] else []
  {
    var keys := InOrder(PidKeys(s.rings, key.pid));
    var gone := RetireAll(s.rings, s.evictions, keys);
    Summary.InOrderDistinct(PidKeys(s.rings, key.pid));
    RetireOfKey(s.rings, s.evictions, keys, key);
    RetiredConcat(s.retired, gone, key);
  }

  lemma ForgetOthers(s: CursorState, pid: int, key: RingKey)
    requires pid != key.pid
    ensures RetiredTotals(Forget(s, pid).retired, key) == RetiredTotals(s.retired, key)
  {
    var keys := InOrder(PidKeys(s.rings, pid));
    var gone := RetireAll(s.rings, s.evictions, keys);
    Summary.InOrderDistinct(PidKeys(s.rings, pid));
    RetireOfKey(s.rings, s.evictions, keys, key);
    RetiredConcat(s.retired, gone, key);
    assert RetiredTotals(s.retired, key) + [] == RetiredTotals(s.retired, key);
  }

  // ---- over a run ------------------------------------------------------------------------

  /** Beside what was retired `before`, the retired list holds the surviving spans, in order. */
  ghost predicate Entered(before: seq<RingObservation>, s: CursorState, key: RingKey, spans: Spans, ends: Ends) {
    && Matched(spans, ends)
    && RetiredTotals(s.retired, key) == before + Folds(Survivors(Closed(spans), ends))
  }

  lemma {:induction false} LiveIsFinal(s: CursorState, key: RingKey, spans: Spans)
    requires RingOk(s, key) && Follows(ObservationOf(s, key), spans)
    ensures (if key in s.rings then [s.rings[key]] else []) == Folds(SomeOf(Final(spans)))
  {
    if Final(spans) != [] { FoldAllMeaning(Final(spans)); }
  }

  lemma FoldsConcat(a: Spans, b: Spans)
    ensures Folds(a + b) == Folds(a) + Folds(b)
  {}

  /** A span let go of joins the survivors, unless it is empty. */
  lemma {:induction false} LetGoSurvives(spans: Spans, ends: Ends)
    requires Matched(spans, ends)
    ensures Folds(Survivors(Closed(spans + [[]]), ends + [true]))
         == Folds(Survivors(Closed(spans), ends)) + Folds(SomeOf(Final(spans)))
  {
    SurvivorsSnoc(Closed(spans), ends, Final(spans), true);
    assert Closed(spans + [[]]) == Closed(spans) + [Final(spans)];
    FoldsConcat(Survivors(Closed(spans), ends), SomeOf(Final(spans)));
  }

  lemma Regroup(whole: seq<RingObservation>, a: seq<RingObservation>, b: seq<RingObservation>, c: seq<RingObservation>)
    requires whole == a + b
    ensures whole + c == a + (b + c)
  {}

  lemma {:induction false} LetGoEnters(pid: int, w: World, key: RingKey, spans: Spans, ends: Ends, before: seq<RingObservation>)
    requires RingsValid(pid, w) && RingOk(w.cursor, key) && key.pid == pid
    requires Follows(ObservationOf(w.cursor, key), spans) && Entered(before, w.cursor, key, spans, ends)
    ensures Entered(before, Take(pid, w, LetGo).cursor, key, spans + [[]], ends + [true])
  {
    ForgetTotals(w.cursor, key);
    LiveIsFinal(w.cursor, key, spans);
    SurvivorJoins(before, w.cursor, Take(pid, w, LetGo).cursor, key, spans, ends);
  }

  lemma SurvivorJoins(before: seq<RingObservation>, s: CursorState, t: CursorState, key: RingKey, spans: Spans, ends: Ends)
    requires Entered(before, s, key, spans, ends)
    requires RetiredTotals(t.retired, key) == RetiredTotals(s.retired, key) + Folds(SomeOf(Final(spans)))
    ensures Entered(before, t, key, spans + [[]], ends + [true])
  {
    LetGoSurvives(spans, ends);
    Regroup(RetiredTotals(s.retired, key), before, Folds(Survivors(Closed(spans), ends)), Folds(SomeOf(Final(spans))));
  }

  lemma {:induction false} PollRetiresNone(pid: int, w: World)
    requires RingsValid(pid, w)
    ensures Take(pid, w, EndPoll).cursor.retired == w.cursor.retired
  {
    AdmitLeavesRetired(w.cursor, pid, w.pending);
  }

  lemma {:induction false} PollSurvives(pid: int, w: World, key: RingKey, spans: Spans, ends: Ends)
    requires Matched(spans, ends)
    ensures SameSurvivors(spans, ends, StepSpans(pid, w, EndPoll, key, spans), StepEnds(pid, w, EndPoll, key, ends))
  {
    FoldSurvives(w.cursor.(polls := w.cursor.polls + 1), pid, Candidates(w.pending), key, spans, ends);
  }

  lemma PollEnters(pid: int, w: World, key: RingKey, spans: Spans, ends: Ends, before: seq<RingObservation>)
    requires RingsValid(pid, w) && Entered(before, w.cursor, key, spans, ends)
    ensures Entered(before, Take(pid, w, EndPoll).cursor, key, StepSpans(pid, w, EndPoll, key, spans), StepEnds(pid, w, EndPoll, key, ends))
  {
    var t := Take(pid, w, EndPoll).cursor;
    var more, then' := StepSpans(pid, w, EndPoll, key, spans), StepEnds(pid, w, EndPoll, key, ends);
    PollRetiresNone(pid, w);
    PollSurvives(pid, w, key, spans, ends);
    SurvivorsStay(before, w.cursor, t, key, spans, ends, more, then');
  }

  lemma SurvivorsStay(before: seq<RingObservation>, s: CursorState, t: CursorState, key: RingKey,
                      spans: Spans, ends: Ends, more: Spans, then': Ends)
    requires Entered(before, s, key, spans, ends) && t.retired == s.retired && SameSurvivors(spans, ends, more, then')
    ensures Entered(before, t, key, more, then')
  {}

  lemma ElsewhereEnters(s: CursorState, e: Event, key: RingKey, spans: Spans, ends: Ends, before: seq<RingObservation>)
    requires e.pid != key.pid && Entered(before, s, key, spans, ends)
    ensures Entered(before, Apply(s, e), key, spans, ends)
  {
    if e.Polled? {
      AdmitLeavesRetired(s, e.pid, e.records);
    } else {
      ForgetOthers(s, e.pid, key);
    }
  }

  lemma {:induction false} StepEnters(pid: int, w: World, s: Step, key: RingKey, spans: Spans, ends: Ends, before: seq<RingObservation>)
    requires Inv(pid, w) && Enabled(pid, w, s) && key.pid == pid
    requires Splits(w, key, spans) && Entered(before, w.cursor, key, spans, ends)
    ensures Entered(before, Take(pid, w, s).cursor, key, StepSpans(pid, w, s, key, spans), StepEnds(pid, w, s, key, ends))
  {
    match s
    case EndPoll => PollEnters(pid, w, key, spans, ends, before);
    case LetGo =>
      assert RingOk(w.cursor, key);
      LetGoEnters(pid, w, key, spans, ends, before);
    case Elsewhere(event) => ElsewhereEnters(w.cursor, event, key, spans, ends, before);
    case _ =>
  }

  lemma {:induction false} PathEnters(pid: int, w: World, steps: seq<Step>, v: World, key: RingKey, spans: Spans, ends: Ends,
                                      before: seq<RingObservation>)
    requires Inv(pid, w) && Path(pid, w, steps, v) && key.pid == pid
    requires Splits(w, key, spans) && Entered(before, w.cursor, key, spans, ends)
    ensures Inv(pid, v) && Splits(v, key, PathSpans(pid, w, steps, key, spans))
    ensures Entered(before, v.cursor, key, PathSpans(pid, w, steps, key, spans), PathEnds(pid, w, steps, key, ends))
    decreases |steps|
  {
    if steps != [] {
      StepKeepsInv(pid, w, steps[0]);
      StepSplits(pid, w, steps[0], key, spans);
      StepEnters(pid, w, steps[0], key, spans, ends, before);
      PathEnters(pid, Take(pid, w, steps[0]), steps[1..], v, key, StepSpans(pid, w, steps[0], key, spans),
                 StepEnds(pid, w, steps[0], key, ends), before);
    }
  }

  // ---- what is listed -----------------------------------------------------------------------

  /** One ring's accumulators in the order the summary meets them: the retired ones, then the live. */
  lemma {:induction false} ListedOfKey(s: CursorState, key: RingKey)
    requires Reached(s) && s.evictions <= Accounting.LIVE_SPAN
    ensures Totals(Filter(OfKey(key), Accounting.Observations(s)))
         == RetiredTotals(s.retired, key) + if key in s.rings then [s.rings[key]] else []
  {
    LiveTotals(s.rings, key);
    RetiredConcat(s.retired, RetireAll(s.rings, Accounting.LIVE_SPAN, InOrder(s.rings.Keys)), key);
    ReachedOk(s);
    SortKeepsKey(Summary.Everything(s), Accounting.LIVE_SPAN + 1, key);
    assert Accounting.Observations(s) == Sort(Accounting.SpanOrder, Summary.Everything(s));
  }

  lemma {:induction false} LiveTotals(rings: map<RingKey, RingObservation>, key: RingKey)
    ensures RetiredTotals(RetireAll(rings, Accounting.LIVE_SPAN, InOrder(rings.Keys)), key) == if key in rings then [rings[key]] else []
  {
    Summary.InOrderDistinct(rings.Keys);
    RetireOfKey(rings, Accounting.LIVE_SPAN, InOrder(rings.Keys), key);
  }

  lemma {:induction false} ReachedOk(s: CursorState)
    requires Reached(s) && s.evictions <= Accounting.LIVE_SPAN
    ensures Summary.RetiredOk(Summary.Everything(s), Accounting.LIVE_SPAN + 1)
  {
    var es :| s == Run(NEW, es);
    Summary.RunRetiredOk(NEW, es);
    RunBounded(NEW, es);
    Summary.BoundedIsSound(s);
    Summary.EverythingOk(s);
  }

  /** Of one ring, earlier spans come first, so sorting moves none past another. */
  lemma {:induction false} SortKeepsKey(all: seq<Retired>, limit: nat, key: RingKey)
    requires Summary.RetiredOk(all, limit)
    ensures Filter(OfKey(key), Sort(Accounting.SpanOrder, all)) == Filter(OfKey(key), all)
  {
    SpansInOrder(all, limit, key);
    SortStable(Accounting.SpanOrder, OfKey(key), all);
  }

  lemma {:induction false} SpansInOrder(all: seq<Retired>, limit: nat, key: RingKey)
    requires Summary.RetiredOk(all, limit)
    ensures Sorted(Accounting.SpanOrder, Filter(OfKey(key), all))
    decreases |all|
  {
    if all != [] {
      var rest := all[1..];
      assert forall i, j :: 0 <= i < j < |rest| ==> Summary.Sooner(rest[i], rest[j]) by {
        forall i, j | 0 <= i < j < |rest| ensures Summary.Sooner(rest[i], rest[j]) {
          assert Summary.Sooner(all[i + 1], all[j + 1]);
        }
      }
      SpansInOrder(rest, limit, key);
      if all[0].key == key {
        var own := Filter(OfKey(key), rest);
        forall x | x in own ensures Accounting.SpanOrder(all[0], x) {
          var k :| 0 <= k < |rest| && rest[k] == x;
          assert Summary.Sooner(all[0], all[k + 1]);
        }
        SortedCons(Accounting.SpanOrder, all[0], own);
      }
    }
  }

  /** A ring's spans of a run that the cursor still counts: those that ended well, and the one not ended. */
  ghost function Counted(pid: int, w: World, steps: seq<Step>, key: RingKey): Spans
    requires Matched(SpansOf(pid, w, steps, key), EndsOf(pid, w, steps, key))
  {
    var spans := SpansOf(pid, w, steps, key);
    Survivors(Closed(spans), EndsOf(pid, w, steps, key)) + SomeOf(Final(spans))
  }

  /**
   Nothing is left out of the summary, and nothing counted under two rows: after what was retired of
   a ring before the run, what is listed of it is its spans of the run, the empty and the evicted
   aside, each once, in the order they were read.
   */
  lemma {:induction false} ListedAreSpans(pid: int, w: World, steps: seq<Step>, v: World, key: RingKey)
    requires Attached(pid, w) && Path(pid, w, steps, v) && key.pid == pid
    requires Reached(w.cursor) && v.cursor.evictions <= Accounting.LIVE_SPAN
    ensures Matched(SpansOf(pid, w, steps, key), EndsOf(pid, w, steps, key))
    ensures Totals(Filter(OfKey(key), Accounting.Observations(v.cursor)))
         == RetiredTotals(w.cursor.retired, key) + Folds(Counted(pid, w, steps, key))
  {
    AttachedEnters(pid, w, key);
    PathEnters(pid, w, steps, v, key, [[]], [], RetiredTotals(w.cursor.retired, key));
    PathReached(pid, w, steps, v);
    assert RingOk(v.cursor, key);
    EnteredIsListed(RetiredTotals(w.cursor.retired, key), v.cursor, key, SpansOf(pid, w, steps, key), EndsOf(pid, w, steps, key));
  }

  lemma AttachedEnters(pid: int, w: World, key: RingKey)
    requires Attached(pid, w) && key.pid == pid
    ensures Inv(pid, w) && Splits(w, key, [[]]) && Entered(RetiredTotals(w.cursor.retired, key), w.cursor, key, [[]], [])
  {
    AttachedSplits(pid, w, key);
    var before := RetiredTotals(w.cursor.retired, key);
    assert Closed([[]]) == [] && before + Folds([]) == before;
  }

  lemma {:induction false} EnteredIsListed(before: seq<RingObservation>, s: CursorState, key: RingKey, spans: Spans, ends: Ends)
    requires Entered(before, s, key, spans, ends) && RingOk(s, key) && Follows(ObservationOf(s, key), spans)
    requires Reached(s) && s.evictions <= Accounting.LIVE_SPAN
    ensures Totals(Filter(OfKey(key), Accounting.Observations(s)))
         == before + Folds(Survivors(Closed(spans), ends) + SomeOf(Final(spans)))
  {
    ListedOfKey(s, key);
    LiveIsFinal(s, key, spans);
    FoldsConcat(Survivors(Closed(spans), ends), SomeOf(Final(spans)));
    Regroup(RetiredTotals(s.retired, key), before, Folds(Survivors(Closed(spans), ends)), Folds(SomeOf(Final(spans))));
  }
}
