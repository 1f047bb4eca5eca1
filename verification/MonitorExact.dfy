/**
 What the monitor's figures mean. Whatever the run, every accumulator it ends with, live or retired,
 accounts for exactly the Collections that ran from the first Record of its span to the last, read
 or unread; and so does every row of the summary.
 */
module MonitorExact {
  import opened Prelude
  import opened Records
  import opened StableSort
  import opened Observation
  import opened Cursors
  import opened CursorRuns
  import opened Loss
  import opened MonitorRun
  import opened MonitorSpans
  import Accounting = CursorAccounting
  import Summary
  import RW = RingWriter

  // ---- one span against the ring's history ------------------------------------------------

  /** The pause the Collections `a` to `b` really took. */
  function TruePause(h: seq<RW.Collection>, a: int, b: int): int
    requires 1 <= a && b <= |h|
    decreases b
  {
    if b < a then 0 else TruePause(h, a, b - 1) + (h[b - 1].tsStop - h[b - 1].tsStart)
  }

  /** What the Collections `a` to `b` really collected, and what they could not. */
  function TrueCollected(h: seq<RW.Collection>, a: int, b: int): int
    requires 1 <= a && b <= |h|
    decreases b
  {
    if b < a then 0 else TrueCollected(h, a, b - 1) + h[b - 1].collected
  }

  function TrueUncollectable(h: seq<RW.Collection>, a: int, b: int): int
    requires 1 <= a && b <= |h|
    decreases b
  {
    if b < a then 0 else TrueUncollectable(h, a, b - 1) + h[b - 1].uncollectable
  }

  lemma {:induction false} TotalsRise(h: seq<RW.Collection>, a: int, b: int)
    requires 0 <= a <= b <= |h|
    ensures RW.Cum(h, b).collected - RW.Cum(h, a).collected == TrueCollected(h, a + 1, b)
    ensures RW.Cum(h, b).uncollectable - RW.Cum(h, a).uncollectable == TrueUncollectable(h, a + 1, b)
    decreases b
  {
    if a < b { TotalsRise(h, a, b - 1); }
  }

  function PauseNsOf(r: Record): int { r.PauseNs() }

  /** A ring's output over its own history: every Record is that history's, in rising order. */
  ghost predicate Reads(h: seq<RW.Collection>, key: RingKey, out: seq<Record>) {
    && RW.Monotone(h) && Increasing(out)
    && forall r :: r in out ==>
         && r.timed && r.pricesPause && r.IsComplete() && 1 <= r.collections <= |h|
         && r == RW.Decode(RW.Cum(h, r.collections), key.interpreter, key.generation, r.index)
  }

  lemma {:induction false} TruePauseSplit(h: seq<RW.Collection>, a: int, m: int, b: int)
    requires 1 <= a <= m + 1 && m <= b <= |h|
    ensures TruePause(h, a, b) == TruePause(h, a, m) + TruePause(h, m + 1, b)
    decreases b
  {
    if m < b { TruePauseSplit(h, a, m, b - 1); }
  }

  lemma {:induction false} TruePauseNonNegative(h: seq<RW.Collection>, a: int, b: int)
    requires RW.Monotone(h) && 1 <= a && b <= |h|
    ensures TruePause(h, a, b) >= 0
    decreases b
  {
    if a <= b { TruePauseNonNegative(h, a, b - 1); }
  }

  /** One more Collection read, however many ran unread before it. */
  lemma {:induction false} SpanGrows(h: seq<RW.Collection>, a: int, m: int, b: int)
    requires RW.Monotone(h) && 1 <= a <= m < b <= |h|
    ensures TruePause(h, a, m) + (h[b - 1].tsStop - h[b - 1].tsStart) <= TruePause(h, a, b)
  {
    TruePauseSplit(h, a, m, b - 1);
    TruePauseNonNegative(h, m + 1, b - 1);
  }

  lemma ReadsWidth(h: seq<RW.Collection>, key: RingKey, out: seq<Record>, i: nat)
    requires Reads(h, key, out) && i < |out|
    ensures 1 <= out[i].collections <= |h|
    ensures PauseNsOf(out[i]) == h[out[i].collections - 1].tsStop - h[out[i].collections - 1].tsStart
  {
    assert out[i] in out;
  }

  lemma {:induction false} SumLast(out: seq<Record>)
    requires out != []
    ensures SumBy(PauseNsOf, out) == SumBy(PauseNsOf, out[..|out| - 1]) + PauseNsOf(out[|out| - 1])
  {
    assert out == out[..|out| - 1] + [out[|out| - 1]];
    assert [out[|out| - 1]][1..] == [];
    SumByConcat(PauseNsOf, out[..|out| - 1], [out[|out| - 1]]);
  }

  /** What was watched is part of what ran. */
  lemma {:induction false} MeasuredWithin(h: seq<RW.Collection>, key: RingKey, out: seq<Record>)
    requires Reads(h, key, out) && out != []
    ensures 1 <= out[0].collections && out[|out| - 1].collections <= |h|
    ensures SumBy(PauseNsOf, out) <= TruePause(h, out[0].collections, out[|out| - 1].collections)
    decreases |out|
  {
    var n := |out|;
    var init := out[..n - 1];
    SumLast(out);
    ReadsWidth(h, key, out, 0);
    ReadsWidth(h, key, out, n - 1);
    var a, b := out[0].collections, out[n - 1].collections;
    if n == 1 {
      assert TruePause(h, a, b - 1) == 0;
    } else {
      MeasuredWithin(h, key, init);
      assert init[0] == out[0] && init[n - 2] == out[n - 2];
      assert n == 2 || out[0].collections < out[n - 2].collections;
      SpanGrows(h, a, out[n - 2].collections, b);
    }
  }

  /** Each recorded duration is its Collection's own width, in seconds. */
  ghost predicate PricedExactly(h: seq<RW.Collection>) {
    forall k :: 0 <= k < |h| ==> h[k].duration * NS_PER_SEC == (h[k].tsStop - h[k].tsStart) as real
  }

  lemma {:induction false} TotalsArePauses(h: seq<RW.Collection>, a: int, b: int)
    requires PricedExactly(h) && 0 <= a <= b <= |h|
    ensures (RW.Cum(h, b).duration - RW.Cum(h, a).duration) * NS_PER_SEC == TruePause(h, a + 1, b) as real
    decreases b
  {
    if a < b { TotalsArePauses(h, a, b - 1); }
  }

  lemma {:induction false} FoldSumsPauses(out: seq<Record>)
    requires out != []
    ensures FoldAll(UNREAD, out).measuredPauseNs == SumBy(PauseNsOf, out)
  {
    FoldAllMeaning(out);
    SumSame(out);
  }

  lemma {:induction false} SumSame(out: seq<Record>)
    ensures SumBy((r: Record) => r.PauseNs(), out) == SumBy(PauseNsOf, out)
  {
    if out != [] { SumSame(out[1..]); }
  }

  /** The counters a ring's output names, and those of its span it does not. */
  function Counters(out: seq<Record>): set<int> {
    set r | r in out :: r.collections
  }

  function Range(a: int, b: int): (r: set<int>)
    ensures forall c :: c in r <==> a <= c <= b
    ensures a <= b + 1 ==> |r| == b - a + 1
    decreases b - a + 1
  {
    if a > b then {} else Range(a, b - 1) + {b}
  }

  function Unread(out: seq<Record>): set<int>
    requires out != []
  {
    Range(out[0].collections, out[|out| - 1].collections) - Counters(out)
  }

  lemma {:induction false} CountersSize(out: seq<Record>)
    requires Increasing(out)
    ensures |Counters(out)| == |out|
  {
    if out != [] {
      CountersSize(out[1..]);
      var rest := Counters(out[1..]);
      assert Counters(out) == rest + {out[0].collections};
      forall r | r in out[1..] ensures out[0].collections < r.collections {
        var k :| 0 <= k < |out[1..]| && out[1..][k] == r;
        assert out[k + 1] == r;
      }
    }
  }

  /** Of a span, what is not read is what the counter span exceeds the Records by. */
  lemma UnreadSize(out: seq<Record>)
    requires out != [] && Increasing(out)
    ensures |Unread(out)| == out[|out| - 1].collections - out[0].collections + 1 - |out|
  {
    var span := Range(out[0].collections, out[|out| - 1].collections);
    CountersSize(out);
    forall c | c in Counters(out) ensures c in span {
      var r :| r in out && r.collections == c;
      var k :| 0 <= k < |out| && out[k] == r;
      assert k == 0 || out[0].collections < out[k].collections;
      assert k == |out| - 1 || out[k].collections < out[|out| - 1].collections;
    }
  }

  lemma {:induction false} ReadsBounds(h: seq<RW.Collection>, key: RingKey, out: seq<Record>)
    requires out != [] && Increasing(out) && Reads(h, key, out)
    ensures 1 <= out[0].collections <= out[|out| - 1].collections <= |h| && out[0].timed
    ensures SumBy(PauseNsOf, out) <= TruePause(h, out[0].collections, out[|out| - 1].collections)
  {
    assert out[0] in out && out[|out| - 1] in out;
    MeasuredWithin(h, key, out);
  }

  lemma {:induction false} CountsOf(o: RingObservation, out: seq<Record>)
    requires out != [] && Increasing(out) && out[0].timed && Sound(o) && o == FoldAll(UNREAD, out)
    ensures var a := Account(o);
      && a.exactCollections == out[|out| - 1].collections - out[0].collections + 1
      && a.observedCollections == |out| && a.lostCollections == |Unread(out)|
      && a.exactCollections > 0 && a.coverage == |out| as real / a.exactCollections as real
      && a.measuredPauseNs == Some(SumBy(PauseNsOf, out))
  {
    FoldAllMeaning(out);
    FoldSumsPauses(out);
    UnreadSize(out);
  }

  /** The exact pause, over a ring's own history. */
  lemma {:induction false} SpanExact(h: seq<RW.Collection>, o: RingObservation, first: int, last: int)
    requires Sound(o) && !o.IsEmpty() && o.timed && o.pricesPause
    requires RW.Monotone(h) && PricedExactly(h) && 1 <= first <= last <= |h|
    requires o.first.duration == Finite(RW.Cum(h, first).duration) && o.last.duration == Finite(RW.Cum(h, last).duration)
    requires o.firstPauseNs == h[first - 1].tsStop - h[first - 1].tsStart
    requires o.measuredPauseNs <= TruePause(h, first, last) <= I64_MAX
    ensures Account(o).exactPauseNs == Some(TruePause(h, first, last))
  {
    TotalsArePauses(h, first, last);
    TruePauseSplit(h, first, first, last);
    assert TruePause(h, first, first) == TruePause(h, first, first - 1) + o.firstPauseNs;
    PauseExact(o, RW.Cum(h, first).duration, RW.Cum(h, last).duration, TruePause(h, first, last));
  }

  /** What an accumulator over a ring's output holds, in terms of the ring's history. */
  ghost predicate Spanned(h: seq<RW.Collection>, o: RingObservation, first: int, last: int) {
    && RW.Monotone(h) && Sound(o) && !o.IsEmpty() && o.timed && o.pricesPause
    && 1 <= first <= last <= |h|
    && o.first.duration == Finite(RW.Cum(h, first).duration) && o.last.duration == Finite(RW.Cum(h, last).duration)
    && o.firstPauseNs == h[first - 1].tsStop - h[first - 1].tsStart
    && o.measuredPauseNs <= TruePause(h, first, last)
  }

  function FirstOf(out: seq<Record>): int requires out != [] { out[0].collections }

  function LastOf(out: seq<Record>): int requires out != [] { out[|out| - 1].collections }

  /** The exact pause of an accumulator is what the Collections of its span really took. */
  ghost predicate PricesExactly(h: seq<RW.Collection>, o: RingObservation, first: int, last: int) {
    && 1 <= first <= last <= |h| && Sound(o)
    && (TruePause(h, first, last) <= I64_MAX ==> Account(o).exactPauseNs == Some(TruePause(h, first, last)))
  }

  lemma SpansPriceExactly(h: seq<RW.Collection>, o: RingObservation, first: int, last: int)
    requires Spanned(h, o, first, last) && PricedExactly(h)
    ensures PricesExactly(h, o, first, last)
  {
    if TruePause(h, first, last) <= I64_MAX {
      SpanExact(h, o, first, last);
    }
  }

  /** Each running total the ring stores is within `d` seconds of the pause it stands for. */
  ghost predicate PricedWithin(h: seq<RW.Collection>, d: real) {
    forall c :: 1 <= c <= |h| ==>
      Loss.Abs(RW.Cum(h, c).duration - TruePause(h, 1, c) as real / NS_PER_SEC) <= d
  }

  lemma SecondsBetween(x: int, y: int)
    ensures (y as real / NS_PER_SEC - x as real / NS_PER_SEC) * NS_PER_SEC == (y - x) as real
  {}

  /** The drift bound, over the ring's own history. */
  lemma {:induction false} SpanDrift(h: seq<RW.Collection>, o: RingObservation, first: int, last: int, d: real)
    requires Sound(o) && !o.IsEmpty() && o.timed && o.pricesPause
    requires RW.Monotone(h) && PricedWithin(h, d) && 1 <= first <= last <= |h|
    requires o.first.duration == Finite(RW.Cum(h, first).duration) && o.last.duration == Finite(RW.Cum(h, last).duration)
    requires o.firstPauseNs == h[first - 1].tsStop - h[first - 1].tsStart
    requires o.measuredPauseNs <= TruePause(h, first, last) <= I64_MAX
    ensures Loss.Abs(Account(o).exactPauseNs.value as real - TruePause(h, first, last) as real) <= 2.0 * d * NS_PER_SEC + 0.5
  {
    var x, y := TruePause(h, 1, first), TruePause(h, 1, last);
    TruePauseSplit(h, 1, first, last);
    TruePauseSplit(h, first, first, last);
    assert TruePause(h, first, first) == TruePause(h, first, first - 1) + o.firstPauseNs;
    SecondsBetween(x, y);
    PauseDrift(o, d, x as real / NS_PER_SEC, y as real / NS_PER_SEC, TruePause(h, first, last));
  }

  /** The exact pause of an accumulator is within `2 d` seconds and half a nanosecond of the true one. */
  ghost predicate PricesNearly(h: seq<RW.Collection>, o: RingObservation, first: int, last: int, d: real) {
    && 1 <= first <= last <= |h| && Sound(o)
    && (TruePause(h, first, last) <= I64_MAX ==>
        && Account(o).exactPauseNs.Some?
        && Loss.Abs(Account(o).exactPauseNs.value as real - TruePause(h, first, last) as real) <= 2.0 * d * NS_PER_SEC + 0.5)
  }

  lemma SpansPriceNearly(h: seq<RW.Collection>, o: RingObservation, first: int, last: int, d: real)
    requires Spanned(h, o, first, last) && PricedWithin(h, d)
    ensures PricesNearly(h, o, first, last, d)
  {
    if TruePause(h, first, last) <= I64_MAX {
      SpanDrift(h, o, first, last, d);
    }
  }


  // ---- every accumulator a run ends with ----------------------------------------------------

  /** An accumulator of the process, live or retired, that was not there when the run began. */
  ghost predicate Listed(pid: int, w: World, steps: seq<Step>, v: World, x: Retired) {
    && Attached(pid, w) && Path(pid, w, steps, v)
    && x in Accounting.Observations(v.cursor) && x.key.pid == pid && x !in w.cursor.retired
  }

  lemma {:induction false} ObservationsHold(s: CursorState, x: Retired)
    requires x in Accounting.Observations(s)
    ensures x in s.retired || (x.key in s.rings && x.observation == s.rings[x.key])
  {
    var keys := InOrder(s.rings.Keys);
    var live := RetireAll(s.rings, Accounting.LIVE_SPAN, keys);
    SortElements(Accounting.SpanOrder, s.retired + live);
    SameElements(Accounting.Observations(s), s.retired + live);
    if x !in s.retired {
      var i :| 0 <= i < |live| && live[i] == x;
      assert keys[i] in keys;
    }
  }

  lemma {:induction false} SpanInOutput(spans: Spans, i: nat)
    requires i < |spans|
    ensures forall r :: r in spans[i] ==> r in Flatten(spans)
    decreases i
  {
    if i > 0 { SpanInOutput(spans[1..], i - 1); }
  }

  /** Each is the fold of one non-empty span of its ring's output. */
  lemma {:induction false} ListedIsSpan(pid: int, w: World, steps: seq<Step>, v: World, x: Retired) returns (t: seq<Record>)
    requires Listed(pid, w, steps, v, x)
    ensures t in SpansOf(pid, w, steps, x.key) && t != [] && Increasing(t) && x.observation == FoldAll(UNREAD, t)
    ensures Inv(pid, v) && forall r :: r in t ==> r in Output(v, x.key)
  {
    var spans := SpansOf(pid, w, steps, x.key);
    AttachedSplits(pid, w, x.key);
    PathSplits(pid, w, steps, v, x.key, [[]], w.cursor.retired);
    ObservationsHold(v.cursor, x);
    var i := |spans| - 1;
    if x in v.cursor.retired {
      assert Settled(x, spans);
      i :| 0 <= i < |spans| - 1 && spans[i] != [] && x.observation == FoldAll(UNREAD, spans[i]);
    } else {
      assert RingOk(v.cursor, x.key);
      assert ObservationOf(v.cursor, x.key) == FoldAll(UNREAD, Final(spans));
    }
    t := spans[i];
    SpanInOutput(spans, i);
  }

  lemma OutputReads(pid: int, w: World, key: RingKey, t: seq<Record>)
    requires Inv(pid, w) && key.pid == pid && t != [] && Increasing(t)
    requires forall r :: r in t ==> r in Output(w, key)
    ensures key in w.rings && Reads(w.rings[key].history, key, t)
  {
    forall r | r in t
      ensures key in w.rings && RW.Monotone(w.rings[key].history)
      ensures r.timed && r.pricesPause && r.IsComplete() && 1 <= r.collections <= |w.rings[key].history|
      ensures r == RW.Decode(RW.Cum(w.rings[key].history, r.collections), key.interpreter, key.generation, r.index)
    {
      KnownComplete(pid, w, r, key);
    }
    assert t[0] in t;
  }

  lemma {:induction false} ReadsSound(h: seq<RW.Collection>, key: RingKey, t: seq<Record>)
    requires Reads(h, key, t)
    ensures Sound(FoldAll(UNREAD, t))
    decreases |t|
  {
    if t != [] {
      var init, r := t[..|t| - 1], t[|t| - 1];
      assert t == init + [r] && r in t;
      ReadsSound(h, key, init);
      ReadsTakes(h, key, init, r);
      SnocIncreases(init, r);
      FoldSound(FoldAll(UNREAD, init), r);
    }
  }

  lemma {:induction false} ReadsTakes(h: seq<RW.Collection>, key: RingKey, init: seq<Record>, r: Record)
    requires Reads(h, key, init + [r])
    ensures Takes(FoldAll(UNREAD, init), r)
  {
    var t := init + [r];
    assert t[|init|] == r && r in t;
    if init != [] {
      FoldAllMeaning(init);
      assert t[|init| - 1] == init[|init| - 1];
    }
  }

  /**
   The figures of an account over the Records `t` of a ring with history `h`. Under any amount of
   overwriting, from the first of them to the last: the exact count is the number of Collections
   that ran, the lost count the number of those no Record was read for, coverage the share of them
   that were, the measured pause the time of those, and never more than what all of them took.
   */
  ghost predicate AccountsFor(h: seq<RW.Collection>, t: seq<Record>, a: LossAccount) {
    && t != []
    && 1 <= FirstOf(t) <= LastOf(t) <= |h|
    && a.exactCollections == |h[FirstOf(t) - 1..LastOf(t)]|
    && a.observedCollections == |t|
    && a.lostCollections == |Unread(t)|
    && a.coverage == |t| as real / |h[FirstOf(t) - 1..LastOf(t)]| as real
    && a.measuredPauseNs == Some(SumBy(PauseNsOf, t))
    && SumBy(PauseNsOf, t) <= TruePause(h, FirstOf(t), LastOf(t))
  }

  lemma {:induction false} ReadsAccount(h: seq<RW.Collection>, key: RingKey, t: seq<Record>, o: RingObservation)
    requires t != [] && Reads(h, key, t) && o == FoldAll(UNREAD, t)
    ensures Sound(o) && AccountsFor(h, t, Account(o))
  {
    ReadsSound(h, key, t);
    ReadsBounds(h, key, t);
    CountsOf(o, t);
    assert |h[FirstOf(t) - 1..LastOf(t)]| == Account(o).exactCollections;
  }

  lemma {:induction false} ReadsSpan(h: seq<RW.Collection>, key: RingKey, t: seq<Record>, o: RingObservation)
    requires t != [] && Reads(h, key, t) && o == FoldAll(UNREAD, t)
    ensures Spanned(h, o, FirstOf(t), LastOf(t))
  {
    ReadsSound(h, key, t);
    ReadsBounds(h, key, t);
    FoldAllMeaning(t);
    FoldSumsPauses(t);
    ReadsWidth(h, key, t, 0);
    assert t[0] in t && t[|t| - 1] in t;
  }

  /** The account is the truth, whichever run made it and whether its accumulator is live or retired. */
  lemma {:induction false} AccountIsTruth(pid: int, w: World, steps: seq<Step>, v: World, x: Retired) returns (t: seq<Record>)
    requires Listed(pid, w, steps, v, x)
    ensures t in SpansOf(pid, w, steps, x.key) && x.observation == FoldAll(UNREAD, t)
    ensures x.key in v.rings && Reads(v.rings[x.key].history, x.key, t)
    ensures Sound(x.observation) && AccountsFor(v.rings[x.key].history, t, Account(x.observation))
  {
    t := ListedIsSpan(pid, w, steps, v, x);
    OutputReads(pid, v, x.key, t);
    ReadsAccount(v.rings[x.key].history, x.key, t, x.observation);
  }

  /** With totals that price each Collection at its own width, the exact pause is what all of them took. */
  lemma {:induction false} PauseIsTruth(pid: int, w: World, steps: seq<Step>, v: World, x: Retired) returns (t: seq<Record>)
    requires Listed(pid, w, steps, v, x)
    requires x.key in v.rings ==> PricedExactly(v.rings[x.key].history)
    ensures t in SpansOf(pid, w, steps, x.key) && x.observation == FoldAll(UNREAD, t) && t != []
    ensures x.key in v.rings && PricesExactly(v.rings[x.key].history, x.observation, FirstOf(t), LastOf(t))
  {
    t := AccountIsTruth(pid, w, steps, v, x);
    ReadsSpan(v.rings[x.key].history, x.key, t, x.observation);
    SpansPriceExactly(v.rings[x.key].history, x.observation, FirstOf(t), LastOf(t));
  }

  /** With totals that drift by at most `d` seconds, the exact pause is within `2 d` and half a nanosecond. */
  lemma {:induction false} PauseIsNearTruth(pid: int, w: World, steps: seq<Step>, v: World, x: Retired, d: real) returns (t: seq<Record>)
    requires Listed(pid, w, steps, v, x)
    requires x.key in v.rings ==> PricedWithin(v.rings[x.key].history, d)
    ensures t in SpansOf(pid, w, steps, x.key) && x.observation == FoldAll(UNREAD, t) && t != []
    ensures x.key in v.rings && PricesNearly(v.rings[x.key].history, x.observation, FirstOf(t), LastOf(t), d)
  {
    t := AccountIsTruth(pid, w, steps, v, x);
    ReadsSpan(v.rings[x.key].history, x.key, t, x.observation);
    SpansPriceNearly(v.rings[x.key].history, x.observation, FirstOf(t), LastOf(t), d);
  }

  // ---- every row of the summary ---------------------------------------------------------------

  /** A cursor as some sequence of polls and deaths leaves it. */
  ghost predicate Reached(s: CursorState) {
    exists es :: s == Run(NEW, es)
  }

  lemma {:induction false} ApplyReached(s: CursorState, e: Event)
    requires Reached(s)
    ensures Reached(Apply(s, e))
  {
    var es :| s == Run(NEW, es);
    RunSnoc(NEW, es, e);
  }

  lemma {:induction false} PathReached(pid: int, w: World, steps: seq<Step>, v: World)
    requires Path(pid, w, steps, v) && Reached(w.cursor)
    ensures Reached(v.cursor)
    decreases |steps|
  {
    if steps != [] {
      match steps[0] {
        case EndPoll => ApplyReached(w.cursor, Polled(pid, w.pending));
        case LetGo => ApplyReached(w.cursor, Died(pid));
        case Elsewhere(event) => ApplyReached(w.cursor, event);
        case _ =>
      }
      PathReached(pid, Take(pid, w, steps[0]), steps[1..], v);
    }
  }

  /** What the summary is made of is sound, so it can be made. */
  lemma {:induction false} Summarizable(s: CursorState)
    requires Reached(s) && s.evictions <= Accounting.LIVE_SPAN
    ensures Summary.AllSound(Accounting.Observations(s))
  {
    var es :| s == Run(NEW, es);
    Summary.RunIsSummarizable(es);
  }

  /** A row's figures against the Records `t` and the history `h` of its ring. */
  ghost predicate RowTells(h: seq<RW.Collection>, t: seq<Record>, row: Summary.Row) {
    && AccountsFor(h, t, row.account)
    && row.records == |t|
    && row.collected == TrueCollected(h, FirstOf(t) + 1, LastOf(t))
    && row.uncollectable == TrueUncollectable(h, FirstOf(t) + 1, LastOf(t))
    && (PricedExactly(h) && TruePause(h, FirstOf(t), LastOf(t)) <= I64_MAX ==>
          row.account.exactPauseNs == Some(TruePause(h, FirstOf(t), LastOf(t))))
  }

  lemma {:induction false} ItemTells(h: seq<RW.Collection>, key: RingKey, t: seq<Record>, x: Retired)
    requires t != [] && Reads(h, key, t) && x.observation == FoldAll(UNREAD, t)
    ensures Sound(x.observation) && RowTells(h, t, Summary.ItemOf(x).row)
  {
    ReadsAccount(h, key, t, x.observation);
    ReadsCollected(h, key, t, x.observation);
    ItemParts(x, Account(x.observation));
    if PricedExactly(h) {
      ReadsSpan(h, key, t, x.observation);
      SpansPriceExactly(h, x.observation, FirstOf(t), LastOf(t));
    }
    PartsTell(h, t, Summary.ItemOf(x).row, Account(x.observation));
  }

  lemma ItemParts(x: Retired, a: LossAccount)
    requires Sound(x.observation) && a == Account(x.observation)
    ensures var o, row := x.observation, Summary.ItemOf(x).row;
      && row.account == a && row.records == o.sampled
      && row.collected == o.last.collected - o.first.collected
      && row.uncollectable == o.last.uncollectable - o.first.uncollectable
  {}

  lemma PartsTell(h: seq<RW.Collection>, t: seq<Record>, row: Summary.Row, a: LossAccount)
    requires row.account == a && AccountsFor(h, t, a) && row.records == |t|
    requires row.collected == TrueCollected(h, FirstOf(t) + 1, LastOf(t))
    requires row.uncollectable == TrueUncollectable(h, FirstOf(t) + 1, LastOf(t))
    requires PricedExactly(h) && TruePause(h, FirstOf(t), LastOf(t)) <= I64_MAX ==>
      a.exactPauseNs == Some(TruePause(h, FirstOf(t), LastOf(t)))
    ensures RowTells(h, t, row)
  {}

  lemma {:induction false} ReadsCollected(h: seq<RW.Collection>, key: RingKey, t: seq<Record>, o: RingObservation)
    requires t != [] && Reads(h, key, t) && o == FoldAll(UNREAD, t)
    ensures 1 <= FirstOf(t) <= LastOf(t) <= |h| && o.sampled == |t|
    ensures o.last.collected - o.first.collected == TrueCollected(h, FirstOf(t) + 1, LastOf(t))
    ensures o.last.uncollectable - o.first.uncollectable == TrueUncollectable(h, FirstOf(t) + 1, LastOf(t))
  {
    ReadsBounds(h, key, t);
    FoldAllMeaning(t);
    assert t[0] in t && t[|t| - 1] in t;
    TotalsRise(h, FirstOf(t), LastOf(t));
  }

  /**
   The summary is the truth. Its rows, block by block, are the accumulators in order, and the row
   of each one made in this run gives its process, interpreter and generation the figures of exactly
   the Collections its span covers.
   */
  lemma {:induction false} SummaryIsTruth(pid: int, w: World, steps: seq<Step>, v: World, i: nat) returns (t: seq<Record>)
    requires Reached(w.cursor) && v.cursor.evictions <= Accounting.LIVE_SPAN
    requires i < |Accounting.Observations(v.cursor)| && Listed(pid, w, steps, v, Accounting.Observations(v.cursor)[i])
    ensures var obs := Accounting.Observations(v.cursor);
      && Summary.AllSound(obs)
      && t in SpansOf(pid, w, steps, obs[i].key) && obs[i].key in v.rings
      && (var rows := Summary.Ungroup(Summary.Group(Summary.Items(obs)));
          && |rows| == |obs|
          && rows[i].0 == pid && rows[i].1 == obs[i].key.interpreter && rows[i].2.generation == obs[i].key.generation
          && RowTells(v.rings[obs[i].key].history, t, rows[i].2))
  {
    var obs := Accounting.Observations(v.cursor);
    PathReached(pid, w, steps, v);
    Summarizable(v.cursor);
    t := AccountIsTruth(pid, w, steps, v, obs[i]);
    Summary.GroupIsPartition(Summary.Items(obs));
    ItemTells(v.rings[obs[i].key].history, obs[i].key, t, obs[i]);
  }
}
