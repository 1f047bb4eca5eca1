/**
 Reconstructing what a ring did from two ends of a cumulative counter. Counts are machine
 integers, checked to stay in range; pauses are nanoseconds; a total of seconds is a real.
 */
module Loss {
  import opened Prelude
  import opened Records
  import opened Observation

  datatype LossAccount = LossAccount(
    exactCollections: i64, observedCollections: i64, lostCollections: i64, coverage: real,
    exactPauseNs: Option<int>, measuredPauseNs: Option<int>, lostPauseNs: Option<int>,
    scaleFactor: Option<real>)

  const UNOBSERVED := LossAccount(0, 0, 0, 1.0, None, None, None, None)

  /** Round to the nearest integer, halves away from zero. */
  function Round(x: real): int {
    if x >= 0.0 then (x + 0.5).Floor else -((-x + 0.5).Floor)
  }

  /** What a cast or a sum that cannot overflow leaves of an integer out of range. */
  function Saturate(n: int): i64 {
    if n < I64_MIN then I64_MIN else if n > I64_MAX then I64_MAX else n
  }

  const NS_PER_SEC := 1000000000.0

  function SecsToNs(secs: real): i64 {
    Saturate(Round(secs * NS_PER_SEC))
  }

  /** The pause over the span: the rise of the running total, with the opening Record's own pause put back. */
  function SpannedPause(o: RingObservation): int {
    match o.last.duration.Minus(o.first.duration)
    case Finite(delta) => Saturate(SecsToNs(delta) + o.firstPauseNs)
    case NotFinite => o.measuredPauseNs
  }

  /** The account of one accumulator. */
  function Account(o: RingObservation): LossAccount
    requires Sound(o)
  {
    if o.IsEmpty() then UNOBSERVED
    else
      var rise: i64 := o.last.collections - o.first.collections;
      var exact: i64 := rise + (if o.timed then 1 else 0);
      var observed: i64 := if o.timed then o.sampled else 0;
      var lost: i64 := exact - observed;
      var coverage := if o.timed then observed as real / exact as real else 0.0;
      var counts := UNOBSERVED.(
        exactCollections := exact, observedCollections := observed, lostCollections := lost, coverage := coverage);
      if !o.timed then counts
      else
        var measured := o.measuredPauseNs;
        var timed := counts.(measuredPauseNs := Some(measured));
        if !o.pricesPause then timed
        else
          var exactPause := Max(SpannedPause(o), measured);
          timed.(exactPauseNs := Some(exactPause),
                 lostPauseNs := Some(exactPause - measured),
                 scaleFactor := Some(exactPause as real / measured as real))
  }

  /**
   The exact count splits into observed and lost, neither of them negative, whatever was
   overwritten; and coverage of a timed ring lies above zero and at most at one.
   */
  lemma AccountAddsUp(o: RingObservation)
    requires Sound(o)
    ensures var a := Account(o);
      && a.exactCollections == a.observedCollections + a.lostCollections
      && 0 <= a.lostCollections && 0 <= a.observedCollections
      && (o.timed && !o.IsEmpty() ==> 0.0 < a.coverage <= 1.0 && (a.coverage == 1.0 <==> a.lostCollections == 0))
      && (!o.timed && !o.IsEmpty() ==> a.coverage == 0.0 && a.lostCollections == a.exactCollections)
  {
    if o.timed && !o.IsEmpty() {
      var a := Account(o);
      var seen, ran := a.observedCollections as real, a.exactCollections as real;
      assert 0.0 < seen <= ran;
      QuotientInUnit(seen, ran);
    }
  }

  /** Coverage is the observed share of what ran. */
  lemma CoverageIsShare(o: RingObservation)
    requires Sound(o) && !o.IsEmpty() && o.timed
    ensures Account(o).coverage * Account(o).exactCollections as real == Account(o).observedCollections as real
    ensures Account(o).observedCollections == o.sampled
  {
    ShareTimes(Account(o).observedCollections as real, Account(o).exactCollections as real);
  }

  lemma ShareTimes(part: real, whole: real)
    requires whole > 0.0
    ensures (part / whole) * whole == part
  {}

  /** A ring nothing was read of lost nothing; one without timestamps counts the rise alone, none of it watched, and prices nothing. */
  lemma AccountWithoutSpan(o: RingObservation)
    requires Sound(o) && (o.IsEmpty() || !o.timed)
    ensures var a := Account(o);
      && a.measuredPauseNs.None? && a.exactPauseNs.None? && a.lostPauseNs.None? && a.scaleFactor.None?
      && a.observedCollections == 0 && a.lostCollections == a.exactCollections
      && a.exactCollections == (if o.IsEmpty() then 0 else o.last.collections - o.first.collections)
      && a.coverage == if o.IsEmpty() then 1.0 else 0.0
  {}

  /** A total that is no number prices nothing: the exact pause is then what was watched, and the scale one. */
  lemma NoTotalNoPrice(o: RingObservation)
    requires Sound(o) && !o.IsEmpty() && o.timed && o.pricesPause && (o.first.duration.NotFinite? || o.last.duration.NotFinite?)
    ensures Account(o).exactPauseNs == Some(o.measuredPauseNs) && Account(o).lostPauseNs == Some(0)
    ensures Account(o).scaleFactor == Some(1.0)
  {
    var m := o.measuredPauseNs as real;
    ShareTimes(m, m);
    ScaleOrder(m / m, 1.0, m);
  }

  /**
   The exact pause of totals that are numbers: their difference to the nearest nanosecond and the opening
   Record's own pause, each sum kept in range, or what was watched if that is more.
   */
  lemma PriceIs(o: RingObservation, ns: int)
    requires Sound(o) && !o.IsEmpty() && o.timed && o.pricesPause && o.first.duration.Finite? && o.last.duration.Finite?
    requires -0.5 < (o.last.duration.v - o.first.duration.v) * 1000000000.0 - ns as real < 0.5
    ensures Account(o).exactPauseNs
         == Some(if Saturate(Saturate(ns) + o.firstPauseNs) < o.measuredPauseNs then o.measuredPauseNs
                 else Saturate(Saturate(ns) + o.firstPauseNs))
  {
    RoundNearest((o.last.duration.v - o.first.duration.v) * NS_PER_SEC, ns);
  }

  lemma RoundNearest(x: real, n: int)
    requires -0.5 < x - n as real < 0.5
    ensures Round(x) == n
  {}

  /** Scaling by a positive factor keeps the order. */
  lemma ScaleOrder(x: real, y: real, k: real)
    requires k > 0.0
    ensures x < y <==> x * k < y * k
    ensures x == y <==> x * k == y * k
  {
    assert y * k - x * k == (y - x) * k;
  }

  lemma QuotientInUnit(a: real, b: real)
    requires 0.0 < a <= b
    ensures 0.0 < a / b <= 1.0
    ensures a / b == 1.0 <==> a == b
  {
    var q := a / b;
    assert q * b == a;
    ScaleOrder(0.0, q, b);
    ScaleOrder(1.0, q, b);
  }

  /**
   A pause is priced exactly when the build bounds and totals its Collections; priced, the figure
   splits into what was watched and a remainder never below zero, and the scale is never below one.
   */
  lemma PauseAddsUp(o: RingObservation)
    requires Sound(o)
    ensures var a := Account(o);
      && (a.exactPauseNs.Some? <==> !o.IsEmpty() && o.timed && o.pricesPause)
      && (a.exactPauseNs.Some? ==>
          && a.measuredPauseNs == Some(o.measuredPauseNs)
          && a.exactPauseNs.value == o.measuredPauseNs + a.lostPauseNs.value
          && a.lostPauseNs.value >= 0
          && a.scaleFactor.Some? && a.scaleFactor.value >= 1.0
          && a.scaleFactor.value * (o.measuredPauseNs as real) == a.exactPauseNs.value as real)
  {
    var a := Account(o);
    if a.exactPauseNs.Some? {
      ScaleAtLeastOne(a.exactPauseNs.value as real, o.measuredPauseNs as real);
    }
  }

  lemma ScaleAtLeastOne(a: real, b: real)
    requires 0.0 < b <= a
    ensures a / b >= 1.0 && (a / b) * b == a
  {
    var q := a / b;
    assert q * b == a;
    ScaleOrder(q, 1.0, b);
  }

  // ---- how far the priced pause can be from the truth ---------------------------

  function Abs(x: real): real { if x < 0.0 then -x else x }

  lemma RoundError(x: real)
    ensures Abs(Round(x) as real - x) <= 0.5
  {}

  /** Halves go away from zero. */
  lemma RoundTies(n: int)
    ensures n >= 0 ==> Round(n as real + 0.5) == n + 1
    ensures n <= 0 ==> Round(n as real - 0.5) == n - 1
  {}

  /** A cast out of range lands on the nearest value in it. */
  lemma SaturateNearest(n: int, k: i64)
    ensures Abs((Saturate(n) - n) as real) <= Abs((k - n) as real)
    ensures Saturate(n) in {n, -0x8000_0000_0000_0000, 0x7fff_ffff_ffff_ffff}
  {}

  /** Clamping to a range never moves a value away from a point inside it. */
  lemma SaturateCloser(n: int, target: int)
    requires I64_MIN <= target <= I64_MAX
    ensures Abs(Saturate(n) as real - target as real) <= Abs(n as real - target as real)
  {}

  lemma SaturateOffset(n: int, first: int, target: int)
    requires I64_MIN <= target <= I64_MAX && 0 <= first && I64_MIN <= target - first
    ensures Abs(Saturate(Saturate(n) + first) as real - target as real) <= Abs((n + first) as real - target as real)
  {
    SaturateCloser(n, target - first);
    SaturateCloser(Saturate(n) + first, target);
  }

  /**
   If each stored total is within `d` seconds of the truth, the priced pause is within
   `2 d` seconds and half a nanosecond of the true one, whatever the floor and the casts do.
   */
  lemma PauseDrift(o: RingObservation, d: real, before: real, after: real, truth: int)
    requires Sound(o) && !o.IsEmpty() && o.timed && o.pricesPause
    requires o.first.duration.Finite? && Abs(o.first.duration.v - before) <= d
    requires o.last.duration.Finite? && Abs(o.last.duration.v - after) <= d
    requires truth as real == (after - before) * NS_PER_SEC + o.firstPauseNs as real
    requires o.measuredPauseNs <= truth <= I64_MAX
    ensures Abs(Account(o).exactPauseNs.value as real - truth as real) <= 2.0 * d * NS_PER_SEC + 0.5
  {
    var delta := o.last.duration.v - o.first.duration.v;
    DeltaDrift(o.first.duration.v, o.last.duration.v, before, after, d);
    FiguresDrift(delta, after - before, d, o.firstPauseNs, o.measuredPauseNs, truth);
    PricedAt(o, Round(delta * NS_PER_SEC));
  }

  lemma DeltaDrift(first: real, last: real, before: real, after: real, d: real)
    requires Abs(first - before) <= d && Abs(last - after) <= d
    ensures Abs((last - first) - (after - before)) <= 2.0 * d
  {}

  lemma FiguresDrift(delta: real, span: real, d: real, offset: int, floor: int, truth: int)
    requires Abs(delta - span) <= 2.0 * d && 0 <= offset && floor <= truth <= I64_MAX && I64_MIN <= truth - offset
    requires truth as real == span * NS_PER_SEC + offset as real
    ensures Abs(Max(Saturate(Saturate(Round(delta * NS_PER_SEC)) + offset), floor) as real - truth as real) <= 2.0 * d * NS_PER_SEC + 0.5
  {
    var n := Round(delta * NS_PER_SEC);
    RoundError(delta * NS_PER_SEC);
    RoundedDrift(n, delta, span, d, offset, truth);
    SaturateOffset(n, offset, truth);
    FloorCloser(Saturate(Saturate(n) + offset), floor, truth);
  }

  lemma PricedAt(o: RingObservation, n: int)
    requires Sound(o) && !o.IsEmpty() && o.timed && o.pricesPause && o.first.duration.Finite? && o.last.duration.Finite?
    requires n == Round((o.last.duration.v - o.first.duration.v) * NS_PER_SEC)
    ensures Account(o).exactPauseNs == Some(Max(Saturate(Saturate(n) + o.firstPauseNs), o.measuredPauseNs))
  {}

  lemma RoundedDrift(n: int, delta: real, span: real, d: real, offset: int, target: int)
    requires Abs(n as real - delta * NS_PER_SEC) <= 0.5 && Abs(delta - span) <= 2.0 * d
    requires target as real == span * NS_PER_SEC + offset as real
    ensures Abs((n + offset) as real - target as real) <= 2.0 * d * NS_PER_SEC + 0.5
  {
    assert (n + offset) as real - target as real == (n as real - delta * NS_PER_SEC) + (delta - span) * NS_PER_SEC;
  }

  lemma FloorCloser(n: int, floor: int, target: int)
    requires floor <= target
    ensures Abs(Max(n, floor) as real - target as real) <= Abs(n as real - target as real)
  {}

  /** With totals that carry no drift, the priced pause is the true one. */
  lemma PauseExact(o: RingObservation, before: real, after: real, truth: int)
    requires Sound(o) && !o.IsEmpty() && o.timed && o.pricesPause
    requires o.first.duration == Finite(before) && o.last.duration == Finite(after)
    requires truth as real == (after - before) * NS_PER_SEC + o.firstPauseNs as real
    requires o.measuredPauseNs <= truth <= I64_MAX
    ensures Account(o).exactPauseNs == Some(truth)
  {
    PauseDrift(o, 0.0, before, after, truth);
    SameInteger(Account(o).exactPauseNs.value, truth);
  }

  lemma SameInteger(a: int, b: int)
    requires Abs(a as real - b as real) <= 0.5
    ensures a == b
  {}
}
