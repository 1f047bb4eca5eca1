/** Figures read off one snapshot of the rings: the average pause and the collection rate. */
module Snapshot {
  import opened Prelude
  import opened RingWriter

  datatype GcEntry = GcEntry(generation: nat, startTs: int, stopTs: int, collections: int, duration: real)

  predicate Complete(e: GcEntry) { e.startTs < e.stopTs }

  /** A written position of generation `g`: an unwritten one reads as all zeros. */
  function Of(g: nat): GcEntry -> bool {
    (e: GcEntry) => e.collections != 0 && e.generation == g
  }

  type Key = GcEntry -> int

  function Count(): Key { (e: GcEntry) => e.collections }
  function Opened(): Key { (e: GcEntry) => e.startTs }
  function Ended(): Key { (e: GcEntry) => e.stopTs }

  /** The first of the least. */
  function MinBy(es: seq<GcEntry>, key: Key): GcEntry
    requires es != []
  {
    var last := es[|es| - 1];
    if |es| == 1 then last
    else
      var m := MinBy(es[..|es| - 1], key);
      if key(last) < key(m) then last else m
  }

  /** The last of the greatest. */
  function MaxBy(es: seq<GcEntry>, key: Key): GcEntry
    requires es != []
  {
    var last := es[|es| - 1];
    if |es| == 1 then last
    else
      var m := MaxBy(es[..|es| - 1], key);
      if key(last) >= key(m) then last else m
  }

  lemma {:induction false} MinIsLeast(es: seq<GcEntry>, key: Key)
    requires es != []
    ensures MinBy(es, key) in es && forall e :: e in es ==> key(MinBy(es, key)) <= key(e)
    decreases |es|
  {
    if |es| > 1 {
      MinIsLeast(es[..|es| - 1], key);
      assert es == es[..|es| - 1] + [es[|es| - 1]];
    }
  }

  lemma {:induction false} MaxIsGreatest(es: seq<GcEntry>, key: Key)
    requires es != []
    ensures MaxBy(es, key) in es && forall e :: e in es ==> key(e) <= key(MaxBy(es, key))
    decreases |es|
  {
    if |es| > 1 {
      MaxIsGreatest(es[..|es| - 1], key);
      assert es == es[..|es| - 1] + [es[|es| - 1]];
    }
  }

  /** The first of the least. */
  predicate LeastAt(es: seq<GcEntry>, key: Key, k: nat) {
    && k < |es| && (forall j :: 0 <= j < k ==> key(es[j]) > key(es[k])) && forall j :: k < j < |es| ==> key(es[j]) >= key(es[k])
  }

  /** The last of the greatest. */
  predicate GreatestAt(es: seq<GcEntry>, key: Key, k: nat) {
    && k < |es| && (forall j :: 0 <= j < k ==> key(es[j]) <= key(es[k])) && forall j :: k < j < |es| ==> key(es[j]) < key(es[k])
  }

  /** Ties for the least go to the first held, for the greatest to the last. */
  lemma {:induction false} TiesGo(es: seq<GcEntry>, key: Key) returns (a: nat, b: nat)
    requires es != []
    ensures LeastAt(es, key, a) && MinBy(es, key) == es[a]
    ensures GreatestAt(es, key, b) && MaxBy(es, key) == es[b]
    decreases |es|
  {
    var n := |es| - 1;
    a, b := 0, 0;
    if n > 0 {
      a, b := TiesGo(es[..n], key);
      assert forall j :: 0 <= j < n ==> es[..n][j] == es[j];
      if key(es[n]) < key(es[a]) { a := n; }
      if key(es[n]) >= key(es[b]) { b := n; }
    }
  }

  lemma NoFigure(rise: int, spanNs: int)
    ensures rise <= 0 || spanNs <= 0 ==> PerSecond(rise, spanNs) == 0.0
  {}

  /** Without a rise from one counter to another there is no figure but zero; nor a rate without time between. */
  lemma NoRiseNoFigure(es: seq<GcEntry>)
    ensures (forall a, b :: a in es && b in es ==> a.collections == b.collections) ==> AverageOf(es) == 0.0 && RateOf(es) == 0.0
    ensures (forall a, b :: a in es && b in es ==> a.stopTs <= b.startTs) ==> RateOf(es) == 0.0
  {
    if |es| >= 2 {
      MinIsLeast(es, Count());
      MaxIsGreatest(es, Count());
      MinIsLeast(es, Opened());
      MaxIsGreatest(es, Ended());
      NoFigure(MaxBy(es, Count()).collections - MinBy(es, Count()).collections, MaxBy(es, Ended()).stopTs - MinBy(es, Opened()).startTs);
    }
  }

  function AverageOf(es: seq<GcEntry>): real {
    if |es| < 2 then 0.0
    else
      var lo, hi := MinBy(es, Count()), MaxBy(es, Count());
      if hi.collections > lo.collections then (hi.duration - lo.duration) / (hi.collections - lo.collections) as real else 0.0
  }

  /** Collections a second, or zero where there is no rise or no time to divide by. */
  function PerSecond(rise: int, spanNs: int): real {
    if spanNs > 0 && rise > 0 then rise as real / (spanNs as real / 1000000000.0) else 0.0
  }

  function RateOf(es: seq<GcEntry>): real {
    if |es| < 2 then 0.0
    else
      PerSecond(MaxBy(es, Count()).collections - MinBy(es, Count()).collections,
                MaxBy(es, Ended()).stopTs - MinBy(es, Opened()).startTs)
  }

  // ---- the loops ------------------------------------------------------------------------

  /** A bucket's members, whatever else is read: written, and of its generation. */
  lemma {:induction false} BucketHolds(entries: seq<GcEntry>, g: nat, e: GcEntry)
    ensures e in Filter(Of(g), entries) <==> e in entries && e.collections != 0 && e.generation == g
  {}

  method EntriesByGeneration(entries: seq<GcEntry>) returns (buckets: seq<seq<GcEntry>>)
    ensures |buckets| == 3 && forall g :: 0 <= g < 3 ==> buckets[g] == Filter(Of(g), entries)
  {
    buckets := [[], [], []];
    for i := 0 to |entries|
      invariant |buckets| == 3 && forall g :: 0 <= g < 3 ==> buckets[g] == Filter(Of(g), entries[..i])
    {
      var e := entries[i];
      assert entries[..i + 1] == entries[..i] + [e];
      forall g | 0 <= g < 3
        ensures Filter(Of(g), entries[..i + 1]) == if Of(g)(e) then Filter(Of(g), entries[..i]) + [e] else Filter(Of(g), entries[..i])
      {
        FilterConcat(Of(g), entries[..i], [e]);
      }
      if e.collections == 0 { continue; }
      if e.generation < 3 {
        buckets := buckets[e.generation := buckets[e.generation] + [e]];
      }
    }
    assert entries[..|entries|] == entries;
  }

  lemma {:induction false} MinSnoc(es: seq<GcEntry>, e: GcEntry, key: Key)
    requires es != []
    ensures MinBy(es + [e], key) == if key(e) < key(MinBy(es, key)) then e else MinBy(es, key)
  {
    assert (es + [e])[..|es|] == es;
  }

  lemma {:induction false} MaxSnoc(es: seq<GcEntry>, e: GcEntry, key: Key)
    requires es != []
    ensures MaxBy(es + [e], key) == if key(e) >= key(MaxBy(es, key)) then e else MaxBy(es, key)
  {
    assert (es + [e])[..|es|] == es;
  }

  method FindMin(es: seq<GcEntry>, key: Key) returns (m: GcEntry)
    requires es != []
    ensures m == MinBy(es, key)
  {
    m := es[0];
    assert es[..1] == [es[0]];
    for i := 1 to |es|
      invariant m == MinBy(es[..i], key)
    {
      MinSnoc(es[..i], es[i], key);
      assert es[..i + 1] == es[..i] + [es[i]];
      if key(es[i]) < key(m) { m := es[i]; }
    }
    assert es[..|es|] == es;
  }

  method FindMax(es: seq<GcEntry>, key: Key) returns (m: GcEntry)
    requires es != []
    ensures m == MaxBy(es, key)
  {
    m := es[0];
    assert es[..1] == [es[0]];
    for i := 1 to |es|
      invariant m == MaxBy(es[..i], key)
    {
      MaxSnoc(es[..i], es[i], key);
      assert es[..i + 1] == es[..i] + [es[i]];
      if key(es[i]) >= key(m) { m := es[i]; }
    }
    assert es[..|es|] == es;
  }

  method AverageOne(es: seq<GcEntry>) returns (avg: real)
    ensures avg == AverageOf(es)
  {
    if |es| < 2 { return 0.0; }
    var lo := FindMin(es, Count());
    var hi := FindMax(es, Count());
    var collDelta, durDelta := hi.collections - lo.collections, hi.duration - lo.duration;
    return if collDelta > 0 then durDelta / collDelta as real else 0.0;
  }

  method RateOne(es: seq<GcEntry>) returns (rate: real)
    ensures rate == RateOf(es)
  {
    if |es| < 2 { return 0.0; }
    var lo := FindMin(es, Count());
    var hi := FindMax(es, Count());
    var first := FindMin(es, Opened());
    var last := FindMax(es, Ended());
    return PerSecond(hi.collections - lo.collections, last.stopTs - first.startTs);
  }

  method AvgCollectionTimePerGen(entries: seq<GcEntry>, hasDuration: bool) returns (avgs: seq<Option<real>>)
    ensures |avgs| == 3
    ensures forall g :: 0 <= g < 3 ==> avgs[g] == if hasDuration then Some(AverageOf(Filter(Of(g), entries))) else None
  {
    if !hasDuration { return [None, None, None]; }
    var buckets := EntriesByGeneration(entries);
    avgs := [Some(0.0), Some(0.0), Some(0.0)];
    for g := 0 to 3
      invariant |avgs| == 3 && forall k :: 0 <= k < g ==> avgs[k] == Some(AverageOf(buckets[k]))
    {
      var avg := AverageOne(buckets[g]);
      avgs := avgs[g := Some(avg)];
    }
  }

  method CollectionsRate(entries: seq<GcEntry>, hasTimestamps: bool) returns (rates: seq<Option<real>>)
    ensures |rates| == 3
    ensures forall g :: 0 <= g < 3 ==> rates[g] == if hasTimestamps then Some(RateOf(Filter(Of(g), entries))) else None
  {
    if !hasTimestamps { return [None, None, None]; }
    var buckets := EntriesByGeneration(entries);
    rates := [Some(0.0), Some(0.0), Some(0.0)];
    for g := 0 to 3
      invariant |rates| == 3 && forall k :: 0 <= k < g ==> rates[k] == Some(RateOf(buckets[k]))
    {
      var rate := RateOne(buckets[g]);
      rates := rates[g := Some(rate)];
    }
  }

  // ---- what the figures mean of a ring written cumulatively -----------------------------------

  /** Collections `lo` to `hi` of a history, the first of them left out, summed. */
  function PauseSum(h: seq<Collection>, lo: nat, hi: nat): real
    requires lo <= hi <= |h|
  {
    if lo == hi then 0.0 else PauseSum(h, lo, hi - 1) + h[hi - 1].duration
  }

  lemma {:induction false} CumDiffers(h: seq<Collection>, lo: nat, hi: nat)
    requires lo <= hi <= |h|
    ensures Cum(h, hi).duration - Cum(h, lo).duration == PauseSum(h, lo, hi)
    decreases hi - lo
  {
    if lo < hi { CumDiffers(h, lo, hi - 1); }
  }

  /** An Entry as a publish of `h` left it. */
  predicate Published(h: seq<Collection>, e: GcEntry) {
    && 0 < e.collections <= |h|
    && e.duration == Cum(h, e.collections).duration
    && e.startTs == h[e.collections - 1].tsStart && e.stopTs == h[e.collections - 1].tsStop
  }

  /** `lo` and `hi` are the least and the greatest counter held. */
  ghost predicate Window(es: seq<GcEntry>, lo: int, hi: int) {
    && (exists e :: e in es && e.collections == lo) && (exists e :: e in es && e.collections == hi)
    && forall e :: e in es ==> lo <= e.collections <= hi
  }

  /**
   However a ring is rotated, and whatever it repeats, the average is the mean pause of the
   Collections after the oldest held, up to the newest.
   */
  lemma {:induction false} AverageIsMean(h: seq<Collection>, es: seq<GcEntry>, lo: nat, hi: nat)
    requires (forall e :: e in es ==> Published(h, e)) && Window(es, lo, hi) && lo < hi <= |h|
    ensures AverageOf(es) == PauseSum(h, lo, hi) / (hi - lo) as real
  {
    TwoHeld(es, lo, hi);
    MinIsLeast(es, Count());
    MaxIsGreatest(es, Count());
    Ends(es, lo, hi);
    CumDiffers(h, lo, hi);
  }

  lemma {:induction false} Ends(es: seq<GcEntry>, lo: int, hi: int)
    requires es != [] && Window(es, lo, hi)
    ensures MinBy(es, Count()).collections == lo && MaxBy(es, Count()).collections == hi
  {
    MinIsLeast(es, Count());
    MaxIsGreatest(es, Count());
    var x :| x in es && x.collections == lo;
    var y :| y in es && y.collections == hi;
    assert Count()(MinBy(es, Count())) <= Count()(x);
    assert Count()(y) <= Count()(MaxBy(es, Count()));
  }

  lemma TwoHeld(es: seq<GcEntry>, lo: int, hi: int)
    requires Window(es, lo, hi) && lo < hi
    ensures |es| >= 2
  {
    var x :| x in es && x.collections == lo;
    var y :| y in es && y.collections == hi;
    var i :| 0 <= i < |es| && es[i] == x;
    var j :| 0 <= j < |es| && es[j] == y;
  }

  /** Starts and stops of a monotone history rise with the counter. */
  lemma {:induction false} ClockRises(h: seq<Collection>, a: nat, b: nat)
    requires Monotone(h) && 0 < a <= b <= |h|
    ensures h[a - 1].tsStart <= h[b - 1].tsStart && h[a - 1].tsStop <= h[b - 1].tsStop
    decreases b - a
  {
    if a < b { ClockRises(h, a, b - 1); }
  }

  lemma {:induction false} EarliestStart(h: seq<Collection>, es: seq<GcEntry>, lo: nat, hi: nat)
    requires Monotone(h) && es != [] && (forall e :: e in es ==> Published(h, e)) && Window(es, lo, hi) && 0 < lo <= hi <= |h|
    ensures MinBy(es, Opened()).startTs == h[lo - 1].tsStart
  {
    var first := MinBy(es, Opened());
    MinIsLeast(es, Opened());
    var x :| x in es && x.collections == lo;
    assert Opened()(first) <= Opened()(x);
    assert Published(h, first) && Published(h, x);
    ClockRises(h, lo, first.collections);
    assert h[lo - 1].tsStart <= first.startTs <= x.startTs;
  }

  lemma {:induction false} LatestStop(h: seq<Collection>, es: seq<GcEntry>, lo: nat, hi: nat)
    requires Monotone(h) && es != [] && (forall e :: e in es ==> Published(h, e)) && Window(es, lo, hi) && 0 < lo <= hi <= |h|
    ensures MaxBy(es, Ended()).stopTs == h[hi - 1].tsStop
  {
    var last := MaxBy(es, Ended());
    MaxIsGreatest(es, Ended());
    var y :| y in es && y.collections == hi;
    assert Ended()(y) <= Ended()(last);
    assert Published(h, last) && Published(h, y);
    ClockRises(h, last.collections, hi);
  }

  /** The rate is the Collections after the oldest held, over the time from its start to the newest one's stop. */
  lemma RateIsOverWindow(h: seq<Collection>, es: seq<GcEntry>, lo: nat, hi: nat)
    requires Monotone(h) && (forall e :: e in es ==> Published(h, e)) && Window(es, lo, hi) && 0 < lo < hi <= |h|
    ensures RateOf(es) == PerSecond(hi - lo, h[hi - 1].tsStop - h[lo - 1].tsStart)
  {
    TwoHeld(es, lo, hi);
    Ends(es, lo, hi);
    EarliestStart(h, es, lo, hi);
    LatestStop(h, es, lo, hi);
  }

  // ---- a quiescent ring ---------------------------------------------------------------------

  function EntryOf(e: Entry, generation: nat): GcEntry {
    GcEntry(generation, e.tsStart, e.tsStop, e.collections, e.duration)
  }

  /** A ring's positions in storage order, as the decoder and the completeness test leave them. */
  function Decoded(items: seq<Entry>, generation: nat): seq<GcEntry> {
    if items == [] then []
    else
      var rest := Decoded(items[1..], generation);
      if Complete(EntryOf(items[0], generation)) then [EntryOf(items[0], generation)] + rest else rest
  }

  ghost predicate HeldAs(items: seq<Entry>, generation: nat, e: GcEntry) {
    exists i :: 0 <= i < |items| && e == EntryOf(items[i], generation)
  }

  lemma HeldTail(items: seq<Entry>, generation: nat, e: GcEntry)
    requires items != []
    ensures HeldAs(items, generation, e) <==> e == EntryOf(items[0], generation) || HeldAs(items[1..], generation, e)
  {
    var rest := items[1..];
    if i :| 0 <= i < |items| && e == EntryOf(items[i], generation) {
      if i > 0 { assert rest[i - 1] == items[i]; }
    }
    if j :| 0 <= j < |rest| && e == EntryOf(rest[j], generation) { assert items[j + 1] == rest[j]; }
  }

  /** What a snapshot shows of a ring is every position that started before it stopped, and nothing else. */
  lemma {:induction false} DecodedHas(items: seq<Entry>, generation: nat, e: GcEntry)
    ensures e in Decoded(items, generation) <==> e.startTs < e.stopTs && HeldAs(items, generation, e)
    decreases |items|
  {
    if items != [] {
      DecodedHas(items[1..], generation, e);
      HeldTail(items, generation, e);
    }
  }

  /** Every Collection took some time. */
  ghost predicate AllTook(h: seq<Collection>) {
    forall k :: 0 <= k < |h| ==> h[k].tsStart < h[k].tsStop
  }

  /** The written, complete positions of a ring. */
  function Held(r: RingState, generation: nat): seq<GcEntry> {
    Filter(Of(generation), Decoded(r.items, generation))
  }

  lemma HeldIsPublished(r: RingState, generation: nat, e: GcEntry)
    requires Valid(r) && r.stage == 0 && e in Held(r, generation)
    ensures Published(r.history, e)
    ensures Max(1, |r.history| - |r.items| + 1) <= e.collections <= |r.history|
  {
    DecodedHas(r.items, generation, e);
    var i :| 0 <= i < |r.items| && e == EntryOf(r.items[i], generation);
    EntryKinds(r, i);
    QuiescentRing(r, e.collections);
  }

  lemma CounterIsHeld(r: RingState, generation: nat, c: int)
    requires Valid(r) && r.stage == 0 && AllTook(r.history) && Max(1, |r.history| - |r.items| + 1) <= c <= |r.history|
    ensures exists e :: e in Held(r, generation) && e.collections == c
  {
    QuiescentRing(r, c);
    var i :| 0 <= i < |r.items| && r.items[i].collections == c && c > 0;
    EntryKinds(r, i);
    var e := EntryOf(r.items[i], generation);
    DecodedHas(r.items, generation, e);
    assert e in Held(r, generation);
  }

  /** The oldest Collection a ring at rest still holds. */
  function Oldest(r: RingState): int { Max(1, |r.history| - |r.items| + 1) }

  /** What the ring holds is its own history, from the oldest to the newest. */
  lemma HeldWindow(r: RingState, generation: nat)
    requires Valid(r) && r.stage == 0 && AllTook(r.history) && |r.history| >= 1
    ensures Oldest(r) <= |r.history|
    ensures (forall e :: e in Held(r, generation) ==> Published(r.history, e))
    ensures Window(Held(r, generation), Oldest(r), |r.history|)
  {
    var es := Held(r, generation);
    forall e | e in es ensures Published(r.history, e) && Oldest(r) <= e.collections <= |r.history| {
      HeldIsPublished(r, generation, e);
    }
    CounterIsHeld(r, generation, Oldest(r));
    CounterIsHeld(r, generation, |r.history|);
  }

  /** A snapshot of a ring at rest, of two Entries or more, averages the pauses after the oldest Collection it holds. */
  lemma SnapshotAverage(r: RingState, generation: nat)
    requires Valid(r) && r.stage == 0 && AllTook(r.history) && |r.history| >= 2 && |r.items| >= 2
    ensures var n, lo := |r.history|, Oldest(r);
      AverageOf(Held(r, generation)) == PauseSum(r.history, lo, n) / (n - lo) as real
  {
    HeldWindow(r, generation);
    AverageIsMean(r.history, Held(r, generation), Oldest(r), |r.history|);
  }

  /** Its rate is the Collections after the oldest it holds, over the time from that one's start to the newest's stop. */
  lemma SnapshotRate(r: RingState, generation: nat)
    requires Valid(r) && r.stage == 0 && AllTook(r.history) && |r.history| >= 2 && |r.items| >= 2
    ensures var n, lo := |r.history|, Oldest(r);
      && r.history[lo - 1].tsStart < r.history[n - 1].tsStop
      && RateOf(Held(r, generation))
         == (n - lo) as real / ((r.history[n - 1].tsStop - r.history[lo - 1].tsStart) as real / 1000000000.0)
  {
    var n, lo := |r.history|, Oldest(r);
    HeldWindow(r, generation);
    RateIsOverWindow(r.history, Held(r, generation), lo, n);
    ClockRises(r.history, lo, n);
  }
}
