/**
 The callback that turns a collector's start and stop into published Collections. What the ring
 writer takes for granted about its clock, and the reader about durations, is settled here.
 */
module ProbeCallback {
  import opened Prelude
  import opened RingWriter
  import Exact = MonitorExact
  import Loss

  const GENERATIONS: nat := 3

  /** One call: which phase, the clock's reading, and what the collector passed along. */
  datatype Call = Start(now: int, heap: int) | Stop(now: int, generation: int, collected: int, uncollectable: int)

  /** A start waiting for its stop, and the Collections published per generation. */
  datatype Slot = Slot(pending: Option<(int, int)>, published: seq<seq<Collection>>)

  const CLAIMED := Slot(None, [[], [], []])

  function Finished(start: int, heap: int, c: Call): Collection
    requires c.Stop?
  {
    Collection(start, c.now, (c.now - start) as real / Loss.NS_PER_SEC, c.collected, c.uncollectable, heap)
  }

  /** A stop publishes if a start is waiting and the generation is one; either way the start is spent. */
  function OnGc(s: Slot, c: Call): Slot
    requires |s.published| == GENERATIONS
  {
    match c
    case Start(now, heap) => s.(pending := Some((now, heap)))
    case Stop(_, g, _, _) =>
      if s.pending.None? then s
      else if g < 0 || g >= GENERATIONS then s.(pending := None)
      else Slot(None, s.published[g := s.published[g] + [Finished(s.pending.value.0, s.pending.value.1, c)]])
  }

  function Calls(s: Slot, cs: seq<Call>): (t: Slot)
    requires |s.published| == GENERATIONS
    ensures |t.published| == GENERATIONS
    decreases |cs|
  {
    if cs == [] then s else Calls(OnGc(s, cs[0]), cs[1..])
  }

  /** The clock never runs backwards, from `from` on. */
  predicate Timely(cs: seq<Call>, from: int) {
    cs != [] ==> cs[0].now >= from && forall i :: 0 < i < |cs| ==> cs[i].now >= cs[i - 1].now
  }

  /** Every stop published is past, and past any start still waiting. */
  ghost predicate InTime(s: Slot, clock: int) {
    && |s.published| == GENERATIONS && clock >= 0
    && (s.pending.Some? ==> 0 <= s.pending.value.0 <= clock)
    && forall g :: 0 <= g < GENERATIONS ==> Monotone(s.published[g]) && Exact.PricedExactly(s.published[g])
                                            && Before(s.published[g], if s.pending.Some? then s.pending.value.0 else clock)
  }

  predicate Before(h: seq<Collection>, moment: int) {
    h != [] ==> h[|h| - 1].tsStop <= moment
  }

  lemma AppendInTime(h: seq<Collection>, start: int, heap: int, c: Call)
    requires c.Stop? && Monotone(h) && Exact.PricedExactly(h) && Before(h, start) && 0 <= start <= c.now
    ensures var more := h + [Finished(start, heap, c)];
      Monotone(more) && Exact.PricedExactly(more) && Before(more, c.now)
  {}

  lemma PublishesInTime(s: Slot, c: Call, clock: int)
    requires InTime(s, clock) && clock <= c.now && c.Stop? && s.pending.Some? && 0 <= c.generation < GENERATIONS
    ensures Monotone(s.published[c.generation] + [Finished(s.pending.value.0, s.pending.value.1, c)])
  {
    AppendInTime(s.published[c.generation], s.pending.value.0, s.pending.value.1, c);
  }

  lemma OnGcInTime(s: Slot, c: Call, clock: int)
    requires InTime(s, clock) && clock <= c.now
    ensures InTime(OnGc(s, c), c.now)
  {
    if c.Stop? && s.pending.Some? && 0 <= c.generation < GENERATIONS {
      AppendInTime(s.published[c.generation], s.pending.value.0, s.pending.value.1, c);
    }
  }

  /**
   Whatever the collector calls in whatever order, each ring's Collections come out as the writer
   needs them, in time and never overlapping, each priced at exactly its own width.
   */
  lemma {:induction false} CallsInTime(s: Slot, cs: seq<Call>, clock: int)
    requires InTime(s, clock) && Timely(cs, clock)
    ensures forall g :: 0 <= g < GENERATIONS ==>
      Monotone(Calls(s, cs).published[g]) && Exact.PricedExactly(Calls(s, cs).published[g])
    decreases |cs|
  {
    if cs != [] {
      OnGcInTime(s, cs[0], clock);
      CallsInTime(OnGc(s, cs[0]), cs[1..], cs[0].now);
    }
  }

  function Published(s: Slot): nat
    requires |s.published| == GENERATIONS
  {
    |s.published[0]| + |s.published[1]| + |s.published[2]|
  }

  function Starts(cs: seq<Call>): nat {
    if cs == [] then 0 else (if cs[0].Start? then 1 else 0) + Starts(cs[1..])
  }

  /** No start is published twice, and a stop with none waiting publishes nothing. */
  lemma {:induction false} PublishedAtMostOnce(s: Slot, cs: seq<Call>)
    requires |s.published| == GENERATIONS
    ensures Published(Calls(s, cs)) + (if Calls(s, cs).pending.Some? then 1 else 0)
         <= Published(s) + (if s.pending.Some? then 1 else 0) + Starts(cs)
    decreases |cs|
  {
    if cs != [] { PublishedAtMostOnce(OnGc(s, cs[0]), cs[1..]); }
  }

  // ---- exactly what is published ----------------------------------------------------------------

  /** Call `k` is a stop of generation `g`, and the call right before it the start it closes. */
  predicate Closes(cs: seq<Call>, k: nat, g: int) {
    0 < k < |cs| && cs[k - 1].Start? && cs[k].Stop? && cs[k].generation == g
  }

  /** What such a stop says, with what its start did: both ends of the clock, the width in seconds, and the counts as they came. */
  function Spanned(cs: seq<Call>, k: nat, g: int): Collection
    requires Closes(cs, k, g)
  {
    Collection(cs[k - 1].now, cs[k].now, (cs[k].now - cs[k - 1].now) as real / 1000000000.0,
               cs[k].collected, cs[k].uncollectable, cs[k - 1].heap)
  }

  /** The stops of generation `g` that close a start, in order, among the first `n` calls. */
  function ClosedSpans(cs: seq<Call>, n: nat, g: int): seq<Collection>
    requires n <= |cs|
  {
    if n == 0 then []
    else ClosedSpans(cs, n - 1, g) + if Closes(cs, n - 1, g) then [Spanned(cs, n - 1, g)] else []
  }

  lemma {:induction false} CallsSnoc(s: Slot, cs: seq<Call>, c: Call)
    requires |s.published| == GENERATIONS
    ensures Calls(s, cs + [c]) == OnGc(Calls(s, cs), c)
    decreases |cs|
  {
    if cs == [] {
      assert [] + [c] == [c] && [c][1..] == [];
    } else {
      assert (cs + [c])[0] == cs[0] && (cs + [c])[1..] == cs[1..] + [c];
      CallsSnoc(OnGc(s, cs[0]), cs[1..], c);
    }
  }

  /**
   From a slot as it is claimed, whatever is called: ring `g` holds exactly the stops of generation
   `g` that closed a start, in order, field by field, and a start waits exactly when it was the last call.
   */
  lemma {:induction false} RingsHoldTheirStops(cs: seq<Call>, n: nat)
    requires n <= |cs|
    ensures var s := Calls(CLAIMED, cs[..n]);
      && (forall g :: 0 <= g < 3 ==> s.published[g] == ClosedSpans(cs, n, g))
      && s.pending == if n > 0 && cs[n - 1].Start? then Some((cs[n - 1].now, cs[n - 1].heap)) else None
    decreases n
  {
    if n > 0 {
      RingsHoldTheirStops(cs, n - 1);
      assert cs[..n] == cs[..n - 1] + [cs[n - 1]];
      CallsSnoc(CLAIMED, cs[..n - 1], cs[n - 1]);
    } else {
      assert cs[..n] == [];
    }
  }

  // ---- the slot in memory ---------------------------------------------------------------

  class ProbeSlot {
    const young: StatsRing
    const old0: StatsRing
    const old1: StatsRing
    var pendingValid: bool
    var pendingStart: int
    var pendingHeap: int

    function Ring(g: int): StatsRing
      requires 0 <= g < GENERATIONS
    {
      if g == 0 then young else if g == 1 then old0 else old1
    }

    ghost function State(): Slot
      reads this, young, old0, old1
    {
      Slot(if pendingValid then Some((pendingStart, pendingHeap)) else None, [young.history, old0.history, old1.history])
    }

    /** Three rings at rest, in three separate arrays. */
    ghost predicate Valid()
      reads this, young, old0, old1, young.items, old0.items, old1.items
    {
      && young != old0 && young != old1 && old0 != old1
      && young.items != old0.items && young.items != old1.items && old0.items != old1.items
      && forall g :: 0 <= g < GENERATIONS ==> RingWriter.Valid(Ring(g).State()) && Ring(g).stage == 0
    }

    /** A slot as it is claimed: nothing waiting, every ring untouched. */
    constructor (youngSize: nat, oldSize: nat)
      requires youngSize > 0 && oldSize > 0
      ensures Valid() && State() == CLAIMED
      ensures fresh(young) && fresh(old0) && fresh(old1) && fresh(young.items) && fresh(old0.items) && fresh(old1.items)
    {
      young := new StatsRing(youngSize);
      old0 := new StatsRing(oldSize);
      old1 := new StatsRing(oldSize);
      pendingValid, pendingStart, pendingHeap := false, 0, 0;
    }

    /** The callback itself. Its rings never meet a Collection they cannot publish. */
    method Callback(c: Call, ghost clock: int)
      requires Valid() && InTime(State(), clock) && clock <= c.now
      requires forall g :: 0 <= g < GENERATIONS ==> |Ring(g).history| < I64_MAX
      modifies this, young, old0, old1, young.items, old0.items, old1.items
      ensures Valid() && State() == OnGc(old(State()), c)
    {
      if c.Start? {
        pendingHeap := c.heap;
        pendingStart := c.now;
        pendingValid := true;
        return;
      }
      if !pendingValid { return; }
      ghost var s := State();
      pendingValid := false;
      if c.generation < 0 || c.generation >= GENERATIONS { return; }
      var finished := Finished(pendingStart, pendingHeap, c);
      assert s.published[c.generation] == Ring(c.generation).history;
      PublishesInTime(s, c, clock);
      Publish(c.generation, finished);
    }

    /** Hand one Collection to its generation's ring. */
    method Publish(g: int, finished: Collection)
      requires Valid() && 0 <= g < GENERATIONS && CanBegin(Ring(g).State(), finished)
      modifies Ring(g), Ring(g).items
      ensures Valid()
      ensures State() == old(State()).(published := old(State().published)[g := old(Ring(g).history) + [finished]])
    {
      Ring(g).AddStats(finished);
    }
  }
}
