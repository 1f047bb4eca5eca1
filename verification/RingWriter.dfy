/**
 The probe's side of a ring: one generation's Entries, overwritten in place by one store at a
 time. `RingState` is the ring between any two stores, so a reader can land on every value it
 takes.
 */
module RingWriter {
  import opened Prelude
  import opened Records

  /** One Collection as it really ran. */
  datatype Collection = Collection(
    tsStart: int, tsStop: int, duration: real,
    collected: int, uncollectable: int, heapSize: int)

  datatype Entry = Entry(
    tsStart: int, tsStop: int, collections: int, collected: int,
    uncollectable: int, candidates: int, duration: real, heapSize: int)

  const ZERO := Entry(0, 0, 0, 0, 0, 0, 0.0, 0)

  /** The number of stores one publish makes: the index, the copy, and eight fields. */
  const STORES := 10

  /**
   A ring between two stores. `stage` counts the stores the running publish has made, zero when
   none is running; `pending` is the Collection being published; `history` holds every finished one.
   */
  datatype RingState = RingState(
    items: seq<Entry>, index: nat, stage: nat, pending: Collection, history: seq<Collection>)

  /** The Entry a finished publish leaves behind, over the Entry it was copied from. */
  function Extend(e: Entry, c: Collection): Entry {
    Entry(c.tsStart, c.tsStop, e.collections + 1, e.collected + c.collected,
          e.uncollectable + c.uncollectable, e.candidates, e.duration + c.duration, c.heapSize)
  }

  /** What a ring publishes for its `c`-th Collection: the running totals, and that one's bounds. */
  function Cum(h: seq<Collection>, c: int): (e: Entry)
    requires c <= |h|
    ensures e.collections == Max(c, 0)
    ensures c > 0 ==> e.tsStart == h[c - 1].tsStart && e.tsStop == h[c - 1].tsStop
    decreases Max(c, 0)
  {
    if c <= 0 then ZERO else Extend(Cum(h, c - 1), h[c - 1])
  }

  /** Summed over the Collections up to the `c`-th, but for the heap, which is as that one found it. */
  lemma {:induction false} CumMeans(h: seq<Collection>, c: nat)
    requires c <= |h|
    ensures Cum(h, c).collected == SumBy((x: Collection) => x.collected, h[..c])
    ensures Cum(h, c).uncollectable == SumBy((x: Collection) => x.uncollectable, h[..c])
    ensures Cum(h, c).heapSize == if c == 0 then 0 else h[c - 1].heapSize
    ensures Cum(h, c).candidates == 0
    decreases c
  {
    if c > 0 {
      CumMeans(h, c - 1);
      assert h[..c] == h[..c - 1] + [h[c - 1]] && [h[c - 1]][1..] == [];
      SumByConcat((x: Collection) => x.collected, h[..c - 1], [h[c - 1]]);
      SumByConcat((x: Collection) => x.uncollectable, h[..c - 1], [h[c - 1]]);
    }
  }

  lemma {:induction false} CumPrefix(h: seq<Collection>, g: seq<Collection>, c: int)
    requires c <= |h| && h <= g
    ensures Cum(h, c) == Cum(g, c)
    decreases Max(c, 0)
  {
    if c > 0 { CumPrefix(h, g, c - 1); }
  }

  /** One clock drives every Collection of a ring, and it never runs backwards. */
  ghost predicate Monotone(h: seq<Collection>) {
    && (forall k :: 0 <= k < |h| ==> h[k].tsStart <= h[k].tsStop)
    && (forall k :: 0 <= k < |h| ==> 0 <= h[k].tsStart)
    && (forall k :: 0 < k < |h| ==> h[k - 1].tsStop <= h[k].tsStart)
  }

  /** A later Collection of a ring starts no earlier than any before it stopped. */
  lemma {:induction false} StartsRise(h: seq<Collection>, a: int, b: int)
    requires Monotone(h) && 1 <= a < b <= |h|
    ensures h[a - 1].tsStop <= h[b - 1].tsStart && h[a - 1].tsStart <= h[b - 1].tsStart
    decreases b
  {
    assert h[b - 2].tsStop <= h[b - 1].tsStart;
    if a < b - 1 { StartsRise(h, a, b - 1); }
  }

  /** A Collection that takes time and starts once the last one is over. */
  function Next(h: seq<Collection>): Collection {
    var t := if h == [] then 0 else h[|h| - 1].tsStop;
    Collection(t, t + 1, 0.0, 0, 0, 0)
  }

  lemma NextFollows(h: seq<Collection>)
    requires Monotone(h)
    ensures Monotone(h + [Next(h)])
  {
    var more := h + [Next(h)];
    assert forall k :: 0 <= k < |h| ==> more[k] == h[k];
  }

  /** The field store number `k` writes. Store 9, of `tsStop`, is the one that publishes. */
  function StoreField(e: Entry, c: Collection, k: nat): Entry
  {
    match k
    case 2 => e.(tsStart := c.tsStart)
    case 3 => e.(collections := e.collections + 1)
    case 4 => e.(collected := e.collected + c.collected)
    case 5 => e.(uncollectable := e.uncollectable + c.uncollectable)
    case 6 => e.(candidates := e.candidates + 0)
    case 7 => e.(duration := e.duration + c.duration)
    case 8 => e.(heapSize := c.heapSize)
    case 9 => e.(tsStop := c.tsStop)
    case _ => e
  }

  /** Whether a publish of `c` may begin. */
  ghost predicate CanBegin(r: RingState, c: Collection) {
    && r.stage == 0
    && Monotone(r.history + [c])
    && |r.history| < I64_MAX
  }

  /** The first store of a publish: the index moves to the Entry about to be overwritten. */
  function Begin(r: RingState, c: Collection): RingState
    requires |r.items| > 0
  {
    r.(index := (r.index + 1) % |r.items|, stage := 1, pending := c)
  }

  /** The next store of the publish in progress. */
  function Step(r: RingState): RingState
    requires r.index < |r.items| && 0 < r.stage < STORES
  {
    if r.stage == 1 then
      // The index already moved, so the Entry copied forward is the one before it.
      r.(items := r.items[r.index := r.items[(r.index + |r.items| - 1) % |r.items|]], stage := 2)
    else
      var s := r.(items := r.items[r.index := StoreField(r.items[r.index], r.pending, r.stage)]);
      if r.stage == STORES - 1
      then s.(stage := 0, history := r.history + [r.pending])
      else s.(stage := r.stage + 1)
  }

  /** The Entry under construction once the copy and the field stores before `stage` have landed. */
  function Partial(e: Entry, c: Collection, stage: nat): Entry {
    if stage <= 2 then e else StoreField(Partial(e, c, stage - 1), c, stage - 1)
  }

  /** Every Entry holds the newest Collection congruent to its position, oldest counter `low` up. */
  ghost predicate Holds(r: RingState, low: int) {
    && |r.items| > 0
    && forall c :: low <= c <= |r.history| ==> r.items[c % |r.items|] == Cum(r.history, c)
  }

  ghost predicate Valid(r: RingState) {
    var n := |r.history|;
    var size := |r.items|;
    && size > 0
    && r.stage < STORES
    && Monotone(r.history)
    && n <= I64_MAX
    && if r.stage == 0 then
         r.index == n % size && Holds(r, n - size + 1)
       else
         && n < I64_MAX
         && Monotone(r.history + [r.pending])
         && r.index == (n + 1) % size
         && Holds(r, n - size + 2)
         && r.items[r.index] ==
              if r.stage == 1 then Cum(r.history, n + 1 - size)
              else Partial(Cum(r.history, n), r.pending, r.stage)
  }

  // ---- remainders ---------------------------------------------------------

  /** A non-zero multiple of `m` is at least `m` away from zero. */
  lemma MulBounds(m: int, d: int)
    requires m > 0
    ensures d >= 1 ==> m * d >= m
    ensures d <= -1 ==> m * d <= -m
  {
    if d >= 1 { assert m * d == m + m * (d - 1); }
    if d <= -1 { assert m * d == m * (d + 1) - m; }
  }

  lemma ModStep(a: int, m: int)
    requires m > 0
    ensures (a % m + 1) % m == (a + 1) % m
  {
    var q := a / m;
    assert a == m * q + a % m;
    ModUnique(a + 1, m, if a % m + 1 == m then q + 1 else q, if a % m + 1 == m then 0 else a % m + 1);
    ModUnique(a % m + 1, m, if a % m + 1 == m then 1 else 0, if a % m + 1 == m then 0 else a % m + 1);
  }

  lemma {:induction false} ModUnique(a: int, m: int, q: int, r: int)
    requires m > 0 && a == m * q + r && 0 <= r < m
    ensures a % m == r && a / m == q
  {
    var d := a / m - q;
    assert m * d == r - a % m by { assert m * (a / m) + a % m == a; }
    MulBounds(m, d);
  }

  lemma ModBack(a: int, m: int)
    requires m > 0
    ensures ((a + 1) % m + m - 1) % m == a % m
  {
    ModStep(a, m);
    var r := a % m;
    if r + 1 == m {
      ModUnique(r + 1, m, 1, 0);
      ModUnique(m - 1, m, 0, m - 1);
    } else {
      ModUnique(r + 1, m, 0, r + 1);
      ModUnique(r + m, m, 1, r);
    }
  }

  /** Two counters less than a ring's size apart never share an Entry. */
  lemma ModDistinct(a: int, b: int, m: int)
    requires 0 < b - a < m
    ensures a % m != b % m
  {
    if a % m == b % m {
      assert b - a == m * (b / m - a / m) by {
        assert a == m * (a / m) + a % m;
        assert b == m * (b / m) + b % m;
      }
      MulBounds(m, b / m - a / m);
      assert false;
    }
  }

  lemma ModPeriod(a: int, m: int)
    requires m > 0
    ensures (a - m) % m == a % m
  {
    ModUnique(a - m, m, a / m - 1, a % m);
  }

  /** The newest counter at or below `n` that position `i` of a ring of `m` Entries can hold. */
  function Holder(n: int, i: nat, m: int): (c: int)
    requires i < m
    ensures n - m < c <= n && c % m == i
  {
    var d := (n - i) % m;
    assert n - d == m * ((n - i) / m) + i;
    ModUnique(n - d, m, (n - i) / m, i);
    n - d
  }

  // ---- the invariant ------------------------------------------------------

  lemma BeginValid(r: RingState, c: Collection)
    requires Valid(r) && CanBegin(r, c)
    ensures Valid(Begin(r, c))
  {
    var n, size := |r.history|, |r.items|;
    ModStep(n, size);
    ModPeriod(n + 1, size);
    assert r.items[(n + 1 - size) % size] == Cum(r.history, n + 1 - size);
  }

  lemma CopyValid(r: RingState)
    requires Valid(r) && r.stage == 1
    ensures Valid(Step(r))
  {
    var n, size := |r.history|, |r.items|;
    var s := Step(r);
    ModBack(n, size);
    if size > 1 {
      assert r.items[n % size] == Cum(r.history, n);
    }
    forall c | n - size + 2 <= c <= n ensures s.items[c % size] == Cum(r.history, c) {
      ModDistinct(c, n + 1, size);
    }
    if size == 1 { assert r.items[r.index] == Cum(r.history, n); }
  }

  lemma FieldValid(r: RingState)
    requires Valid(r) && 2 <= r.stage < STORES - 1
    ensures Valid(Step(r))
  {
    var n, size := |r.history|, |r.items|;
    var s := Step(r);
    forall c | n - size + 2 <= c <= n ensures s.items[c % size] == Cum(r.history, c) {
      ModDistinct(c, n + 1, size);
    }
  }

  lemma {:induction false} PartialComplete(e: Entry, c: Collection)
    ensures StoreField(Partial(e, c, STORES - 1), c, STORES - 1) == Extend(e, c)
  {
    assert Partial(e, c, 3) == e.(tsStart := c.tsStart);
    assert Partial(e, c, 5) == e.(tsStart := c.tsStart, collections := e.collections + 1, collected := e.collected + c.collected);
    assert Partial(e, c, 7) == Partial(e, c, 5).(uncollectable := e.uncollectable + c.uncollectable);
    assert Partial(e, c, 9) == Partial(e, c, 7).(duration := e.duration + c.duration, heapSize := c.heapSize);
  }

  lemma PublishValid(r: RingState)
    requires Valid(r) && r.stage == STORES - 1
    ensures Valid(Step(r))
  {
    var n, size := |r.history|, |r.items|;
    var s := Step(r);
    PartialComplete(Cum(r.history, n), r.pending);
    CumPrefix(r.history, s.history, n);
    assert s.items[s.index] == Cum(s.history, n + 1);
    forall c | n - size + 2 <= c <= n + 1 ensures s.items[c % size] == Cum(s.history, c) {
      if c <= n {
        ModDistinct(c, n + 1, size);
        CumPrefix(r.history, s.history, c);
      }
    }
  }

  /** Every store of every publish keeps the ring valid. */
  lemma StepValid(r: RingState)
    requires Valid(r) && r.stage > 0
    ensures Valid(Step(r))
    ensures |Step(r).items| == |r.items|
    ensures Step(r).history == if r.stage == STORES - 1 then r.history + [r.pending] else r.history
  {
    if r.stage == 1 { CopyValid(r); }
    else if r.stage < STORES - 1 { FieldValid(r); }
    else { PublishValid(r); }
  }

  // ---- what a reader can find ---------------------------------------------

  /** An Entry no reader can be misled by: it fails the completeness test, or a finished Collection published it. */
  ghost predicate Honest(h: seq<Collection>, e: Entry) {
    e.tsStart < e.tsStop ==> 1 <= e.collections <= |h| && e == Cum(h, e.collections)
  }

  lemma {:induction false} PartialInFlight(e: Entry, c: Collection, stage: nat)
    requires 3 <= stage < STORES
    ensures Partial(e, c, stage).tsStart == c.tsStart && Partial(e, c, stage).tsStop == e.tsStop
  {
    if stage > 3 { PartialInFlight(e, c, stage - 1); }
  }

  /** Away from the position being overwritten, the newest holder is not the one it would evict. */
  lemma HolderElsewhere(n: int, i: nat, size: int)
    requires i < size && i != (n + 1) % size
    ensures Holder(n, i, size) >= n - size + 2
  {
    if Holder(n, i, size) == n - size + 1 { ModPeriod(n + 1, size); }
  }

  lemma {:induction false} HoldsAt(r: RingState, low: int, c: int, i: nat)
    requires Holds(r, low) && low <= c <= |r.history| && i < |r.items| && c % |r.items| == i
    ensures r.items[i] == Cum(r.history, c)
  {}

  lemma SettledEntry(r: RingState, i: nat)
    requires Valid(r) && i < |r.items| && (r.stage == 0 || i != r.index)
    ensures r.items[i] == Cum(r.history, Holder(|r.history|, i, |r.items|))
  {
    var n, size := |r.history|, |r.items|;
    if r.stage == 0 {
      HoldsAt(r, n - size + 1, Holder(n, i, size), i);
    } else {
      HolderElsewhere(n, i, size);
      HoldsAt(r, n - size + 2, Holder(n, i, size), i);
    }
  }

  lemma InFlightEntry(r: RingState)
    requires Valid(r) && r.stage >= 3
    ensures r.items[r.index].tsStop <= r.items[r.index].tsStart
  {
    var n := |r.history|;
    PartialInFlight(Cum(r.history, n), r.pending, r.stage);
    var g := r.history + [r.pending];
    if n > 0 { assert g[n - 1].tsStop <= g[n].tsStart; } else { assert 0 <= g[n].tsStart; }
  }

  /**
   What each position holds at every store point: the newest Collection it can hold, or, at the
   position being overwritten, a copy of its predecessor or an Entry that reads as in flight.
   */
  lemma EntryKinds(r: RingState, i: nat)
    requires Valid(r) && i < |r.items|
    ensures r.stage == 0 ==> r.items[i] == Cum(r.history, Holder(|r.history|, i, |r.items|))
    ensures r.stage > 0 && i != r.index ==> r.items[i] == Cum(r.history, Holder(|r.history|, i, |r.items|))
    ensures r.stage == 1 && i == r.index ==> r.items[i] == Cum(r.history, |r.history| + 1 - |r.items|)
    ensures r.stage == 2 && i == r.index ==> r.items[i] == Cum(r.history, |r.history|)
    ensures r.stage >= 3 && i == r.index ==> r.items[i].tsStop <= r.items[i].tsStart
    ensures Honest(r.history, r.items[i])
  {
    if r.stage == 0 || i != r.index {
      SettledEntry(r, i);
    } else if r.stage >= 3 {
      InFlightEntry(r);
    }
  }

  /** A quiescent ring holds exactly the last `min(n, SIZE)` Collections, each at its own position. */
  lemma QuiescentRing(r: RingState, c: int)
    requires Valid(r) && r.stage == 0
    ensures (exists i :: 0 <= i < |r.items| && r.items[i].collections == c && c > 0)
       <==> Max(1, |r.history| - |r.items| + 1) <= c <= |r.history|
  {
    var n, size := |r.history|, |r.items|;
    if i :| 0 <= i < size && r.items[i].collections == c && c > 0 {
      EntryKinds(r, i);
    }
    if Max(1, n - size + 1) <= c <= n {
      assert r.items[c % size] == Cum(r.history, c);
    }
  }

  /** The Record a reader decodes from an Entry. */
  function Decode(e: Entry, interpreter: int, generation: nat, index: nat): Record
    requires 0 <= e.collections <= I64_MAX
  {
    Record(interpreter, generation, index, true, true, e.tsStart, e.tsStop,
           e.collections, e.collected, e.uncollectable, Finite(e.duration))
  }

  lemma {:induction false} PartialCounter(e: Entry, c: Collection, stage: nat)
    requires stage < STORES
    ensures e.collections <= Partial(e, c, stage).collections <= e.collections + 1
    ensures stage <= 3 ==> Partial(e, c, stage).collections == e.collections
  {
    if stage > 2 { PartialCounter(e, c, stage - 1); }
    if stage == 5 || stage > 3 { PartialCounterLate(e, c, stage); }
  }

  lemma {:induction false} PartialCounterLate(e: Entry, c: Collection, stage: nat)
    requires 4 <= stage < STORES
    ensures Partial(e, c, stage).collections == e.collections + 1
  {
    if stage > 4 { PartialCounterLate(e, c, stage - 1); }
    else { assert Partial(e, c, 3) == e.(tsStart := c.tsStart); }
  }

  /** No counter a reader can find leaves the machine's range. */
  lemma CounterRange(r: RingState, i: nat)
    requires Valid(r) && i < |r.items|
    ensures 0 <= r.items[i].collections <= I64_MAX
  {
    EntryKinds(r, i);
    if r.stage >= 3 && i == r.index {
      PartialCounter(Cum(r.history, |r.history|), r.pending, r.stage);
    }
  }

  // ---- the ring in memory ---------------------------------------------------

  /** One generation's ring, written in place. */
  class StatsRing {
    const items: array<Entry>
    var index: nat
    ghost var stage: nat
    var pending: Collection
    ghost var history: seq<Collection>

    ghost function State(): RingState
      reads this, items
    {
      RingState(items[..], index, stage, pending, history)
    }

    /** A ring as the process starts with it: zeroed storage. */
    constructor (size: nat)
      requires size > 0
      ensures Valid(State()) && stage == 0 && history == []
      ensures fresh(items) && items.Length == size
      ensures items[..] == seq(size, _ => ZERO)
    {
      items := new Entry[size](_ => ZERO);
      index, stage, history := 0, 0, [];
      pending := Collection(0, 0, 0.0, 0, 0, 0);
      new;
      forall c: int | c <= 0 && 0 <= c % size ensures items[c % size] == Cum([], c) {}
    }

    /** One field store of the publish in progress: `e` is the current Entry with that field written. */
    method Put(e: Entry)
      requires Valid(State()) && 2 <= stage < STORES
      requires index < items.Length ==> e == StoreField(items[index], pending, stage)
      modifies this`stage, this`history, items
      ensures Valid(State())
      ensures State() == Step(old(State()))
      ensures stage == if old(stage) == STORES - 1 then 0 else old(stage) + 1
      ensures history == if old(stage) == STORES - 1 then old(history) + [pending] else old(history)
      ensures items[..] == old(items[..])[index := e]
    {
      ghost var s := State();
      StepValid(s);
      items[index] := e;
      history := if stage == STORES - 1 then history + [pending] else history;
      stage := if stage == STORES - 1 then 0 else stage + 1;
      assert State() == Step(s);
    }

    /** The first two stores: the index moves on, and the previous Entry is copied forward whole. */
    method CopyForward(c: Collection)
      requires Valid(State()) && CanBegin(State(), c)
      modifies this`index, this`stage, this`pending, items
      ensures Valid(State())
      ensures State() == Step(Begin(old(State()), c))
      ensures stage == 2 && pending == c
      ensures items[..] == old(items[..])[index := old(items[index])]
    {
      ghost var s := State();
      var prev := items[index];
      index := (index + 1) % items.Length;
      stage, pending := 1, c;
      BeginValid(s, c);
      assert State() == Begin(s, c);
      ModBack(|history|, items.Length);
      StepValid(Begin(s, c));
      items[index] := prev;
      stage := 2;
      assert State() == Step(Begin(s, c));
    }

    /** The index, the copy and the start: from here on the Entry reads as in flight. */
    method PutStart(c: Collection)
      requires Valid(State()) && CanBegin(State(), c)
      modifies this, items
      ensures Valid(State()) && stage == 3 && pending == c && history == old(history)
      ensures index < items.Length
      ensures items[..] == old(items[..])[index := items[index]]
    {
      CopyForward(c);
      Put(items[index].(tsStart := c.tsStart));
    }

    /** The counter, and the objects collected with it. */
    method PutCounters()
      requires Valid(State()) && stage == 3
      modifies this`stage, this`history, items
      ensures Valid(State()) && stage == 5 && history == old(history)
      ensures index < items.Length
      ensures items[..] == old(items[..])[index := items[index]]
    {
      Put(items[index].(collections := items[index].collections + 1));
      Put(items[index].(collected := items[index].collected + pending.collected));
    }

    /** The two totals beside it. This build fills no `candidates`. */
    method PutGarbage()
      requires Valid(State()) && stage == 5
      modifies this`stage, this`history, items
      ensures Valid(State()) && stage == 7 && history == old(history)
      ensures index < items.Length
      ensures items[..] == old(items[..])[index := items[index]]
    {
      Put(items[index].(uncollectable := items[index].uncollectable + pending.uncollectable));
      Put(items[index].(candidates := items[index].candidates + 0));
    }

    /** The remaining stores. The last one publishes. */
    method PutRest()
      requires Valid(State()) && stage == 7
      modifies this`stage, this`history, items
      ensures Valid(State()) && stage == 0 && history == old(history) + [pending]
      ensures index < items.Length
      ensures items[..] == old(items[..])[index := items[index]]
    {
      Put(items[index].(duration := items[index].duration + pending.duration));
      Put(items[index].(heapSize := pending.heapSize));
      Put(items[index].(tsStop := pending.tsStop));
    }

    /**
     Publish one Collection. Between any two stores the ring is valid, which is all a reader
     landing there relies on.
     */
    method AddStats(c: Collection)
      requires Valid(State()) && CanBegin(State(), c)
      modifies this, items
      ensures Valid(State()) && stage == 0
      ensures history == old(history) + [c]
      ensures index == |history| % items.Length
      ensures items[index] == Cum(history, |history|)
      ensures items[..] == old(items[..])[index := items[index]]
    {
      PutStart(c);
      PutCounters();
      PutGarbage();
      PutRest();
      NewestAtIndex(State());
    }
  }

  lemma NewestAtIndex(r: RingState)
    requires Valid(r) && r.stage == 0
    ensures r.index < |r.items| && r.items[r.index] == Cum(r.history, |r.history|)
  {
    assert r.items[|r.history| % |r.items|] == Cum(r.history, |r.history|);
  }
}
