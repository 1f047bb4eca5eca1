/** Grouping what every ring did into one block per interpreter, in one walk. */
module Summary {
  import opened Prelude
  import opened Records
  import opened StableSort
  import opened Observation
  import opened Cursors
  import opened Loss
  import Accounting = CursorAccounting
  import Laws = CursorLaws
  import Runs = CursorRuns

  /** One generation's figures over one observation span. */
  datatype Row = Row(generation: nat, collected: int, uncollectable: int, records: nat, account: LossAccount)

  datatype Block = Block(pid: int, interpreter: int, rows: seq<Row>)

  /** A row with whose it is and the span it was observed over. */
  datatype Item = Item(pid: int, interpreter: int, span: nat, row: Row)

  function ItemOf(r: Retired): Item
    requires Sound(r.observation)
  {
    var o := r.observation;
    Item(r.key.pid, r.key.interpreter, r.span,
         Row(r.key.generation, o.last.collected - o.first.collected, o.last.uncollectable - o.first.uncollectable,
             o.sampled, Account(o)))
  }

  ghost predicate AllSound(obs: seq<Retired>) {
    forall k :: 0 <= k < |obs| ==> Sound(obs[k].observation)
  }

  function Items(obs: seq<Retired>): (r: seq<Item>)
    requires AllSound(obs)
    ensures |r| == |obs| && forall k :: 0 <= k < |obs| ==> r[k] == ItemOf(obs[k])
  {
    seq(|obs|, k requires 0 <= k < |obs| && AllSound(obs) => ItemOf(obs[k]))
  }

  // ---- the grouping --------------------------------------------------------------------

  /** Whether a row joins a block: same interpreter, and a generation the block does not have yet. */
  predicate Joins(b: Block, x: Item) {
    b.pid == x.pid && b.interpreter == x.interpreter && forall k :: 0 <= k < |b.rows| ==> b.rows[k].generation != x.row.generation
  }

  function Append(b: Block, x: Item): Block { b.(rows := b.rows + [x.row]) }

  function Alone(x: Item): Block { Block(x.pid, x.interpreter, [x.row]) }

  function Last<T>(s: seq<T>): T
    requires s != []
  {
    s[|s| - 1]
  }

  function Init<T>(s: seq<T>): seq<T>
    requires s != []
  {
    s[..|s| - 1]
  }

  function Push(blocks: seq<Block>, x: Item): seq<Block> {
    if blocks != [] && Joins(Last(blocks), x) then Init(blocks) + [Append(Last(blocks), x)]
    else blocks + [Alone(x)]
  }

  function Group(items: seq<Item>): seq<Block> {
    if items == [] then [] else Push(Group(Init(items)), Last(items))
  }

  method Summarize(obs: seq<Retired>) returns (blocks: seq<Block>)
    requires AllSound(obs)
    ensures blocks == Group(Items(obs))
  {
    blocks := [];
    for i := 0 to |obs|
      invariant blocks == Group(Items(obs)[..i])
    {
      var x := ItemOf(obs[i]);
      assert Init(Items(obs)[..i + 1]) == Items(obs)[..i] && Last(Items(obs)[..i + 1]) == x;
      if |blocks| > 0 && Joins(blocks[|blocks| - 1], x) {
        var last := blocks[|blocks| - 1];
        blocks := blocks[..|blocks| - 1] + [Block(last.pid, last.interpreter, last.rows + [x.row])];
      } else {
        blocks := blocks + [Block(x.pid, x.interpreter, [x.row])];
      }
    }
    assert Items(obs)[..|obs|] == Items(obs);
  }

  // ---- a partition ----------------------------------------------------------------------

  function Tag(b: Block): (r: seq<(int, int, Row)>)
    ensures |r| == |b.rows| && forall k :: 0 <= k < |r| ==> r[k] == (b.pid, b.interpreter, b.rows[k])
  {
    seq(|b.rows|, k requires 0 <= k < |b.rows| => (b.pid, b.interpreter, b.rows[k]))
  }

  /** Every row of every block in order, with whose it is. */
  function Ungroup(blocks: seq<Block>): seq<(int, int, Row)> {
    if blocks == [] then [] else Ungroup(Init(blocks)) + Tag(Last(blocks))
  }

  function Tagged(items: seq<Item>): (r: seq<(int, int, Row)>)
    ensures |r| == |items| && forall k :: 0 <= k < |r| ==> r[k] == (items[k].pid, items[k].interpreter, items[k].row)
  {
    seq(|items|, k requires 0 <= k < |items| => (items[k].pid, items[k].interpreter, items[k].row))
  }

  /** The blocks in order give back every row in order, none lost, none twice, each under its own interpreter. */
  lemma {:induction false} GroupIsPartition(items: seq<Item>)
    ensures Ungroup(Group(items)) == Tagged(items)
    decreases |items|
  {
    if items != [] {
      var init, x := Init(items), Last(items);
      GroupIsPartition(init);
      PushUngroups(Group(init), x);
      assert Tagged(items) == Tagged(init) + [(x.pid, x.interpreter, x.row)];
    }
  }

  lemma {:induction false} PushUngroups(blocks: seq<Block>, x: Item)
    ensures Ungroup(Push(blocks, x)) == Ungroup(blocks) + [(x.pid, x.interpreter, x.row)]
  {
    if blocks != [] && Joins(Last(blocks), x) {
      var b := Append(Last(blocks), x);
      assert Init(Init(blocks) + [b]) == Init(blocks) && Last(Init(blocks) + [b]) == b;
      assert Tag(b) == Tag(Last(blocks)) + [(x.pid, x.interpreter, x.row)];
      assert Ungroup(Init(blocks)) + (Tag(Last(blocks)) + [(x.pid, x.interpreter, x.row)])
          == Ungroup(Init(blocks)) + Tag(Last(blocks)) + [(x.pid, x.interpreter, x.row)];
    } else {
      assert Init(blocks + [Alone(x)]) == blocks && Last(blocks + [Alone(x)]) == Alone(x);
      assert Tag(Alone(x)) == [(x.pid, x.interpreter, x.row)];
    }
  }

  ghost predicate Tidy(b: Block) {
    b.rows != [] && forall i, j :: 0 <= i < j < |b.rows| ==> b.rows[i].generation != b.rows[j].generation
  }

  lemma AppendTidy(b: Block, x: Item)
    requires Tidy(b) && Joins(b, x)
    ensures Tidy(Append(b, x))
  {}

  ghost predicate AllTidy(blocks: seq<Block>) {
    forall k :: 0 <= k < |blocks| ==> Tidy(blocks[k])
  }

  lemma PushTidy(blocks: seq<Block>, x: Item)
    requires AllTidy(blocks)
    ensures AllTidy(Push(blocks, x))
  {
    if blocks != [] && Joins(Last(blocks), x) {
      AppendTidy(Last(blocks), x);
    } else {
      assert Tidy(Alone(x));
    }
  }

  /** No block is empty and none repeats a generation. */
  lemma {:induction false} BlocksAreTidy(items: seq<Item>)
    ensures AllTidy(Group(items))
    decreases |items|
  {
    if items != [] {
      BlocksAreTidy(Init(items));
      PushTidy(Group(Init(items)), Last(items));
    }
  }

  // ---- blocks and observation spans ------------------------------------------------------

  predicate SameSpan(a: Item, b: Item) {
    a.pid == b.pid && a.interpreter == b.interpreter && a.span == b.span
  }

  /** The order rows arrive in: by process, interpreter, span, generation, no two alike. */
  predicate Before(a: Item, b: Item) {
    || a.pid < b.pid
    || (a.pid == b.pid && (a.interpreter < b.interpreter
        || (a.interpreter == b.interpreter && (a.span < b.span
            || (a.span == b.span && a.row.generation < b.row.generation)))))
  }

  ghost predicate Ordered(items: seq<Item>) {
    forall i, j :: 0 <= i < j < |items| ==> Before(items[i], items[j])
  }

  /** One block a span. */
  function BySpan(items: seq<Item>): (blocks: seq<Block>)
    ensures items != [] ==> blocks != []
  {
    if items == [] then []
    else
      var init, x := Init(items), Last(items);
      if init != [] && SameSpan(Last(init), x) then Init(BySpan(init)) + [Append(Last(BySpan(init)), x)]
      else BySpan(init) + [Alone(x)]
  }

  predicate Opens(items: seq<Item>, i: nat)
    requires i < |items|
  {
    i == 0 || !SameSpan(items[i - 1], items[i])
  }

  /** The rows of the span `items` ends in. */
  function LastSpan(items: seq<Item>): (rows: seq<Row>)
    requires items != []
    ensures rows != []
  {
    if |items| > 1 && SameSpan(items[|items| - 2], items[|items| - 1]) then LastSpan(Init(items)) + [Last(items).row]
    else [Last(items).row]
  }

  predicate HasGeneration(rows: seq<Row>, g: nat) {
    exists k :: 0 <= k < |rows| && rows[k].generation == g
  }

  /**
   Every span that follows another of the same interpreter opens with a generation that one had:
   the one thing that tells the walk a new span has begun.
   */
  ghost predicate SpansShow(items: seq<Item>) {
    forall i :: 0 < i < |items| && Opens(items, i)
      && items[i].pid == items[i - 1].pid && items[i].interpreter == items[i - 1].interpreter
      ==> HasGeneration(LastSpan(items[..i]), items[i].row.generation)
  }

  lemma {:induction false} LastBlockIsSpan(items: seq<Item>)
    requires items != []
    ensures Last(BySpan(items)) == Block(Last(items).pid, Last(items).interpreter, LastSpan(items))
    decreases |items|
  {
    var init := Init(items);
    if init != [] && SameSpan(Last(init), Last(items)) { LastBlockIsSpan(init); }
  }

  /** Within a span the generations rise. */
  lemma {:induction false} SpanRises(items: seq<Item>)
    requires Ordered(items) && items != []
    ensures forall k :: 0 <= k < |LastSpan(items)| ==> LastSpan(items)[k].generation <= Last(items).row.generation
    decreases |items|
  {
    var init := Init(items);
    if init != [] && SameSpan(Last(init), Last(items)) {
      SpanRises(init);
      assert Before(items[|items| - 2], items[|items| - 1]);
    }
  }

  /** One step: a row that stays in its span joins the block, and one that opens a span does exactly when nothing shows it. */
  lemma {:induction false} StepJoins(init: seq<Item>, x: Item)
    requires init != [] && Ordered(init + [x])
    ensures var b := Last(BySpan(init));
      && (SameSpan(Last(init), x) ==> Joins(b, x))
      && (!SameSpan(Last(init), x) ==>
            (Joins(b, x) <==> Last(init).pid == x.pid && Last(init).interpreter == x.interpreter
                              && !HasGeneration(LastSpan(init), x.row.generation)))
  {
    LastBlockIsSpan(init);
    var items := init + [x];
    assert forall k :: 0 <= k < |init| ==> items[k] == init[k];
    SpanRises(init);
    assert Before(items[|init| - 1], items[|init|]);
  }

  lemma PrefixOrdered(items: seq<Item>)
    requires Ordered(items) && items != []
    ensures Ordered(Init(items))
  {}

  lemma PrefixShows(items: seq<Item>)
    requires SpansShow(items) && items != []
    ensures SpansShow(Init(items))
  {
    var init := Init(items);
    forall i | 0 < i < |init| && Opens(init, i) && init[i].pid == init[i - 1].pid && init[i].interpreter == init[i - 1].interpreter
      ensures HasGeneration(LastSpan(init[..i]), init[i].row.generation)
    {
      assert init[..i] == items[..i] && Opens(items, i);
    }
  }

  lemma {:induction false} ShownSpansAreBlocks(items: seq<Item>)
    requires Ordered(items) && SpansShow(items)
    ensures Group(items) == BySpan(items)
    decreases |items|
  {
    if items != [] {
      var init, x := Init(items), Last(items);
      PrefixOrdered(items);
      PrefixShows(items);
      ShownSpansAreBlocks(init);
      if init != [] {
        assert items == init + [x];
        StepJoins(init, x);
        if !SameSpan(Last(init), x) { assert Opens(items, |init|) && items[..|init|] == init; }
      }
    }
  }

  /** Block `m` is there with so many rows or more. */
  predicate AtLeast(blocks: seq<Block>, m: nat, rows: nat) {
    m < |blocks| && |blocks[m].rows| >= rows
  }

  lemma PushGrows(blocks: seq<Block>, x: Item, m: nat, rows: nat)
    requires AtLeast(blocks, m, rows)
    ensures AtLeast(Push(blocks, x), m, rows)
  {}

  /** A block, once begun, keeps its place and only gains rows. */
  lemma {:induction false} GroupGrows(items: seq<Item>, n: nat, m: nat, rows: nat)
    requires n <= |items| && AtLeast(Group(items[..n]), m, rows)
    ensures AtLeast(Group(items), m, rows)
    decreases |items|
  {
    if n < |items| {
      var init := Init(items);
      assert init[..n] == items[..n];
      GroupGrows(init, n, m, rows);
      PushGrows(Group(init), Last(items), m, rows);
    } else {
      assert items[..n] == items;
    }
  }

  /** A span's block, once another follows, never changes. */
  lemma {:induction false} BySpanFixed(items: seq<Item>, n: nat, m: nat)
    requires n <= |items| && m + 1 < |BySpan(items[..n])|
    ensures m + 1 < |BySpan(items)| && BySpan(items)[m] == BySpan(items[..n])[m]
    decreases |items|
  {
    if n < |items| {
      var init := Init(items);
      assert init[..n] == items[..n];
      BySpanFixed(init, n, m);
    } else {
      assert items[..n] == items;
    }
  }

  /** The first span nothing shows. */
  lemma {:induction false} FirstHidden(items: seq<Item>) returns (i: nat)
    requires !SpansShow(items)
    ensures 0 < i < |items| && SpansShow(items[..i]) && Opens(items, i)
    ensures items[i].pid == items[i - 1].pid && items[i].interpreter == items[i - 1].interpreter
    ensures !HasGeneration(LastSpan(items[..i]), items[i].row.generation)
    decreases |items|
  {
    var init := Init(items);
    if !SpansShow(init) {
      i := FirstHidden(init);
      assert init[..i] == items[..i];
    } else {
      i :| 0 < i < |items| && Opens(items, i) && items[i].pid == items[i - 1].pid
        && items[i].interpreter == items[i - 1].interpreter && !HasGeneration(LastSpan(items[..i]), items[i].row.generation);
      if i < |init| {
        assert init[..i] == items[..i] && Opens(init, i);
        assert false;
      }
      assert items[..i] == init;
    }
  }

  lemma {:induction false} HiddenStep(before: seq<Item>, x: Item)
    requires Ordered(before + [x]) && before != [] && Group(before) == BySpan(before) && !SameSpan(Last(before), x)
    requires Last(before).pid == x.pid && Last(before).interpreter == x.interpreter
    requires !HasGeneration(LastSpan(before), x.row.generation)
    ensures var n := |BySpan(before)|;
      && |Group(before + [x])| == n && |Group(before + [x])[n - 1].rows| == |LastSpan(before)| + 1
      && |BySpan(before + [x])| == n + 1 && |BySpan(before + [x])[n - 1].rows| == |LastSpan(before)|
  {
    assert Init(before + [x]) == before && Last(before + [x]) == x;
    StepJoins(before, x);
    LastBlockIsSpan(before);
  }

  /** Where a prefix's groupings have parted, the whole's have too. */
  lemma {:induction false} StayApart(items: seq<Item>, n: nat, prefix: seq<Item>, m: nat)
    requires n <= |items| && prefix == items[..n]
    requires m < |Group(prefix)| && m + 1 < |BySpan(prefix)| && |Group(prefix)[m].rows| > |BySpan(prefix)[m].rows|
    ensures Group(items) != BySpan(items)
  {
    GroupGrows(items, n, m, |Group(prefix)[m].rows|);
    BySpanFixed(items, n, m);
  }

  lemma HiddenSplit(items: seq<Item>) returns (before: seq<Item>, x: Item)
    requires Ordered(items) && !SpansShow(items)
    ensures before + [x] <= items && Ordered(before + [x]) && Ordered(before) && SpansShow(before) && before != []
    ensures !SameSpan(Last(before), x) && Last(before).pid == x.pid && Last(before).interpreter == x.interpreter
    ensures !HasGeneration(LastSpan(before), x.row.generation)
  {
    var i := FirstHidden(items);
    before, x := items[..i], items[i];
    assert before + [x] == items[..i + 1] && Last(before) == items[i - 1];
    OrderedPrefix(items, i);
    OrderedPrefix(items, i + 1);
  }

  /** The walk runs such a span on into the block before it. */
  lemma {:induction false} HiddenSpanMerges(items: seq<Item>, before: seq<Item>, x: Item)
    requires before + [x] <= items && Ordered(before + [x]) && before != [] && Group(before) == BySpan(before)
    requires !SameSpan(Last(before), x) && Last(before).pid == x.pid && Last(before).interpreter == x.interpreter
    requires !HasGeneration(LastSpan(before), x.row.generation)
    ensures Group(items) != BySpan(items)
  {
    HiddenStep(before, x);
    StayApart(items, |before| + 1, before + [x], |BySpan(before)| - 1);
  }

  lemma OrderedPrefix(items: seq<Item>, n: nat)
    requires Ordered(items) && n <= |items|
    ensures Ordered(items[..n])
  {}

  /**
   Blocks are observation spans exactly when each span shows. A span that holds generation 0 opens
   with it, so they are whenever every span does.
   */
  lemma {:induction false} BlocksAreSpansIff(items: seq<Item>)
    requires Ordered(items)
    ensures Group(items) == BySpan(items) <==> SpansShow(items)
  {
    if SpansShow(items) {
      ShownSpansAreBlocks(items);
    } else {
      var before, x := HiddenSplit(items);
      ShownSpansAreBlocks(before);
      HiddenSpanMerges(items, before, x);
    }
  }

  // ---- a run whose spans share a block ------------------------------------------------------

  /** A process polled, dead, and its PID polled again as another's. */
  function Recycled(pid: int, a: Record, b: Record): seq<Runs.Event> {
    [Runs.Polled(pid, [a]), Runs.Died(pid), Runs.Polled(pid, [b])]
  }

  lemma {:induction false} RunThree(s: CursorState, x: Runs.Event, y: Runs.Event, z: Runs.Event)
    ensures Runs.Run(s, [x, y, z]) == Runs.Apply(Runs.Apply(Runs.Apply(s, x), y), z)
  {
    assert [x, y, z][1..] == [y, z] && [y, z][1..] == [z] && [z][1..] == [];
    var t := Runs.Apply(s, x);
    var u := Runs.Apply(t, y);
    assert Runs.Run(t, [y, z]) == Runs.Run(u, [z]) == Runs.Apply(u, z);
  }

  lemma {:induction false} RetireAlone(rings: map<RingKey, RingObservation>, span: nat, k: RingKey)
    requires k in rings
    ensures RetireAll(rings, span, InOrder({k})) == [Retired(k, span, rings[k])]
  {
    var order := InOrder({k});
    assert order[0] in order;
    assert order == [k];
  }

  lemma {:induction false} RecycledStates(pid: int, a: Record, b: Record)
    requires a.IsComplete() && a.collections > 0 && b.IsComplete() && b.collections > 0
    ensures var s := Runs.Run(NEW, Recycled(pid, a, b));
      && s.retired == [Retired(KeyOf(pid, a), 0, UNREAD.Fold(a))]
      && s.rings == map[KeyOf(pid, b) := UNREAD.Fold(b)]
  {
    RunThree(NEW, Runs.Polled(pid, [a]), Runs.Died(pid), Runs.Polled(pid, [b]));
    Laws.AdmitAlone(NEW, pid, a);
    var s := Admit(NEW, pid, [a]).0;
    assert PidKeys(s.rings, pid) == {KeyOf(pid, a)};
    RetireAlone(s.rings, s.evictions, KeyOf(pid, a));
    var t := Forget(s, pid);
    assert t.rings == map[];
    Laws.AdmitAlone(t, pid, b);
  }

  lemma {:induction false} TwoSpansListed(s: CursorState, x: Retired, k: RingKey, o: RingObservation)
    requires s.retired == [x] && s.rings == map[k := o] && x.span < Accounting.LIVE_SPAN
    requires x.key.pid == k.pid && x.key.interpreter == k.interpreter
    ensures Accounting.Observations(s) == [x, Retired(k, Accounting.LIVE_SPAN, o)]
  {
    var y := Retired(k, Accounting.LIVE_SPAN, o);
    assert s.rings.Keys == {k};
    RetireAlone(s.rings, Accounting.LIVE_SPAN, k);
    Laws.SortAlone(Accounting.SpanOrder, y);
    assert [x] + [y] == [x, y] && [x, y][1..] == [y];
  }

  lemma TwoItems(x: Item, y: Item)
    requires x.pid == y.pid && x.interpreter == y.interpreter && x.span != y.span && x.row.generation != y.row.generation
    ensures Group([x, y]) == [Block(x.pid, x.interpreter, [x.row, y.row])]
    ensures BySpan([x, y]) == [Alone(x), Alone(y)]
  {
    assert Init([x, y]) == [x] && Init([x]) == [];
    assert Group([x]) == [Alone(x)] && BySpan([x]) == [Alone(x)];
    assert Append(Alone(x), y) == Block(x.pid, x.interpreter, [x.row, y.row]);
  }

  /**
   The run that merges two spans: a PID whose first process was read collecting one generation and
   whose second was read collecting only another has both in one block.
   */
  lemma {:induction false} RecycledMerges(pid: int, a: Record, b: Record)
    requires a.IsComplete() && a.collections > 0 && b.IsComplete() && b.collections > 0
    requires a.interpreter == b.interpreter && a.generation != b.generation
    ensures var obs := Accounting.Observations(Runs.Run(NEW, Recycled(pid, a, b)));
      AllSound(obs) && |Group(Items(obs))| == 1 && |BySpan(Items(obs))| == 2
  {
    var s := Runs.Run(NEW, Recycled(pid, a, b));
    RecycledStates(pid, a, b);
    var x, y := Retired(KeyOf(pid, a), 0, UNREAD.Fold(a)), Retired(KeyOf(pid, b), Accounting.LIVE_SPAN, UNREAD.Fold(b));
    TwoSpansListed(s, x, KeyOf(pid, b), UNREAD.Fold(b));
    FoldSound(UNREAD, a);
    FoldSound(UNREAD, b);
    TwoObserved(x, y);
  }

  lemma TwoObserved(x: Retired, y: Retired)
    requires Sound(x.observation) && Sound(y.observation) && x.span != y.span
    requires x.key.pid == y.key.pid && x.key.interpreter == y.key.interpreter && x.key.generation != y.key.generation
    ensures AllSound([x, y]) && |Group(Items([x, y]))| == 1 && |BySpan(Items([x, y]))| == 2
  {
    assert Items([x, y]) == [ItemOf(x), ItemOf(y)];
    TwoItems(ItemOf(x), ItemOf(y));
  }

  /** Every span holds a row of generation 0. */
  ghost predicate SpansHoldZero(items: seq<Item>) {
    forall i {:trigger HoldsZero(items, items[i])} :: 0 <= i < |items| ==> HoldsZero(items, items[i])
  }

  ghost predicate HoldsZero(items: seq<Item>, x: Item) {
    exists j :: 0 <= j < |items| && SameSpan(items[j], x) && items[j].row.generation == 0
  }

  lemma {:induction false} SpanHasOpening(items: seq<Item>, j: nat)
    requires Ordered(items) && j < |items| && SameSpan(items[j], Last(items))
    ensures HasGeneration(LastSpan(items), items[j].row.generation)
    decreases |items|
  {
    var init := Init(items);
    if j == |items| - 1 {
      assert LastSpan(items)[|LastSpan(items)| - 1] == Last(items).row;
    } else {
      Between(items, j, |items| - 2, |items| - 1);
      PrefixOrdered(items);
      SpanHasOpening(init, j);
      var k :| 0 <= k < |LastSpan(init)| && LastSpan(init)[k].generation == items[j].row.generation;
      assert LastSpan(items)[k] == LastSpan(init)[k];
    }
  }

  /** Rows between two of one span are of it too. */
  lemma Between(items: seq<Item>, i: nat, j: nat, k: nat)
    requires Ordered(items) && i <= j <= k < |items| && SameSpan(items[i], items[k])
    ensures SameSpan(items[i], items[j]) && SameSpan(items[j], items[k])
  {
    assert i < j ==> Before(items[i], items[j]);
    assert j < k ==> Before(items[j], items[k]);
  }

  lemma ZeroShows(items: seq<Item>)
    requires Ordered(items) && SpansHoldZero(items)
    ensures SpansShow(items)
  {
    forall i | 0 < i < |items| && Opens(items, i) && items[i].pid == items[i - 1].pid && items[i].interpreter == items[i - 1].interpreter
      ensures HasGeneration(LastSpan(items[..i]), items[i].row.generation)
    {
      OpensWithZero(items, i);
      ZeroBehind(items, i);
    }
  }

  lemma OpensWithZero(items: seq<Item>, i: nat)
    requires Ordered(items) && SpansHoldZero(items) && 0 < i < |items| && Opens(items, i)
    ensures items[i].row.generation == 0
  {
    assert HoldsZero(items, items[i]);
    var j :| 0 <= j < |items| && SameSpan(items[j], items[i]) && items[j].row.generation == 0;
    if j < i {
      Between(items, j, i - 1, i);
    } else if i < j {
      assert Before(items[i], items[j]);
    }
  }

  lemma ZeroBehind(items: seq<Item>, i: nat)
    requires Ordered(items) && SpansHoldZero(items) && 0 < i < |items| && Opens(items, i)
    ensures HasGeneration(LastSpan(items[..i]), 0)
  {
    assert HoldsZero(items, items[i - 1]);
    var j :| 0 <= j < |items| && SameSpan(items[j], items[i - 1]) && items[j].row.generation == 0;
    assert Before(items[i - 1], items[i]);
    OrderedPrefix(items, i);
    SpanHasOpening(items[..i], j);
  }

  /** One block a span, whenever every span holds generation 0. */
  lemma {:induction false} BlocksAreSpans(items: seq<Item>)
    requires Ordered(items) && SpansHoldZero(items)
    ensures Group(items) == BySpan(items)
  {
    ZeroShows(items);
    BlocksAreSpansIff(items);
  }

  // ---- what a run's cursor hands the walk -------------------------------------------------

  predicate Sooner(a: Retired, b: Retired) {
    a.span < b.span || (a.span == b.span && a.key != b.key)
  }

  /** Accumulators retired before eviction `limit`: each sound, no two with both key and span alike. */
  ghost predicate RetiredOk(rs: seq<Retired>, limit: nat) {
    && (forall k :: 0 <= k < |rs| ==> Sound(rs[k].observation) && rs[k].span < limit)
    && (forall i, j :: 0 <= i < j < |rs| ==> Sooner(rs[i], rs[j]))
  }

  lemma RetiredConcat(a: seq<Retired>, b: seq<Retired>, span: nat)
    requires RetiredOk(a, span) && RetiredOk(b, span + 1) && forall k :: 0 <= k < |b| ==> b[k].span == span
    ensures RetiredOk(a + b, span + 1)
  {
    var ab := a + b;
    forall i, j | 0 <= i < j < |ab| ensures Sooner(ab[i], ab[j]) {
      assert ab[i] == if i < |a| then a[i] else b[i - |a|];
      assert ab[j] == if j < |a| then a[j] else b[j - |a|];
    }
  }

  lemma {:induction false} InOrderDistinct(keys: set<RingKey>)
    ensures Distinct(InOrder(keys))
    decreases |keys|
  {
    if keys != {} {
      var k := InOrder(keys)[0];
      LeastKeyExists(keys);
      InOrderDistinct(keys - {k});
      assert InOrder(keys) == [k] + InOrder(keys - {k});
    }
  }

  ghost predicate SoundRings(s: CursorState) {
    forall k :: k in s.rings ==> Sound(s.rings[k])
  }

  lemma BoundedIsSound(s: CursorState)
    requires Runs.Bounded(s)
    ensures SoundRings(s)
  {
    forall k | k in s.rings ensures Sound(s.rings[k]) { assert Runs.RingOk(s, k); }
  }

  lemma {:induction false} RetireAllOk(s: CursorState, span: nat, order: seq<RingKey>)
    requires SoundRings(s) && Distinct(order) && forall k :: k in order ==> k in s.rings
    ensures var gone := RetireAll(s.rings, span, order);
      RetiredOk(gone, span + 1) && forall k :: 0 <= k < |gone| ==> gone[k].span == span
  {
    forall k | 0 <= k < |order| ensures Sound(s.rings[order[k]]) { assert order[k] in s.rings; }
  }

  lemma AdmitLeavesRetired(s: CursorState, pid: int, cands: seq<Record>)
    ensures AdmitSorted(s, pid, cands).0.retired == s.retired && AdmitSorted(s, pid, cands).0.evictions == s.evictions
  {
    Runs.FoldLeavesRetired(s, pid, cands);
  }

  lemma ForgetRetiredOk(s: CursorState, pid: int)
    requires RetiredOk(s.retired, s.evictions) && SoundRings(s)
    ensures RetiredOk(Forget(s, pid).retired, Forget(s, pid).evictions)
  {
    var keys := PidKeys(s.rings, pid);
    var order := InOrder(keys);
    InOrderDistinct(keys);
    RetireAllOk(s, s.evictions, order);
    RetiredConcat(s.retired, RetireAll(s.rings, s.evictions, order), s.evictions);
  }

  lemma {:induction false} ApplyRetiredOk(s: CursorState, e: Runs.Event)
    requires RetiredOk(s.retired, s.evictions) && SoundRings(s)
    ensures RetiredOk(Runs.Apply(s, e).retired, Runs.Apply(s, e).evictions)
  {
    match e
    case Polled(pid, records) => AdmitLeavesRetired(s.(polls := s.polls + 1), pid, Candidates(records));
    case Died(pid) => ForgetRetiredOk(s, pid);
  }

  lemma {:induction false} RunRetiredOk(s: CursorState, es: seq<Runs.Event>)
    requires RetiredOk(s.retired, s.evictions) && Runs.Bounded(s)
    ensures RetiredOk(Runs.Run(s, es).retired, Runs.Run(s, es).evictions)
    decreases |es|
  {
    if es != [] {
      BoundedIsSound(s);
      ApplyRetiredOk(s, es[0]);
      Runs.ApplyBounded(s, es[0]);
      RunRetiredOk(Runs.Apply(s, es[0]), es[1..]);
    }
  }

  /** Everything a cursor has to summarize, before it is sorted. */
  ghost function Everything(s: CursorState): seq<Retired> {
    s.retired + RetireAll(s.rings, Accounting.LIVE_SPAN, InOrder(s.rings.Keys))
  }

  lemma EverythingOk(s: CursorState)
    requires RetiredOk(s.retired, s.evictions) && SoundRings(s) && s.evictions <= Accounting.LIVE_SPAN
    ensures RetiredOk(Everything(s), Accounting.LIVE_SPAN + 1)
  {
    var order := InOrder(s.rings.Keys);
    InOrderDistinct(s.rings.Keys);
    RetireAllOk(s, Accounting.LIVE_SPAN, order);
    RetiredConcat(s.retired, RetireAll(s.rings, Accounting.LIVE_SPAN, order), Accounting.LIVE_SPAN);
  }

  lemma {:induction false} SortedStrictly(all: seq<Retired>, limit: nat)
    requires RetiredOk(all, limit)
    ensures var obs := Sort(Accounting.SpanOrder, all);
      AllSound(obs) && Ordered(Items(obs))
  {
    var obs := Sort(Accounting.SpanOrder, all);
    SortSorts(Accounting.SpanOrder, all);
    SortDistinct(Accounting.SpanOrder, all);
    forall k | 0 <= k < |obs| ensures Sound(obs[k].observation) {
      assert obs[k] in all;
    }
    forall i, j | 0 <= i < j < |obs| ensures Before(Items(obs)[i], Items(obs)[j]) {
      assert obs[i] in all && obs[j] in all && obs[i] != obs[j];
      var a :| 0 <= a < |all| && all[a] == obs[i];
      var b :| 0 <= b < |all| && all[b] == obs[j];
      assert if a < b then Sooner(all[a], all[b]) else Sooner(all[b], all[a]);
      assert Accounting.SpanOrder(obs[i], obs[j]);
      assert obs[i].span != obs[j].span || obs[i].key != obs[j].key;
    }
  }

  /** After any run the walk's input is sound and strictly ordered, so all that is proved of it here applies. */
  lemma {:induction false} RunIsSummarizable(es: seq<Runs.Event>)
    requires Runs.Run(NEW, es).evictions <= Accounting.LIVE_SPAN
    ensures var obs := Accounting.Observations(Runs.Run(NEW, es));
      AllSound(obs) && Ordered(Items(obs))
  {
    var s := Runs.Run(NEW, es);
    RunRetiredOk(NEW, es);
    Runs.RunBounded(NEW, es);
    BoundedIsSound(s);
    EverythingOk(s);
    SortedStrictly(Everything(s), Accounting.LIVE_SPAN + 1);
  }
}
