/** Where each Entry of a stats region lies, and decoding a region back into Entries. */
module OffsetTable {
  import opened Prelude
  import opened Bytes
  import opened GcStats

  datatype Kind = NoStats | InlineArray | RingBuffer

  /** One number a generation: young, old 0, old 1. */
  datatype Three = Three(g0: nat, g1: nat, g2: nat)
  {
    function At(g: nat): nat
      requires g < 3
    {
      if g == 0 then g0 else if g == 1 then g1 else g2
    }
  }

  /** The bytes a generation's ring is followed by: its index. */
  const INDEX_BYTES: nat := 8

  datatype Table = Table(
    kind: Kind, itemSize: Option<nat>, entries: Option<Three>, bases: Option<Three>, layout: Option<ItemLayout>)

  function RingBases(item: nat, entries: Three): Three {
    Three(0,
          entries.g0 * item + INDEX_BYTES,
          entries.g0 * item + INDEX_BYTES + entries.g1 * item + INDEX_BYTES)
  }

  function RingTable(item: nat, entries: Three, layout: ItemLayout): Table {
    Table(RingBuffer, Some(item), Some(entries), Some(RingBases(item, entries)), Some(layout))
  }

  function EntryByteOffset(t: Table, g: nat, index: nat): Option<nat> {
    if t.itemSize.None? || t.bases.None? || t.entries.None? then None
    else if g >= 3 || index >= t.entries.value.At(g) then None
    else Some(t.bases.value.At(g) + index * t.itemSize.value)
  }

  function RegionSize(t: Table): nat {
    if t.kind != RingBuffer || t.itemSize.None? || t.entries.None? || t.bases.None? then 0
    else t.bases.value.g2 + t.entries.value.g2 * t.itemSize.value + INDEX_BYTES
  }

  function StatsBufferLen(t: Table): Option<nat> {
    if t.itemSize.None? || t.itemSize.value == 0 || t.entries.None? || t.bases.None? || t.layout.None? then None
    else Some(t.bases.value.g2 + t.entries.value.g2 * t.itemSize.value)
  }

  // ---- where the windows lie ---------------------------------------------------------------

  lemma Scale(i: nat, j: nat, item: nat)
    requires i < j
    ensures 0 <= i * item && i * item + item <= j * item
  {
    assert j * item - i * item == (j - i) * item;
    assert (j - i) * item - item == (j - i - 1) * item;
  }

  /** Windows of a ring table lie inside the buffer, in order, apart, and clear of every index. */
  lemma WindowsApart(item: nat, entries: Three, layout: ItemLayout, g: nat, i: nat, h: nat, j: nat)
    requires g < 3 && h < 3 && i < entries.At(g) && j < entries.At(h) && item > 0
    requires g < h || (g == h && i < j)
    ensures var t := RingTable(item, entries, layout);
      && EntryByteOffset(t, g, i).Some? && EntryByteOffset(t, h, j).Some? && StatsBufferLen(t).Some?
      && EntryByteOffset(t, g, i).value + item + (if g < h then INDEX_BYTES else 0) <= EntryByteOffset(t, h, j).value
      && EntryByteOffset(t, h, j).value + item <= StatsBufferLen(t).value
      && StatsBufferLen(t).value + INDEX_BYTES == RegionSize(t)
  {
    WindowInside(item, entries, g, i);
    WindowInside(item, entries, h, j);
    if g == h {
      Scale(i, j, item);
    }
  }

  /** A window ends where its generation's ring does at the latest. */
  lemma WindowInside(item: nat, entries: Three, g: nat, i: nat)
    requires g < 3 && i < entries.At(g)
    ensures i * item + item <= entries.At(g) * item
    ensures i * item >= 0 && entries.g0 * item >= 0 && entries.g1 * item >= 0 && entries.g2 * item >= 0
  {
    Scale(i, entries.At(g), item);
  }

  // ---- decoding -------------------------------------------------------------------------------

  /** One generation's Entries from the `i`-th on, up to the first that runs past the end. */
  function DecodeGeneration(
    raw: seq<byte>, item: nat, base: nat, n: nat, layout: ItemLayout, iid: int, g: nat, i: nat): seq<GcStat>
    decreases n - i
  {
    if i >= n || base + i * item + item > |raw| then []
    else
      [GcStat(g, i, iid, raw[base + i * item..base + i * item + item], layout)]
      + DecodeGeneration(raw, item, base, n, layout, iid, g, i + 1)
  }

  function GenerationOf(t: Table, raw: seq<byte>, iid: int, g: nat): seq<GcStat>
    requires StatsBufferLen(t).Some? && g < 3
  {
    DecodeGeneration(raw, t.itemSize.value, t.bases.value.At(g), t.entries.value.At(g), t.layout.value, iid, g, 0)
  }

  function Decode(t: Table, raw: seq<byte>, iid: int): seq<GcStat> {
    if StatsBufferLen(t).None? || |raw| < StatsBufferLen(t).value then []
    else GenerationOf(t, raw, iid, 0) + GenerationOf(t, raw, iid, 1) + GenerationOf(t, raw, iid, 2)
  }

  /** Append one generation's Entries to `stats`. */
  method WalkGeneration(
    stats: seq<GcStat>, raw: seq<byte>, item: nat, base: nat, n: nat, layout: ItemLayout, iid: int, g: nat)
    returns (more: seq<GcStat>)
    ensures more == stats + DecodeGeneration(raw, item, base, n, layout, iid, g, 0)
  {
    more := stats;
    ghost var whole := stats + DecodeGeneration(raw, item, base, n, layout, iid, g, 0);
    var i := 0;
    while i < n
      invariant 0 <= i <= n
      invariant whole == more + DecodeGeneration(raw, item, base, n, layout, iid, g, i)
    {
      var off := base + i * item;
      if off + item > |raw| { break; }
      ghost var rest := DecodeGeneration(raw, item, base, n, layout, iid, g, i + 1);
      var s := GcStat(g, i, iid, raw[off..off + item], layout);
      assert more + ([s] + rest) == (more + [s]) + rest;
      more := more + [s];
      i := i + 1;
    }
    assert DecodeGeneration(raw, item, base, n, layout, iid, g, i) == [];
    assert more + [] == more;
  }

  method DecodeGcStats(t: Table, raw: seq<byte>, iid: int) returns (stats: seq<GcStat>)
    ensures stats == Decode(t, raw, iid)
  {
    var total := StatsBufferLen(t);
    if total.None? || |raw| < total.value { return []; }
    stats := [];
    for g := 0 to 3
      invariant stats == GenerationsBefore(t, raw, iid, g)
    {
      stats := WalkGeneration(stats, raw, t.itemSize.value, t.bases.value.At(g), t.entries.value.At(g), t.layout.value, iid, g);
    }
    ThreeGenerations(t, raw, iid);
  }

  lemma {:induction false} ThreeGenerations(t: Table, raw: seq<byte>, iid: int)
    requires StatsBufferLen(t).Some?
    ensures GenerationsBefore(t, raw, iid, 3)
         == GenerationOf(t, raw, iid, 0) + GenerationOf(t, raw, iid, 1) + GenerationOf(t, raw, iid, 2)
  {
    var a, b := GenerationOf(t, raw, iid, 0), GenerationOf(t, raw, iid, 1);
    assert GenerationsBefore(t, raw, iid, 1) == a;
    assert GenerationsBefore(t, raw, iid, 2) == a + b;
  }

  function GenerationsBefore(t: Table, raw: seq<byte>, iid: int, g: nat): seq<GcStat>
    requires StatsBufferLen(t).Some? && g <= 3
  {
    if g == 0 then [] else GenerationsBefore(t, raw, iid, g - 1) + GenerationOf(t, raw, iid, g - 1)
  }

  /** What every decoded Entry shows is the bytes at its own offset, whatever the table. */
  lemma DecodedWindows(t: Table, raw: seq<byte>, iid: int, s: GcStat)
    requires s in Decode(t, raw, iid)
    ensures EntryByteOffset(t, s.generation, s.index).Some? && t.itemSize.Some?
    ensures var off, item := EntryByteOffset(t, s.generation, s.index).value, t.itemSize.value;
      off + item <= |raw| && s.bytes == raw[off..off + item]
    ensures s.interpreterId == iid && Some(s.layout) == t.layout
  {
    assert exists g :: 0 <= g < 3 && s in GenerationOf(t, raw, iid, g) by {
      if s in GenerationOf(t, raw, iid, 0) {
      } else if s in GenerationOf(t, raw, iid, 1) {
      } else {
        assert s in GenerationOf(t, raw, iid, 2);
      }
    }
    var g :| 0 <= g < 3 && s in GenerationOf(t, raw, iid, g);
    GenerationWindows(raw, t.itemSize.value, t.bases.value.At(g), t.entries.value.At(g), t.layout.value, iid, g, 0, s);
  }

  lemma {:induction false} GenerationWindows(
    raw: seq<byte>, item: nat, base: nat, n: nat, layout: ItemLayout, iid: int, g: nat, i: nat, s: GcStat)
    requires s in DecodeGeneration(raw, item, base, n, layout, iid, g, i)
    ensures s.generation == g && i <= s.index < n && base + s.index * item + item <= |raw|
    ensures s.bytes == raw[base + s.index * item..base + s.index * item + item] && s.interpreterId == iid && s.layout == layout
    decreases n - i
  {
    var rest := DecodeGeneration(raw, item, base, n, layout, iid, g, i + 1);
    if s in rest {
      GenerationWindows(raw, item, base, n, layout, iid, g, i + 1, s);
    }
  }

  lemma {:induction false} GenerationFinds(
    raw: seq<byte>, item: nat, base: nat, n: nat, layout: ItemLayout, iid: int, g: nat, i: nat, k: nat)
    requires i <= k < n && base + k * item + item <= |raw|
    ensures GcStat(g, k, iid, raw[base + k * item..base + k * item + item], layout)
      in DecodeGeneration(raw, item, base, n, layout, iid, g, i)
    decreases k - i
  {
    if i < k {
      Scale(i, k, item);
      GenerationFinds(raw, item, base, n, layout, iid, g, i + 1, k);
    }
  }

  /**
   Of any table and any bytes: with no geometry, no layout or too short a read nothing is decoded; else
   exactly one Entry for each position of each generation whose window lies inside the bytes.
   */
  lemma DecodedIff(t: Table, raw: seq<byte>, iid: int, s: GcStat)
    ensures s in Decode(t, raw, iid) <==>
      && t.itemSize.Some? && t.itemSize.value > 0 && t.entries.Some? && t.bases.Some? && t.layout.Some?
      && t.bases.value.g2 + t.entries.value.g2 * t.itemSize.value <= |raw|
      && s.generation < 3 && s.index < t.entries.value.At(s.generation) && s.interpreterId == iid && s.layout == t.layout.value
      && var off := t.bases.value.At(s.generation) + s.index * t.itemSize.value;
         off + t.itemSize.value <= |raw| && s.bytes == raw[off..off + t.itemSize.value]
  {
    if s in Decode(t, raw, iid) {
      DecodedWindows(t, raw, iid, s);
    } else if StatsBufferLen(t).Some? && StatsBufferLen(t).value <= |raw| && s.generation < 3
           && s.index < t.entries.value.At(s.generation)
           && t.bases.value.At(s.generation) + s.index * t.itemSize.value + t.itemSize.value <= |raw| {
      GenerationFinds(raw, t.itemSize.value, t.bases.value.At(s.generation), t.entries.value.At(s.generation), t.layout.value,
                      iid, s.generation, 0, s.index);
    }
  }

  /** In storage order: generations rise, and positions rise within one, so nothing is decoded twice. */
  lemma DecodedInOrder(t: Table, raw: seq<byte>, iid: int)
    ensures var d := Decode(t, raw, iid);
      forall i, j :: 0 <= i < j < |d| ==>
        d[i].generation < d[j].generation || (d[i].generation == d[j].generation && d[i].index < d[j].index)
  {
    if StatsBufferLen(t).Some? && |raw| >= StatsBufferLen(t).value {
      forall g | 0 <= g < 3
        ensures var d := GenerationOf(t, raw, iid, g);
          forall i :: 0 <= i < |d| ==> d[i].generation == g && d[i].index == i
      {
        var d := GenerationOf(t, raw, iid, g);
        GenerationInOrder(raw, t.itemSize.value, t.bases.value.At(g), t.entries.value.At(g), t.layout.value, iid, g, 0);
        forall i | 0 <= i < |d| ensures d[i].generation == g && d[i].index == i { ConsecutiveAt(d, g, 0, i); }
      }
    }
  }

  lemma {:induction false} GenerationInOrder(
    raw: seq<byte>, item: nat, base: nat, n: nat, layout: ItemLayout, iid: int, g: nat, i: nat)
    ensures Consecutive(DecodeGeneration(raw, item, base, n, layout, iid, g, i), g, i)
    decreases n - i
  {
    if i < n && base + i * item + item <= |raw| {
      GenerationInOrder(raw, item, base, n, layout, iid, g, i + 1);
      var d, rest := DecodeGeneration(raw, item, base, n, layout, iid, g, i), DecodeGeneration(raw, item, base, n, layout, iid, g, i + 1);
      assert d[1..] == rest;
      assert Consecutive(d[1..], g, i + 1);
    }
  }

  predicate Consecutive(d: seq<GcStat>, g: nat, from: nat) {
    d == [] || (d[0].generation == g && d[0].index == from && Consecutive(d[1..], g, from + 1))
  }

  lemma {:induction false} ConsecutiveAt(d: seq<GcStat>, g: nat, from: nat, k: nat)
    requires Consecutive(d, g, from) && k < |d|
    ensures d[k].generation == g && d[k].index == from + k
    decreases k
  {
    if k > 0 { ConsecutiveAt(d[1..], g, from + 1, k - 1); }
  }

  /** The size the process should report: that of a ring with geometry, eight bytes past its last position, and of nothing else. */
  lemma RegionSizeIs(t: Table)
    ensures RegionSize(t) == if t.kind == RingBuffer && t.itemSize.Some? && t.entries.Some? && t.bases.Some?
                             then t.bases.value.g2 + t.entries.value.g2 * t.itemSize.value + 8 else 0
  {}

  // ---- the writer's region, and back -----------------------------------------------------------

  /** One generation's struct: its items, then the index nobody reads. */
  datatype Ring = Ring(items: seq<seq<byte>>, index: seq<byte>)

  function BufferBytes(r: Ring): seq<byte> { Flatten(r.items) + r.index }

  function RegionBytes(young: Ring, old0: Ring, old1: Ring): seq<byte> {
    BufferBytes(young) + (BufferBytes(old0) + BufferBytes(old1))
  }

  predicate Sized(r: Ring, item: nat) {
    |r.index| == INDEX_BYTES && forall k :: 0 <= k < |r.items| ==> |r.items[k]| == item
  }

  lemma {:induction false} FlattenSize(items: seq<seq<byte>>, item: nat)
    requires forall k :: 0 <= k < |items| ==> |items[k]| == item
    ensures |Flatten(items)| == |items| * item
    decreases |items|
  {
    if items != [] {
      FlattenSize(items[1..], item);
      assert |items| * item == item + (|items| - 1) * item;
    }
  }

  lemma {:induction false} FlattenWindow(items: seq<seq<byte>>, item: nat, i: nat)
    requires (forall k :: 0 <= k < |items| ==> |items[k]| == item) && i < |items|
    ensures |Flatten(items)| == |items| * item && i * item + item <= |items| * item
    ensures Flatten(items)[i * item..i * item + item] == items[i]
    decreases i
  {
    FlattenSize(items, item);
    Scale(i, |items|, item);
    if i > 0 {
      var rest := items[1..];
      FlattenWindow(rest, item, i - 1);
      assert i * item == item + (i - 1) * item;
      DropPrefix(items[0], Flatten(rest), (i - 1) * item, i * item, item, |Flatten(rest)|);
    }
  }

  lemma DropPrefix(a: seq<byte>, b: seq<byte>, from: nat, at: nat, n: nat, size: nat)
    requires |b| == size && at == |a| + from && from <= size
    ensures from + n <= size ==> (a + b)[at..at + n] == b[from..from + n]
  {}

  /** `raw` from `base` on holds the items of a ring. */
  predicate HoldsItems(raw: seq<byte>, base: nat, items: seq<seq<byte>>, item: nat) {
    && (forall k :: 0 <= k < |items| ==> |items[k]| == item)
    && base + |items| * item <= |raw|
    && raw[base..base + |items| * item] == Flatten(items)
  }

  lemma WindowOf(raw: seq<byte>, base: nat, items: seq<seq<byte>>, item: nat, i: nat)
    requires HoldsItems(raw, base, items, item) && i < |items|
    ensures i * item + item <= |items| * item && raw[base + i * item..base + i * item + item] == items[i]
  {
    FlattenWindow(items, item, i);
    SliceOfSlice(raw, base, |items| * item, i * item, item);
  }

  lemma SliceOfSlice(raw: seq<byte>, base: nat, size: nat, from: nat, n: nat)
    requires base + size <= |raw| && from + n <= size
    ensures raw[base..base + size][from..from + n] == raw[base + from..base + from + n]
  {
    var a, b := raw[base..base + size][from..from + n], raw[base + from..base + from + n];
    assert |a| == |b| && forall k :: 0 <= k < n ==> a[k] == b[k];
  }

  function StatOf(item: seq<byte>, layout: ItemLayout, iid: int, g: nat, i: nat): GcStat {
    GcStat(g, i, iid, item, layout)
  }

  function StatsFrom(items: seq<seq<byte>>, layout: ItemLayout, iid: int, g: nat, i: nat): seq<GcStat>
    decreases |items| - i
  {
    if i >= |items| then [] else [StatOf(items[i], layout, iid, g, i)] + StatsFrom(items, layout, iid, g, i + 1)
  }

  lemma {:induction false} GenerationInverts(
    raw: seq<byte>, item: nat, base: nat, items: seq<seq<byte>>, layout: ItemLayout, iid: int, g: nat, i: nat)
    requires HoldsItems(raw, base, items, item)
    ensures DecodeGeneration(raw, item, base, |items|, layout, iid, g, i) == StatsFrom(items, layout, iid, g, i)
    decreases |items| - i
  {
    if i < |items| {
      WindowOf(raw, base, items, item, i);
      GenerationInverts(raw, item, base, items, layout, iid, g, i + 1);
    }
  }

  function ItemCounts(young: Ring, old0: Ring, old1: Ring): Three {
    Three(|young.items|, |old0.items|, |old1.items|)
  }

  /**
   Decoding inverts the writer's layout, for any entry size and counts: a read of at least the
   decoded length gives back exactly the items, generation by generation, whatever the indexes hold.
   */
  lemma {:induction false} DecodeInverts(young: Ring, old0: Ring, old1: Ring, item: nat, layout: ItemLayout, raw: seq<byte>, iid: int)
    requires item > 0 && Sized(young, item) && Sized(old0, item) && Sized(old1, item)
    requires var t := RingTable(item, ItemCounts(young, old0, old1), layout);
      var region := RegionBytes(young, old0, old1);
      && |raw| >= StatsBufferLen(t).value
      && |region| >= StatsBufferLen(t).value
      && raw[..StatsBufferLen(t).value] == region[..StatsBufferLen(t).value]
    ensures Decode(RingTable(item, ItemCounts(young, old0, old1), layout), raw, iid)
         == StatsFrom(young.items, layout, iid, 0, 0) + StatsFrom(old0.items, layout, iid, 1, 0)
            + StatsFrom(old1.items, layout, iid, 2, 0)
  {
    var t := RingTable(item, ItemCounts(young, old0, old1), layout);
    var total := StatsBufferLen(t).value;
    RegionHolds(young, old0, old1, item, layout);
    var region := RegionBytes(young, old0, old1);
    PrefixHolds(region, raw, total, 0, young.items, item);
    PrefixHolds(region, raw, total, t.bases.value.g1, old0.items, item);
    PrefixHolds(region, raw, total, t.bases.value.g2, old1.items, item);
    GenerationInverts(raw, item, 0, young.items, layout, iid, 0, 0);
    GenerationInverts(raw, item, t.bases.value.g1, old0.items, layout, iid, 1, 0);
    GenerationInverts(raw, item, t.bases.value.g2, old1.items, layout, iid, 2, 0);
  }

  lemma PrefixHolds(region: seq<byte>, raw: seq<byte>, total: nat, base: nat, items: seq<seq<byte>>, item: nat)
    requires total <= |raw| && total <= |region| && raw[..total] == region[..total]
    requires HoldsItems(region, base, items, item) && base + |items| * item <= total
    ensures HoldsItems(raw, base, items, item)
  {
    var size := |items| * item;
    assert raw[base..base + size] == raw[..total][base..base + size];
    assert region[base..base + size] == region[..total][base..base + size];
  }

  /** The region is as long as the process reports, eight bytes past what is decoded, with each ring at its base. */
  lemma RegionHolds(young: Ring, old0: Ring, old1: Ring, item: nat, layout: ItemLayout)
    requires item > 0 && Sized(young, item) && Sized(old0, item) && Sized(old1, item)
    ensures var t := RingTable(item, ItemCounts(young, old0, old1), layout);
      var region := RegionBytes(young, old0, old1);
      && |region| == RegionSize(t) == StatsBufferLen(t).value + INDEX_BYTES
      && HoldsItems(region, 0, young.items, item)
      && HoldsItems(region, t.bases.value.g1, old0.items, item)
      && HoldsItems(region, t.bases.value.g2, old1.items, item)
      && |young.items| * item <= t.bases.value.g1
      && t.bases.value.g1 + |old0.items| * item <= t.bases.value.g2
  {
    FlattenSize(young.items, item);
    FlattenSize(old0.items, item);
    FlattenSize(old1.items, item);
    Laid(Flatten(young.items), young.index, Flatten(old0.items), old0.index, Flatten(old1.items), old1.index);
  }

  lemma Laid(a: seq<byte>, x: seq<byte>, b: seq<byte>, y: seq<byte>, c: seq<byte>, z: seq<byte>)
    ensures var r := (a + x) + ((b + y) + (c + z));
      var p, q := |a| + |x|, |a| + |x| + |b| + |y|;
      && |r| == q + |c| + |z|
      && r[0..|a|] == a && r[p..p + |b|] == b && r[q..q + |c|] == c
  {}

  /** Values published under a layout's names are what the decoded Entry's accessors return. */
  lemma {:induction false} PublishedReadsBack(young: Ring, old0: Ring, old1: Ring, item: nat, layout: ItemLayout, iid: int,
                           g: nat, i: nat, values: seq<(string, i64)>, name: string)
    requires item > 0 && Sized(young, item) && Sized(old0, item) && Sized(old1, item) && g < 3
    requires var items := (if g == 0 then young else if g == 1 then old0 else old1).items;
      i < |items| && Holds(items[i], layout, values)
    ensures var t := RingTable(item, ItemCounts(young, old0, old1), layout);
      var items := (if g == 0 then young else if g == 1 then old0 else old1).items;
      var s := StatOf(items[i], layout, iid, g, i);
      && s in Decode(t, RegionBytes(young, old0, old1), iid)
      && Get(s, name) == (if Has(layout, name) then Some(LastOf(values, name)) else None)
  {
    var items := (if g == 0 then young else if g == 1 then old0 else old1).items;
    RegionHolds(young, old0, old1, item, layout);
    DecodeInverts(young, old0, old1, item, layout, RegionBytes(young, old0, old1), iid);
    StatsHas(items, layout, iid, g, 0, i);
    GetReadsHeld(StatOf(items[i], layout, iid, g, i), values, name);
  }

  lemma {:induction false} StatsHas(items: seq<seq<byte>>, layout: ItemLayout, iid: int, g: nat, i: nat, k: nat)
    requires i <= k < |items|
    ensures StatOf(items[k], layout, iid, g, k) in StatsFrom(items, layout, iid, g, i)
    decreases k - i
  {
    if i < k { StatsHas(items, layout, iid, g, i + 1, k); }
  }

  // ---- the fixed shape the interface assumes --------------------------------------------------

  datatype GenLayout = GenLayout(
    itemSize: nat, youngBytes: nat, oldBytes: nat, index0: nat, index1: nat, index2: nat, old0: nat)

  /** The layout read off a region size alone, for eleven young and three old Entries. */
  function GenStatsLayout(size: nat): GenLayout {
    var item := if size >= 24 then (size - 24) / 17 else 0;
    var young, old' := 11 * item, 3 * item;
    var old0 := young + 8;
    var index1 := old0 + old';
    GenLayout(item, young, old', young, index1, index1 + 8 + old', old0)
  }

  /** Of any size at all, it takes the largest Entries that fit with the three indexes, eleven and three and three of them. */
  lemma LayoutFits(size: nat)
    requires size >= 24
    ensures var l := GenStatsLayout(size);
      && 17 * l.itemSize + 24 <= size < 17 * (l.itemSize + 1) + 24
      && l.youngBytes == 11 * l.itemSize && l.oldBytes == 3 * l.itemSize
      && l.index0 == l.youngBytes && l.old0 == l.index0 + 8 && l.index1 == l.old0 + l.oldBytes && l.index2 == l.index1 + 8 + l.oldBytes
  {}

  /** For that shape it recovers the entry size and every base from the size the process reports. */
  lemma LayoutInverts(item: nat, layout: ItemLayout)
    ensures var t := RingTable(item, Three(11, 3, 3), layout);
      var l := GenStatsLayout(RegionSize(t));
      && l.itemSize == item
      && Three(0, l.old0, l.index1 + 8) == t.bases.value
      && l.index2 + 8 == RegionSize(t)
  {
    assert RegionSize(RingTable(item, Three(11, 3, 3), layout)) == 17 * item + 24;
  }
}
