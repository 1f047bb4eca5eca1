/** One Entry as bytes under a build's field layout, and the accessors that read it by name. */
module GcStats {
  import opened Prelude
  import opened Bytes

  /** Field names and their byte offsets, in the build's order. */
  datatype ItemLayout = ItemLayout(itemSize: nat, fields: seq<(string, nat)>)

  datatype GcStat = GcStat(generation: nat, index: nat, interpreterId: int, bytes: seq<byte>, layout: ItemLayout)

  /** The offset of the first field of that name. */
  function OffsetIn(fields: seq<(string, nat)>, name: string): Option<nat> {
    if fields == [] then None
    else if fields[0].0 == name then Some(fields[0].1)
    else OffsetIn(fields[1..], name)
  }

  /** The unsigned word at `off`, or none past the end of a short Entry. */
  function RawAt(bytes: seq<byte>, off: nat): Option<nat> {
    if off + 8 <= |bytes| then Some(FromLittleEndian(bytes[off..off + 8])) else None
  }

  lemma RawIsWord(bytes: seq<byte>, off: nat)
    ensures RawAt(bytes, off).Some? ==> RawAt(bytes, off).value < TWO_64
  {
    if off + 8 <= |bytes| {
      EightBytes();
      LittleEndianInverse(bytes[off..off + 8]);
    }
  }

  /** The signed value of a field; none, and never zero, for a field the build lacks. */
  function Get(s: GcStat, name: string): Option<i64> {
    var off := OffsetIn(s.layout.fields, name);
    if off.None? then None
    else
      var raw := RawAt(s.bytes, off.value);
      RawIsWord(s.bytes, off.value);
      if raw.None? then None else Some(Signed(raw.value))
  }

  function GetOrZero(s: GcStat, name: string): i64 {
    if Get(s, name).Some? then Get(s, name).value else 0
  }

  lemma {:induction false} WordInverse(b: seq<byte>)
    requires |b| == 8
    ensures FromLittleEndian(b) < TWO_64 && Word(Signed(FromLittleEndian(b))) == b
  {
    EightBytes();
    LittleEndianInverse(b);
  }

  /** Field `k` is the first of its name, and the Entry is long enough to hold it. */
  predicate Readable(s: GcStat, name: string, k: nat) {
    && k < |s.layout.fields| && s.layout.fields[k].0 == name && s.layout.fields[k].1 + 8 <= |s.bytes|
    && forall j :: 0 <= j < k ==> s.layout.fields[j].0 != name
  }

  predicate Spells(s: GcStat, k: nat, x: i64)
    requires k < |s.layout.fields| && s.layout.fields[k].1 + 8 <= |s.bytes|
  {
    s.bytes[s.layout.fields[k].1..s.layout.fields[k].1 + 8] == Word(x)
  }

  /** Of any bytes under any layout: a name reads as `x` exactly when the first field of that name is inside the Entry and spells `x`. */
  lemma GetIff(s: GcStat, name: string, x: i64)
    ensures Get(s, name) == Some(x) <==> exists k: nat :: Readable(s, name, k) && Spells(s, k, x)
  {
    FirstOffset(s.layout.fields, name);
    forall k: nat | Readable(s, name, k) ensures Get(s, name) == Some(x) <==> Spells(s, k, x) {
      var off := s.layout.fields[k].1;
      assert FirstOf(s.layout.fields, name, k);
      WordInverse(s.bytes[off..off + 8]);
      WordRoundTrip(x);
    }
    if Get(s, name) == Some(x) {
      var k: nat :| FirstOf(s.layout.fields, name, k);
      assert Readable(s, name, k);
    }
  }

  predicate FirstOf(fields: seq<(string, nat)>, name: string, k: nat) {
    k < |fields| && fields[k].0 == name && forall j :: 0 <= j < k ==> fields[j].0 != name
  }

  lemma {:induction false} FirstOffset(fields: seq<(string, nat)>, name: string)
    ensures OffsetIn(fields, name).Some? <==> exists k: nat :: FirstOf(fields, name, k)
    ensures forall k: nat :: FirstOf(fields, name, k) ==> OffsetIn(fields, name) == Some(fields[k].1)
  {
    if fields != [] {
      FirstOffset(fields[1..], name);
      if fields[0].0 == name {
        assert FirstOf(fields, name, 0);
      } else {
        forall k: nat | FirstOf(fields, name, k) ensures k > 0 && FirstOf(fields[1..], name, k - 1) {
          assert forall j :: 0 <= j < k - 1 ==> fields[1..][j] == fields[j + 1];
        }
        forall k: nat | FirstOf(fields[1..], name, k) ensures FirstOf(fields, name, k + 1) {
          forall j | 0 <= j < k + 1 ensures fields[j].0 != name {
            if j > 0 { assert fields[1..][j - 1] == fields[j]; }
          }
        }
      }
    }
  }

  predicate Has(layout: ItemLayout, name: string) {
    exists i :: 0 <= i < |layout.fields| && layout.fields[i].0 == name
  }

  predicate HasTiming(s: GcStat) {
    Has(s.layout, "ts_start") && Has(s.layout, "ts_stop")
  }

  predicate IsComplete(s: GcStat) {
    !HasTiming(s) || GetOrZero(s, "ts_start") < GetOrZero(s, "ts_stop")
  }

  /** An Entry long enough for its layout is finished unless it has both timestamps and they say it did not start before it stopped. */
  lemma CompleteIff(s: GcStat)
    requires WellFormed(s.layout) && |s.bytes| >= s.layout.itemSize
    ensures IsComplete(s) <==> (Get(s, "ts_start").Some? && Get(s, "ts_stop").Some? ==> Get(s, "ts_start").value < Get(s, "ts_stop").value)
  {
    OffsetFound(s.layout.fields, "ts_start");
    OffsetFound(s.layout.fields, "ts_stop");
  }

  /** Every field fits the Entry, and no two overlap. */
  predicate WellFormed(layout: ItemLayout) {
    && (forall i :: 0 <= i < |layout.fields| ==> layout.fields[i].1 + 8 <= layout.itemSize)
    && (forall i, j :: 0 <= i < j < |layout.fields| ==>
          && layout.fields[i].0 != layout.fields[j].0
          && (layout.fields[i].1 + 8 <= layout.fields[j].1 || layout.fields[j].1 + 8 <= layout.fields[i].1))
  }

  lemma {:induction false} OffsetFound(fields: seq<(string, nat)>, name: string)
    ensures OffsetIn(fields, name).Some? <==> exists i :: 0 <= i < |fields| && fields[i].0 == name
    ensures OffsetIn(fields, name).Some? ==> (name, OffsetIn(fields, name).value) in fields
  {
    if fields != [] && fields[0].0 != name {
      OffsetFound(fields[1..], name);
      if exists i :: 0 <= i < |fields| && fields[i].0 == name {
        var i :| 0 <= i < |fields| && fields[i].0 == name;
        assert fields[1..][i - 1].0 == name;
      }
    }
  }

  function Store(bytes: seq<byte>, off: nat, word: seq<byte>): (r: seq<byte>)
    requires off + |word| <= |bytes|
    ensures |r| == |bytes|
  {
    bytes[..off] + word + bytes[off + |word|..]
  }

  /** A word stored reads back, and words clear of it read as before. */
  lemma StoreReads(bytes: seq<byte>, off: nat, word: seq<byte>, other: nat)
    requires off + 8 <= |bytes| && |word| == 8 && other + 8 <= |bytes|
    requires other == off || other + 8 <= off || off + 8 <= other
    ensures Store(bytes, off, word)[other..other + 8] == if other == off then word else bytes[other..other + 8]
  {}

  /** The value last named for `name`, zero if it never was. */
  function LastOf(values: seq<(string, i64)>, name: string): i64 {
    if values == [] then 0
    else if values[|values| - 1].0 == name then values[|values| - 1].1
    else LastOf(values[..|values| - 1], name)
  }

  predicate WordAt(bytes: seq<byte>, off: nat, x: i64) {
    off + 8 <= |bytes| && bytes[off..off + 8] == Word(x)
  }

  /** Each of the layout's fields holds the value last named for it. */
  ghost predicate Holds(bytes: seq<byte>, layout: ItemLayout, values: seq<(string, i64)>) {
    forall i :: 0 <= i < |layout.fields| ==> WordAt(bytes, layout.fields[i].1, LastOf(values, layout.fields[i].0))
  }

  /** Two fields of a layout are one field, or have different names and lie clear of each other. */
  lemma FieldsApart(layout: ItemLayout, i: nat, j: nat)
    requires WellFormed(layout) && i < |layout.fields| && j < |layout.fields|
    ensures var a, b := layout.fields[i], layout.fields[j];
      (a.0 == b.0 && a.1 == b.1) || (a.0 != b.0 && (a.1 + 8 <= b.1 || b.1 + 8 <= a.1))
  {}

  lemma StoreWord(bytes: seq<byte>, off: nat, x: i64, other: nat, y: i64)
    requires off + 8 <= |bytes| && WordAt(bytes, other, y)
    requires other == off || other + 8 <= off || off + 8 <= other
    ensures WordAt(Store(bytes, off, Word(x)), other, if other == off then x else y)
  {
    StoreReads(bytes, off, Word(x), other);
  }

  lemma {:induction false} LastSnoc(values: seq<(string, i64)>, name: string, x: i64, other: string)
    ensures LastOf(values + [(name, x)], other) == if name == other then x else LastOf(values, other)
  {
    assert (values + [(name, x)])[..|values|] == values;
  }

  lemma {:induction false} StoreHolds(bytes: seq<byte>, layout: ItemLayout, values: seq<(string, i64)>, name: string, x: i64)
    requires WellFormed(layout) && |bytes| == layout.itemSize && Holds(bytes, layout, values)
    ensures var off := OffsetIn(layout.fields, name);
      && (off.Some? ==> off.value + 8 <= |bytes|)
      && Holds(if off.Some? then Store(bytes, off.value, Word(x)) else bytes, layout, values + [(name, x)])
  {
    var off := OffsetIn(layout.fields, name);
    OffsetFound(layout.fields, name);
    if off.Some? {
      var k :| 0 <= k < |layout.fields| && layout.fields[k] == (name, off.value);
      forall i | 0 <= i < |layout.fields|
        ensures WordAt(Store(bytes, off.value, Word(x)), layout.fields[i].1,
                       LastOf(values + [(name, x)], layout.fields[i].0))
      {
        FieldsApart(layout, i, k);
        LastSnoc(values, name, x, layout.fields[i].0);
        StoreWord(bytes, off.value, x, layout.fields[i].1, LastOf(values, layout.fields[i].0));
      }
    } else {
      forall i | 0 <= i < |layout.fields|
        ensures WordAt(bytes, layout.fields[i].1, LastOf(values + [(name, x)], layout.fields[i].0))
      {
        LastSnoc(values, name, x, layout.fields[i].0);
      }
    }
  }

  lemma {:induction false} ZeroWord()
    ensures Word(0) == seq(8, _ => 0)
  {
    assert ToLittleEndian(0, 4) == [0, 0, 0, 0];
    assert Word(0) == [0, 0, 0, 0] + ToLittleEndian(0, 4);
  }

  lemma {:induction false} ZeroHolds(layout: ItemLayout)
    requires WellFormed(layout)
    ensures Holds(seq(layout.itemSize, _ => 0), layout, [])
  {
    ZeroWord();
  }

  /** Write one named value, unless the layout lacks the field. */
  method StoreField(bytes: seq<byte>, layout: ItemLayout, name: string, x: i64, ghost done: seq<(string, i64)>)
    returns (more: seq<byte>)
    requires WellFormed(layout) && |bytes| == layout.itemSize && Holds(bytes, layout, done)
    ensures |more| == layout.itemSize && Holds(more, layout, done + [(name, x)])
  {
    StoreHolds(bytes, layout, done, name, x);
    var off := OffsetIn(layout.fields, name);
    return if off.Some? then Store(bytes, off.value, Word(x)) else bytes;
  }

  /** An Entry built by naming values: zeroed bytes, then each value of a field the layout has, in order. */
  method FromFields(generation: nat, index: nat, interpreterId: int, layout: ItemLayout, values: seq<(string, i64)>)
    returns (s: GcStat)
    requires WellFormed(layout)
    ensures s.generation == generation && s.index == index && s.interpreterId == interpreterId && s.layout == layout
    ensures |s.bytes| == layout.itemSize && Holds(s.bytes, layout, values)
  {
    var bytes: seq<byte> := seq(layout.itemSize, _ => 0);
    ZeroHolds(layout);
    for i := 0 to |values|
      invariant |bytes| == layout.itemSize && Holds(bytes, layout, values[..i])
    {
      assert values[..i + 1] == values[..i] + [(values[i].0, values[i].1)];
      bytes := StoreField(bytes, layout, values[i].0, values[i].1, values[..i]);
    }
    assert values[..|values|] == values;
    return GcStat(generation, index, interpreterId, bytes, layout);
  }

  /** What an Entry holds is what its accessors return: the value for a field it has, none for one it lacks. */
  lemma {:induction false} GetReadsHeld(s: GcStat, values: seq<(string, i64)>, name: string)
    requires Holds(s.bytes, s.layout, values)
    ensures Get(s, name) == if Has(s.layout, name) then Some(LastOf(values, name)) else None
  {
    OffsetFound(s.layout.fields, name);
    var off := OffsetIn(s.layout.fields, name);
    if off.Some? {
      var k :| 0 <= k < |s.layout.fields| && s.layout.fields[k] == (name, off.value);
      assert WordAt(s.bytes, off.value, LastOf(values, name));
      WordReads(s.bytes, off.value, LastOf(values, name));
    }
  }

  lemma WordReads(bytes: seq<byte>, off: nat, x: i64)
    requires WordAt(bytes, off, x)
    ensures RawAt(bytes, off).Some? && RawAt(bytes, off).value < TWO_64 && Signed(RawAt(bytes, off).value) == x
  {
    WordRoundTrip(x);
  }
}
