/**
 One ring's accumulator: how Records fold into it, and which of the candidates offered it takes.
 */
module Observation {
  import opened Prelude
  import opened Records

  datatype RingObservation = RingObservation(
    first: Lifetime, firstPauseNs: int, last: Lifetime,
    sampled: nat, measuredPauseNs: int, timed: bool, pricesPause: bool)
  {
    predicate IsEmpty() { sampled == 0 }

    /** A ring not read yet admits any counter, one read only those beyond its last. */
    predicate Admits(counter: int) { IsEmpty() || counter > last.collections }

    function Fold(r: Record): RingObservation {
      var o := if IsEmpty()
        then this.(first := LifetimeOf(r), firstPauseNs := r.PauseNs(), timed := r.timed, pricesPause := r.pricesPause)
        else this;
      o.(last := LifetimeOf(r), sampled := sampled + 1, measuredPauseNs := measuredPauseNs + r.PauseNs())
    }
  }

  const NO_TOTALS := Lifetime(0, 0, 0, Finite(0.0))

  /** The accumulator of a ring no Record has been read from. */
  const UNREAD := RingObservation(NO_TOTALS, 0, NO_TOTALS, 0, 0, false, false)

  function FoldAll(o: RingObservation, rs: seq<Record>): RingObservation
    decreases |rs|
  {
    if rs == [] then o else FoldAll(o.Fold(rs[0]), rs[1..])
  }

  /** Whether a candidate is neither in flight, nor untouched, nor already reported. */
  predicate Takes(o: RingObservation, r: Record) {
    r.IsComplete() && r.collections > 0 && o.Admits(r.collections)
  }

  /** Offer one ring its candidates in order: the accumulator after, and the Records taken. */
  function Select(o: RingObservation, rs: seq<Record>): (res: (RingObservation, seq<Record>))
    decreases |rs|
  {
    if rs == [] then (o, [])
    else if Takes(o, rs[0]) then
      var t := Select(o.Fold(rs[0]), rs[1..]);
      (t.0, [rs[0]] + t.1)
    else Select(o, rs[1..])
  }

  ghost predicate Increasing(rs: seq<Record>) {
    forall i, j :: 0 <= i < j < |rs| ==> rs[i].collections < rs[j].collections
  }

  ghost predicate ByCounter(rs: seq<Record>) {
    forall i, j :: 0 <= i < j < |rs| ==> rs[i].collections <= rs[j].collections
  }

  lemma {:induction false} FoldAllConcat(o: RingObservation, a: seq<Record>, b: seq<Record>)
    ensures FoldAll(o, a + b) == FoldAll(FoldAll(o, a), b)
    decreases |a|
  {
    if a == [] {
      assert a + b == b;
    } else {
      assert (a + b)[0] == a[0] && (a + b)[1..] == a[1..] + b;
      FoldAllConcat(o.Fold(a[0]), a[1..], b);
    }
  }

  /**
   What the accumulator after a fold says of the Records folded: the ends are the first and last
   Record's totals, and the rest count and price them.
   */
  lemma {:induction false} FoldAllMeaning(rs: seq<Record>)
    requires rs != []
    ensures var o := FoldAll(UNREAD, rs);
      && o.sampled == |rs|
      && o.first == LifetimeOf(rs[0]) && o.last == LifetimeOf(rs[|rs| - 1])
      && o.firstPauseNs == rs[0].PauseNs()
      && o.timed == rs[0].timed && o.pricesPause == rs[0].pricesPause
      && o.measuredPauseNs == SumBy((r: Record) => r.PauseNs(), rs)
  {
    var init, last := rs[..|rs| - 1], rs[|rs| - 1];
    var pause := (r: Record) => r.PauseNs();
    assert rs == init + [last] && [last][1..] == [];
    FoldAllConcat(UNREAD, init, [last]);
    SumByConcat(pause, init, [last]);
    if init != [] {
      FoldAllMeaning(init);
      assert rs[0] == init[0];
    }
  }

  /** What is taken is what is folded; it rises past the cursor, and nothing taken was in flight. */
  lemma {:induction false} SelectMeaning(o: RingObservation, rs: seq<Record>)
    ensures Select(o, rs).0 == FoldAll(o, Select(o, rs).1)
    ensures Increasing(Select(o, rs).1)
    ensures forall r :: r in Select(o, rs).1 ==> r in rs && Takes(o, r)
    ensures Select(o, rs).1 == [] ==> Select(o, rs).0 == o
    decreases |rs|
  {
    if rs != [] {
      if Takes(o, rs[0]) {
        SelectMeaning(o.Fold(rs[0]), rs[1..]);
        var rest := Select(o.Fold(rs[0]), rs[1..]).1;
        forall r | r in rest ensures r in rs && Takes(o, r) && rs[0].collections < r.collections {}
        forall i, j | 0 <= i < j < |rest| + 1
          ensures ([rs[0]] + rest)[i].collections < ([rs[0]] + rest)[j].collections
        {
          if i == 0 { assert rest[j - 1] in rest; }
        }
      } else {
        SelectMeaning(o, rs[1..]);
      }
    }
  }

  /** Offered in counter order, every counter past the cursor that can be taken is taken. */
  lemma {:induction false} SelectComplete(o: RingObservation, rs: seq<Record>, r: Record)
    requires ByCounter(rs) && r in rs && Takes(o, r)
    ensures exists t :: t in Select(o, rs).1 && t.collections == r.collections
    decreases |rs|
  {
    if r == rs[0] {
      assert r in Select(o, rs).1;
    } else {
      assert r in rs[1..];
      var k :| 0 <= k < |rs[1..]| && rs[1..][k] == r;
      assert rs[k + 1] == r && rs[0].collections <= r.collections;
      if Takes(o, rs[0]) {
        if rs[0].collections == r.collections {
          assert rs[0] in Select(o, rs).1;
        } else {
          SelectComplete(o.Fold(rs[0]), rs[1..], r);
          var t :| t in Select(o.Fold(rs[0]), rs[1..]).1 && t.collections == r.collections;
          assert t in Select(o, rs).1;
        }
      } else {
        SelectComplete(o, rs[1..], r);
      }
    }
  }

  /** What holds of every accumulator the cursor builds, whatever bytes it was handed. */
  predicate Sound(o: RingObservation) {
    && o.measuredPauseNs >= 0
    && (o.IsEmpty() ==> o.measuredPauseNs == 0)
    && (o.IsEmpty() || (
        && 1 <= o.first.collections <= o.last.collections
        && o.sampled <= o.last.collections - o.first.collections + 1
        && 0 <= o.firstPauseNs <= o.measuredPauseNs
        && (o.timed ==> o.measuredPauseNs > 0)))
  }

  lemma FoldSound(o: RingObservation, r: Record)
    requires Sound(o) && Takes(o, r)
    ensures Sound(o.Fold(r)) && !o.Fold(r).IsEmpty()
  {}
}
