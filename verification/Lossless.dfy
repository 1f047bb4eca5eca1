/**
 When a ring is read without losing anything. A poll reads each Entry once, at its own moment;
 `polls[i]` is the ring as it stood when Entry `i` was read.
 */
module Lossless {
  import opened Prelude
  import opened Records
  import opened Observation
  import opened CursorLaws
  import RW = RingWriter

  /** Every Collection took time: a zero-width one is never complete, so never read. */
  ghost predicate Widths(h: seq<RW.Collection>) {
    forall k :: 0 <= k < |h| ==> h[k].tsStart < h[k].tsStop
  }

  /** A read of one ring, begun with `a` Collections published and ended with `b`. */
  ghost predicate PollOf(h: seq<RW.Collection>, poll: seq<RW.RingState>, a: nat, b: nat) {
    && |poll| > 0
    && forall i :: 0 <= i < |poll| ==>
         && RW.Valid(poll[i]) && |poll[i].items| == |poll|
         && poll[i].history <= h && a <= |poll[i].history| <= b
  }

  ghost function EntryRead(h: seq<RW.Collection>, poll: seq<RW.RingState>, a: nat, b: nat, key: RingKey, i: nat): Record
    requires PollOf(h, poll, a, b) && i < |poll|
  {
    RW.CounterRange(poll[i], i);
    RW.Decode(poll[i].items[i], key.interpreter, key.generation, i)
  }

  /** The Records a poll holds for `key` are what it read of this ring, in any order, among any others. */
  ghost predicate Holds(h: seq<RW.Collection>, poll: seq<RW.RingState>, a: nat, b: nat, key: RingKey, records: seq<Record>) {
    && PollOf(h, poll, a, b)
    && (forall i :: 0 <= i < |poll| ==> EntryRead(h, poll, a, b, key, i) in records)
    && (forall r :: r in records && InRing(key)(r) ==> exists i :: 0 <= i < |poll| && r == EntryRead(h, poll, a, b, key, i))
  }

  /** A Collection published before the poll began, and not reachable by the writer before it ended, is read. */
  lemma {:induction false} Visible(h: seq<RW.Collection>, poll: seq<RW.RingState>, a: nat, b: nat, c: int)
    requires PollOf(h, poll, a, b) && 1 <= c <= a && b + 2 - |poll| <= c
    ensures poll[c % |poll|].items[c % |poll|] == RW.Cum(h, c)
  {
    var r := poll[c % |poll|];
    assert r.items[c % |r.items|] == RW.Cum(r.history, c);
    RW.CumPrefix(r.history, h, c);
  }

  /** What a finished Entry read says: which Collection it was. */
  lemma {:induction false} ReadSays(h: seq<RW.Collection>, poll: seq<RW.RingState>, a: nat, b: nat, key: RingKey, i: nat)
    requires PollOf(h, poll, a, b) && i < |poll| && EntryRead(h, poll, a, b, key, i).IsComplete()
    ensures var r := EntryRead(h, poll, a, b, key, i);
      1 <= r.collections <= b && r.collections <= |h| && poll[i].items[i] == RW.Cum(h, r.collections)
  {
    RW.EntryKinds(poll[i], i);
    RW.CumPrefix(poll[i].history, h, poll[i].items[i].collections);
  }

  lemma VisibleTakes(h: seq<RW.Collection>, poll: seq<RW.RingState>, a: nat, b: nat, key: RingKey, c: int)
    requires PollOf(h, poll, a, b) && Widths(h) && 1 <= c <= a && c <= |h| && b + 2 - |poll| <= c
    ensures EntryRead(h, poll, a, b, key, c % |poll|).IsComplete()
    ensures EntryRead(h, poll, a, b, key, c % |poll|).collections == c
  {
    Visible(h, poll, a, b, c);
  }

  /** The counters `from + 1`, `from + 2`, and on, in order. */
  ghost predicate Consecutive(rs: seq<Record>, from: int) {
    forall i :: 0 <= i < |rs| ==> rs[i].collections == from + 1 + i
  }

  ghost predicate Names(rs: seq<Record>, c: int) {
    exists r :: r in rs && r.collections == c
  }

  /** Rising counters past `from` that include everything up to `a`, and at most one more, leave no gap. */
  lemma {:induction false} NoGap(rs: seq<Record>, from: int, a: int, b: int, i: nat)
    requires Increasing(rs) && b <= a + 1 && i < |rs|
    requires forall r :: r in rs ==> from < r.collections <= b
    requires forall c :: from < c <= a ==> Names(rs, c)
    ensures rs[i].collections == from + 1 + i
    decreases i
  {
    assert rs[i] in rs;
    if i > 0 {
      NoGap(rs, from, a, b, i - 1);
      assert rs[i - 1].collections < rs[i].collections;
    }
    if rs[i].collections > from + 1 + i {
      assert Names(rs, from + 1 + i);
      Skipped(rs, i, from + 1 + i);
      assert false;
    }
  }

  /** A counter strictly between two neighbours of a rising sequence is nowhere in it. */
  lemma Skipped(rs: seq<Record>, i: nat, c: int)
    requires Increasing(rs) && i < |rs| && c < rs[i].collections
    requires i > 0 ==> rs[i - 1].collections < c
    ensures !Names(rs, c)
  {
    forall r | r in rs ensures r.collections != c {
      var j :| 0 <= j < |rs| && rs[j] == r;
      if j < i { assert rs[j].collections <= rs[i - 1].collections; }
      else { assert rs[i].collections <= rs[j].collections; }
    }
  }

  lemma TakenLength(rs: seq<Record>, from: int, a: int, b: int)
    requires Consecutive(rs, from) && from <= a <= b
    requires forall r :: r in rs ==> r.collections <= b
    requires forall c :: from < c <= a ==> Names(rs, c)
    ensures a - from <= |rs| <= b - from
  {
    if rs != [] { assert rs[|rs| - 1] in rs; }
    if from < a {
      assert Names(rs, a);
      var r :| r in rs && r.collections == a;
      var j :| 0 <= j < |rs| && rs[j] == r;
    }
  }

  /** An accumulator that has folded the Collections `1` to `done`, and no other. */
  ghost predicate ReadTo(o: RingObservation, done: nat) {
    if done == 0 then o.IsEmpty() else !o.IsEmpty() && o.last.collections == done
  }

  /** One poll: the ring as it was read, the Records handed over, the counts it fell between. */
  datatype Reading = Reading(poll: seq<RW.RingState>, records: seq<Record>, a: nat, b: nat)

  lemma {:induction false} TakenBetween(h: seq<RW.Collection>, p: Reading, key: RingKey, o: RingObservation, done: nat)
    requires Holds(h, p.poll, p.a, p.b, key, p.records) && ReadTo(o, done)
    ensures forall r :: r in TakenFrom(o, p.records, key) ==> done < r.collections <= p.b
  {
    TakenSound(o, p.records, key);
    forall r | r in TakenFrom(o, p.records, key) ensures done < r.collections <= p.b {
      var i :| 0 <= i < |p.poll| && r == EntryRead(h, p.poll, p.a, p.b, key, i);
      ReadSays(h, p.poll, p.a, p.b, key, i);
    }
  }

  lemma TakenReaches(h: seq<RW.Collection>, p: Reading, key: RingKey, o: RingObservation, done: nat, c: int)
    requires Holds(h, p.poll, p.a, p.b, key, p.records) && Widths(h) && p.b <= |h| && ReadTo(o, done)
    requires done < c <= p.a <= p.b && p.b + 2 - |p.poll| <= c
    ensures Names(TakenFrom(o, p.records, key), c)
  {
    VisibleTakes(h, p.poll, p.a, p.b, key, c);
    TakenComplete(o, p.records, key, EntryRead(h, p.poll, p.a, p.b, key, c % |p.poll|));
  }

  /**
   Everything up to `done` has been read. A poll during which at most one Collection completes,
   ended with no more than a ring less one completed since, takes the next ones without a gap.
   */
  lemma PollLosesNothing(h: seq<RW.Collection>, p: Reading, key: RingKey, o: RingObservation, done: nat)
    requires Holds(h, p.poll, p.a, p.b, key, p.records) && Widths(h) && p.b <= |h| && ReadTo(o, done)
    requires done <= p.a <= p.b <= p.a + 1 && p.b - done <= |p.poll| - 1
    ensures Consecutive(TakenFrom(o, p.records, key), done)
    ensures p.a - done <= |TakenFrom(o, p.records, key)| <= p.b - done
  {
    var taken := TakenFrom(o, p.records, key);
    TakenSound(o, p.records, key);
    TakenBetween(h, p, key, o, done);
    forall c | done < c <= p.a ensures Names(taken, c) {
      TakenReaches(h, p, key, o, done, c);
    }
    forall i | 0 <= i < |taken| ensures taken[i].collections == done + 1 + i {
      NoGap(taken, done, p.a, p.b, i);
    }
    TakenLength(taken, done, p.a, p.b);
  }

  lemma {:induction false} FoldConsecutive(o: RingObservation, taken: seq<Record>, done: nat)
    requires ReadTo(o, done) && Consecutive(taken, done)
    ensures ReadTo(FoldAll(o, taken), done + |taken|)
  {
    if taken != [] {
      var init, last := taken[..|taken| - 1], taken[|taken| - 1];
      assert taken == init + [last] && [last][1..] == [];
      FoldAllConcat(o, init, [last]);
    }
  }

  // ---- exactly how much one snapshot shows ------------------------------------------------

  /** How many Collections back a ring still shows: one less once the oldest has been overwritten. */
  function Depth(r: RW.RingState): int {
    if r.stage < 2 then |r.items|
    else if r.stage == 2 then Max(|r.items| - 1, 1)
    else |r.items| - 1
  }

  ghost predicate ShownAt(r: RW.RingState, i: int, c: int) {
    0 <= i < |r.items| && r.items[i].tsStart < r.items[i].tsStop && r.items[i].collections == c
  }

  lemma ShownIsRecent(r: RW.RingState, i: int, c: int)
    requires RW.Valid(r) && ShownAt(r, i, c)
    ensures Max(1, |r.history| - Depth(r) + 1) <= c <= |r.history|
  {
    RW.EntryKinds(r, i);
    if r.stage > 0 && i != r.index && RW.Holder(|r.history|, i, |r.items|) == |r.history| + 1 - |r.items| {
      RW.ModPeriod(|r.history| + 1, |r.items|);
    }
  }

  lemma RecentIsShown(r: RW.RingState, c: int)
    requires RW.Valid(r) && Widths(r.history)
    requires Max(1, |r.history| - Depth(r) + 1) <= c <= |r.history|
    ensures exists i :: ShownAt(r, i, c)
  {
    var n, size := |r.history|, |r.items|;
    if (r.stage == 1 && c == n + 1 - size) || (r.stage == 2 && c == n) {
      RW.EntryKinds(r, r.index);
      assert ShownAt(r, r.index, c);
    } else {
      assert r.items[c % size] == RW.Cum(r.history, c);
      assert ShownAt(r, c % size, c);
    }
  }

  /**
   A snapshot, taken between any two stores, returns exactly the Collections past the cursor that
   are no older than the ring's depth there. It loses nothing if and only if no more completed.
   */
  lemma SnapshotReads(r: RW.RingState, key: RingKey, records: seq<Record>, o: RingObservation, done: nat, c: int)
    requires Snapshot(r, key, records, o, done)
    ensures Names(TakenFrom(o, records, key), c) <==> Max(done, |r.history| - Depth(r)) < c <= |r.history|
    ensures (forall m :: done < m <= |r.history| ==> Names(TakenFrom(o, records, key), m))
        <==> |r.history| <= done + Depth(r) || |r.history| <= done
  {
    SnapshotReadsOne(r, key, records, o, done, c);
    var n := |r.history|;
    if done < n {
      SnapshotReadsOne(r, key, records, o, done, done + 1);
    }
    forall m | done < m <= n && n <= done + Depth(r) ensures Names(TakenFrom(o, records, key), m) {
      SnapshotReadsOne(r, key, records, o, done, m);
    }
  }

  ghost predicate Snapshot(r: RW.RingState, key: RingKey, records: seq<Record>, o: RingObservation, done: nat) {
    && RW.Valid(r) && Widths(r.history) && ReadTo(o, done)
    && Holds(r.history, seq(|r.items|, _ => r), |r.history|, |r.history|, key, records)
  }

  lemma NamedIsRecent(r: RW.RingState, key: RingKey, records: seq<Record>, o: RingObservation, done: nat, t: Record)
    requires Snapshot(r, key, records, o, done) && t in TakenFrom(o, records, key)
    ensures Max(done, |r.history| - Depth(r)) < t.collections <= |r.history|
  {
    var n, poll := |r.history|, seq(|r.items|, _ => r);
    TakenSound(o, records, key);
    var i :| 0 <= i < |poll| && t == EntryRead(r.history, poll, n, n, key, i);
    assert ShownAt(r, i, t.collections);
    ShownIsRecent(r, i, t.collections);
  }

  lemma {:induction false} RecentIsNamed(r: RW.RingState, key: RingKey, records: seq<Record>, o: RingObservation, done: nat, c: int)
    requires Snapshot(r, key, records, o, done)
    requires Max(done, |r.history| - Depth(r)) < c <= |r.history|
    ensures Names(TakenFrom(o, records, key), c)
  {
    RecentIsShown(r, c);
    var i :| ShownAt(r, i, c);
    TakenComplete(o, records, key, EntryRead(r.history, seq(|r.items|, _ => r), |r.history|, |r.history|, key, i));
  }

  lemma SnapshotReadsOne(r: RW.RingState, key: RingKey, records: seq<Record>, o: RingObservation, done: nat, c: int)
    requires Snapshot(r, key, records, o, done)
    ensures Names(TakenFrom(o, records, key), c) <==> Max(done, |r.history| - Depth(r)) < c <= |r.history|
  {
    if Names(TakenFrom(o, records, key), c) {
      var t :| t in TakenFrom(o, records, key) && t.collections == c;
      NamedIsRecent(r, key, records, o, done, t);
    }
    if Max(done, |r.history| - Depth(r)) < c <= |r.history| {
      RecentIsNamed(r, key, records, o, done, c);
    }
  }

  // ---- exactly when a poll cannot skip -------------------------------------------------------

  lemma PrefixMonotone(h: seq<RW.Collection>, n: nat)
    requires RW.Monotone(h) && n <= |h|
    ensures RW.Monotone(h[..n])
  {}

  /** A ring of `size` Entries at rest, having published the first `n` Collections of `h`. */
  function Resting(h: seq<RW.Collection>, n: nat, size: nat): RW.RingState
    requires n <= |h| && size > 0
  {
    RW.RingState(seq(size, i requires 0 <= i < size => RW.Cum(h[..n], RW.Holder(n, i, size))),
                 n % size, 0, RW.Next(h[..n]), h[..n])
  }

  lemma RestingValid(h: seq<RW.Collection>, n: nat, size: nat)
    requires RW.Monotone(h) && n <= |h| <= I64_MAX && size > 0
    ensures RW.Valid(Resting(h, n, size))
  {
    var r := Resting(h, n, size);
    PrefixMonotone(h, n);
    forall c | n - size + 1 <= c <= n ensures r.items[c % size] == RW.Cum(h[..n], c) {
      var d := RW.Holder(n, c % size, size);
      if c < d { RW.ModDistinct(c, d, size); }
      if d < c { RW.ModDistinct(d, c, size); }
    }
  }

  /** The same ring three stores into publishing the next. */
  function Overwriting(h: seq<RW.Collection>, n: nat, size: nat): RW.RingState
    requires RW.Monotone(h) && n <= |h| < I64_MAX && size > 0
  {
    var r := Resting(h, n, size);
    RestingValid(h, n, size);
    RW.NextFollows(r.history);
    RW.BeginValid(r, RW.Next(r.history));
    RW.StepValid(RW.Begin(r, RW.Next(r.history)));
    RW.Step(RW.Step(RW.Begin(r, RW.Next(r.history))))
  }

  lemma OverwritingValid(h: seq<RW.Collection>, n: nat, size: nat)
    requires RW.Monotone(h) && n <= |h| < I64_MAX && size > 0
    ensures var r := Overwriting(h, n, size);
      RW.Valid(r) && r.stage == 3 && r.history == h[..n] && |r.items| == size && r.index == (n + 1) % size
  {
    var r := Resting(h, n, size);
    var c := RW.Next(r.history);
    RestingValid(h, n, size);
    RW.NextFollows(r.history);
    RW.BeginValid(r, c);
    RW.StepValid(RW.Begin(r, c));
    RW.StepValid(RW.Step(RW.Begin(r, c)));
    RW.ModStep(n, size);
  }

  /** No poll begun at `a` and ended at `b` returns a Collection and skips one before it. */
  ghost predicate NeverSkips(h: seq<RW.Collection>, key: RingKey, o: RingObservation, size: nat, a: nat, b: nat, done: nat) {
    forall poll, records :: |poll| == size && Holds(h, poll, a, b, key, records) ==> Consecutive(TakenFrom(o, records, key), done)
  }

  function SkippingPoll(h: seq<RW.Collection>, a: nat, size: nat): seq<RW.RingState>
    requires a + 2 <= |h| && size > 0
  {
    seq(size, i => if i == (a + 2) % size then Resting(h, a + 2, size) else Resting(h, a, size))
  }

  /** What a poll reads of this ring, and of nothing else. */
  ghost function AllRead(h: seq<RW.Collection>, poll: seq<RW.RingState>, a: nat, b: nat, key: RingKey): (records: seq<Record>)
    requires PollOf(h, poll, a, b)
    ensures |records| == |poll| && forall i :: 0 <= i < |poll| ==> records[i] == EntryRead(h, poll, a, b, key, i)
    ensures Holds(h, poll, a, b, key, records)
  {
    var records := seq(|poll|, i requires 0 <= i < |poll| && PollOf(h, poll, a, b) => EntryRead(h, poll, a, b, key, i));
    assert forall i :: 0 <= i < |poll| ==> records[i] in records;
    records
  }

  lemma SkippingPollIsOne(h: seq<RW.Collection>, size: nat, a: nat, b: nat)
    requires RW.Monotone(h) && size > 0 && a + 2 <= b <= |h| <= I64_MAX
    ensures PollOf(h, SkippingPoll(h, a, size), a, b)
  {
    RestingValid(h, a, size);
    RestingValid(h, a + 2, size);
  }

  lemma {:induction false} TakenReadAt(
    h: seq<RW.Collection>, poll: seq<RW.RingState>, a: nat, b: nat, key: RingKey, o: RingObservation, c: int) returns (i: nat)
    requires PollOf(h, poll, a, b) && Names(TakenFrom(o, AllRead(h, poll, a, b, key), key), c)
    ensures i < |poll| && EntryRead(h, poll, a, b, key, i).IsComplete() && poll[i].items[i].collections == c
  {
    var records := AllRead(h, poll, a, b, key);
    TakenSound(o, records, key);
    var r :| r in TakenFrom(o, records, key) && r.collections == c;
    i :| 0 <= i < |records| && records[i] == r;
  }

  lemma ReadAtTaken(h: seq<RW.Collection>, poll: seq<RW.RingState>, a: nat, b: nat, key: RingKey, o: RingObservation, i: nat)
    requires PollOf(h, poll, a, b) && i < |poll| && Takes(o, EntryRead(h, poll, a, b, key, i))
    ensures Names(TakenFrom(o, AllRead(h, poll, a, b, key), key), poll[i].items[i].collections)
  {
    var records := AllRead(h, poll, a, b, key);
    assert records[i] in records;
    TakenComplete(o, records, key, records[i]);
  }

  lemma {:induction false} SecondIsRead(h: seq<RW.Collection>, key: RingKey, o: RingObservation, size: nat, a: nat, b: nat, done: nat)
    requires RW.Monotone(h) && Widths(h) && size > 0 && ReadTo(o, done) && done <= a && a + 2 <= b <= |h| <= I64_MAX
    ensures PollOf(h, SkippingPoll(h, a, size), a, b)
    ensures Names(TakenFrom(o, AllRead(h, SkippingPoll(h, a, size), a, b, key), key), a + 2)
  {
    var poll, at := SkippingPoll(h, a, size), (a + 2) % size;
    SkippingPollIsOne(h, size, a, b);
    RestingValid(h, a + 2, size);
    RW.NewestAtIndex(poll[at]);
    assert poll[at].items[at] == RW.Cum(h[..a + 2], a + 2);
    ReadAtTaken(h, poll, a, b, key, o, at);
  }

  lemma RestingHolds(h: seq<RW.Collection>, n: nat, size: nat, i: nat)
    requires n <= |h| && i < size
    ensures var r := Resting(h, n, size); |r.items| == size && r.items[i].collections == Max(RW.Holder(n, i, size), 0)
  {}

  lemma SkippingEntries(h: seq<RW.Collection>, a: nat, size: nat, i: nat)
    requires a + 2 <= |h| && i < size
    ensures var r := SkippingPoll(h, a, size)[i]; |r.items| == size && r.items[i].collections != a + 1
  {
    if i == (a + 2) % size {
      var c := RW.Holder(a + 2, i, size);
      if c < a + 2 { RW.ModDistinct(c, a + 2, size); }
      RestingHolds(h, a + 2, size, i);
    } else {
      RestingHolds(h, a, size, i);
    }
  }

  /**
   Two Collections completing while one poll walks the ring can lose one, however deep the ring and
   however little was unread before: the poll passes the Entry of the first before it is written and
   comes to that of the second after.
   */
  lemma StraddlingPollLoses(h: seq<RW.Collection>, key: RingKey, o: RingObservation, size: nat, a: nat, b: nat, done: nat)
    requires RW.Monotone(h) && Widths(h) && size > 0 && ReadTo(o, done) && done <= a && a + 2 <= b <= |h| <= I64_MAX
    ensures PollOf(h, SkippingPoll(h, a, size), a, b)
    ensures var taken := TakenFrom(o, AllRead(h, SkippingPoll(h, a, size), a, b, key), key);
      Names(taken, a + 2) && !Names(taken, a + 1)
  {
    SecondIsRead(h, key, o, size, a, b, done);
    if Names(TakenFrom(o, AllRead(h, SkippingPoll(h, a, size), a, b, key), key), a + 1) {
      var i := TakenReadAt(h, SkippingPoll(h, a, size), a, b, key, o, a + 1);
      SkippingEntries(h, a, size, i);
    }
  }

  /** Every Entry read while the ring is three stores into overwriting its oldest. */
  function OverwritingPoll(h: seq<RW.Collection>, n: nat, size: nat): (poll: seq<RW.RingState>)
    requires RW.Monotone(h) && n <= |h| < I64_MAX && size > 0
    ensures |poll| == size && forall i :: 0 <= i < size ==> poll[i] == Overwriting(h, n, size)
  {
    seq(size, _ => Overwriting(h, n, size))
  }

  lemma OverwritingPollIsOne(h: seq<RW.Collection>, size: nat, a: nat, b: nat)
    requires RW.Monotone(h) && size > 0 && a <= b <= |h| < I64_MAX
    ensures PollOf(h, OverwritingPoll(h, b, size), a, b)
  {
    OverwritingValid(h, b, size);
  }

  /** A ring's worth unread, and the oldest of it is being overwritten: it is lost, and the newest is not. */
  lemma {:induction false} OverwritingPollLoses(
    h: seq<RW.Collection>, key: RingKey, o: RingObservation, size: nat, a: nat, b: nat, done: nat)
    requires RW.Monotone(h) && Widths(h) && size >= 2 && ReadTo(o, done) && a <= b <= |h| < I64_MAX && b - done >= size
    ensures PollOf(h, OverwritingPoll(h, b, size), a, b)
    ensures var taken := TakenFrom(o, AllRead(h, OverwritingPoll(h, b, size), a, b, key), key);
      Names(taken, b) && !Names(taken, b + 1 - size)
  {
    var r := Overwriting(h, b, size);
    var poll := OverwritingPoll(h, b, size);
    OverwritingValid(h, b, size);
    OverwritingPollIsOne(h, size, a, b);
    assert r.items[b % size] == RW.Cum(r.history, b);
    ReadAtTaken(h, poll, a, b, key, o, b % size);
    if Names(TakenFrom(o, AllRead(h, poll, a, b, key), key), b + 1 - size) {
      var i := TakenReadAt(h, poll, a, b, key, o, b + 1 - size);
      RW.EntryKinds(r, i);
      if i != r.index { RW.HolderElsewhere(b, i, size); }
      assert false;
    }
  }

  lemma SkipShows(rs: seq<Record>, done: nat, missed: int, named: int)
    requires Names(rs, named) && !Names(rs, missed) && done < missed < named
    ensures !Consecutive(rs, done)
  {
    var r :| r in rs && r.collections == named;
    var j :| 0 <= j < |rs| && rs[j] == r;
    if missed - done - 1 < |rs| { assert rs[missed - done - 1] in rs; }
  }

  /**
   Everything up to `done` being read, a poll that reads one Entry at a time can skip nothing if and
   only if at most one Collection completes while it runs and fewer than a ring are unread when it
   ends: within those bounds no order of reads and stores skips one, beyond either some order does.
   */
  lemma NeverSkipsIff(h: seq<RW.Collection>, key: RingKey, o: RingObservation, size: nat, a: nat, b: nat, done: nat)
    requires RW.Monotone(h) && Widths(h) && |h| < I64_MAX && ReadTo(o, done) && size >= 2 && done <= a <= b <= |h|
    ensures NeverSkips(h, key, o, size, a, b, done) <==> b <= a + 1 && b - done <= size - 1
  {
    if b <= a + 1 && b - done <= size - 1 {
      forall poll, records | |poll| == size && Holds(h, poll, a, b, key, records)
        ensures Consecutive(TakenFrom(o, records, key), done)
      {
        PollLosesNothing(h, Reading(poll, records, a, b), key, o, done);
      }
    } else if b > a + 1 {
      StraddlingPollLoses(h, key, o, size, a, b, done);
      SkipShows(TakenFrom(o, AllRead(h, SkippingPoll(h, a, size), a, b, key), key), done, a + 1, a + 2);
    } else {
      OverwritingPollLoses(h, key, o, size, a, b, done);
      SkipShows(TakenFrom(o, AllRead(h, OverwritingPoll(h, b, size), a, b, key), key), done, b + 1 - size, b);
    }
  }
}
