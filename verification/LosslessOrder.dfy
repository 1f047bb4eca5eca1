/**
 A poll that reads a ring's Entries in their order in memory, first to last. It can ride out one
 Collection more than a poll in any order can, in one place: where the second of two Collections that
 complete under it lands on the first Entry, passed before either is written.
 */
module LosslessOrder {
  import opened Prelude
  import opened Records
  import opened Observation
  import opened CursorLaws
  import opened Lossless
  import RW = RingWriter

  /** One ring at two moments, the second no earlier. */
  ghost predicate NotBefore(r: RW.RingState, s: RW.RingState) {
    r.history <= s.history && (r.history == s.history ==> r.stage <= s.stage)
  }

  /** Every Entry was read no earlier than those before it. */
  ghost predicate InOrder(poll: seq<RW.RingState>) {
    forall i, j :: 0 <= i < j < |poll| ==> NotBefore(poll[i], poll[j])
  }

  /** No poll in order, begun at `a` and ended at `b`, returns a Collection and skips one before it. */
  ghost predicate NeverSkipsInOrder(h: seq<RW.Collection>, key: RingKey, o: RingObservation, size: nat, a: nat, b: nat, done: nat) {
    forall poll, records :: |poll| == size && InOrder(poll) && Holds(h, poll, a, b, key, records)
      ==> Consecutive(TakenFrom(o, records, key), done)
  }

  // ---- the one place more completes and nothing is skipped -----------------------------------

  lemma PreviousEntry(c: int, size: int)
    requires size > 0 && c % size > 0
    ensures (c - 1) % size == c % size - 1
  {
    RW.ModUnique(c - 1, size, c / size, c % size - 1);
  }

  lemma LastEntry(c: int, size: int)
    requires size > 0 && c % size == 0
    ensures (c - 1) % size == size - 1
  {
    RW.ModUnique(c - 1, size, c / size - 1, size - 1);
  }

  /** Whoever has seen the last Collection of a poll sees it from there on. */
  lemma SeenToTheEnd(h: seq<RW.Collection>, p: Reading, i: nat)
    requires PollOf(h, p.poll, p.a, p.b) && InOrder(p.poll) && i < |p.poll| && |p.poll[i].history| == p.b
    ensures |p.poll[|p.poll| - 1].history| == p.b
  {
    if i < |p.poll| - 1 { assert NotBefore(p.poll[i], p.poll[|p.poll| - 1]); }
  }

  lemma LateEntry(h: seq<RW.Collection>, p: Reading, key: RingKey)
    requires PollOf(h, p.poll, p.a, p.b) && Widths(h) && p.b <= |h| && |p.poll| >= 3 && p.b >= 2 && p.b % |p.poll| == 0
    requires |p.poll[|p.poll| - 1].history| == p.b
    ensures var r := EntryRead(h, p.poll, p.a, p.b, key, |p.poll| - 1); r.IsComplete() && r.collections == p.b - 1
  {
    var size := |p.poll|;
    var r := p.poll[size - 1];
    LastEntry(p.b, size);
    assert r.items[(p.b - 1) % size] == RW.Cum(r.history, p.b - 1);
    RW.CumPrefix(r.history, h, p.b - 1);
  }

  /** The last Collection is returned only with the one before it. */
  lemma {:induction false} LastBringsPrevious(h: seq<RW.Collection>, p: Reading, key: RingKey, o: RingObservation, done: nat)
    requires Holds(h, p.poll, p.a, p.b, key, p.records) && InOrder(p.poll) && Widths(h) && p.b <= |h| && ReadTo(o, done)
    requires done + 1 < p.b && |p.poll| >= 3 && p.b % |p.poll| == 0
    requires Names(TakenFrom(o, p.records, key), p.b)
    ensures Names(TakenFrom(o, p.records, key), p.b - 1)
  {
    TakenSound(o, p.records, key);
    var r :| r in TakenFrom(o, p.records, key) && r.collections == p.b;
    var i :| 0 <= i < |p.poll| && r == EntryRead(h, p.poll, p.a, p.b, key, i);
    RW.EntryKinds(p.poll[i], i);
    SeenToTheEnd(h, p, i);
    LateEntry(h, p, key);
    TakenComplete(o, p.records, key, EntryRead(h, p.poll, p.a, p.b, key, |p.poll| - 1));
  }

  lemma GapFree(taken: seq<Record>, done: nat, a: nat)
    requires Increasing(taken) && (forall r :: r in taken ==> done < r.collections <= a + 2)
    requires (forall c :: done < c <= a ==> Names(taken, c)) && (Names(taken, a + 2) ==> Names(taken, a + 1))
    ensures Consecutive(taken, done)
  {
    if Names(taken, a + 2) {
      forall c | done < c <= a + 1 ensures Names(taken, c) {}
      forall i | 0 <= i < |taken| ensures taken[i].collections == done + 1 + i { NoGap(taken, done, a + 1, a + 2, i); }
    } else {
      forall r | r in taken ensures done < r.collections <= a + 1 {}
      forall i | 0 <= i < |taken| ensures taken[i].collections == done + 1 + i { NoGap(taken, done, a, a + 1, i); }
    }
  }

  /** Two Collections may complete under a poll in order, if the second lands on the first Entry. */
  lemma WrappingPollLosesNothing(h: seq<RW.Collection>, p: Reading, key: RingKey, o: RingObservation, done: nat)
    requires Holds(h, p.poll, p.a, p.b, key, p.records) && InOrder(p.poll) && Widths(h) && p.b <= |h| && ReadTo(o, done)
    requires done <= p.a && p.b == p.a + 2 && p.b % |p.poll| == 0 && p.b - done <= |p.poll| - 1
    ensures Consecutive(TakenFrom(o, p.records, key), done)
  {
    var taken := TakenFrom(o, p.records, key);
    TakenSound(o, p.records, key);
    TakenBetween(h, p, key, o, done);
    forall c | done < c <= p.a ensures Names(taken, c) { TakenReaches(h, p, key, o, done, c); }
    if Names(taken, p.b) { LastBringsPrevious(h, p, key, o, done); }
    GapFree(taken, done, p.a);
  }

  // ---- and everywhere else something is ---------------------------------------------------------

  /** The ring at `a` up to the Entry of the `c`-th Collection, and at `c` from there on. */
  function OvertakenPoll(h: seq<RW.Collection>, a: nat, c: nat, size: nat): seq<RW.RingState>
    requires a <= c <= |h| && size > 0
  {
    seq(size, i => if i < c % size then Resting(h, a, size) else Resting(h, c, size))
  }

  lemma OvertakenPollIsOne(h: seq<RW.Collection>, size: nat, a: nat, c: nat, b: nat)
    requires RW.Monotone(h) && size > 0 && a <= c <= b <= |h| <= I64_MAX
    ensures PollOf(h, OvertakenPoll(h, a, c, size), a, b) && InOrder(OvertakenPoll(h, a, c, size))
  {
    RestingValid(h, a, size);
    RestingValid(h, c, size);
    assert h[..a] <= h[..c];
  }

  lemma OvertakenEntries(h: seq<RW.Collection>, a: nat, c: nat, size: nat, i: nat)
    requires a + 1 < c <= |h| && i < size && c % size > 0
    ensures var r := OvertakenPoll(h, a, c, size)[i]; |r.items| == size && r.items[i].collections != c - 1
  {
    PreviousEntry(c, size);
    if i < c % size { RestingHolds(h, a, size, i); } else { RestingHolds(h, c, size, i); }
  }

  lemma NewestIsRead(h: seq<RW.Collection>, key: RingKey, o: RingObservation, size: nat, a: nat, c: nat, b: nat, done: nat)
    requires RW.Monotone(h) && Widths(h) && size > 0 && ReadTo(o, done) && done <= a && a + 1 < c <= b <= |h| <= I64_MAX
    ensures PollOf(h, OvertakenPoll(h, a, c, size), a, b)
    ensures Names(TakenFrom(o, AllRead(h, OvertakenPoll(h, a, c, size), a, b, key), key), c)
  {
    var poll, at := OvertakenPoll(h, a, c, size), c % size;
    OvertakenPollIsOne(h, size, a, c, b);
    RestingValid(h, c, size);
    RW.NewestAtIndex(poll[at]);
    assert poll[at].items[at] == RW.Cum(h[..c], c);
    ReadAtTaken(h, poll, a, b, key, o, at);
  }

  /** A poll in order passes an Entry just before it is written and finds the next one already written. */
  lemma OvertakenPollLoses(h: seq<RW.Collection>, key: RingKey, o: RingObservation, size: nat, a: nat, c: nat, b: nat, done: nat)
    requires RW.Monotone(h) && Widths(h) && size > 0 && ReadTo(o, done) && done <= a && a + 1 < c <= b <= |h| <= I64_MAX
    requires c % size > 0
    ensures PollOf(h, OvertakenPoll(h, a, c, size), a, b) && InOrder(OvertakenPoll(h, a, c, size))
    ensures var taken := TakenFrom(o, AllRead(h, OvertakenPoll(h, a, c, size), a, b, key), key);
      Names(taken, c) && !Names(taken, c - 1)
  {
    OvertakenPollIsOne(h, size, a, c, b);
    NewestIsRead(h, key, o, size, a, c, b, done);
    if Names(TakenFrom(o, AllRead(h, OvertakenPoll(h, a, c, size), a, b, key), key), c - 1) {
      var i := TakenReadAt(h, OvertakenPoll(h, a, c, size), a, b, key, o, c - 1);
      OvertakenEntries(h, a, c, size, i);
    }
  }

  lemma OverwrittenInOrder(h: seq<RW.Collection>, key: RingKey, o: RingObservation, size: nat, a: nat, b: nat, done: nat)
    requires RW.Monotone(h) && Widths(h) && size >= 2 && ReadTo(o, done) && a <= b <= |h| < I64_MAX && b - done >= size
    ensures !NeverSkipsInOrder(h, key, o, size, a, b, done)
  {
    OverwritingPollLoses(h, key, o, size, a, b, done);
    OneMoment(OverwritingPoll(h, b, size));
    SkippedInOrder(h, key, o, size, a, b, done, OverwritingPoll(h, b, size), b + 1 - size, b);
  }

  lemma OneMoment(poll: seq<RW.RingState>)
    requires forall i, j :: 0 <= i < j < |poll| ==> poll[i] == poll[j]
    ensures InOrder(poll)
  {}

  lemma {:induction false} SkippedInOrder(h: seq<RW.Collection>, key: RingKey, o: RingObservation, size: nat, a: nat, b: nat, done: nat,
                                          poll: seq<RW.RingState>, missed: nat, named: nat)
    requires PollOf(h, poll, a, b) && |poll| == size && InOrder(poll) && done < missed < named
    requires var taken := TakenFrom(o, AllRead(h, poll, a, b, key), key);
      Names(taken, named) && !Names(taken, missed)
    ensures !NeverSkipsInOrder(h, key, o, size, a, b, done)
  {
    SkipShows(TakenFrom(o, AllRead(h, poll, a, b, key), key), done, missed, named);
    assert Holds(h, poll, a, b, key, AllRead(h, poll, a, b, key));
  }

  lemma OvertakenInOrder(h: seq<RW.Collection>, key: RingKey, o: RingObservation, size: nat, a: nat, b: nat, done: nat)
    requires RW.Monotone(h) && Widths(h) && size >= 2 && ReadTo(o, done) && done <= a && a + 2 <= b <= |h| < I64_MAX
    requires b > a + 2 || b % size != 0
    ensures !NeverSkipsInOrder(h, key, o, size, a, b, done)
  {
    RW.ModStep(a + 2, size);
    var c := if (a + 2) % size != 0 then a + 2 else a + 3;
    RW.ModUnique(1, size, 0, 1);
    OvertakenPollLoses(h, key, o, size, a, c, b, done);
    SkippedInOrder(h, key, o, size, a, b, done, OvertakenPoll(h, a, c, size), c - 1, c);
  }

  /**
   Everything up to `done` being read, a poll that reads the Entries in order can skip nothing if and
   only if fewer than a ring are unread when it ends and at most one Collection completes while it
   runs, or two do and the second lands on the first Entry.
   */
  lemma NeverSkipsInOrderIff(h: seq<RW.Collection>, key: RingKey, o: RingObservation, size: nat, a: nat, b: nat, done: nat)
    requires RW.Monotone(h) && Widths(h) && |h| < I64_MAX && ReadTo(o, done) && size >= 2 && done <= a <= b <= |h|
    ensures NeverSkipsInOrder(h, key, o, size, a, b, done)
       <==> (b <= a + 1 || (b == a + 2 && b % size == 0)) && b - done <= size - 1
  {
    if b - done >= size {
      OverwrittenInOrder(h, key, o, size, a, b, done);
    } else if b <= a + 1 {
      NeverSkipsIff(h, key, o, size, a, b, done);
    } else if b == a + 2 && b % size == 0 {
      forall poll, records | |poll| == size && InOrder(poll) && Holds(h, poll, a, b, key, records)
        ensures Consecutive(TakenFrom(o, records, key), done)
      {
        WrappingPollLosesNothing(h, Reading(poll, records, a, b), key, o, done);
      }
    } else {
      OvertakenInOrder(h, key, o, size, a, b, done);
    }
  }
}
