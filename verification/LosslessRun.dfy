/**
 A whole run that loses nothing: whatever the interleaving of stores and single Entry reads, a ring
 walked whole by polls that are quick and frequent enough is returned Collection by Collection.
 */
module LosslessRun {
  import opened Prelude
  import opened Records
  import opened Observation
  import opened Cursors
  import opened CursorLaws
  import opened CursorRuns
  import opened MonitorRun
  import opened MonitorSpans
  import opened MonitorOnce
  import opened Lossless
  import RW = RingWriter

  /**
   One ring as the poll under way has read it: each Entry's ring at the moment that Entry was read,
   and the Collections finished by the first of those moments and by the last.
   */
  datatype Pass = Pass(a: nat, b: nat, seen: map<nat, RW.RingState>)

  const NOTHING_SEEN := Pass(0, 0, map[])

  function HistoryOf(w: World, key: RingKey): seq<RW.Collection>
    requires key in w.rings
  {
    w.rings[key].history
  }

  function NextPass(w: World, s: Step, key: RingKey, p: Pass): Pass
    requires key in w.rings
  {
    match s
    case Read(k, entry) =>
      if k != key then p
      else Pass(if p.seen == map[] then |HistoryOf(w, key)| else p.a, |HistoryOf(w, key)|, p.seen[entry := w.rings[key]])
    case EndPoll => NOTHING_SEEN
    case FailRead => NOTHING_SEEN
    case LetGo => NOTHING_SEEN
    case _ => p
  }

  /** A poll reads each Entry at most once, and the whole ring or nothing of it. */
  ghost predicate Whole(w: World, key: RingKey, p: Pass)
    requires key in w.rings
  {
    forall i :: 0 <= i < |w.rings[key].items| ==> i in p.seen
  }

  /** At most one Collection completes during a poll, and fewer than a ring since the last one began. */
  ghost predicate UnhurriedStep(w: World, s: Step, key: RingKey, began: nat, p: Pass)
    requires key in w.rings
  {
    && (s.Read? && s.key == key ==> s.entry !in p.seen)
    && (s.EndPoll? && p.seen != map[] ==>
          Whole(w, key, p) && p.b <= p.a + 1 && p.b - began <= |w.rings[key].items| - 1)
  }

  function NextBegan(s: Step, began: nat, p: Pass): nat {
    if s.EndPoll? && p.seen != map[] then p.a else began
  }

  ghost predicate Unhurried(pid: int, w: World, steps: seq<Step>, key: RingKey, began: nat, p: Pass)
    decreases |steps|
  {
    steps == [] || !RingsValid(pid, w) || !Enabled(pid, w, steps[0]) || key !in w.rings ||
    (&& UnhurriedStep(w, steps[0], key, began, p)
     && Unhurried(pid, Take(pid, w, steps[0]), steps[1..], key, NextBegan(steps[0], began, p), NextPass(w, steps[0], key, p)))
  }

  /** How many Collections had finished when the last poll to walk the ring began. */
  ghost function LastBegan(pid: int, w: World, steps: seq<Step>, key: RingKey, began: nat, p: Pass): nat
    decreases |steps|
  {
    if steps == [] || !RingsValid(pid, w) || !Enabled(pid, w, steps[0]) || key !in w.rings then began
    else LastBegan(pid, Take(pid, w, steps[0]), steps[1..], key, NextBegan(steps[0], began, p), NextPass(w, steps[0], key, p))
  }

  // ---- the pass and the Records in hand ---------------------------------------------------

  ghost predicate SeenAt(h: seq<RW.Collection>, size: nat, p: Pass, i: nat)
    requires i in p.seen
  {
    var r := p.seen[i];
    && i < size && RW.Valid(r) && |r.items| == size
    && r.history <= h && p.a <= |r.history| <= p.b
  }

  ghost function RecordSeen(key: RingKey, p: Pass, i: nat): Record
    requires i in p.seen && RW.Valid(p.seen[i]) && i < |p.seen[i].items|
  {
    RW.CounterRange(p.seen[i], i);
    RW.Decode(p.seen[i].items[i], key.interpreter, key.generation, i)
  }

  ghost predicate FromPass(key: RingKey, p: Pass, r: Record) {
    exists i :: i in p.seen && RW.Valid(p.seen[i]) && i < |p.seen[i].items| && r == RecordSeen(key, p, i)
  }

  /** The Records in hand of this ring are exactly what the pass read. */
  ghost predicate InHand(w: World, key: RingKey, p: Pass) {
    && key in w.rings && RW.Valid(w.rings[key]) && p.b <= |HistoryOf(w, key)|
    && (forall i :: i in p.seen ==> SeenAt(HistoryOf(w, key), |w.rings[key].items|, p, i) && RecordSeen(key, p, i) in w.pending)
    && (forall r :: r in w.pending && InRing(key)(r) ==> FromPass(key, p, r))
  }

  lemma RingGrows(pid: int, w: World, s: Step, key: RingKey)
    requires RingsValid(pid, w) && Enabled(pid, w, s) && key in w.rings
    ensures var v := Take(pid, w, s);
      && key in v.rings && RW.Valid(v.rings[key]) && |v.rings[key].items| == |w.rings[key].items|
      && HistoryOf(w, key) <= HistoryOf(v, key)
  {
    match s
    case BeginPublish(k, c) =>
      RW.BeginValid(w.rings[k], c);
      RingSet(w.rings, k, RW.Begin(w.rings[k], c), key);
    case Store(k) =>
      RW.StepValid(w.rings[k]);
      RingSet(w.rings, k, RW.Step(w.rings[k]), key);
    case _ =>
  }

  lemma RingSet(rings: map<RingKey, RW.RingState>, k: RingKey, r: RW.RingState, key: RingKey)
    requires key in rings
    ensures key in rings[k := r] && rings[k := r][key] == if key == k then r else rings[key]
  {}

  lemma {:induction false} InHandStays(w: World, v: World, key: RingKey, p: Pass)
    requires InHand(w, key, p) && v.pending == w.pending && key in v.rings && RW.Valid(v.rings[key])
    requires |v.rings[key].items| == |w.rings[key].items| && HistoryOf(w, key) <= HistoryOf(v, key)
    ensures InHand(v, key, p)
  {
    forall i | i in p.seen
      ensures SeenAt(HistoryOf(v, key), |v.rings[key].items|, p, i) && RecordSeen(key, p, i) in v.pending
    {
      assert SeenAt(HistoryOf(w, key), |w.rings[key].items|, p, i);
    }
  }

  lemma {:induction false} InHandRead(pid: int, w: World, key: RingKey, entry: nat, p: Pass)
    requires RingsValid(pid, w) && InHand(w, key, p) && entry < |w.rings[key].items| && entry !in p.seen
    ensures InHand(Take(pid, w, Read(key, entry)), key, NextPass(w, Read(key, entry), key, p))
  {
    var v, q := Take(pid, w, Read(key, entry)), NextPass(w, Read(key, entry), key, p);
    var r, h, size := ReadEntry(w, key, entry), HistoryOf(w, key), |w.rings[key].items|;
    assert v.pending == w.pending + [r] && v.rings == w.rings;
    SeenOneMore(w, key, entry, p, q);
    forall i | i in q.seen ensures SeenAt(h, size, q, i) && RecordSeen(key, q, i) in v.pending {
      assert SeenAt(h, size, q, i) && (RecordSeen(key, q, i) in w.pending || RecordSeen(key, q, i) == r);
    }
    forall x | x in v.pending && InRing(key)(x) ensures FromPass(key, q, x) {
      if x in w.pending { FromPassStays(w, key, entry, p, q, x); } else { assert RecordSeen(key, q, entry) == x; }
    }
  }

  lemma {:induction false} SeenOneMore(w: World, key: RingKey, entry: nat, p: Pass, q: Pass)
    requires InHand(w, key, p) && entry < |w.rings[key].items| && entry !in p.seen && q == NextPass(w, Read(key, entry), key, p)
    ensures forall i :: i in q.seen ==>
      && SeenAt(HistoryOf(w, key), |w.rings[key].items|, q, i)
      && (RecordSeen(key, q, i) in w.pending || (i == entry && RecordSeen(key, q, i) == ReadEntry(w, key, entry)))
  {
    var h, size := HistoryOf(w, key), |w.rings[key].items|;
    forall i | i in q.seen
      ensures SeenAt(h, size, q, i)
      ensures RecordSeen(key, q, i) in w.pending || (i == entry && RecordSeen(key, q, i) == ReadEntry(w, key, entry))
    {
      if i != entry {
        assert SeenAt(h, size, p, i) && q.seen[i] == p.seen[i];
        assert RecordSeen(key, q, i) == RecordSeen(key, p, i);
      }
    }
  }

  lemma {:induction false} FromPassStays(w: World, key: RingKey, entry: nat, p: Pass, q: Pass, r: Record)
    requires key in w.rings && entry !in p.seen && q == NextPass(w, Read(key, entry), key, p) && FromPass(key, p, r)
    ensures FromPass(key, q, r)
  {
    var i :| i in p.seen && RW.Valid(p.seen[i]) && i < |p.seen[i].items| && r == RecordSeen(key, p, i);
    assert q.seen[i] == p.seen[i];
    assert RecordSeen(key, q, i) == r;
  }

  lemma InHandOther(w: World, v: World, key: RingKey, p: Pass, r: Record)
    requires InHand(w, key, p) && v == w.(pending := w.pending + [r]) && !InRing(key)(r)
    ensures InHand(v, key, p)
  {
    forall i | i in p.seen
      ensures SeenAt(HistoryOf(v, key), |v.rings[key].items|, p, i) && RecordSeen(key, p, i) in v.pending
    {
      assert RecordSeen(key, p, i) in w.pending;
    }
    forall x | x in v.pending && InRing(key)(x) ensures FromPass(key, p, x) {
      assert x in w.pending;
    }
  }

  lemma {:induction false} InHandNone(w: World, key: RingKey)
    requires key in w.rings && RW.Valid(w.rings[key]) && w.pending == []
    ensures InHand(w, key, NOTHING_SEEN)
  {}

  lemma {:induction false} StepInHand(pid: int, w: World, s: Step, key: RingKey, began: nat, p: Pass)
    requires RingsValid(pid, w) && Enabled(pid, w, s) && InHand(w, key, p) && UnhurriedStep(w, s, key, began, p)
    ensures InHand(Take(pid, w, s), key, NextPass(w, s, key, p))
  {
    var v := Take(pid, w, s);
    RingGrows(pid, w, s, key);
    match s
    case Read(k, entry) =>
      if k == key {
        InHandRead(pid, w, key, entry, p);
      } else {
        assert KeyOf(pid, ReadEntry(w, k, entry)) == k;
        InHandOther(w, v, key, p, ReadEntry(w, k, entry));
      }
    case EndPoll => InHandNone(v, key);
    case FailRead => InHandNone(v, key);
    case LetGo => InHandNone(v, key);
    case _ => InHandStays(w, v, key, p);
  }

  // ---- one poll ------------------------------------------------------------------------

  ghost function PollSeen(p: Pass, size: nat): (poll: seq<RW.RingState>)
    requires forall i :: 0 <= i < size ==> i in p.seen
    ensures |poll| == size && forall i :: 0 <= i < size ==> poll[i] == p.seen[i]
  {
    seq(size, i requires 0 <= i < size && i in p.seen => p.seen[i])
  }

  lemma PassIsPoll(w: World, key: RingKey, p: Pass)
    requires InHand(w, key, p) && Whole(w, key, p)
    ensures PollOf(HistoryOf(w, key), PollSeen(p, |w.rings[key].items|), p.a, p.b)
  {
    PassInRange(HistoryOf(w, key), |w.rings[key].items|, p);
  }

  lemma PassInRange(h: seq<RW.Collection>, size: nat, p: Pass)
    requires size > 0
    requires forall i :: i in p.seen ==> SeenAt(h, size, p, i)
    requires forall i :: 0 <= i < size ==> i in p.seen
    ensures PollOf(h, PollSeen(p, size), p.a, p.b)
  {
    forall i | 0 <= i < size ensures SeenAt(h, size, p, i) {}
  }

  /** A whole pass is a poll of this ring in the sense of `Lossless`. */
  lemma {:induction false} PassHolds(w: World, key: RingKey, p: Pass)
    requires InHand(w, key, p) && Whole(w, key, p)
    ensures Holds(HistoryOf(w, key), PollSeen(p, |w.rings[key].items|), p.a, p.b, key, w.pending)
  {
    var h, size := HistoryOf(w, key), |w.rings[key].items|;
    var poll := PollSeen(p, size);
    PassIsPoll(w, key, p);
    forall i | 0 <= i < size ensures EntryRead(h, poll, p.a, p.b, key, i) in w.pending {
      assert EntryRead(h, poll, p.a, p.b, key, i) == RecordSeen(key, p, i);
    }
    forall r | r in w.pending && InRing(key)(r) ensures exists i :: 0 <= i < |poll| && r == EntryRead(h, poll, p.a, p.b, key, i) {
      assert FromPass(key, p, r);
      var i :| i in p.seen && RW.Valid(p.seen[i]) && i < |p.seen[i].items| && r == RecordSeen(key, p, i);
      assert SeenAt(h, size, p, i);
      assert r == EntryRead(h, poll, p.a, p.b, key, i);
    }
  }

  lemma NothingTaken(o: RingObservation, w: World, key: RingKey, p: Pass)
    requires InHand(w, key, p) && p.seen == map[]
    ensures TakenFrom(o, w.pending, key) == []
  {
    CandidatesAreRecords(w.pending);
    FilterNone(InRing(key), Candidates(w.pending));
  }

  lemma {:induction false} SortedHandsOut(pid: int, w: World, s: CursorState, key: RingKey)
    requires Inv(pid, w) && key.pid == pid && NeverDrops(s, pid, Candidates(w.pending), key.interpreter)
    ensures Filter(InRing(key), AdmitSorted(s, pid, Candidates(w.pending)).1) == TakenFrom(ObservationOf(s, key), w.pending, key)
  {
    FoldProject(s, pid, Candidates(w.pending), key);
    HandedOut(pid, w, key, s);
  }

  /** What an undropped ring hands out is what it takes. */
  lemma PollHandsOut(pid: int, w: World, key: RingKey)
    requires Inv(pid, w) && key.pid == pid && Undropped(pid, w, EndPoll, key)
    ensures var taken, v := Taken(w.cursor, w.pending, key), Take(pid, w, EndPoll);
      && Output(v, key) == Output(w, key) + taken
      && ObservationOf(v.cursor, key) == FoldAll(ObservationOf(w.cursor, key), taken)
  {
    AdmitHandsOut(pid, w, key);
    OutputGrows(pid, w, key);
    PollFolds(pid, w, key);
  }

  lemma PollFolds(pid: int, w: World, key: RingKey)
    requires RingsValid(pid, w) && key.pid == pid && Undropped(pid, w, EndPoll, key)
    ensures ObservationOf(Take(pid, w, EndPoll).cursor, key) == FoldAll(ObservationOf(w.cursor, key), Taken(w.cursor, w.pending, key))
  {
    AdmitProject(w.cursor, pid, w.pending, key);
    assert Take(pid, w, EndPoll).cursor == Admit(w.cursor, pid, w.pending).0;
  }

  lemma {:induction false} AdmitHandsOut(pid: int, w: World, key: RingKey)
    requires Inv(pid, w) && key.pid == pid && Undropped(pid, w, EndPoll, key)
    ensures Filter(InRing(key), Admit(w.cursor, pid, w.pending).1) == Taken(w.cursor, w.pending, key)
  {
    var s, cands := w.cursor.(polls := w.cursor.polls + 1), Candidates(w.pending);
    NextPollSame(w.cursor, key);
    SortedHandsOut(pid, w, s, key);
    assert Filter(InRing(key), AdmitSorted(s, pid, cands).1) == Taken(w.cursor, w.pending, key);
    assert Admit(w.cursor, pid, w.pending) == AdmitSorted(s, pid, cands);
  }

  lemma {:induction false} OutputGrows(pid: int, w: World, key: RingKey)
    requires RingsValid(pid, w)
    ensures var v, t := Take(pid, w, EndPoll), Admit(w.cursor, pid, w.pending);
      Output(v, key) == Output(w, key) + Filter(InRing(key), t.1) && v.cursor == t.0
  {
    FilterConcat(InRing(key), w.output, Admit(w.cursor, pid, w.pending).1);
  }

  /** Everything up to `done` has come out, in order, and nothing else. */
  ghost predicate Complete(w: World, key: RingKey, done: nat) {
    |Output(w, key)| == done && Consecutive(Output(w, key), 0) && ReadTo(ObservationOf(w.cursor, key), done)
  }

  lemma ConsecutiveJoins(out: seq<Record>, taken: seq<Record>)
    requires Consecutive(out, 0) && Consecutive(taken, |out|)
    ensures Consecutive(out + taken, 0)
  {}

  /** One poll that keeps up hands out the next Collections, and at least those finished when it began. */
  lemma PollKeepsUp(pid: int, w: World, key: RingKey, began: nat, p: Pass, done: nat) returns (more: nat)
    requires Inv(pid, w) && key.pid == pid && InHand(w, key, p) && Undropped(pid, w, EndPoll, key)
    requires UnhurriedStep(w, EndPoll, key, began, p) && Widths(HistoryOf(w, key))
    requires Complete(w, key, done) && began <= done <= |HistoryOf(w, key)| && (p.seen != map[] ==> done <= p.a <= p.b)
    ensures Complete(Take(pid, w, EndPoll), key, more) && NextBegan(EndPoll, began, p) <= more <= |HistoryOf(w, key)|
  {
    var o, h := ObservationOf(w.cursor, key), HistoryOf(w, key);
    var taken := Taken(w.cursor, w.pending, key);
    PollHandsOut(pid, w, key);
    if p.seen == map[] {
      NothingTaken(o, w, key, p);
    } else {
      PassHolds(w, key, p);
      PollLosesNothing(h, Reading(PollSeen(p, |w.rings[key].items|), w.pending, p.a, p.b), key, o, done);
    }
    FoldConsecutive(o, taken, done);
    ConsecutiveJoins(Output(w, key), taken);
    more := done + |taken|;
  }

  // ---- the run ---------------------------------------------------------------------------

  /** The run so far: what is out, when the last poll began, and what the one under way has read. */
  ghost predicate Caught(pid: int, w: World, key: RingKey, began: nat, p: Pass, done: nat) {
    && Inv(pid, w) && key.pid == pid && InHand(w, key, p) && Complete(w, key, done)
    && began <= done <= |HistoryOf(w, key)| && (p.seen != map[] ==> done <= p.a <= p.b)
  }

  lemma {:induction false} QuietStep(pid: int, w: World, s: Step, key: RingKey, began: nat, p: Pass, done: nat)
    requires Caught(pid, w, key, began, p, done) && Enabled(pid, w, s) && !s.EndPoll?
    requires UnhurriedStep(w, s, key, began, p) && Undropped(pid, w, s, key)
    ensures Caught(pid, Take(pid, w, s), key, began, NextPass(w, s, key, p), done)
  {
    StepKeepsInv(pid, w, s);
    StepInHand(pid, w, s, key, began, p);
    RingGrows(pid, w, s, key);
    if s.Elsewhere? { ApplyFrame(w.cursor, s.event, pid); }
    assert Output(Take(pid, w, s), key) == Output(w, key);
  }

  lemma PollStep(pid: int, w: World, key: RingKey, began: nat, p: Pass, done: nat) returns (more: nat)
    requires Caught(pid, w, key, began, p, done) && Widths(HistoryOf(w, key))
    requires UnhurriedStep(w, EndPoll, key, began, p) && Undropped(pid, w, EndPoll, key)
    ensures Caught(pid, Take(pid, w, EndPoll), key, NextBegan(EndPoll, began, p), NOTHING_SEEN, more)
  {
    StepKeepsInv(pid, w, EndPoll);
    StepInHand(pid, w, EndPoll, key, began, p);
    more := PollKeepsUp(pid, w, key, began, p, done);
  }

  lemma {:induction false} PathGrows(pid: int, w: World, steps: seq<Step>, v: World, key: RingKey)
    requires Path(pid, w, steps, v) && RingsValid(pid, w) && key in w.rings
    ensures key in v.rings && HistoryOf(w, key) <= HistoryOf(v, key)
    decreases |steps|
  {
    if steps != [] {
      var t := Take(pid, w, steps[0]);
      RingGrows(pid, w, steps[0], key);
      if steps == [steps[0]] {} else { PathGrows(pid, t, steps[1..], v, key); }
    }
  }

  lemma {:induction false} RunKeepsUp(pid: int, w: World, steps: seq<Step>, v: World, key: RingKey, began: nat, p: Pass, done: nat)
    returns (more: nat)
    requires Caught(pid, w, key, began, p, done) && Path(pid, w, steps, v) && key in v.rings && Widths(HistoryOf(v, key))
    requires Undisturbed(pid, w, steps, key) && Unhurried(pid, w, steps, key, began, p)
    ensures Complete(v, key, more) && LastBegan(pid, w, steps, key, began, p) <= more
    decreases |steps|
  {
    if steps == [] {
      more := done;
    } else {
      var s, t := steps[0], Take(pid, w, steps[0]);
      more := done;
      if s.EndPoll? {
        PathGrows(pid, w, steps, v, key);
        more := PollStep(pid, w, key, began, p, done);
      } else {
        QuietStep(pid, w, s, key, began, p, done);
      }
      more := RunKeepsUp(pid, t, steps[1..], v, key, NextBegan(s, began, p), NextPass(w, s, key, p), more);
    }
  }

  /**
   A ring read from its first Collection, by polls each of which sees at most one Collection
   complete and begins fewer than a ring after the last began, loses nothing: its output is every
   Collection, once, in order, up to those finished when the last poll began at least.
   */
  lemma {:induction false} RunLosesNothing(pid: int, w: World, steps: seq<Step>, v: World, key: RingKey)
    requires Attached(pid, w) && Path(pid, w, steps, v) && key in w.rings && key in v.rings
    requires Undisturbed(pid, w, steps, key) && Unhurried(pid, w, steps, key, 0, NOTHING_SEEN)
    requires Widths(HistoryOf(v, key))
    ensures forall i :: 0 <= i < |Output(v, key)| ==> Output(v, key)[i].collections == i + 1
    ensures |Output(v, key)| >= LastBegan(pid, w, steps, key, 0, NOTHING_SEEN)
  {
    AttachedSplits(pid, w, key);
    InHandNone(w, key);
    assert Complete(w, key, 0);
    var more := RunKeepsUp(pid, w, steps, v, key, 0, NOTHING_SEEN, 0);
  }
}
