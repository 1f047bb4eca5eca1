/**
 The cursor the counter-keyed one replaced: a `tsStart` high-water mark per (generation, Entry).
 On every run where nothing is overwritten unread the two agree, tick for tick.
 */
module TimestampCursor {
  import opened Prelude
  import opened Records
  import opened StableSort
  import opened Observation
  import opened Cursors
  import opened CursorLaws
  import opened CursorRuns
  import opened Lossless
  import RW = RingWriter

  type Marks = map<(int, int), int>

  /** The position a Record was read from. */
  function Slot(r: Record): (int, int) { (r.generation, r.index) }

  function MarkAt(seen: Marks, slot: (int, int)): int {
    if slot in seen then seen[slot] else 0
  }

  predicate OldTakes(seen: Marks, r: Record) {
    r.IsComplete() && r.tsStart > MarkAt(seen, Slot(r))
  }

  function OldStep(seen: Marks, r: Record): Marks {
    if !r.IsComplete() then seen
    else seen[Slot(r) := Max(MarkAt(seen, Slot(r)), r.tsStart)]
  }

  function OldFold(seen: Marks, records: seq<Record>): (Marks, seq<Record>)
    decreases |records|
  {
    if records == [] then (seen, [])
    else
      var r := records[0];
      var rest := OldFold(OldStep(seen, r), records[1..]);
      (rest.0, (if OldTakes(seen, r) then [r] else []) + rest.1)
  }

  /** One poll of the old cursor. */
  function OldSelect(seen: Marks, records: seq<Record>): (Marks, seq<Record>) {
    var t := OldFold(seen, records);
    (t.0, Sort(StartOrder, t.1))
  }

  /** The old selection as the loop it was: skip what is incomplete, raise the mark of what is new. */
  method SelectFreshByTimestamp(records: seq<Record>, seen: Marks) returns (after: Marks, unseen: seq<Record>)
    ensures (after, unseen) == OldSelect(seen, records)
  {
    after, unseen := seen, [];
    var i := 0;
    assert records[0..] == records;
    while i < |records|
      invariant 0 <= i <= |records|
      invariant OldFold(seen, records).0 == OldFold(after, records[i..]).0
      invariant OldFold(seen, records).1 == unseen + OldFold(after, records[i..]).1
    {
      var r := records[i];
      OldFoldOne(after, records, i, unseen);
      if r.IsComplete() {
        if r.tsStart > MarkAt(after, Slot(r)) {
          unseen := unseen + [r];
        }
        after := after[Slot(r) := Max(MarkAt(after, Slot(r)), r.tsStart)];
      }
      i := i + 1;
    }
    assert records[i..] == [] && unseen + [] == unseen;
    unseen := Sort(StartOrder, unseen);
  }

  lemma {:induction false} OldFoldOne(seen: Marks, records: seq<Record>, i: nat, taken: seq<Record>)
    requires i < |records|
    ensures OldFold(seen, records[i..]).0 == OldFold(OldStep(seen, records[i]), records[i + 1..]).0
    ensures taken + OldFold(seen, records[i..]).1
         == (if OldTakes(seen, records[i]) then taken + [records[i]] else taken)
            + OldFold(OldStep(seen, records[i]), records[i + 1..]).1
  {
    assert records[i..][0] == records[i] && records[i..][1..] == records[i + 1..];
  }

  // ---- quiescent polls of one interpreter's rings ------------------------------------------------

  /** Every ring is between Collections, every Collection took time, and the clock reads past zero. */
  ghost predicate Quiet(rings: seq<RW.RingState>) {
    forall g :: 0 <= g < |rings| ==>
      && RW.Valid(rings[g]) && rings[g].stage == 0 && Widths(rings[g].history)
      && (rings[g].history != [] ==> rings[g].history[0].tsStart > 0)
  }

  ghost function EntryRecord(rings: seq<RW.RingState>, interpreter: int, g: nat, i: nat): Record
    requires Quiet(rings) && g < |rings| && i < |rings[g].items|
  {
    RW.CounterRange(rings[g], i);
    RW.Decode(rings[g].items[i], interpreter, g, i)
  }

  ghost predicate IsEntry(rings: seq<RW.RingState>, interpreter: int, r: Record)
    requires Quiet(rings)
  {
    && r.generation < |rings| && r.index < |rings[r.generation].items|
    && r == EntryRecord(rings, interpreter, r.generation, r.index)
  }

  /** A poll hands over every Entry of every ring once, in any order. */
  ghost predicate IsPoll(rings: seq<RW.RingState>, interpreter: int, records: seq<Record>) {
    && Quiet(rings)
    && (forall r :: r in records <==> IsEntry(rings, interpreter, r))
    && (forall i, j :: 0 <= i < j < |records| ==> records[i] != records[j])
  }

  /** Between two polls no ring completed more Collections than it holds. */
  ghost predicate Advances(before: seq<RW.RingState>, after: seq<RW.RingState>) {
    && |before| == |after|
    && forall g :: 0 <= g < |after| ==>
         && |before[g].items| == |after[g].items|
         && before[g].history <= after[g].history
         && |after[g].history| - |before[g].history| <= |after[g].items|
  }

  /** Collections of one interpreter serialize, so no two of them start together. */
  ghost predicate StartsDistinct(rings: seq<RW.RingState>) {
    forall g, k, g', k' ::
      (&& 0 <= g < |rings| && 0 <= g' < |rings|
       && 0 <= k < |rings[g].history| && 0 <= k' < |rings[g'].history|
       && rings[g].history[k].tsStart == rings[g'].history[k'].tsStart)
      ==> (g == g' && k == k')
  }

  // ---- what the old cursor takes -------------------------------------------------------------

  ghost predicate DistinctSlots(records: seq<Record>) {
    forall i, j :: 0 <= i < j < |records| ==> Slot(records[i]) != Slot(records[j])
  }

  lemma OthersElsewhere(records: seq<Record>)
    requires DistinctSlots(records) && records != []
    ensures DistinctSlots(records[1..])
    ensures forall r :: r in records[1..] ==> Slot(r) != Slot(records[0])
  {
    forall r | r in records[1..] ensures Slot(r) != Slot(records[0]) {
      var k :| 0 <= k < |records[1..]| && records[1..][k] == r;
      assert records[k + 1] == r;
    }
  }

  lemma StepElsewhere(seen: Marks, r: Record, slot: (int, int))
    requires slot != Slot(r)
    ensures MarkAt(OldStep(seen, r), slot) == MarkAt(seen, slot)
  {}

  lemma {:induction false} OldFoldTakes(seen: Marks, records: seq<Record>)
    requires DistinctSlots(records)
    ensures forall r :: r in OldFold(seen, records).1 <==> r in records && OldTakes(seen, r)
    ensures multiset(OldFold(seen, records).1) <= multiset(records)
    decreases |records|
  {
    if records != [] {
      var r, rest := records[0], records[1..];
      var next := OldStep(seen, r);
      assert records == [r] + rest;
      OthersElsewhere(records);
      OldFoldTakes(next, rest);
      forall t | t in rest ensures OldTakes(next, t) <==> OldTakes(seen, t) {
        StepElsewhere(seen, r, Slot(t));
      }
    }
  }

  /** A poll leaves each mark at the newest start seen there, and an Entry not yet finished leaves none. */
  lemma {:induction false} OldFoldMarks(seen: Marks, records: seq<Record>, slot: (int, int))
    requires DistinctSlots(records)
    ensures forall r :: r in records && Slot(r) == slot ==>
      MarkAt(OldFold(seen, records).0, slot) == if r.IsComplete() then Max(MarkAt(seen, slot), r.tsStart) else MarkAt(seen, slot)
    ensures (forall r :: r in records ==> Slot(r) != slot) ==> MarkAt(OldFold(seen, records).0, slot) == MarkAt(seen, slot)
    decreases |records|
  {
    if records != [] {
      var r, rest := records[0], records[1..];
      assert records == [r] + rest;
      OthersElsewhere(records);
      OldFoldMarks(OldStep(seen, r), rest, slot);
      if Slot(r) != slot { StepElsewhere(seen, r, slot); }
    }
  }

  // ---- what the counter-keyed cursor takes ---------------------------------------------------

  lemma ConsBag(cands: seq<Record>, taken: seq<Record>)
    requires cands != [] && multiset(taken) <= multiset(cands[1..])
    ensures multiset([cands[0]] + taken) <= multiset(cands) && multiset([] + taken) <= multiset(cands)
  {
    assert cands == [cands[0]] + cands[1..];
    assert [] + taken == taken;
  }

  lemma {:induction false} FoldBag(s: CursorState, pid: int, cands: seq<Record>)
    ensures multiset(FoldCandidates(s, pid, cands).1) <= multiset(cands)
    decreases |cands|
  {
    if cands != [] {
      var r, rest := cands[0], cands[1..];
      var u := Offer(Retain(s, pid, r.interpreter), pid, r);
      FoldBag(u, pid, rest);
      ConsBag(cands, FoldCandidates(u, pid, rest).1);
    }
  }

  ghost predicate Once(records: seq<Record>) {
    forall r :: multiset(records)[r] <= 1
  }

  lemma {:induction false} DistinctOnce(records: seq<Record>)
    requires forall i, j :: 0 <= i < j < |records| ==> records[i] != records[j]
    ensures Once(records)
  {
    if records != [] {
      assert records == [records[0]] + records[1..];
      DistinctOnce(records[1..]);
      forall r | r in records[1..] ensures r != records[0] {
        var k :| 0 <= k < |records[1..]| && records[1..][k] == r;
        assert records[k + 1] == r;
      }
    }
  }

  /** Two selections from records that occur once each agree as bags when they agree as sets. */
  lemma SameBag(records: seq<Record>, a: seq<Record>, b: seq<Record>)
    requires Once(records) && multiset(a) <= multiset(records) && multiset(b) <= multiset(records)
    requires forall r :: r in a <==> r in b
    ensures multiset(a) == multiset(b)
  {
    forall r ensures multiset(a)[r] == multiset(b)[r] {
      assert multiset(a)[r] <= multiset(records)[r] && multiset(b)[r] <= multiset(records)[r];
      assert r in multiset(a) <==> r in a;
      assert r in multiset(b) <==> r in b;
    }
  }

  // ---- one tick --------------------------------------------------------------------------------

  function KeyAt(pid: int, interpreter: int, g: nat): RingKey { RingKey(pid, interpreter, g) }

  /** Both cursors have read everything the rings published, and nothing else. */
  ghost predicate CaughtUp(pid: int, interpreter: int, rings: seq<RW.RingState>, s: CursorState, seen: Marks) {
    && Quiet(rings)
    && RetainedOf(s, pid).Keys <= {interpreter}
    && (forall g :: 0 <= g < |rings| ==> ReadTo(ObservationOf(s, KeyAt(pid, interpreter, g)), |rings[g].history|))
    && (forall g, i :: 0 <= g < |rings| && 0 <= i < |rings[g].items| ==> MarkAt(seen, (g, i)) == rings[g].items[i].tsStart)
  }

  lemma PositiveStarts(h: seq<RW.Collection>, c: int)
    requires RW.Monotone(h) && 1 <= c <= |h| && h[0].tsStart > 0
    ensures h[c - 1].tsStart > 0
  {
    if c > 1 { RW.StartsRise(h, 1, c); }
  }

  /** Which Collection an Entry holds, and whether it is new since the last tick, by either measure. */
  lemma EntryNews(before: RW.RingState, after: RW.RingState, i: nat)
    requires RW.Valid(before) && RW.Valid(after) && before.stage == 0 && after.stage == 0
    requires Widths(after.history) && (after.history != [] ==> after.history[0].tsStart > 0)
    requires |before.items| == |after.items| && before.history <= after.history
    requires |after.history| - |before.history| <= |after.items| && i < |after.items|
    ensures var c := RW.Holder(|after.history|, i, |after.items|);
      && after.items[i] == RW.Cum(after.history, c)
      && (after.items[i].tsStart < after.items[i].tsStop <==> c >= 1)
      && (c > |before.history| <==> after.items[i].tsStart > before.items[i].tsStart)
      && (c <= |before.history| ==> after.items[i].tsStart == before.items[i].tsStart)
  {
    var n, m, size := |before.history|, |after.history|, |after.items|;
    var c, d := RW.Holder(m, i, size), RW.Holder(n, i, size);
    RW.EntryKinds(before, i);
    RW.EntryKinds(after, i);
    RW.CumPrefix(before.history, after.history, d);
    if c <= n {
      if c < d { RW.ModDistinct(c, d, size); } else if d < c { RW.ModDistinct(d, c, size); }
    } else {
      PositiveStarts(after.history, c);
      if d >= 1 { RW.StartsRise(after.history, d, c); }
    }
  }

  /** What makes an Entry's Record new: it is finished, and past what had completed. */
  ghost predicate IsNew(before: seq<RW.RingState>, r: Record)
    requires r.generation < |before|
  {
    r.IsComplete() && r.collections > |before[r.generation].history|
  }

  lemma OldTakesNew(pid: int, interpreter: int, before: seq<RW.RingState>, after: seq<RW.RingState>, s: CursorState, seen: Marks, r: Record)
    requires CaughtUp(pid, interpreter, before, s, seen) && Quiet(after) && Advances(before, after)
    requires IsEntry(after, interpreter, r)
    ensures OldTakes(seen, r) <==> IsNew(before, r)
  {
    EntryNews(before[r.generation], after[r.generation], r.index);
    assert MarkAt(seen, (r.generation, r.index)) == before[r.generation].items[r.index].tsStart;
  }

  /** One ring never shows one Collection at two positions when it is quiet. */
  lemma EntryUnique(rings: seq<RW.RingState>, interpreter: int, x: Record, y: Record)
    requires Quiet(rings) && IsEntry(rings, interpreter, x) && IsEntry(rings, interpreter, y)
    requires x.generation == y.generation && x.collections == y.collections && x.IsComplete() && y.IsComplete()
    ensures x == y
  {
    var r := rings[x.generation];
    RW.EntryKinds(r, x.index);
    RW.EntryKinds(r, y.index);
  }

  lemma NewTakesNew(
    pid: int, interpreter: int, before: seq<RW.RingState>, after: seq<RW.RingState>, s: CursorState, seen: Marks, records: seq<Record>, r: Record)
    requires CaughtUp(pid, interpreter, before, s, seen) && IsPoll(after, interpreter, records) && Advances(before, after)
    requires IsEntry(after, interpreter, r)
    ensures r in TakenFrom(ObservationOf(s, KeyAt(pid, interpreter, r.generation)), records, KeyAt(pid, interpreter, r.generation))
       <==> IsNew(before, r)
  {
    var key := KeyAt(pid, interpreter, r.generation);
    var o := ObservationOf(s, key);
    assert ReadTo(o, |before[r.generation].history|);
    EntryNews(before[r.generation], after[r.generation], r.index);
    TakenSound(o, records, key);
    if IsNew(before, r) {
      TakenComplete(o, records, key, r);
      var t :| t in TakenFrom(o, records, key) && t.collections == r.collections;
      EntryUnique(after, interpreter, r, t);
    }
  }

  /** The two selections, before either is put in start order, are the same bag. */
  lemma {:induction false} SameSelection(
    pid: int, interpreter: int, before: seq<RW.RingState>, after: seq<RW.RingState>, s: CursorState, seen: Marks, records: seq<Record>)
    requires CaughtUp(pid, interpreter, before, s, seen) && IsPoll(after, interpreter, records) && Advances(before, after)
    requires NeverDrops(s.(polls := s.polls + 1), pid, Candidates(records), interpreter)
    ensures multiset(FoldCandidates(s.(polls := s.polls + 1), pid, Candidates(records)).1) == multiset(OldFold(seen, records).1)
    ensures forall r :: r in OldFold(seen, records).1 ==> r in records && r.IsComplete()
  {
    var start, cands := s.(polls := s.polls + 1), Candidates(records);
    var fold, marked := FoldCandidates(start, pid, cands).1, OldFold(seen, records).1;
    PollSlots(after, interpreter, records);
    OldFoldTakes(seen, records);
    FoldBag(start, pid, cands);
    SortElements(RingOrder, records);
    DistinctOnce(records);
    forall r ensures r in fold <==> r in marked {
      if r in fold { FoldIn(start, pid, cands, records, r); }
      if r in records {
        var key := KeyAt(pid, interpreter, r.generation);
        assert InRing(key)(r);
        FoldProject(start, pid, cands, key);
        assert ObservationOf(start, key) == ObservationOf(s, key);
        NewTakesNew(pid, interpreter, before, after, s, seen, records, r);
        OldTakesNew(pid, interpreter, before, after, s, seen, r);
        assert r in fold <==> r in Filter(InRing(key), fold);
      }
    }
    SameBag(records, fold, marked);
  }

  lemma {:induction false} FoldIn(s: CursorState, pid: int, cands: seq<Record>, records: seq<Record>, r: Record)
    requires multiset(cands) == multiset(records) && r in FoldCandidates(s, pid, cands).1
    ensures r in records
  {
    FoldBag(s, pid, cands);
    assert r in multiset(FoldCandidates(s, pid, cands).1);
    assert r in multiset(records);
  }

  lemma PollSlots(rings: seq<RW.RingState>, interpreter: int, records: seq<Record>)
    requires IsPoll(rings, interpreter, records)
    ensures DistinctSlots(records)
  {
    forall i, j | 0 <= i < j < |records| ensures Slot(records[i]) != Slot(records[j]) {
      assert records[i] in records && records[j] in records;
      assert records[i] != records[j];
    }
  }

  /** No two finished Records of a poll start together, so start order settles every pair. */
  lemma NoTies(rings: seq<RW.RingState>, interpreter: int, x: Record, y: Record)
    requires Quiet(rings) && StartsDistinct(rings) && IsEntry(rings, interpreter, x) && IsEntry(rings, interpreter, y)
    requires x.IsComplete() && y.IsComplete() && x.tsStart == y.tsStart
    ensures x == y
  {
    var p, q := rings[x.generation], rings[y.generation];
    RW.EntryKinds(p, x.index);
    RW.EntryKinds(q, y.index);
    var c, d := x.collections, y.collections;
    assert p.history[c - 1].tsStart == q.history[d - 1].tsStart;
    EntryUnique(rings, interpreter, x, y);
  }

  /** One tick: both cursors return the same Records in the same order. */
  lemma {:induction false} TickAgrees(
    pid: int, interpreter: int, before: seq<RW.RingState>, after: seq<RW.RingState>, s: CursorState, seen: Marks, records: seq<Record>)
    requires CaughtUp(pid, interpreter, before, s, seen) && IsPoll(after, interpreter, records)
    requires Advances(before, after) && StartsDistinct(after)
    requires NeverDrops(s.(polls := s.polls + 1), pid, Candidates(records), interpreter)
    ensures Admit(s, pid, records).1 == OldSelect(seen, records).1
  {
    var marked, next, cands := OldFold(seen, records).1, s.(polls := s.polls + 1), Candidates(records);
    SameSelection(pid, interpreter, before, after, s, seen, records);
    NoTiesAmong(after, interpreter, records, marked);
    AdmitsSorted(next, pid, cands, marked);
    assert Admit(s, pid, records) == AdmitSorted(next, pid, cands);
  }

  lemma {:induction false} AdmitsSorted(s: CursorState, pid: int, cands: seq<Record>, marked: seq<Record>)
    requires multiset(FoldCandidates(s, pid, cands).1) == multiset(marked) && Untied(marked)
    ensures AdmitSorted(s, pid, cands).1 == Sort(StartOrder, marked)
  {
    SameSorted(FoldCandidates(s, pid, cands).1, marked);
  }

  lemma NoTiesAmong(rings: seq<RW.RingState>, interpreter: int, records: seq<Record>, some: seq<Record>)
    requires IsPoll(rings, interpreter, records) && StartsDistinct(rings)
    requires forall r :: r in some ==> r in records && r.IsComplete()
    ensures Untied(some)
  {
    forall x, y | x in some && y in some && StartOrder(x, y) && StartOrder(y, x) ensures x == y {
      NoTies(rings, interpreter, x, y);
    }
  }

  ghost predicate Untied(rs: seq<Record>) {
    forall x, y :: x in rs && y in rs && StartOrder(x, y) && StartOrder(y, x) ==> x == y
  }

  lemma {:induction false} SameSorted(a: seq<Record>, b: seq<Record>)
    requires multiset(a) == multiset(b)
    requires Untied(b)
    ensures Sort(StartOrder, a) == Sort(StartOrder, b)
  {
    StartOrderTotal();
    SameElements(a, b);
    SortSorts(StartOrder, a);
    SortSorts(StartOrder, b);
    SortedUnique(StartOrder, Sort(StartOrder, a), Sort(StartOrder, b));
  }

  lemma {:induction false} LastRead(o: RingObservation, taken: seq<Record>, done: nat, now: nat)
    requires ReadTo(o, done) && done <= now && Increasing(taken)
    requires forall r :: r in taken ==> done < r.collections <= now
    requires done < now ==> Names(taken, now)
    ensures ReadTo(FoldAll(o, taken), now)
  {
    assert taken != [] ==> taken[0] in taken && taken[|taken| - 1] in taken;
    if done < now {
      var t :| t in taken && t.collections == now;
      var k :| 0 <= k < |taken| && taken[k] == t;
      var init, last := taken[..|taken| - 1], taken[|taken| - 1];
      assert last.collections == now;
      assert taken == init + [last] && [last][1..] == [];
      FoldAllConcat(o, init, [last]);
    }
  }

  /** A tick leaves the counter-keyed cursor at the newest Collection of every ring. */
  lemma TickReads(
    pid: int, interpreter: int, before: seq<RW.RingState>, after: seq<RW.RingState>, s: CursorState, seen: Marks, records: seq<Record>, g: nat)
    requires CaughtUp(pid, interpreter, before, s, seen) && IsPoll(after, interpreter, records) && Advances(before, after)
    requires g < |after|
    ensures var key := KeyAt(pid, interpreter, g);
      ReadTo(FoldAll(ObservationOf(s, key), Taken(s, records, key)), |after[g].history|)
  {
    var key := KeyAt(pid, interpreter, g);
    var o, taken := ObservationOf(s, key), Taken(s, records, key);
    var n, m := |before[g].history|, |after[g].history|;
    TakenSound(o, records, key);
    forall r | r in taken ensures n < r.collections <= m {
      assert IsEntry(after, interpreter, r) && r.generation == g;
      EntryNews(before[g], after[g], r.index);
    }
    if n < m {
      NewestTaken(pid, interpreter, before, after, s, seen, records, g);
    }
    LastRead(o, taken, n, m);
  }

  lemma {:induction false} NewestTaken(
    pid: int, interpreter: int, before: seq<RW.RingState>, after: seq<RW.RingState>, s: CursorState, seen: Marks, records: seq<Record>, g: nat)
    requires CaughtUp(pid, interpreter, before, s, seen) && IsPoll(after, interpreter, records) && Advances(before, after)
    requires g < |after| && |before[g].history| < |after[g].history|
    ensures Names(Taken(s, records, KeyAt(pid, interpreter, g)), |after[g].history|)
  {
    var m, size := |after[g].history|, |after[g].items|;
    var r := EntryRecord(after, interpreter, g, m % size);
    RW.EntryKinds(after[g], m % size);
    assert after[g].items[m % size] == RW.Cum(after[g].history, m);
    assert IsEntry(after, interpreter, r) && IsNew(before, r);
    NewTakesNew(pid, interpreter, before, after, s, seen, records, r);
  }

  lemma TickMarks(
    pid: int, interpreter: int, before: seq<RW.RingState>, after: seq<RW.RingState>, s: CursorState, seen: Marks, records: seq<Record>, g: nat, i: nat)
    requires CaughtUp(pid, interpreter, before, s, seen) && IsPoll(after, interpreter, records) && Advances(before, after)
    requires g < |after| && i < |after[g].items|
    ensures MarkAt(OldSelect(seen, records).0, (g, i)) == after[g].items[i].tsStart
  {
    var r := EntryRecord(after, interpreter, g, i);
    assert IsEntry(after, interpreter, r) && r in records;
    assert MarkAt(seen, (g, i)) == before[g].items[i].tsStart;
    PollSlots(after, interpreter, records);
    OldFoldMarks(seen, records, (g, i));
    EntryNews(before[g], after[g], i);
  }

  lemma PollNames(rings: seq<RW.RingState>, interpreter: int, records: seq<Record>)
    requires IsPoll(rings, interpreter, records)
    ensures Named(Candidates(records)) <= {interpreter}
  {
    CandidateNames(records);
    forall i | i in Named(records) ensures i == interpreter {
      var r :| r in records && r.interpreter == i;
      assert IsEntry(rings, interpreter, r);
    }
  }

  lemma {:induction false} TickKeepsUp(
    pid: int, interpreter: int, before: seq<RW.RingState>, after: seq<RW.RingState>, s: CursorState, seen: Marks, records: seq<Record>)
    requires CaughtUp(pid, interpreter, before, s, seen) && IsPoll(after, interpreter, records) && Advances(before, after)
    requires NeverDrops(s.(polls := s.polls + 1), pid, Candidates(records), interpreter)
    requires RetainedOf(Admit(s, pid, records).0, pid).Keys <= {interpreter}
    ensures CaughtUp(pid, interpreter, after, Admit(s, pid, records).0, OldSelect(seen, records).0)
  {
    var t := Admit(s, pid, records).0;
    forall g | 0 <= g < |after|
      ensures ReadTo(ObservationOf(t, KeyAt(pid, interpreter, g)), |after[g].history|)
    {
      AdmitProject(s, pid, records, KeyAt(pid, interpreter, g));
      TickReads(pid, interpreter, before, after, s, seen, records, g);
    }
    forall g, i | 0 <= g < |after| && 0 <= i < |after[g].items|
      ensures MarkAt(OldSelect(seen, records).0, (g, i)) == after[g].items[i].tsStart
    {
      TickMarks(pid, interpreter, before, after, s, seen, records, g, i);
    }
  }

  // ---- a whole run -------------------------------------------------------------------------------

  /** A run of quiescent polls in which nothing is overwritten unread. */
  ghost predicate LosslessRun(interpreter: int, rings: seq<RW.RingState>, ticks: seq<(seq<RW.RingState>, seq<Record>)>)
    decreases |ticks|
  {
    ticks == [] ||
    (&& IsPoll(ticks[0].0, interpreter, ticks[0].1)
     && Advances(rings, ticks[0].0) && StartsDistinct(ticks[0].0)
     && LosslessRun(interpreter, ticks[0].0, ticks[1..]))
  }

  /** What the counter-keyed cursor returns, tick by tick. */
  ghost function NewReturns(s: CursorState, pid: int, ticks: seq<(seq<RW.RingState>, seq<Record>)>): seq<seq<Record>>
    decreases |ticks|
  {
    if ticks == [] then []
    else
      var t := Admit(s, pid, ticks[0].1);
      [t.1] + NewReturns(t.0, pid, ticks[1..])
  }

  /** What the timestamp cursor returns, tick by tick. */
  function OldReturns(seen: Marks, ticks: seq<(seq<RW.RingState>, seq<Record>)>): seq<seq<Record>>
    decreases |ticks|
  {
    if ticks == [] then []
    else
      var t := OldSelect(seen, ticks[0].1);
      [t.1] + OldReturns(t.0, ticks[1..])
  }

  lemma {:induction false} RunAgreesFrom(
    pid: int, interpreter: int, rings: seq<RW.RingState>, s: CursorState, seen: Marks, ticks: seq<(seq<RW.RingState>, seq<Record>)>)
    requires CaughtUp(pid, interpreter, rings, s, seen) && LosslessRun(interpreter, rings, ticks)
    ensures NewReturns(s, pid, ticks) == OldReturns(seen, ticks)
    decreases |ticks|
  {
    if ticks != [] {
      var after, records := ticks[0].0, ticks[0].1;
      PollNames(after, interpreter, records);
      FewNextPoll(s, pid, Candidates(records), {interpreter}, interpreter);
      TickAgrees(pid, interpreter, rings, after, s, seen, records);
      TickKeepsUp(pid, interpreter, rings, after, s, seen, records);
      RunAgreesFrom(pid, interpreter, after, Admit(s, pid, records).0, OldSelect(seen, records).0, ticks[1..]);
    }
  }

  /**
   The refinement: from untouched rings and two new cursors, tick for tick, the counter-keyed cursor
   returns the same Records in the same order as the timestamp cursor it replaced.
   */
  lemma {:induction false} RunAgrees(pid: int, interpreter: int, rings: seq<RW.RingState>, ticks: seq<(seq<RW.RingState>, seq<Record>)>)
    requires Quiet(rings) && (forall g :: 0 <= g < |rings| ==> rings[g].history == [])
    requires LosslessRun(interpreter, rings, ticks)
    ensures NewReturns(NEW, pid, ticks) == OldReturns(map[], ticks)
  {
    forall g, i | 0 <= g < |rings| && 0 <= i < |rings[g].items|
      ensures MarkAt(map[], (g, i)) == rings[g].items[i].tsStart
    {
      RW.EntryKinds(rings[g], i);
    }
    RunAgreesFrom(pid, interpreter, rings, NEW, map[], ticks);
  }
}
