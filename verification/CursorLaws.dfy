/**
 What the cursor keeps over whole runs: one ring's selection is independent of every other ring,
 an interpreter that keeps reporting is never evicted, other processes are untouched, and no
 Record returned is ever unaccounted for.
 */
module CursorLaws {
  import opened Prelude
  import opened Records
  import opened StableSort
  import opened Observation
  import opened Cursors

  // ---- one ring at a time ---------------------------------------------------

  /** Whether folding these candidates never evicts `interpreter`. */
  ghost predicate NeverDrops(s: CursorState, pid: int, cands: seq<Record>, interpreter: int)
    decreases |cands|
  {
    cands == [] ||
    (var r := cands[0];
     && !(Overflows(s, pid, r.interpreter) && Stalest(RetainedOf(s, pid)) == interpreter)
     && NeverDrops(Offer(Retain(s, pid, r.interpreter), pid, r), pid, cands[1..], interpreter))
  }

  lemma RetainProject(s: CursorState, pid: int, interpreter: int, key: RingKey)
    requires key.pid == pid ==> !(Overflows(s, pid, interpreter) && Stalest(RetainedOf(s, pid)) == key.interpreter)
    ensures ObservationOf(Retain(s, pid, interpreter), key) == ObservationOf(s, key)
  {}

  lemma OfferProject(s: CursorState, pid: int, r: Record, key: RingKey)
    ensures ObservationOf(Offer(s, pid, r), key) ==
      if key == KeyOf(pid, r) && Takes(ObservationOf(s, key), r) then ObservationOf(s, key).Fold(r) else ObservationOf(s, key)
  {}

  lemma {:induction false} SelectCons(o: RingObservation, r: Record, rest: seq<Record>)
    ensures Select(o, [r] + rest) ==
      if Takes(o, r) then (Select(o.Fold(r), rest).0, [r] + Select(o.Fold(r), rest).1) else Select(o, rest)
  {
    assert ([r] + rest)[1..] == rest;
  }

  lemma {:induction false} FilterCons<T(!new)>(p: T -> bool, x: T, rest: seq<T>)
    ensures Filter(p, [x] + rest) == if p(x) then [x] + Filter(p, rest) else Filter(p, rest)
  {
    assert ([x] + rest)[1..] == rest;
  }

  lemma {:induction false} FoldCons(s: CursorState, pid: int, r: Record, rest: seq<Record>)
    ensures var t := Retain(s, pid, r.interpreter);
      var after := FoldCandidates(Offer(t, pid, r), pid, rest);
      && FoldCandidates(s, pid, [r] + rest).0 == after.0
      && FoldCandidates(s, pid, [r] + rest).1
         == (if Takes(ObservationOf(t, KeyOf(pid, r)), r) then [r] else []) + after.1
  {
    assert ([r] + rest)[1..] == rest;
  }

  ghost predicate Projects(s: CursorState, pid: int, cands: seq<Record>, key: RingKey) {
    var own := Select(ObservationOf(s, key), Filter(InRing(key), cands));
    var all := FoldCandidates(s, pid, cands);
    ObservationOf(all.0, key) == own.0 && Filter(InRing(key), all.1) == own.1
  }

  lemma ProjectStep(s: CursorState, pid: int, r: Record, rest: seq<Record>, key: RingKey)
    requires key.pid == pid
    requires !(Overflows(s, pid, r.interpreter) && Stalest(RetainedOf(s, pid)) == key.interpreter)
    requires Projects(Offer(Retain(s, pid, r.interpreter), pid, r), pid, rest, key)
    ensures Projects(s, pid, [r] + rest, key)
  {
    var t := Retain(s, pid, r.interpreter);
    var u := Offer(t, pid, r);
    RetainProject(s, pid, r.interpreter, key);
    OfferProject(t, pid, r, key);
    FoldCons(s, pid, r, rest);
    FilterCons(InRing(key), r, rest);
    var after := FoldCandidates(u, pid, rest);
    var o := ObservationOf(s, key);
    SelectCons(o, r, Filter(InRing(key), rest));
    if Takes(ObservationOf(t, KeyOf(pid, r)), r) {
      FilterCons(InRing(key), r, after.1);
    } else {
      assert [] + after.1 == after.1;
    }
    assert InRing(key)(r) <==> key == KeyOf(pid, r);
  }

  /** A ring the fold does not evict sees only its own candidates, as if it were alone. */
  lemma {:induction false} FoldProject(s: CursorState, pid: int, cands: seq<Record>, key: RingKey)
    requires key.pid == pid && NeverDrops(s, pid, cands, key.interpreter)
    ensures Projects(s, pid, cands, key)
    decreases |cands|
  {
    if cands != [] {
      var r := cands[0];
      FoldProject(Offer(Retain(s, pid, r.interpreter), pid, r), pid, cands[1..], key);
      ProjectStep(s, pid, r, cands[1..], key);
      assert cands == [r] + cands[1..];
    }
  }

  lemma RingOrderTotal()
    ensures TotalPreorder(RingOrder)
  {}

  lemma StartOrderTotal()
    ensures TotalPreorder(StartOrder)
  {}

  /** Candidates reach each ring in counter order, and they are exactly its Records. */
  lemma CandidatesByCounter(records: seq<Record>, key: RingKey)
    ensures ByCounter(Filter(InRing(key), Candidates(records)))
    ensures forall r :: r in Filter(InRing(key), Candidates(records)) <==> r in records && InRing(key)(r)
  {
    RingOrderTotal();
    SortSorts(RingOrder, records);
    FilterSorted(RingOrder, InRing(key), Candidates(records));
    var own := Filter(InRing(key), Candidates(records));
    forall i, j | 0 <= i < j < |own| ensures own[i].collections <= own[j].collections {
      assert own[i] in own && own[j] in own;
      assert InRing(key)(own[i]) && InRing(key)(own[j]);
    }
  }

  /** The Records an accumulator takes from a poll, selected as if no other ring existed. */
  function TakenFrom(o: RingObservation, records: seq<Record>, key: RingKey): seq<Record> {
    Select(o, Filter(InRing(key), Candidates(records))).1
  }

  function Taken(s: CursorState, records: seq<Record>, key: RingKey): seq<Record> {
    TakenFrom(ObservationOf(s, key), records, key)
  }

  /**
   What a poll emits for one ring: the Records taken, in the order they were taken whenever their
   starts rise with their counters.
   */
  ghost predicate EmitsTaken(out: seq<Record>, key: RingKey, taken: seq<Record>) {
    && (forall r :: r in Filter(InRing(key), out) <==> r in taken)
    && (Sorted(StartOrder, taken) ==> Filter(InRing(key), out) == taken)
  }

  /** Sorting a poll's output by start keeps each ring's Records, and their order where starts rise. */
  lemma {:induction false} OutputOfRing(folded: seq<Record>, key: RingKey)
    ensures EmitsTaken(Sort(StartOrder, folded), key, Filter(InRing(key), folded))
  {
    StartOrderTotal();
    SortSorts(StartOrder, folded);
    if Sorted(StartOrder, Filter(InRing(key), folded)) {
      SortStable(StartOrder, InRing(key), folded);
    }
  }

  lemma {:induction false} AdmitSortedProject(s: CursorState, pid: int, cands: seq<Record>, key: RingKey)
    requires key.pid == pid && NeverDrops(s, pid, cands, key.interpreter)
    ensures var taken := Select(ObservationOf(s, key), Filter(InRing(key), cands)).1;
      && ObservationOf(AdmitSorted(s, pid, cands).0, key) == FoldAll(ObservationOf(s, key), taken)
      && EmitsTaken(AdmitSorted(s, pid, cands).1, key, taken)
  {
    FoldProject(s, pid, cands, key);
    SelectMeaning(ObservationOf(s, key), Filter(InRing(key), cands));
    OutputOfRing(FoldCandidates(s, pid, cands).1, key);
  }

  /** One poll, seen from one ring: its accumulator folds what `Taken` says, and that comes out. */
  lemma {:induction false} AdmitProject(s: CursorState, pid: int, records: seq<Record>, key: RingKey)
    requires key.pid == pid
    requires NeverDrops(s.(polls := s.polls + 1), pid, Candidates(records), key.interpreter)
    ensures ObservationOf(Admit(s, pid, records).0, key) == FoldAll(ObservationOf(s, key), Taken(s, records, key))
    ensures EmitsTaken(Admit(s, pid, records).1, key, Taken(s, records, key))
  {
    var next, cands := s.(polls := s.polls + 1), Candidates(records);
    AdmitNextProject(s, pid, cands, key);
    assert Admit(s, pid, records) == AdmitSorted(next, pid, cands);
  }

  lemma AdmitNextProject(s: CursorState, pid: int, cands: seq<Record>, key: RingKey)
    requires key.pid == pid && NeverDrops(s.(polls := s.polls + 1), pid, cands, key.interpreter)
    ensures var taken := Select(ObservationOf(s, key), Filter(InRing(key), cands)).1;
      && ObservationOf(AdmitSorted(s.(polls := s.polls + 1), pid, cands).0, key) == FoldAll(ObservationOf(s, key), taken)
      && EmitsTaken(AdmitSorted(s.(polls := s.polls + 1), pid, cands).1, key, taken)
  {
    assert ObservationOf(s.(polls := s.polls + 1), key) == ObservationOf(s, key);
    AdmitSortedProject(s.(polls := s.polls + 1), pid, cands, key);
  }

  /** Every counter past a ring's cursor that a poll holds a finished Record of is taken by that poll. */
  lemma TakenComplete(o: RingObservation, records: seq<Record>, key: RingKey, r: Record)
    requires r in records && InRing(key)(r) && Takes(o, r)
    ensures exists t :: t in TakenFrom(o, records, key) && t.collections == r.collections
  {
    CandidatesByCounter(records, key);
    SelectComplete(o, Filter(InRing(key), Candidates(records)), r);
  }

  /** And nothing else is: what is taken was read from that ring, finished, past the cursor. */
  lemma {:induction false} TakenSound(o: RingObservation, records: seq<Record>, key: RingKey)
    ensures Increasing(TakenFrom(o, records, key))
    ensures forall r :: r in TakenFrom(o, records, key) ==> r in records && InRing(key)(r) && Takes(o, r)
    ensures Select(o, Filter(InRing(key), Candidates(records))).0 == FoldAll(o, TakenFrom(o, records, key))
  {
    CandidatesByCounter(records, key);
    SelectMeaning(o, Filter(InRing(key), Candidates(records)));
  }

  // ---- retention ------------------------------------------------------------

  function Named(records: seq<Record>): set<int> {
    set r | r in records :: r.interpreter
  }

  /** Every interpreter seen at poll `since` or later is in `names`. */
  ghost predicate RecentIn(s: CursorState, pid: int, since: int, names: set<int>) {
    forall j :: j in RetainedOf(s, pid) && RetainedOf(s, pid)[j] >= since ==> j in names
  }

  ghost predicate SeenSince(s: CursorState, pid: int, since: int, interpreter: int) {
    interpreter in RetainedOf(s, pid) && RetainedOf(s, pid)[interpreter] >= since
  }

  lemma RetainedAfterRetain(s: CursorState, pid: int, interpreter: int)
    ensures RetainedOf(Retain(s, pid, interpreter), pid) ==
      if Overflows(s, pid, interpreter)
      then (RetainedOf(s, pid) - {Stalest(RetainedOf(s, pid))})[interpreter := s.polls]
      else RetainedOf(s, pid)[interpreter := s.polls]
    ensures forall p :: p != pid ==> RetainedOf(Retain(s, pid, interpreter), p) == RetainedOf(s, p)
    ensures Retain(s, pid, interpreter).polls == s.polls
  {}

  lemma OfferKeepsRetained(s: CursorState, pid: int, r: Record)
    ensures Offer(s, pid, r).retained == s.retained && Offer(s, pid, r).polls == s.polls
    ensures Offer(s, pid, r).dropped == s.dropped && Offer(s, pid, r).retired == s.retired
    ensures Offer(s, pid, r).evictions == s.evictions
  {}

  lemma SortAlone<T>(leq: (T, T) -> bool, x: T)
    ensures Sort(leq, [x]) == [x]
  {
    assert [x][1..] == [];
    assert Sort(leq, []) == [];
  }

  /** A poll of one finished Record of a ring with no accumulator: it is returned, and opens one. */
  lemma AdmitAlone(s: CursorState, pid: int, r: Record)
    requires KeyOf(pid, r) !in s.rings && r.IsComplete() && r.collections > 0
    ensures Admit(s, pid, [r]).1 == [r]
    ensures var t := Admit(s, pid, [r]).0;
      && t.retired == s.retired && t.evictions == s.evictions
      && (!Overflows(s, pid, r.interpreter) ==> t.rings == s.rings[KeyOf(pid, r) := UNREAD.Fold(r)])
  {
    var start := s.(polls := s.polls + 1);
    var t := Retain(start, pid, r.interpreter);
    SortAlone(RingOrder, r);
    OfferKeepsRetained(t, pid, r);
    FoldCons(start, pid, r, []);
    assert [r] + [] == [r];
    SortAlone(StartOrder, r);
  }

  /** An eviction takes a recently seen interpreter only when more than the bound are recent. */
  lemma EvictionNeedsCrowd(s: CursorState, pid: int, since: int, names: set<int>, newcomer: int, interpreter: int)
    requires RecentIn(s, pid, since, names) && newcomer in names && |names| <= MAX_RETAINED_INTERPRETERS
    requires Overflows(s, pid, newcomer) && SeenSince(s, pid, since, interpreter)
    ensures Stalest(RetainedOf(s, pid)) != interpreter
  {
    var m := RetainedOf(s, pid);
    if Stalest(m) == interpreter {
      forall j | j in m.Keys ensures j in names - {newcomer} {
        assert m[interpreter] <= m[j];
      }
      Subset(m.Keys, names - {newcomer});
      assert false;
    }
  }

  lemma Subset<T>(a: set<T>, b: set<T>)
    requires a <= b
    ensures |a| <= |b|
  {
    assert b == a + (b - a);
  }

  lemma {:induction false} FoldRetains(s: CursorState, pid: int, cands: seq<Record>, since: int, names: set<int>, interpreter: int)
    requires since <= s.polls && |names| <= MAX_RETAINED_INTERPRETERS && Named(cands) <= names
    requires RecentIn(s, pid, since, names) && SeenSince(s, pid, since, interpreter)
    ensures NeverDrops(s, pid, cands, interpreter)
    ensures SeenSince(FoldCandidates(s, pid, cands).0, pid, since, interpreter)
    decreases |cands|
  {
    if cands != [] {
      var r := cands[0];
      assert r.interpreter in Named(cands);
      if Overflows(s, pid, r.interpreter) {
        EvictionNeedsCrowd(s, pid, since, names, r.interpreter, interpreter);
      }
      var t := Retain(s, pid, r.interpreter);
      RetainedAfterRetain(s, pid, r.interpreter);
      OfferKeepsRetained(t, pid, r);
      assert Named(cands[1..]) <= Named(cands);
      FoldRetains(Offer(t, pid, r), pid, cands[1..], since, names, interpreter);
    }
  }

  /** After a fold, what was seen at this poll is what the poll named; the set stays bounded. */
  lemma {:induction false} FoldSeesNames(s: CursorState, pid: int, cands: seq<Record>, names: set<int>)
    requires RecentIn(s, pid, s.polls, names) && Named(cands) <= names
    ensures FoldCandidates(s, pid, cands).0.polls == s.polls
    ensures RecentIn(FoldCandidates(s, pid, cands).0, pid, s.polls, names)
    decreases |cands|
  {
    if cands != [] {
      var r := cands[0];
      assert r.interpreter in Named(cands);
      var t := Retain(s, pid, r.interpreter);
      RetainedAfterRetain(s, pid, r.interpreter);
      OfferKeepsRetained(t, pid, r);
      assert Named(cands[1..]) <= Named(cands);
      FoldSeesNames(Offer(t, pid, r), pid, cands[1..], names);
    }
  }

  /** An interpreter a poll names is seen at that poll, as long as the poll itself is not crowded. */
  lemma {:induction false} FoldMarks(s: CursorState, pid: int, cands: seq<Record>, names: set<int>, interpreter: int)
    requires |names| <= MAX_RETAINED_INTERPRETERS && Named(cands) <= names
    requires RecentIn(s, pid, s.polls, names)
    requires interpreter in Named(cands) || SeenSince(s, pid, s.polls, interpreter)
    ensures SeenSince(FoldCandidates(s, pid, cands).0, pid, s.polls, interpreter)
    decreases |cands|
  {
    if SeenSince(s, pid, s.polls, interpreter) {
      FoldRetains(s, pid, cands, s.polls, names, interpreter);
    } else {
      var r := cands[0];
      assert r.interpreter in Named(cands);
      var t := Retain(s, pid, r.interpreter);
      RetainedAfterRetain(s, pid, r.interpreter);
      OfferKeepsRetained(t, pid, r);
      assert Named(cands[1..]) <= Named(cands);
      if r.interpreter != interpreter {
        var x :| x in cands && x.interpreter == interpreter;
        assert x in cands[1..];
      }
      FoldMarks(Offer(t, pid, r), pid, cands[1..], names, interpreter);
    }
  }

  // ---- what comes out, and in what order -----------------------------------------------------

  lemma {:induction false} FoldTakes(s: CursorState, pid: int, cands: seq<Record>)
    ensures forall r :: r in FoldCandidates(s, pid, cands).1 ==> r in cands && r.IsComplete()
    decreases |cands|
  {
    if cands != [] {
      FoldTakes(Offer(Retain(s, pid, cands[0].interpreter), pid, cands[0]), pid, cands[1..]);
    }
  }

  lemma {:induction false} AdmitTakes(s: CursorState, pid: int, records: seq<Record>)
    ensures forall r :: r in Admit(s, pid, records).1 ==> r in records && r.IsComplete()
  {
    AdmitSortedTakes(s.(polls := s.polls + 1), pid, Candidates(records));
    CandidatesAreRecords(records);
  }

  lemma CandidatesAreRecords(records: seq<Record>)
    ensures forall r :: r in Candidates(records) <==> r in records
  {
    RingOrderTotal();
    SortSorts(RingOrder, records);
  }

  lemma AdmitSortedTakes(s: CursorState, pid: int, cands: seq<Record>)
    ensures forall r :: r in AdmitSorted(s, pid, cands).1 ==> r in cands && r.IsComplete()
  {
    FoldTakes(s, pid, cands);
    StartOrderTotal();
    SortSorts(StartOrder, FoldCandidates(s, pid, cands).1);
  }

  lemma SortedRest(rs: seq<Record>)
    requires Sorted(RingOrder, rs) && rs != []
    ensures Sorted(RingOrder, rs[1..]) && forall r :: r in rs[1..] ==> RingOrder(rs[0], r)
  {
    forall r | r in rs[1..] ensures RingOrder(rs[0], r) {
      var k :| 0 <= k < |rs[1..]| && rs[1..][k] == r;
      assert rs[k + 1] == r;
    }
  }

  /** Candidates in ring order are taken in ring order. */
  lemma {:induction false} FoldOrdered(s: CursorState, pid: int, cands: seq<Record>)
    requires Sorted(RingOrder, cands)
    ensures Sorted(RingOrder, FoldCandidates(s, pid, cands).1)
    decreases |cands|
  {
    if cands != [] {
      var r := cands[0];
      var u := Offer(Retain(s, pid, r.interpreter), pid, r);
      SortedRest(cands);
      FoldOrdered(u, pid, cands[1..]);
      FoldTakes(u, pid, cands[1..]);
      var rest := FoldCandidates(u, pid, cands[1..]).1;
      SortedCons(RingOrder, r, rest);
      assert [] + rest == rest;
    }
  }

  lemma SortedCons<T>(leq: (T, T) -> bool, first: T, rest: seq<T>)
    requires Sorted(leq, rest) && forall x :: x in rest ==> leq(first, x)
    ensures Sorted(leq, [first] + rest)
  {
    forall i, j | 0 <= i < j < |rest| + 1 ensures leq(([first] + rest)[i], ([first] + rest)[j]) {
      if i == 0 { assert rest[j - 1] in rest; } else { assert leq(rest[i - 1], rest[j - 1]); }
    }
  }

  /** Where one sequence is sorted another way, ties keep that order. */
  ghost predicate TiesKeep<T>(leq: (T, T) -> bool, ties: (T, T) -> bool, s: seq<T>) {
    forall i, j :: 0 <= i < j < |s| && leq(s[j], s[i]) ==> ties(s[i], s[j])
  }

  lemma {:induction false} InsertKeepsTies<T>(leq: (T, T) -> bool, ties: (T, T) -> bool, x: T, s: seq<T>)
    requires TiesKeep(leq, ties, s) && forall y :: y in s ==> ties(x, y)
    ensures TiesKeep(leq, ties, Insert(leq, x, s))
    ensures forall y :: y in Insert(leq, x, s) ==> y == x || y in s
    decreases |s|
  {
    if s != [] {
      if leq(x, s[0]) {
        var all := [x] + s;
        forall i, j | 0 <= i < j < |all| && leq(all[j], all[i]) ensures ties(all[i], all[j]) {
          assert all[j] == s[j - 1];
          assert i == 0 || all[i] == s[i - 1];
        }
      } else {
        var rest := s[1..];
        assert forall y :: y in rest ==> y in s;
        assert forall i :: 0 <= i < |rest| ==> rest[i] == s[i + 1];
        InsertKeepsTies(leq, ties, x, rest);
        HeadKeepsTies(leq, ties, x, s, Insert(leq, x, rest));
      }
    }
  }

  lemma HeadKeepsTies<T>(leq: (T, T) -> bool, ties: (T, T) -> bool, x: T, s: seq<T>, rest: seq<T>)
    requires s != [] && TiesKeep(leq, ties, s) && TiesKeep(leq, ties, rest) && !leq(x, s[0])
    requires forall y :: y in rest ==> y == x || y in s[1..]
    ensures TiesKeep(leq, ties, [s[0]] + rest)
  {
    var all := [s[0]] + rest;
    forall i, j | 0 <= i < j < |all| && leq(all[j], all[i]) ensures ties(all[i], all[j]) {
      assert all[j] == rest[j - 1] && rest[j - 1] in rest;
      if i == 0 {
        var k :| 0 <= k < |s[1..]| && s[1..][k] == all[j];
        assert s[k + 1] == all[j];
      } else {
        assert all[i] == rest[i - 1];
      }
    }
  }

  lemma {:induction false} SortKeepsTies<T(!new)>(leq: (T, T) -> bool, ties: (T, T) -> bool, s: seq<T>)
    requires Sorted(ties, s) && TotalPreorder(leq)
    ensures TiesKeep(leq, ties, Sort(leq, s))
    decreases |s|
  {
    if s != [] {
      SortSorts(leq, s[1..]);
      SortKeepsTies(leq, ties, s[1..]);
      forall y | y in Sort(leq, s[1..]) ensures ties(s[0], y) {
        var k :| 0 <= k < |s[1..]| && s[1..][k] == y;
        assert s[k + 1] == y;
      }
      InsertKeepsTies(leq, ties, s[0], Sort(leq, s[1..]));
    }
  }

  lemma AdmitSortedInOrder(s: CursorState, pid: int, cands: seq<Record>)
    requires Sorted(RingOrder, cands)
    ensures Sorted(StartOrder, AdmitSorted(s, pid, cands).1) && TiesKeep(StartOrder, RingOrder, AdmitSorted(s, pid, cands).1)
  {
    var folded := FoldCandidates(s, pid, cands).1;
    FoldOrdered(s, pid, cands);
    StartOrderTotal();
    SortSorts(StartOrder, folded);
    SortKeepsTies(StartOrder, RingOrder, folded);
  }

  /**
   A poll's Records come out by when they started, whatever rings they are of, and those that
   started together by interpreter, generation and counter.
   */
  lemma {:induction false} HandedOutByStart(s: CursorState, pid: int, records: seq<Record>, i: nat, j: nat)
    requires i < j < |Admit(s, pid, records).1|
    ensures var a, b := Admit(s, pid, records).1[i], Admit(s, pid, records).1[j];
      && a.tsStart <= b.tsStart
      && (a.tsStart == b.tsStart ==>
            || a.interpreter < b.interpreter
            || (a.interpreter == b.interpreter && a.generation < b.generation)
            || (a.interpreter == b.interpreter && a.generation == b.generation && a.collections <= b.collections))
  {
    var next, cands := s.(polls := s.polls + 1), Candidates(records);
    RingOrderTotal();
    SortSorts(RingOrder, records);
    AdmitSortedInOrder(next, pid, cands);
    assert Admit(s, pid, records) == AdmitSorted(next, pid, cands);
  }

  /** A poll of one Record is the Record offered, its interpreter kept. */
  lemma AdmitOne(s: CursorState, pid: int, r: Record)
    ensures var t := Retain(s.(polls := s.polls + 1), pid, r.interpreter);
      Admit(s, pid, [r]) == (Offer(t, pid, r), if Takes(ObservationOf(t, KeyOf(pid, r)), r) then [r] else [])
  {
    var start := s.(polls := s.polls + 1);
    SortAlone(RingOrder, r);
    FoldCons(start, pid, r, []);
    assert [r] + [] == [r];
    SortAlone(StartOrder, r);
    assert Sort(StartOrder, []) == [];
  }

  /** Keeping an interpreter touches nothing of its own. */
  lemma RetainKeepsOwn(s: CursorState, pid: int, interpreter: int, key: RingKey)
    requires key.pid == pid && key.interpreter == interpreter
    ensures var t := Retain(s, pid, interpreter);
      ObservationOf(t, key) == ObservationOf(s, key) && BoundOf(t, pid, interpreter) == BoundOf(s, pid, interpreter)
  {
    assert Overflows(s, pid, interpreter) ==> Stalest(RetainedOf(s, pid)) != interpreter;
  }

  /** Whether a Record is news to its ring: finished, or of a build that cannot say; counted; and past the last one read. */
  predicate IsNews(s: CursorState, pid: int, r: Record) {
    var key := RingKey(pid, r.interpreter, r.generation);
    && (!r.timed || r.tsStart < r.tsStop) && r.collections > 0
    && (key !in s.rings || s.rings[key].sampled == 0 || r.collections > s.rings[key].last.collections)
  }

  /** What a poll of one Record alone returns, and what it then knows of the interpreter's clock. */
  lemma OneRecordPoll(s: CursorState, pid: int, r: Record)
    ensures Admit(s, pid, [r]).1 == (if IsNews(s, pid, r) then [r] else [])
    ensures BoundOf(Admit(s, pid, [r]).0, pid, r.interpreter)
         == (if r.timed && r.tsStart >= r.tsStop then Later(BoundOf(s, pid, r.interpreter), r.tsStart)
             else if IsNews(s, pid, r) then Later(BoundOf(s, pid, r.interpreter), r.tsStop)
             else BoundOf(s, pid, r.interpreter))
  {
    var next, key := s.(polls := s.polls + 1), KeyOf(pid, r);
    AdmitOne(s, pid, r);
    RetainKeepsOwn(next, pid, r.interpreter, key);
    OfferedBound(Retain(next, pid, r.interpreter), pid, r);
  }

  lemma OfferedBound(s: CursorState, pid: int, r: Record)
    ensures BoundOf(Offer(s, pid, r), pid, r.interpreter)
         == (if r.timed && r.tsStart >= r.tsStop then Later(BoundOf(s, pid, r.interpreter), r.tsStart)
             else if Takes(ObservationOf(s, KeyOf(pid, r)), r) then Later(BoundOf(s, pid, r.interpreter), r.tsStop)
             else BoundOf(s, pid, r.interpreter))
  {}

  function BoundOf(s: CursorState, pid: int, interpreter: int): Option<int> {
    if (pid, interpreter) in s.lastCertainty then Some(s.lastCertainty[(pid, interpreter)]) else None
  }

  /** The later of a bound and a moment; zero and before are no moment at all. */
  function Later(bound: Option<int>, moment: int): Option<int> {
    if moment <= 0 then bound else if bound.Some? && bound.value > moment then bound else Some(moment)
  }

  /**
   Naming an interpreter: it is marked seen now, and where the process has 1024 others already the one
   seen least recently, the smaller id among equals, loses its place, its rings and its bound.
   */
  lemma RoomIsMade(s: CursorState, pid: int, interpreter: int)
    ensures var m, t := RetainedOf(s, pid), Retain(s, pid, interpreter);
      if interpreter in m || |m| < 1024 then
        t == s.(retained := s.retained[pid := m[interpreter := s.polls]])
      else
        exists gone :: gone in m
          && (forall j :: j in m ==> m[gone] < m[j] || (m[gone] == m[j] && gone <= j))
          && RetainedOf(t, pid) == (m - {gone})[interpreter := s.polls]
          && t.rings == (map k | k in s.rings && (k.pid != pid || k.interpreter != gone) :: s.rings[k])
          && t.lastCertainty == s.lastCertainty - {(pid, gone)}
          && DroppedOf(t, pid) == DroppedOf(s, pid) + 1
  {
    var m := RetainedOf(s, pid);
    if !(interpreter in m || |m| < 1024) {
      var gone := Stalest(m);
      assert IsStalest(m, gone);
      assert Retain(s, pid, interpreter).rings == (map k | k in s.rings && (k.pid != pid || k.interpreter != gone) :: s.rings[k]);
    }
  }

  /** One key before another: by process, interpreter and generation. */
  predicate Precedes(a: RingKey, b: RingKey) {
    || a.pid < b.pid
    || (a.pid == b.pid && (a.interpreter < b.interpreter || (a.interpreter == b.interpreter && a.generation < b.generation)))
  }

  ghost predicate Rising(keys: seq<RingKey>) {
    forall i, j :: 0 <= i < j < |keys| ==> Precedes(keys[i], keys[j])
  }

  lemma RisingCons(k: RingKey, rest: seq<RingKey>)
    requires Rising(rest) && forall j :: j in rest ==> Precedes(k, j)
    ensures Rising([k] + rest)
  {
    forall i, j | 0 <= i < j < |rest| + 1 ensures Precedes(([k] + rest)[i], ([k] + rest)[j]) {
      if i == 0 { assert rest[j - 1] in rest; } else { assert Precedes(rest[i - 1], rest[j - 1]); }
    }
  }

  /** An ordered map walks its keys rising. */
  lemma {:induction false} KeysRise(keys: set<RingKey>)
    ensures Rising(InOrder(keys))
    decreases |keys|
  {
    if keys != {} {
      LeastKeyExists(keys);
      var k := InOrder(keys)[0];
      var rest := InOrder(keys - {k});
      assert InOrder(keys) == [k] + rest;
      KeysRise(keys - {k});
      forall j | j in rest ensures Precedes(k, j) { assert KeyOrder(k, j) && j != k; }
      RisingCons(k, rest);
    }
  }

  /** Forgetting a process moves its accumulators over, all of them, in key order, under the count of evictions so far. */
  lemma ForgetInOrder(s: CursorState, pid: int) returns (keys: seq<RingKey>, gone: seq<Retired>)
    ensures Rising(keys) && forall k :: k in keys <==> k in s.rings && k.pid == pid
    ensures |gone| == |keys| && forall i :: 0 <= i < |keys| ==> keys[i] in s.rings && gone[i] == Retired(keys[i], s.evictions, s.rings[keys[i]])
    ensures var t := Forget(s, pid);
      && t.retired == s.retired + gone && t.evictions == s.evictions + 1
      && (forall k :: k in t.rings <==> k in s.rings && k.pid != pid)
  {
    keys := InOrder(PidKeys(s.rings, pid));
    gone := RetireAll(s.rings, s.evictions, keys);
    KeysRise(PidKeys(s.rings, pid));
    assert forall i :: 0 <= i < |keys| ==> keys[i] in keys;
  }
}
