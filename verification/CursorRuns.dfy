/**
 The cursor over any sequence of polls and deaths, of any processes in any order: what stays
 bounded, who keeps an accumulator, what one process can do to another, and the accounting.
 */
module CursorRuns {
  import opened Prelude
  import opened Records
  import opened StableSort
  import opened Observation
  import opened Cursors
  import opened CursorLaws

  datatype Event = Polled(pid: int, records: seq<Record>) | Died(pid: int)

  ghost function Apply(s: CursorState, e: Event): CursorState {
    match e
    case Polled(pid, records) => Admit(s, pid, records).0
    case Died(pid) => Forget(s, pid)
  }

  ghost function Run(s: CursorState, es: seq<Event>): CursorState
    decreases |es|
  {
    if es == [] then s else Run(Apply(s, es[0]), es[1..])
  }

  lemma {:induction false} RunSnoc(s: CursorState, es: seq<Event>, e: Event)
    ensures Run(s, es + [e]) == Apply(Run(s, es), e)
    decreases |es|
  {
    if es == [] {
      assert [] + [e] == [e] && [e][1..] == [];
    } else {
      assert (es + [e])[0] == es[0] && (es + [e])[1..] == es[1..] + [e];
      RunSnoc(Apply(s, es[0]), es[1..], e);
    }
  }

  lemma {:induction false} FoldLeavesRetired(s: CursorState, pid: int, cands: seq<Record>)
    ensures FoldCandidates(s, pid, cands).0.retired == s.retired && FoldCandidates(s, pid, cands).0.evictions == s.evictions
    decreases |cands|
  {
    if cands != [] {
      var t := Retain(s, pid, cands[0].interpreter);
      OfferKeepsRetained(t, pid, cands[0]);
      FoldLeavesRetired(Offer(t, pid, cands[0]), pid, cands[1..]);
    }
  }

  // ---- the bound --------------------------------------------------------------

  predicate SizeOk(kept: map<int, int>, polls: int) {
    && |kept| <= MAX_RETAINED_INTERPRETERS
    && forall j :: j in kept ==> kept[j] <= polls
  }

  ghost predicate SizesOk(s: CursorState) {
    forall p :: SizeOk(RetainedOf(s, p), s.polls)
  }

  predicate RingOk(s: CursorState, k: RingKey) {
    k in s.rings ==> k.interpreter in RetainedOf(s, k.pid) && Sound(s.rings[k]) && !s.rings[k].IsEmpty()
  }

  ghost predicate RingsOk(s: CursorState) {
    forall k :: RingOk(s, k)
  }

  predicate BoundOk(s: CursorState, b: (int, int)) {
    b in s.lastCertainty ==> b.1 in RetainedOf(s, b.0)
  }

  ghost predicate BoundsOk(s: CursorState) {
    forall b :: BoundOk(s, b)
  }

  /**
   Retention is bounded, every accumulator and certainty bound belongs to an interpreter still
   kept, and no accumulator is empty.
   */
  ghost predicate Bounded(s: CursorState) {
    SizesOk(s) && RingsOk(s) && BoundsOk(s)
  }

  lemma InsertSize(m: map<int, int>, i: int, poll: int)
    requires SizeOk(m, poll)
    requires i in m || |m| < MAX_RETAINED_INTERPRETERS
    ensures SizeOk(m[i := poll], poll)
  {
    assert m[i := poll].Keys == m.Keys + {i};
    if i in m { assert m.Keys + {i} == m.Keys; }
  }

  lemma ReplaceSize(m: map<int, int>, gone: int, i: int, poll: int)
    requires SizeOk(m, poll) && gone in m
    ensures SizeOk((m - {gone})[i := poll], poll)
  {
    var rest := m - {gone};
    assert rest.Keys == m.Keys - {gone};
    assert SizeOk(rest, poll);
    InsertSize(rest, i, poll);
  }

  lemma RetainSizes(s: CursorState, pid: int, interpreter: int)
    requires SizesOk(s)
    ensures SizesOk(Retain(s, pid, interpreter))
  {
    var t, m := Retain(s, pid, interpreter), RetainedOf(s, pid);
    RetainedAfterRetain(s, pid, interpreter);
    assert SizeOk(m, s.polls);
    if Overflows(s, pid, interpreter) {
      ReplaceSize(m, Stalest(m), interpreter, s.polls);
    } else {
      InsertSize(m, interpreter, s.polls);
    }
    forall p ensures SizeOk(RetainedOf(t, p), t.polls) {
      if p != pid {
        assert RetainedOf(t, p) == RetainedOf(s, p);
      }
    }
  }

  lemma RetainRings(s: CursorState, pid: int, interpreter: int)
    requires RingsOk(s)
    ensures RingsOk(Retain(s, pid, interpreter))
  {
    var t := Retain(s, pid, interpreter);
    RetainedAfterRetain(s, pid, interpreter);
    forall k ensures RingOk(t, k) {
      assert RingOk(s, k);
      if k.pid != pid { assert RetainedOf(t, k.pid) == RetainedOf(s, k.pid); }
    }
  }

  lemma RetainBounds(s: CursorState, pid: int, interpreter: int)
    requires BoundsOk(s)
    ensures BoundsOk(Retain(s, pid, interpreter))
  {
    var t := Retain(s, pid, interpreter);
    RetainedAfterRetain(s, pid, interpreter);
    forall b ensures BoundOk(t, b) {
      assert BoundOk(s, b);
      if b.0 != pid { assert RetainedOf(t, b.0) == RetainedOf(s, b.0); }
    }
  }

  lemma OfferBounded(s: CursorState, pid: int, r: Record)
    requires Bounded(s) && r.interpreter in RetainedOf(s, pid)
    ensures Bounded(Offer(s, pid, r))
  {
    var t, key := Offer(s, pid, r), KeyOf(pid, r);
    OfferKeepsRetained(s, pid, r);
    forall p ensures SizeOk(RetainedOf(t, p), t.polls) {
      assert SizeOk(RetainedOf(s, p), s.polls);
    }
    forall k ensures RingOk(t, k) {
      assert RingOk(s, k);
      if k == key && Takes(ObservationOf(s, key), r) { FoldSound(ObservationOf(s, key), r); }
    }
    forall b ensures BoundOk(t, b) {
      assert BoundOk(s, b);
    }
  }

  lemma {:induction false} FoldBounded(s: CursorState, pid: int, cands: seq<Record>)
    requires Bounded(s)
    ensures Bounded(FoldCandidates(s, pid, cands).0)
    decreases |cands|
  {
    if cands != [] {
      var i := cands[0].interpreter;
      RetainSizes(s, pid, i);
      RetainRings(s, pid, i);
      RetainBounds(s, pid, i);
      RetainedAfterRetain(s, pid, i);
      var t := Retain(s, pid, i);
      OfferBounded(t, pid, cands[0]);
      FoldBounded(Offer(t, pid, cands[0]), pid, cands[1..]);
    }
  }

  lemma NextPollBounded(s: CursorState)
    requires Bounded(s)
    ensures Bounded(s.(polls := s.polls + 1))
  {
    var t := s.(polls := s.polls + 1);
    forall p ensures SizeOk(RetainedOf(t, p), t.polls) { assert SizeOk(RetainedOf(s, p), s.polls); }
    forall k ensures RingOk(t, k) { assert RingOk(s, k); }
    forall b ensures BoundOk(t, b) { assert BoundOk(s, b); }
  }

  lemma EvictedRetained(s: CursorState, pid: int, gone: seq<Retired>, p: int)
    ensures RetainedOf(Evicted(s, pid, gone), p) == if p == pid then map[] else RetainedOf(s, p)
  {}

  lemma EvictedBounded(s: CursorState, pid: int, gone: seq<Retired>)
    requires Bounded(s)
    ensures Bounded(Evicted(s, pid, gone))
  {
    var t := Evicted(s, pid, gone);
    forall p ensures SizeOk(RetainedOf(t, p), t.polls) {
      EvictedRetained(s, pid, gone, p);
      assert SizeOk(RetainedOf(s, p), s.polls);
    }
    forall k ensures RingOk(t, k) {
      EvictedRetained(s, pid, gone, k.pid);
      assert RingOk(s, k);
    }
    forall b ensures BoundOk(t, b) {
      EvictedRetained(s, pid, gone, b.0);
      assert BoundOk(s, b);
    }
  }

  lemma {:induction false} ApplyBounded(s: CursorState, e: Event)
    requires Bounded(s)
    ensures Bounded(Apply(s, e))
  {
    match e
    case Polled(pid, records) =>
      NextPollBounded(s);
      FoldBounded(s.(polls := s.polls + 1), pid, Candidates(records));
    case Died(pid) =>
      EvictedBounded(s, pid, RetireAll(s.rings, s.evictions, InOrder(PidKeys(s.rings, pid))));
  }

  /** Every run keeps the bound, at every point of it. */
  lemma {:induction false} RunBounded(s: CursorState, es: seq<Event>)
    requires Bounded(s)
    ensures Bounded(Run(s, es))
    decreases |es|
  {
    if es != [] {
      ApplyBounded(s, es[0]);
      RunBounded(Apply(s, es[0]), es[1..]);
    }
  }

  // ---- who keeps an accumulator -----------------------------------------------

  /** `interpreter` is in every poll of `pid`, and no two consecutive ones name more than the bound. */
  ghost predicate Steady(pid: int, interpreter: int, es: seq<Event>, before: set<int>)
    decreases |es|
  {
    es == [] ||
    (match es[0]
     case Polled(p, records) =>
       if p != pid then Steady(pid, interpreter, es[1..], before)
       else
         && interpreter in Named(records)
         && |before + Named(records)| <= MAX_RETAINED_INTERPRETERS
         && Steady(pid, interpreter, es[1..], Named(records))
     case Died(p) => p != pid && Steady(pid, interpreter, es[1..], before))
  }

  lemma {:induction false} FoldAllKeepsFirst(o: RingObservation, rs: seq<Record>)
    requires !o.IsEmpty()
    ensures FoldAll(o, rs).first == o.first && !FoldAll(o, rs).IsEmpty()
    ensures FoldAll(o, rs).sampled == o.sampled + |rs|
    decreases |rs|
  {
    if rs != [] { FoldAllKeepsFirst(o.Fold(rs[0]), rs[1..]); }
  }

  lemma CandidateNames(records: seq<Record>)
    ensures Named(Candidates(records)) == Named(records)
  {
    RingOrderTotal();
    SortSorts(RingOrder, records);
  }

  /** One poll of a steady interpreter: it survives, and the hypothesis holds of the next poll. */
  lemma {:induction false} SteadyPoll(s: CursorState, pid: int, records: seq<Record>, since: int, before: set<int>, interpreter: int)
    requires Bounded(s) && since <= s.polls
    requires RecentIn(s, pid, since, before) && SeenSince(s, pid, since, interpreter)
    requires interpreter in Named(records) && |before + Named(records)| <= MAX_RETAINED_INTERPRETERS
    ensures NeverDrops(s.(polls := s.polls + 1), pid, Candidates(records), interpreter)
    ensures var t := Admit(s, pid, records).0;
      && t.polls == s.polls + 1
      && RecentIn(t, pid, t.polls, Named(records)) && SeenSince(t, pid, t.polls, interpreter)
  {
    var start := s.(polls := s.polls + 1);
    var cands := Candidates(records);
    CandidateNames(records);
    assert RetainedOf(start, pid) == RetainedOf(s, pid);
    Subset(Named(records), before + Named(records));
    FoldRetains(start, pid, cands, since, before + Named(records), interpreter);
    FoldSeesNames(start, pid, cands, Named(records));
    FoldMarks(start, pid, cands, Named(records), interpreter);
  }

  lemma {:induction false} FewNeverDrop(s: CursorState, pid: int, cands: seq<Record>, all: set<int>, interpreter: int)
    requires |all| <= MAX_RETAINED_INTERPRETERS && Named(cands) <= all && RetainedOf(s, pid).Keys <= all
    ensures NeverDrops(s, pid, cands, interpreter)
    ensures RetainedOf(FoldCandidates(s, pid, cands).0, pid).Keys <= all
    decreases |cands|
  {
    if cands != [] {
      var r := cands[0];
      assert r.interpreter in Named(cands);
      if Overflows(s, pid, r.interpreter) {
        Subset(RetainedOf(s, pid).Keys, all - {r.interpreter});
        assert false;
      }
      RetainedAfterRetain(s, pid, r.interpreter);
      var t := Retain(s, pid, r.interpreter);
      OfferKeepsRetained(t, pid, r);
      assert Named(cands[1..]) <= Named(cands);
      FewNeverDrop(Offer(t, pid, r), pid, cands[1..], all, interpreter);
    }
  }

  lemma {:induction false} FewAdmit(s: CursorState, pid: int, cands: seq<Record>, all: set<int>, interpreter: int)
    requires |all| <= MAX_RETAINED_INTERPRETERS && Named(cands) <= all && RetainedOf(s, pid).Keys <= all
    ensures NeverDrops(s, pid, cands, interpreter)
    ensures RetainedOf(AdmitSorted(s, pid, cands).0, pid).Keys <= all
  {
    FewNeverDrop(s, pid, cands, all, interpreter);
  }

  lemma FewNextPoll(s: CursorState, pid: int, cands: seq<Record>, all: set<int>, interpreter: int)
    requires |all| <= MAX_RETAINED_INTERPRETERS && Named(cands) <= all && RetainedOf(s, pid).Keys <= all
    ensures NeverDrops(s.(polls := s.polls + 1), pid, cands, interpreter)
    ensures RetainedOf(AdmitSorted(s.(polls := s.polls + 1), pid, cands).0, pid).Keys <= all
  {
    assert RetainedOf(s.(polls := s.polls + 1), pid) == RetainedOf(s, pid);
    FewAdmit(s.(polls := s.polls + 1), pid, cands, all, interpreter);
  }

  lemma {:induction false} FewStayFew(s: CursorState, pid: int, records: seq<Record>, all: set<int>)
    requires |all| <= MAX_RETAINED_INTERPRETERS && Named(Candidates(records)) <= all && RetainedOf(s, pid).Keys <= all
    ensures RetainedOf(Admit(s, pid, records).0, pid).Keys <= all
  {
    var next, cands := s.(polls := s.polls + 1), Candidates(records);
    FewNextPoll(s, pid, cands, all, 0);
    assert Admit(s, pid, records) == AdmitSorted(next, pid, cands);
  }

  ghost predicate SameRings(s: CursorState, t: CursorState, pid: int) {
    forall k: RingKey :: k.pid == pid ==> ObservationOf(s, k) == ObservationOf(t, k)
  }

  ghost predicate SameBounds(s: CursorState, t: CursorState, pid: int) {
    forall i :: BoundOf(s, pid, i) == BoundOf(t, pid, i)
  }

  /** Two cursors that agree on everything they hold for one process. */
  ghost predicate SameSlice(s: CursorState, t: CursorState, pid: int) {
    && RetainedOf(s, pid) == RetainedOf(t, pid)
    && DroppedOf(s, pid) == DroppedOf(t, pid)
    && SameRings(s, t, pid)
    && SameBounds(s, t, pid)
  }

  lemma RetainFrame(s: CursorState, pid: int, interpreter: int, other: int)
    requires pid != other
    ensures SameSlice(s, Retain(s, pid, interpreter), other)
    ensures Retain(s, pid, interpreter).polls == s.polls
  {}

  lemma OfferFrame(s: CursorState, pid: int, r: Record, other: int)
    requires pid != other
    ensures SameSlice(s, Offer(s, pid, r), other)
    ensures Offer(s, pid, r).polls == s.polls
  {}

  lemma {:induction false} FoldFrame(s: CursorState, pid: int, cands: seq<Record>, other: int)
    requires pid != other
    ensures SameSlice(s, FoldCandidates(s, pid, cands).0, other)
    ensures FoldCandidates(s, pid, cands).0.polls == s.polls
    decreases |cands|
  {
    if cands != [] {
      var t := Retain(s, pid, cands[0].interpreter);
      RetainFrame(s, pid, cands[0].interpreter, other);
      OfferFrame(t, pid, cands[0], other);
      var u := Offer(t, pid, cands[0]);
      FoldFrame(u, pid, cands[1..], other);
      SliceTransitive(s, t, u, other);
      SliceTransitive(s, u, FoldCandidates(u, pid, cands[1..]).0, other);
    }
  }

  lemma EvictedFrame(s: CursorState, pid: int, gone: seq<Retired>, other: int)
    requires pid != other
    ensures SameSlice(s, Evicted(s, pid, gone), other)
  {}

  lemma NextPollFrame(s: CursorState, pid: int)
    ensures SameSlice(s, s.(polls := s.polls + 1), pid)
  {}

  lemma SliceTransitive(s: CursorState, t: CursorState, u: CursorState, pid: int)
    requires SameSlice(s, t, pid) && SameSlice(t, u, pid)
    ensures SameSlice(s, u, pid)
  {
    forall i ensures BoundOf(s, pid, i) == BoundOf(u, pid, i) {
      assert BoundOf(s, pid, i) == BoundOf(t, pid, i);
    }
  }

  /** A poll or a death of one process changes nothing another is cursored on. */
  lemma ApplyFrame(s: CursorState, e: Event, other: int)
    requires e.pid != other
    ensures SameSlice(s, Apply(s, e), other)
    ensures Apply(s, e).polls >= s.polls
  {
    match e
    case Polled(pid, records) =>
      var start := s.(polls := s.polls + 1);
      FoldFrame(start, pid, Candidates(records), other);
      NextPollFrame(s, other);
      SliceTransitive(s, start, FoldCandidates(start, pid, Candidates(records)).0, other);
    case Died(pid) =>
      EvictedFrame(s, pid, RetireAll(s.rings, s.evictions, InOrder(PidKeys(s.rings, pid))), other);
  }

  /**
   An interpreter reported by every poll keeps the totals it opened with, whatever else the run
   does, as long as no two consecutive polls of its process name more than the bound together.
   */
  lemma {:induction false} SteadyKeepsFirst(s: CursorState, es: seq<Event>, key: RingKey, since: int, before: set<int>)
    requires Bounded(s) && since <= s.polls && key in s.rings
    requires RecentIn(s, key.pid, since, before) && SeenSince(s, key.pid, since, key.interpreter)
    requires Steady(key.pid, key.interpreter, es, before)
    ensures key in Run(s, es).rings && Run(s, es).rings[key].first == s.rings[key].first
    decreases |es|
  {
    if es != [] {
      var t := Apply(s, es[0]);
      ApplyBounded(s, es[0]);
      assert RingOk(s, key) && RingOk(t, key);
      if es[0].pid != key.pid {
        ApplyFrame(s, es[0], key.pid);
        assert ObservationOf(t, key) == s.rings[key];
        SteadyKeepsFirst(t, es[1..], key, since, before);
      } else {
        var records := es[0].records;
        SteadyPoll(s, key.pid, records, since, before, key.interpreter);
        AdmitProject(s, key.pid, records, key);
        FoldAllKeepsFirst(s.rings[key], Taken(s, records, key));
        SteadyKeepsFirst(t, es[1..], key, t.polls, Named(records));
      }
    }
  }

  // ---- forgetting ---------------------------------------------------------------

  lemma RetainLocal(s: CursorState, t: CursorState, pid: int, interpreter: int)
    requires SameSlice(s, t, pid) && s.polls == t.polls
    ensures SameSlice(Retain(s, pid, interpreter), Retain(t, pid, interpreter), pid)
    ensures Retain(s, pid, interpreter).polls == Retain(t, pid, interpreter).polls
  {
    RetainCountsLocal(s, t, pid, interpreter);
    RetainRingsLocal(s, t, pid, interpreter);
    RetainBoundsLocal(s, t, pid, interpreter);
  }

  lemma RetainCountsLocal(s: CursorState, t: CursorState, pid: int, interpreter: int)
    requires RetainedOf(s, pid) == RetainedOf(t, pid) && DroppedOf(s, pid) == DroppedOf(t, pid) && s.polls == t.polls
    ensures var s1, t1 := Retain(s, pid, interpreter), Retain(t, pid, interpreter);
      RetainedOf(s1, pid) == RetainedOf(t1, pid) && DroppedOf(s1, pid) == DroppedOf(t1, pid) && s1.polls == t1.polls
  {}

  lemma RetainRingsLocal(s: CursorState, t: CursorState, pid: int, interpreter: int)
    requires SameRings(s, t, pid) && RetainedOf(s, pid) == RetainedOf(t, pid)
    ensures SameRings(Retain(s, pid, interpreter), Retain(t, pid, interpreter), pid)
  {
    var s1, t1 := Retain(s, pid, interpreter), Retain(t, pid, interpreter);
    forall k: RingKey | k.pid == pid ensures ObservationOf(s1, k) == ObservationOf(t1, k) {
      assert ObservationOf(s, k) == ObservationOf(t, k);
    }
  }

  lemma RetainBoundsLocal(s: CursorState, t: CursorState, pid: int, interpreter: int)
    requires SameBounds(s, t, pid) && RetainedOf(s, pid) == RetainedOf(t, pid)
    ensures SameBounds(Retain(s, pid, interpreter), Retain(t, pid, interpreter), pid)
  {
    var s1, t1 := Retain(s, pid, interpreter), Retain(t, pid, interpreter);
    forall i ensures BoundOf(s1, pid, i) == BoundOf(t1, pid, i) {
      assert BoundOf(s, pid, i) == BoundOf(t, pid, i);
    }
  }

  lemma RaiseLocal(s: CursorState, t: CursorState, pid: int, interpreter: int, moment: int)
    requires SameSlice(s, t, pid) && s.polls == t.polls
    ensures SameSlice(Raise(s, pid, interpreter, moment), Raise(t, pid, interpreter, moment), pid)
  {
    var s1, t1 := Raise(s, pid, interpreter, moment), Raise(t, pid, interpreter, moment);
    assert BoundOf(s, pid, interpreter) == BoundOf(t, pid, interpreter);
    forall i ensures BoundOf(s1, pid, i) == BoundOf(t1, pid, i) {
      assert BoundOf(s, pid, i) == BoundOf(t, pid, i);
    }
    forall k: RingKey | k.pid == pid ensures ObservationOf(s1, k) == ObservationOf(t1, k) {
      assert ObservationOf(s, k) == ObservationOf(t, k);
    }
  }

  lemma StoreLocal(s: CursorState, t: CursorState, key: RingKey, o: RingObservation)
    requires SameSlice(s, t, key.pid)
    ensures SameSlice(s.(rings := s.rings[key := o]), t.(rings := t.rings[key := o]), key.pid)
  {
    var s1, t1 := s.(rings := s.rings[key := o]), t.(rings := t.rings[key := o]);
    forall i ensures BoundOf(s1, key.pid, i) == BoundOf(t1, key.pid, i) {
      assert BoundOf(s, key.pid, i) == BoundOf(t, key.pid, i);
    }
    forall k: RingKey | k.pid == key.pid ensures ObservationOf(s1, k) == ObservationOf(t1, k) {
      assert ObservationOf(s, k) == ObservationOf(t, k);
    }
  }

  lemma OfferLocal(s: CursorState, t: CursorState, pid: int, r: Record)
    requires SameSlice(s, t, pid) && s.polls == t.polls
    ensures SameSlice(Offer(s, pid, r), Offer(t, pid, r), pid)
    ensures Offer(s, pid, r).polls == Offer(t, pid, r).polls
  {
    var key := KeyOf(pid, r);
    var o := ObservationOf(s, key);
    assert key.pid == pid && ObservationOf(t, key) == o;
    if !r.IsComplete() {
      RaiseLocal(s, t, pid, r.interpreter, r.tsStart);
    } else if Takes(o, r) {
      StoreLocal(s, t, key, o.Fold(r));
      RaiseLocal(s.(rings := s.rings[key := o.Fold(r)]), t.(rings := t.rings[key := o.Fold(r)]), pid, r.interpreter, r.tsStop);
    }
  }

  /** What a process's polls return depends on nothing but that process's own slice. */
  lemma {:induction false} FoldLocal(s: CursorState, t: CursorState, pid: int, cands: seq<Record>)
    requires SameSlice(s, t, pid) && s.polls == t.polls
    ensures FoldCandidates(s, pid, cands).1 == FoldCandidates(t, pid, cands).1
    ensures SameSlice(FoldCandidates(s, pid, cands).0, FoldCandidates(t, pid, cands).0, pid)
    decreases |cands|
  {
    if cands != [] {
      var r := cands[0];
      RetainLocal(s, t, pid, r.interpreter);
      var s1, t1 := Retain(s, pid, r.interpreter), Retain(t, pid, r.interpreter);
      OfferLocal(s1, t1, pid, r);
      assert KeyOf(pid, r).pid == pid;
      assert ObservationOf(s1, KeyOf(pid, r)) == ObservationOf(t1, KeyOf(pid, r));
      FoldLocal(Offer(s1, pid, r), Offer(t1, pid, r), pid, cands[1..]);
    }
  }

  lemma SliceSymmetric(s: CursorState, t: CursorState, pid: int)
    requires SameSlice(s, t, pid)
    ensures SameSlice(t, s, pid)
  {
    forall i ensures BoundOf(t, pid, i) == BoundOf(s, pid, i) {}
  }

  lemma NextPollLocal(s: CursorState, t: CursorState, pid: int)
    requires SameSlice(s, t, pid)
    ensures SameSlice(s.(polls := s.polls + 1), t.(polls := t.polls + 1), pid)
  {
    NextPollFrame(s, pid);
    NextPollFrame(t, pid);
    SliceSymmetric(s, s.(polls := s.polls + 1), pid);
    SliceTransitive(s.(polls := s.polls + 1), s, t, pid);
    SliceTransitive(s.(polls := s.polls + 1), t, t.(polls := t.polls + 1), pid);
  }

  /** A poll of `pid` returns the same, and leaves the same of it, whatever else the two cursors hold. */
  lemma AdmitLocal(s: CursorState, t: CursorState, pid: int, records: seq<Record>)
    requires SameSlice(s, t, pid) && s.polls == t.polls
    ensures Admit(s, pid, records).1 == Admit(t, pid, records).1
    ensures SameSlice(Admit(s, pid, records).0, Admit(t, pid, records).0, pid)
  {
    var s1, t1, cands := s.(polls := s.polls + 1), t.(polls := t.polls + 1), Candidates(records);
    NextPollLocal(s, t, pid);
    AdmitSortedLocal(s1, t1, pid, cands);
    assert Admit(s, pid, records) == AdmitSorted(s1, pid, cands);
    assert Admit(t, pid, records) == AdmitSorted(t1, pid, cands);
  }

  lemma AdmitSortedLocal(s: CursorState, t: CursorState, pid: int, cands: seq<Record>)
    requires SameSlice(s, t, pid) && s.polls == t.polls
    ensures AdmitSorted(s, pid, cands).1 == AdmitSorted(t, pid, cands).1
    ensures SameSlice(AdmitSorted(s, pid, cands).0, AdmitSorted(t, pid, cands).0, pid)
  {
    FoldLocal(s, t, pid, cands);
  }

  lemma {:induction false} FoldPolls(s: CursorState, pid: int, cands: seq<Record>)
    ensures FoldCandidates(s, pid, cands).0.polls == s.polls
    decreases |cands|
  {
    if cands != [] {
      RetainedAfterRetain(s, pid, cands[0].interpreter);
      OfferKeepsRetained(Retain(s, pid, cands[0].interpreter), pid, cands[0]);
      FoldPolls(Offer(Retain(s, pid, cands[0].interpreter), pid, cands[0]), pid, cands[1..]);
    }
  }

  lemma {:induction false} ApplyPolls(s: CursorState, e: Event)
    ensures Apply(s, e).polls == s.polls + (if e.Polled? then 1 else 0)
  {
    if e.Polled? { FoldPolls(s.(polls := s.polls + 1), e.pid, Candidates(e.records)); }
  }

  lemma EvictedIsEmpty(s: CursorState, pid: int, gone: seq<Retired>, t: CursorState)
    requires RetainedOf(t, pid) == map[] && DroppedOf(t, pid) == 0
    requires (forall k: RingKey :: k.pid == pid ==> ObservationOf(t, k) == UNREAD) && (forall i :: BoundOf(t, pid, i) == None)
    ensures SameSlice(Evicted(s, pid, gone), t, pid)
  {}

  lemma ForgetIsNew(s: CursorState, pid: int, polls: int)
    ensures SameSlice(Forget(s, pid), NEW.(polls := polls), pid)
  {
    EvictedIsEmpty(s, pid, RetireAll(s.rings, s.evictions, InOrder(PidKeys(s.rings, pid))), NEW.(polls := polls));
  }

  lemma ForgetsAlike(s: CursorState, t: CursorState, pid: int)
    ensures SameSlice(Forget(s, pid), Forget(t, pid), pid)
  {
    ForgetIsNew(s, pid, 0);
    ForgetIsNew(t, pid, 0);
    SliceSymmetric(Forget(t, pid), NEW.(polls := 0), pid);
    SliceTransitive(Forget(s, pid), NEW.(polls := 0), Forget(t, pid), pid);
  }

  lemma ElsewhereLocal(s: CursorState, t: CursorState, e: Event, pid: int)
    requires SameSlice(s, t, pid) && e.pid != pid
    ensures SameSlice(Apply(s, e), Apply(t, e), pid)
  {
    ApplyFrame(s, e, pid);
    ApplyFrame(t, e, pid);
    SliceSymmetric(s, Apply(s, e), pid);
    SliceTransitive(Apply(s, e), s, t, pid);
    SliceTransitive(Apply(s, e), t, Apply(t, e), pid);
  }

  lemma ApplyLocal(s: CursorState, t: CursorState, e: Event, pid: int)
    requires SameSlice(s, t, pid) && s.polls == t.polls
    ensures SameSlice(Apply(s, e), Apply(t, e), pid) && Apply(s, e).polls == Apply(t, e).polls
  {
    ApplyPolls(s, e);
    ApplyPolls(t, e);
    if e.pid != pid {
      ElsewhereLocal(s, t, e, pid);
    } else if e.Polled? {
      AdmitLocal(s, t, pid, e.records);
    } else {
      ForgetsAlike(s, t, pid);
    }
  }

  /** What each poll of `pid` returns, over a run. */
  ghost function Heard(s: CursorState, pid: int, es: seq<Event>): seq<seq<Record>>
    decreases |es|
  {
    if es == [] then []
    else
      (if es[0].Polled? && es[0].pid == pid then [Admit(s, pid, es[0].records).1] else [])
      + Heard(Apply(s, es[0]), pid, es[1..])
  }

  /** What is heard of a process depends on nothing but that process's own slice, however long the run. */
  lemma {:induction false} RunLocal(s: CursorState, t: CursorState, pid: int, es: seq<Event>)
    requires SameSlice(s, t, pid) && s.polls == t.polls
    ensures Heard(s, pid, es) == Heard(t, pid, es) && SameSlice(Run(s, es), Run(t, es), pid)
    decreases |es|
  {
    if es != [] {
      if es[0].Polled? && es[0].pid == pid { AdmitLocal(s, t, pid, es[0].records); }
      ApplyLocal(s, t, es[0], pid);
      RunLocal(Apply(s, es[0]), Apply(t, es[0]), pid, es[1..]);
    }
  }

  /**
   After its process died, a recycled PID is read exactly as a cursor that never saw it would read
   it: every poll of it, on every run from there, returns the same.
   */
  lemma {:induction false} ForgetIsFresh(s: CursorState, pid: int, es: seq<Event>)
    ensures Heard(Forget(s, pid), pid, es) == Heard(NEW.(polls := s.polls), pid, es)
    ensures SameSlice(Run(Forget(s, pid), es), Run(NEW.(polls := s.polls), es), pid)
  {
    ForgetIsNew(s, pid, s.polls);
    RunLocal(Forget(s, pid), NEW.(polls := s.polls), pid, es);
  }
}
