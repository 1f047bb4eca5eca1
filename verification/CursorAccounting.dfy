/**
 Conservation: over any run, the Records counted by the accumulators an observer can list, live
 and retired, and those eviction destroyed, add up to the Records ever returned.
 */
module CursorAccounting {
  import opened Prelude
  import opened Records
  import opened StableSort
  import opened Observation
  import opened Cursors
  import opened CursorRuns

  /** Live rings sort after every retired span. */
  const LIVE_SPAN: nat := 0xffff_ffff_ffff_ffff

  /** Process, interpreter, observation span, generation. */
  predicate SpanOrder(a: Retired, b: Retired) {
    || a.key.pid < b.key.pid
    || (a.key.pid == b.key.pid &&
        (a.key.interpreter < b.key.interpreter ||
         (a.key.interpreter == b.key.interpreter &&
          (a.span < b.span ||
           (a.span == b.span && a.key.generation <= b.key.generation)))))
  }

  /** The retired and the live accumulators together, sorted for the summary. */
  ghost function Observations(s: CursorState): seq<Retired> {
    Sort(SpanOrder, s.retired + RetireAll(s.rings, LIVE_SPAN, InOrder(s.rings.Keys)))
  }

  function SampledOf(r: Retired): int { r.observation.sampled }

  // ---- sums over a map ----------------------------------------------------------

  ghost function Total(m: map<RingKey, RingObservation>): nat
    decreases |m|
  {
    if m.Keys == {} then 0
    else
      var k :| k in m.Keys;
      m[k].sampled + Total(m - {k})
  }

  lemma {:induction false} TotalPick(m: map<RingKey, RingObservation>, k: RingKey)
    requires k in m
    ensures Total(m) == m[k].sampled + Total(m - {k})
    decreases |m|
  {
    var c :| c in m.Keys && Total(m) == m[c].sampled + Total(m - {c});
    if c != k {
      TotalPick(m - {c}, k);
      TotalPick(m - {k}, c);
      assert m - {c} - {k} == m - {k} - {c};
    }
  }

  lemma TotalUpdate(m: map<RingKey, RingObservation>, k: RingKey, o: RingObservation)
    ensures Total(m[k := o]) == Total(m) - (if k in m then m[k].sampled else 0) + o.sampled
  {
    TotalPick(m[k := o], k);
    assert m[k := o] - {k} == m - {k};
    if k in m { TotalPick(m, k); } else { assert m - {k} == m; }
  }

  lemma DropTwice(m: map<RingKey, RingObservation>, a: map<RingKey, RingObservation>, k: RingKey)
    requires k in a
    ensures (m - {k}) - (a - {k}).Keys == m - a.Keys
  {
    assert (a - {k}).Keys == a.Keys - {k};
    var x, y := (m - {k}) - (a - {k}).Keys, m - a.Keys;
    assert x.Keys == y.Keys;
    forall j | j in x.Keys ensures x[j] == y[j] {}
  }

  lemma {:induction false} TotalSplit(m: map<RingKey, RingObservation>, a: map<RingKey, RingObservation>)
    requires forall k :: k in a ==> k in m && a[k] == m[k]
    ensures Total(m) == Total(a) + Total(m - a.Keys)
    decreases |a|
  {
    if a.Keys == {} {
      assert m - a.Keys == m;
    } else {
      var k :| k in a.Keys;
      TotalPick(m, k);
      TotalPick(a, k);
      TotalSplit(m - {k}, a - {k});
      DropTwice(m, a, k);
    }
  }

  function OfInterpreter(rings: map<RingKey, RingObservation>, pid: int, interpreter: int): map<RingKey, RingObservation> {
    map k | k in rings && k.pid == pid && k.interpreter == interpreter :: rings[k]
  }

  lemma {:induction false} TotalWithout(rings: map<RingKey, RingObservation>, pid: int, interpreter: int)
    ensures Total(rings) == Total(RingsWithout(rings, pid, interpreter)) + Total(OfInterpreter(rings, pid, interpreter))
  {
    TotalSplit(rings, OfInterpreter(rings, pid, interpreter));
    assert rings - OfInterpreter(rings, pid, interpreter).Keys == RingsWithout(rings, pid, interpreter);
  }

  // ---- what one poll moves ------------------------------------------------------

  /** Records whose count goes when naming `interpreter` makes room for it. */
  ghost function DroppedBy(s: CursorState, pid: int, interpreter: int): nat {
    if Overflows(s, pid, interpreter)
    then Total(OfInterpreter(s.rings, pid, Stalest(RetainedOf(s, pid)))) else 0
  }

  ghost function DestroyedByFold(s: CursorState, pid: int, cands: seq<Record>): nat
    decreases |cands|
  {
    if cands == [] then 0
    else
      var r := cands[0];
      DroppedBy(s, pid, r.interpreter) + DestroyedByFold(Offer(Retain(s, pid, r.interpreter), pid, r), pid, cands[1..])
  }

  lemma RetainConserves(s: CursorState, pid: int, interpreter: int)
    ensures Total(Retain(s, pid, interpreter).rings) + DroppedBy(s, pid, interpreter) == Total(s.rings)
    ensures Retain(s, pid, interpreter).retired == s.retired
  {
    if Overflows(s, pid, interpreter) {
      TotalWithout(s.rings, pid, Stalest(RetainedOf(s, pid)));
    }
  }

  lemma OfferConserves(s: CursorState, pid: int, r: Record)
    ensures Total(Offer(s, pid, r).rings) == Total(s.rings) + (if Takes(ObservationOf(s, KeyOf(pid, r)), r) then 1 else 0)
    ensures Offer(s, pid, r).retired == s.retired
  {
    var key := KeyOf(pid, r);
    var o := ObservationOf(s, key);
    if Takes(o, r) { TotalUpdate(s.rings, key, o.Fold(r)); }
  }

  lemma {:induction false} FoldConserves(s: CursorState, pid: int, cands: seq<Record>)
    ensures Total(FoldCandidates(s, pid, cands).0.rings) + DestroyedByFold(s, pid, cands)
         == Total(s.rings) + |FoldCandidates(s, pid, cands).1|
    ensures FoldCandidates(s, pid, cands).0.retired == s.retired
    decreases |cands|
  {
    if cands != [] {
      var r := cands[0];
      RetainConserves(s, pid, r.interpreter);
      OfferConserves(Retain(s, pid, r.interpreter), pid, r);
      FoldConserves(Offer(Retain(s, pid, r.interpreter), pid, r), pid, cands[1..]);
    }
  }

  lemma {:induction false} SortLength<T>(leq: (T, T) -> bool, s: seq<T>)
    ensures |Sort(leq, s)| == |s|
  {
    SortElements(leq, s);
    assert |multiset(Sort(leq, s))| == |multiset(s)|;
  }

  /** Retiring a process moves its counts across, whole. */
  lemma {:induction false} RetireSum(
    rings: map<RingKey, RingObservation>, span: nat, keys: set<RingKey>, picked: map<RingKey, RingObservation>)
    requires keys <= rings.Keys && picked.Keys == keys
    requires forall k :: k in keys ==> picked[k] == rings[k]
    ensures SumBy(SampledOf, RetireAll(rings, span, InOrder(keys))) == Total(picked)
    decreases |keys|
  {
    if keys != {} {
      LeastKeyExists(keys);
      var order := InOrder(keys);
      var k := order[0];
      assert order[1..] == InOrder(keys - {k});
      TotalPick(picked, k);
      RetireSum(rings, span, keys - {k}, picked - {k});
      assert RetireAll(rings, span, order)[1..] == RetireAll(rings, span, order[1..]);
    }
  }

  lemma {:induction false} ForgetConserves(s: CursorState, pid: int)
    ensures Total(Forget(s, pid).rings) + SumBy(SampledOf, Forget(s, pid).retired)
         == Total(s.rings) + SumBy(SampledOf, s.retired)
  {
    var keys := PidKeys(s.rings, pid);
    var picked := map k | k in keys :: s.rings[k];
    TotalSplit(s.rings, picked);
    assert s.rings - picked.Keys == RingsOfOthers(s.rings, pid);
    RetireSum(s.rings, s.evictions, keys, picked);
    SumByConcat(SampledOf, s.retired, RetireAll(s.rings, s.evictions, InOrder(keys)));
  }

  // ---- what an observer lists -----------------------------------------------------

  lemma {:induction false} SumInsert<T>(f: T -> int, leq: (T, T) -> bool, x: T, s: seq<T>)
    ensures SumBy(f, Insert(leq, x, s)) == f(x) + SumBy(f, s)
  {
    if s == [] {
      assert [x][1..] == [];
    } else if leq(x, s[0]) {
      assert ([x] + s)[1..] == s;
    } else {
      SumInsert(f, leq, x, s[1..]);
      assert ([s[0]] + Insert(leq, x, s[1..]))[1..] == Insert(leq, x, s[1..]);
    }
  }

  lemma {:induction false} SumSort<T>(f: T -> int, leq: (T, T) -> bool, s: seq<T>)
    ensures SumBy(f, Sort(leq, s)) == SumBy(f, s)
  {
    if s != [] {
      SumSort(f, leq, s[1..]);
      SumInsert(f, leq, s[0], Sort(leq, s[1..]));
    }
  }

  lemma {:induction false} ObservationsSum(s: CursorState)
    ensures SumBy(SampledOf, Observations(s)) == Total(s.rings) + SumBy(SampledOf, s.retired)
  {
    var live := RetireAll(s.rings, LIVE_SPAN, InOrder(s.rings.Keys));
    SumSort(SampledOf, SpanOrder, s.retired + live);
    SumByConcat(SampledOf, s.retired, live);
    RetireSum(s.rings, LIVE_SPAN, s.rings.Keys, s.rings);
  }

  // ---- over a run -------------------------------------------------------------------

  ghost function ReturnedBy(s: CursorState, e: Event): nat {
    if e.Polled? then |Admit(s, e.pid, e.records).1| else 0
  }

  ghost function DestroyedByPoll(s: CursorState, pid: int, records: seq<Record>): nat {
    DestroyedByFold(s.(polls := s.polls + 1), pid, Candidates(records))
  }

  ghost function DestroyedBy(s: CursorState, e: Event): nat {
    if e.Polled? then DestroyedByPoll(s, e.pid, e.records) else 0
  }

  /** What a cursor still counts. */
  ghost function Counted(s: CursorState): int { Total(s.rings) + SumBy(SampledOf, s.retired) }

  /** How many Records a run returned. */
  ghost function Returned(s: CursorState, es: seq<Event>): nat
    decreases |es|
  {
    if es == [] then 0 else ReturnedBy(s, es[0]) + Returned(Apply(s, es[0]), es[1..])
  }

  /** How many of them are no longer counted anywhere, their accumulator evicted for room. */
  ghost function Destroyed(s: CursorState, es: seq<Event>): nat
    decreases |es|
  {
    if es == [] then 0 else DestroyedBy(s, es[0]) + Destroyed(Apply(s, es[0]), es[1..])
  }

  lemma {:induction false} AdmitConserves(s: CursorState, pid: int, cands: seq<Record>)
    ensures var t := AdmitSorted(s, pid, cands);
      && Total(t.0.rings) + DestroyedByFold(s, pid, cands) == Total(s.rings) + |t.1|
      && t.0.retired == s.retired
  {
    FoldConserves(s, pid, cands);
    SortLength(StartOrder, FoldCandidates(s, pid, cands).1);
  }

  lemma PollConserves(s: CursorState, pid: int, records: seq<Record>)
    ensures Counted(Admit(s, pid, records).0) + DestroyedByPoll(s, pid, records) == Counted(s) + |Admit(s, pid, records).1|
  {
    AdmitConserves(s.(polls := s.polls + 1), pid, Candidates(records));
  }

  lemma PolledConserves(s: CursorState, e: Event)
    requires e.Polled?
    ensures Counted(Apply(s, e)) + DestroyedBy(s, e) == Counted(s) + ReturnedBy(s, e)
  {
    PollConserves(s, e.pid, e.records);
  }

  lemma DiedConserves(s: CursorState, e: Event)
    requires e.Died?
    ensures Counted(Apply(s, e)) + DestroyedBy(s, e) == Counted(s) + ReturnedBy(s, e)
  {
    ForgetConserves(s, e.pid);
  }

  lemma ApplyConserves(s: CursorState, e: Event)
    ensures Counted(Apply(s, e)) + DestroyedBy(s, e) == Counted(s) + ReturnedBy(s, e)
  {
    if e.Polled? { PolledConserves(s, e); } else { DiedConserves(s, e); }
  }

  lemma {:induction false} RunConserves(s: CursorState, es: seq<Event>)
    ensures SumBy(SampledOf, Observations(Run(s, es))) + Destroyed(s, es)
         == SumBy(SampledOf, Observations(s)) + Returned(s, es)
    decreases |es|
  {
    ObservationsSum(s);
    if es != [] {
      ApplyConserves(s, es[0]);
      RunConserves(Apply(s, es[0]), es[1..]);
      ObservationsSum(Apply(s, es[0]));
    }
  }

  /** From a new cursor, every Record ever returned is listed once or was evicted for room. */
  lemma {:induction false} Conservation(es: seq<Event>)
    ensures SumBy(SampledOf, Observations(Run(NEW, es))) + Destroyed(NEW, es) == Returned(NEW, es)
  {
    RunConserves(NEW, es);
    ObservationsSum(NEW);
  }
}
