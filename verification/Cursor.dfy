/**
 The dedup state of the monitor and the per-ring totals that ride on it.
 `CursorState` and the functions over it say what each operation does to the whole cursor;
 the class carries the same operations out on its fields.
 */
module Cursors {
  import opened Prelude
  import opened Records
  import opened StableSort
  import opened Observation

  /** The bound on the interpreters remembered for a process. */
  const MAX_RETAINED_INTERPRETERS: nat := 1024

  datatype Retired = Retired(key: RingKey, span: nat, observation: RingObservation)

  datatype CursorState = CursorState(
    rings: map<RingKey, RingObservation>,
    retired: seq<Retired>,
    evictions: nat,
    lastCertainty: map<(int, int), int>,
    retained: map<int, map<int, int>>,
    dropped: map<int, int>,
    polls: int)

  const NEW := CursorState(map[], [], 0, map[], map[], map[], 0)

  function ObservationOf(s: CursorState, key: RingKey): RingObservation {
    if key in s.rings then s.rings[key] else UNREAD
  }

  function SeenOf(retained: map<int, map<int, int>>, pid: int): map<int, int> {
    if pid in retained then retained[pid] else map[]
  }

  function RetainedOf(s: CursorState, pid: int): map<int, int> {
    SeenOf(s.retained, pid)
  }

  function DroppedOf(s: CursorState, pid: int): int {
    if pid in s.dropped then s.dropped[pid] else 0
  }

  // ---- retention ------------------------------------------------------------

  /** Least recently seen first, ties to the smaller id. */
  ghost predicate IsStalest(m: map<int, int>, id: int) {
    && id in m
    && forall j :: j in m ==> m[id] < m[j] || (m[id] == m[j] && id <= j)
  }

  lemma {:induction false} StalestExists(m: map<int, int>)
    requires m != map[]
    ensures exists id :: IsStalest(m, id)
    decreases |m|
  {
    var x := Witness(m.Keys);
    var rest := m - {x};
    assert forall j :: j in m ==> j == x || (j in rest && rest[j] == m[j]);
    if rest == map[] {
      assert IsStalest(m, x);
    } else {
      StalestExists(rest);
      var y :| IsStalest(rest, y);
      assert IsStalest(m, if m[x] < m[y] || (m[x] == m[y] && x <= y) then x else y);
    }
  }

  ghost function Stalest(m: map<int, int>): (id: int)
    requires m != map[]
    ensures IsStalest(m, id)
  {
    StalestExists(m);
    var id :| IsStalest(m, id);
    id
  }

  lemma StalestUnique(m: map<int, int>, a: int, b: int)
    requires IsStalest(m, a) && IsStalest(m, b)
    ensures a == b
  {}

  /** Whether naming `interpreter` at this poll destroys the accumulators of another. */
  predicate Overflows(s: CursorState, pid: int, interpreter: int) {
    && interpreter !in RetainedOf(s, pid)
    && |RetainedOf(s, pid)| >= MAX_RETAINED_INTERPRETERS
  }

  function RingsWithout(rings: map<RingKey, RingObservation>, pid: int, interpreter: int): map<RingKey, RingObservation> {
    map k | k in rings && !(k.pid == pid && k.interpreter == interpreter) :: rings[k]
  }

  function WithoutInterpreter(s: CursorState, pid: int, interpreter: int): CursorState {
    s.(rings := RingsWithout(s.rings, pid, interpreter), lastCertainty := s.lastCertainty - {(pid, interpreter)})
  }

  /** Refresh `interpreter`, or let it in; with no room left the stalest has to go. */
  ghost function Retain(s: CursorState, pid: int, interpreter: int): CursorState {
    var m := RetainedOf(s, pid);
    if !Overflows(s, pid, interpreter) then
      s.(retained := s.retained[pid := m[interpreter := s.polls]])
    else
      var stalest := Stalest(m);
      var t := s.(retained := s.retained[pid := (m - {stalest})[interpreter := s.polls]]);
      WithoutInterpreter(t, pid, stalest).(dropped := s.dropped[pid := DroppedOf(s, pid) + 1])
  }

  /** Raise the interpreter's certainty bound. A non-positive moment is no evidence. */
  function Raise(s: CursorState, pid: int, interpreter: int, moment: int): CursorState {
    if moment <= 0 then s
    else
      var k := (pid, interpreter);
      s.(lastCertainty := s.lastCertainty[k :=
           if k in s.lastCertainty then Max(s.lastCertainty[k], moment) else moment])
  }

  // ---- admission ------------------------------------------------------------

  /** Offer the cursor one candidate, its interpreter already retained. */
  function Offer(s: CursorState, pid: int, r: Record): CursorState {
    var key := KeyOf(pid, r);
    if !r.IsComplete() then Raise(s, pid, r.interpreter, r.tsStart)
    else if !Takes(ObservationOf(s, key), r) then s
    else Raise(s.(rings := s.rings[key := ObservationOf(s, key).Fold(r)]), pid, r.interpreter, r.tsStop)
  }

  /** Fold candidates in order: the cursor after, and the Records taken, in fold order. */
  ghost function FoldCandidates(s: CursorState, pid: int, cands: seq<Record>): (CursorState, seq<Record>)
    decreases |cands|
  {
    if cands == [] then (s, [])
    else
      var r := cands[0];
      var t := Retain(s, pid, r.interpreter);
      var rest := FoldCandidates(Offer(t, pid, r), pid, cands[1..]);
      (rest.0, (if Takes(ObservationOf(t, KeyOf(pid, r)), r) then [r] else []) + rest.1)
  }

  /** `whole` is what `rest` becomes once the Records already taken are put in front. */
  ghost predicate Extends(whole: (CursorState, seq<Record>), taken: seq<Record>, rest: (CursorState, seq<Record>)) {
    whole.0 == rest.0 && whole.1 == taken + rest.1
  }

  lemma {:induction false} FoldOne(
    s: CursorState, pid: int, cands: seq<Record>, i: nat, whole: (CursorState, seq<Record>), taken: seq<Record>)
    requires i < |cands| && Extends(whole, taken, FoldCandidates(s, pid, cands[i..]))
    ensures var t := Retain(s, pid, cands[i].interpreter);
      var takes := Takes(ObservationOf(t, KeyOf(pid, cands[i])), cands[i]);
      Extends(whole, if takes then taken + [cands[i]] else taken, FoldCandidates(Offer(t, pid, cands[i]), pid, cands[i + 1..]))
  {
    assert cands[i..][0] == cands[i] && cands[i..][1..] == cands[i + 1..];
  }

  function Candidates(records: seq<Record>): seq<Record> {
    Sort(RingOrder, records)
  }

  ghost function AdmitSorted(s: CursorState, pid: int, cands: seq<Record>): (CursorState, seq<Record>) {
    var t := FoldCandidates(s, pid, cands);
    (t.0, Sort(StartOrder, t.1))
  }

  /** One poll: fold in ring order what the rings hold, and hand back the new Records in start order. */
  ghost function Admit(s: CursorState, pid: int, records: seq<Record>): (CursorState, seq<Record>) {
    AdmitSorted(s.(polls := s.polls + 1), pid, Candidates(records))
  }

  // ---- eviction -------------------------------------------------------------

  predicate KeyOrder(a: RingKey, b: RingKey) {
    || a.pid < b.pid
    || (a.pid == b.pid && (a.interpreter < b.interpreter
        || (a.interpreter == b.interpreter && a.generation <= b.generation)))
  }

  ghost predicate IsLeastKey(keys: set<RingKey>, k: RingKey) {
    k in keys && forall j :: j in keys ==> KeyOrder(k, j)
  }

  lemma {:induction false} LeastKeyExists(keys: set<RingKey>)
    requires keys != {}
    ensures exists k :: IsLeastKey(keys, k)
    decreases |keys|
  {
    var x :| x in keys;
    if keys == {x} {
      assert IsLeastKey(keys, x);
    } else {
      LeastKeyExists(keys - {x});
      var y :| IsLeastKey(keys - {x}, y);
      assert forall j :: j in keys ==> j == x || j in keys - {x};
      assert IsLeastKey(keys, if KeyOrder(x, y) then x else y);
    }
  }

  /** The keys of an ordered map, in the order it walks them. */
  ghost function InOrder(keys: set<RingKey>): (r: seq<RingKey>)
    ensures forall k :: k in r <==> k in keys
    ensures |r| == |keys|
    decreases |keys|
  {
    if keys == {} then []
    else
      LeastKeyExists(keys);
      var k :| IsLeastKey(keys, k);
      [k] + InOrder(keys - {k})
  }

  function PidKeys(rings: map<RingKey, RingObservation>, pid: int): set<RingKey> {
    set k | k in rings && k.pid == pid
  }

  /** The retired form of the accumulators named by `keys`. */
  ghost function RetireAll(rings: map<RingKey, RingObservation>, span: nat, keys: seq<RingKey>): (r: seq<Retired>)
    requires forall k :: k in keys ==> k in rings
    ensures |r| == |keys|
    ensures forall i :: 0 <= i < |keys| ==> r[i] == Retired(keys[i], span, rings[keys[i]])
  {
    if keys == [] then []
    else [Retired(keys[0], span, rings[keys[0]])] + RetireAll(rings, span, keys[1..])
  }

  lemma {:induction false} RetireOne(
    rings: map<RingKey, RingObservation>, span: nat, whole: seq<Retired>, gone: seq<Retired>, todo: set<RingKey>, k: RingKey)
    requires IsLeastKey(todo, k) && todo <= rings.Keys
    requires whole == gone + RetireAll(rings, span, InOrder(todo))
    ensures whole == gone + [Retired(k, span, rings[k])] + RetireAll(rings, span, InOrder(todo - {k}))
  {
    var j := InOrder(todo)[0];
    assert KeyOrder(k, j) && KeyOrder(j, k) by {
      LeastKeyExists(todo);
      assert IsLeastKey(todo, j);
    }
    assert InOrder(todo)[1..] == InOrder(todo - {k});
  }

  function RingsOfOthers(rings: map<RingKey, RingObservation>, pid: int): map<RingKey, RingObservation> {
    map k | k in rings && k.pid != pid :: rings[k]
  }

  function BoundsOfOthers(bounds: map<(int, int), int>, pid: int): map<(int, int), int> {
    map k | k in bounds && k.0 != pid :: bounds[k]
  }

  function Evicted(s: CursorState, pid: int, gone: seq<Retired>): CursorState {
    CursorState(RingsOfOthers(s.rings, pid), s.retired + gone, s.evictions + 1,
                BoundsOfOthers(s.lastCertainty, pid), s.retained - {pid}, s.dropped - {pid}, s.polls)
  }

  /** No ring, bound or mark of `pid` is left; its accumulators move to the retired list. */
  ghost function Forget(s: CursorState, pid: int): CursorState {
    Evicted(s, pid, RetireAll(s.rings, s.evictions, InOrder(PidKeys(s.rings, pid))))
  }

  // ---- the cursor in memory ---------------------------------------------------

  class Cursor {
    var rings: map<RingKey, RingObservation>
    var retired: seq<Retired>
    var evictions: nat
    var lastCertainty: map<(int, int), int>
    var retained: map<int, map<int, int>>
    var dropped: map<int, int>
    var polls: int

    ghost function State(): CursorState
      reads this
    {
      CursorState(rings, retired, evictions, lastCertainty, retained, dropped, polls)
    }

    constructor ()
      ensures State() == NEW
    {
      rings, retired, evictions := map[], [], 0;
      lastCertainty, retained, dropped, polls := map[], map[], map[], 0;
    }

    /** Take in what a poll read; what is new comes back in start order. */
    method AdmitRecords(pid: int, records: seq<Record>) returns (unseen: seq<Record>)
      modifies this
      ensures (State(), unseen) == Admit(old(State()), pid, records)
    {
      var candidates := Candidates(records);
      polls := polls + 1;
      assert State() == old(State()).(polls := old(polls) + 1);
      unseen := OfferAll(pid, candidates);
      unseen := Sort(StartOrder, unseen);
    }

    /** Offer the candidates in order and keep the ones taken. */
    method OfferAll(pid: int, candidates: seq<Record>) returns (unseen: seq<Record>)
      modifies this`retained, this`rings, this`lastCertainty, this`dropped
      ensures (State(), unseen) == FoldCandidates(old(State()), pid, candidates)
    {
      unseen := [];
      var i := 0;
      ghost var whole := FoldCandidates(State(), pid, candidates);
      assert candidates[0..] == candidates;
      while i < |candidates|
        invariant 0 <= i <= |candidates|
        invariant Extends(whole, unseen, FoldCandidates(State(), pid, candidates[i..]))
      {
        FoldOne(State(), pid, candidates, i, whole, unseen);
        var taken := OfferRecord(pid, candidates[i]);
        if taken {
          unseen := unseen + [candidates[i]];
        }
        i := i + 1;
      }
      assert candidates[i..] == [];
      assert unseen + [] == unseen;
    }

    /** One candidate: retain its interpreter, then hold it, refuse it, or fold it. */
    method OfferRecord(pid: int, record: Record) returns (taken: bool)
      modifies this`retained, this`rings, this`lastCertainty, this`dropped
      ensures var kept := Retain(old(State()), pid, record.interpreter);
        && State() == Offer(kept, pid, record)
        && taken == Takes(ObservationOf(kept, KeyOf(pid, record)), record)
    {
      RetainInterpreter(pid, record.interpreter);
      taken := false;
      if !record.IsComplete() {
        RaiseCertainty(pid, record.interpreter, record.tsStart);
        return;
      }
      if record.collections <= 0 {
        return;
      }
      var key := KeyOf(pid, record);
      var observation := if key in rings then rings[key] else UNREAD;
      if !observation.Admits(record.collections) {
        return;
      }
      rings := rings[key := observation.Fold(record)];
      RaiseCertainty(pid, record.interpreter, record.tsStop);
      taken := true;
    }

    method RetainInterpreter(pid: int, interpreter: int)
      modifies this`retained, this`rings, this`lastCertainty, this`dropped
      ensures State() == Retain(old(State()), pid, interpreter)
    {
      var kept := SeenOf(retained, pid);
      if interpreter in kept || |kept| < MAX_RETAINED_INTERPRETERS {
        retained := retained[pid := kept[interpreter := polls]];
        return;
      }
      var stalest := FindStalest(kept);
      StalestUnique(kept, stalest, Stalest(kept));
      var others: map<int, int> := kept - {stalest};
      retained := retained[pid := others[interpreter := polls]];
      DropInterpreter(pid, stalest);
      dropped := dropped[pid := (if pid in dropped then dropped[pid] else 0) + 1];
    }

    /** The interpreter seen least recently. */
    method FindStalest(kept: map<int, int>) returns (id: int)
      requires kept != map[]
      ensures IsStalest(kept, id)
    {
      id := Pick(kept.Keys);
      var todo := kept.Keys - {id};
      while todo != {}
        invariant todo <= kept.Keys && id in kept && id !in todo
        invariant forall j :: j in kept && j !in todo ==> kept[id] < kept[j] || (kept[id] == kept[j] && id <= j)
        decreases todo
      {
        var j := Pick(todo);
        todo := todo - {j};
        if kept[j] < kept[id] || (kept[j] == kept[id] && j < id) {
          id := j;
        }
      }
    }

    method DropInterpreter(pid: int, interpreter: int)
      modifies this`rings, this`lastCertainty
      ensures State() == WithoutInterpreter(old(State()), pid, interpreter)
    {
      rings := RingsWithout(rings, pid, interpreter);
      lastCertainty := lastCertainty - {(pid, interpreter)};
    }

    method RaiseCertainty(pid: int, interpreter: int, moment: int)
      modifies this`lastCertainty
      ensures State() == Raise(old(State()), pid, interpreter, moment)
    {
      if moment <= 0 { return; }
      var k := (pid, interpreter);
      lastCertainty := lastCertainty[k :=
        if k in lastCertainty then Max(lastCertainty[k], moment) else moment];
    }

    /** Retire and drop in one call, for a process let go of. */
    method ForgetPid(pid: int)
      modifies this
      ensures State() == Forget(old(State()), pid)
    {
      var gone := Doomed(pid);
      Evict(pid, gone);
    }

    /** Retire `gone` and drop the rest of what `pid` is cursored on. */
    method Evict(pid: int, gone: seq<Retired>)
      modifies this
      ensures State() == Evicted(old(State()), pid, gone)
    {
      retired := retired + gone;
      rings := RingsOfOthers(rings, pid);
      evictions := evictions + 1;
      lastCertainty := BoundsOfOthers(lastCertainty, pid);
      retained := retained - {pid};
      dropped := dropped - {pid};
    }

    /** The accumulators of `pid`, in key order, tagged with the eviction about to retire them. */
    method Doomed(pid: int) returns (gone: seq<Retired>)
      ensures gone == RetireAll(rings, evictions, InOrder(PidKeys(rings, pid)))
    {
      var todo := PidKeys(rings, pid);
      ghost var whole := RetireAll(rings, evictions, InOrder(todo));
      gone := [];
      while todo != {}
        invariant todo <= rings.Keys
        invariant whole == gone + RetireAll(rings, evictions, InOrder(todo))
        decreases todo
      {
        var k := LeastKey(todo);
        RetireOne(rings, evictions, whole, gone, todo, k);
        gone := gone + [Retired(k, evictions, rings[k])];
        todo := todo - {k};
      }
    }

    /** The first key an ordered map walks. */
    method LeastKey(keys: set<RingKey>) returns (k: RingKey)
      requires keys != {}
      ensures IsLeastKey(keys, k)
    {
      k := Pick(keys);
      var todo := keys - {k};
      while todo != {}
        invariant todo <= keys && k in keys && k !in todo
        invariant forall j :: j in keys && j !in todo ==> KeyOrder(k, j)
        decreases todo
      {
        var j := Pick(todo);
        todo := todo - {j};
        if !KeyOrder(k, j) {
          k := j;
        }
      }
    }
  }
}
