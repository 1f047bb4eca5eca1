/**
 The runs that return a Collection twice. Whatever state the rings are caught in, a process let go
 of while it lives has them read again, and so has an interpreter crowded out by more than the
 cursor keeps; and nothing else does.
 */
module MonitorResets {
  import opened Prelude
  import opened Records
  import opened Observation
  import opened Cursors
  import opened CursorLaws
  import opened CursorRuns
  import opened MonitorRun
  import opened MonitorSpans
  import opened MonitorOnce
  import RW = RingWriter

  // ---- putting runs together ------------------------------------------------------------

  lemma {:induction false} PathCons(pid: int, w: World, s: Step, rest: seq<Step>, v: World)
    requires RingsValid(pid, w) && Enabled(pid, w, s) && Path(pid, Take(pid, w, s), rest, v)
    ensures Path(pid, w, [s] + rest, v)
  {
    assert ([s] + rest)[1..] == rest;
  }

  lemma ConcatHead<T>(a: seq<T>, b: seq<T>)
    requires a != []
    ensures a + b == [a[0]] + (a[1..] + b)
  {}

  lemma {:induction false} PathConcat(pid: int, w: World, a: seq<Step>, u: World, b: seq<Step>, v: World)
    requires Path(pid, w, a, u) && Path(pid, u, b, v)
    ensures Path(pid, w, a + b, v)
    decreases |a|
  {
    if a == [] {
      assert a + b == b;
    } else {
      ConcatHead(a, b);
      PathConcat(pid, Take(pid, w, a[0]), a[1..], u, b, v);
      PathCons(pid, w, a[0], a[1..] + b, v);
    }
  }

  lemma {:induction false} PathSnoc(pid: int, w: World, a: seq<Step>, u: World, s: Step)
    requires Path(pid, w, a, u) && RingsValid(pid, u) && Enabled(pid, u, s)
    ensures Path(pid, w, a + [s], Take(pid, u, s))
  {
    assert [s][1..] == [];
    PathConcat(pid, w, a, u, [s], Take(pid, u, s));
  }

  /** A run on which the process is never let go of. */
  ghost predicate Held(pid: int, w: World, steps: seq<Step>, v: World) {
    Path(pid, w, steps, v) && NoLetGo(steps)
  }

  lemma HeldNone(pid: int, w: World)
    ensures Held(pid, w, [], w)
  {}

  lemma HeldSnoc(pid: int, w: World, a: seq<Step>, u: World, s: Step)
    requires Held(pid, w, a, u) && RingsValid(pid, u) && Enabled(pid, u, s) && !s.LetGo?
    ensures Held(pid, w, a + [s], Take(pid, u, s))
  {
    PathSnoc(pid, w, a, u, s);
  }

  lemma HeldConcat(pid: int, w: World, a: seq<Step>, u: World, b: seq<Step>, v: World)
    requires Held(pid, w, a, u) && Held(pid, u, b, v)
    ensures Held(pid, w, a + b, v)
  {
    PathConcat(pid, w, a, u, b, v);
  }

  // ---- a poll of one Entry ----------------------------------------------------------------

  /** The Entry holds a finished Collection. */
  ghost predicate Readable(pid: int, w: World, key: RingKey, entry: nat) {
    && RingsValid(pid, w) && key in w.rings && entry < |w.rings[key].items|
    && ReadEntry(w, key, entry).IsComplete() && ReadEntry(w, key, entry).collections > 0
  }

  function ReadPoll(key: RingKey, entry: nat): seq<Step> { [Read(key, entry), EndPoll] }

  /** Reading one finished Entry of a ring with no accumulator, and ending the poll, returns it. */
  lemma ReadAlone(pid: int, w: World, key: RingKey, entry: nat) returns (v: World)
    requires Readable(pid, w, key, entry) && w.pending == [] && key !in w.cursor.rings
    ensures Held(pid, w, ReadPoll(key, entry), v)
    ensures v == w.(cursor := Admit(w.cursor, pid, [ReadEntry(w, key, entry)]).0, output := w.output + [ReadEntry(w, key, entry)])
  {
    var r := ReadEntry(w, key, entry);
    assert key.pid == pid;
    var u := Take(pid, w, Read(key, entry));
    assert u.pending == [] + [r] == [r];
    AdmitAlone(w.cursor, pid, r);
    v := Take(pid, u, EndPoll);
    HeldNone(pid, w);
    HeldSnoc(pid, w, [], w, Read(key, entry));
    HeldSnoc(pid, w, [] + [Read(key, entry)], u, EndPoll);
    assert [] + [Read(key, entry)] + [EndPoll] == ReadPoll(key, entry);
  }

  lemma AttachedUnread(pid: int, w: World, key: RingKey)
    requires Attached(pid, w) && key.pid == pid
    ensures key !in w.cursor.rings
  {
    assert RingOk(w.cursor, key);
  }

  lemma {:induction false} LetGoUnreads(pid: int, w: World, key: RingKey)
    requires RingsValid(pid, w) && key.pid == pid
    ensures key !in Take(pid, w, LetGo).cursor.rings
  {}

  ghost predicate LetsGoOnce(steps: seq<Step>) {
    exists i :: 0 <= i < |steps| && NoLetGo(steps[..i]) && steps[i].LetGo? && NoLetGo(steps[i + 1..])
  }

  /** A run on which the process is let go of once. */
  ghost predicate LetGoRun(pid: int, w: World, steps: seq<Step>, v: World) {
    Path(pid, w, steps, v) && LetsGoOnce(steps)
  }

  lemma HeldLetGoHeld(pid: int, w: World, a: seq<Step>, u: World, b: seq<Step>, v: World)
    requires Held(pid, w, a, u) && RingsValid(pid, u) && Held(pid, Take(pid, u, LetGo), b, v)
    ensures LetGoRun(pid, w, a + [LetGo] + b, v)
  {
    PathSnoc(pid, w, a, u, LetGo);
    PathConcat(pid, w, a + [LetGo], Take(pid, u, LetGo), b, v);
    OneLetGo(a, b);
  }

  lemma OneLetGo(a: seq<Step>, b: seq<Step>)
    requires NoLetGo(a) && NoLetGo(b)
    ensures LetsGoOnce(a + [LetGo] + b)
  {
    var steps, i := a + [LetGo] + b, |a|;
    assert steps[..i] == a && steps[i + 1..] == b;
    assert NoLetGo(steps[..i]) && steps[i].LetGo?;
  }

  lemma PrependHeld(pid: int, w: World, a: seq<Step>, u: World, b: seq<Step>, v: World) returns (steps: seq<Step>)
    requires Held(pid, w, a, u) && LetGoRun(pid, u, b, v)
    ensures LetGoRun(pid, w, steps, v)
  {
    steps := a + b;
    PathConcat(pid, w, a, u, b, v);
    PrependKeeps(a, b);
  }

  lemma PrependKeeps(a: seq<Step>, b: seq<Step>)
    requires NoLetGo(a) && LetsGoOnce(b)
    ensures LetsGoOnce(a + b)
  {
    var steps := a + b;
    var i :| 0 <= i < |b| && NoLetGo(b[..i]) && b[i].LetGo? && NoLetGo(b[i + 1..]);
    var j := |a| + i;
    assert steps[..j] == a + b[..i] && steps[j + 1..] == b[i + 1..];
    assert NoLetGo(steps[..j]) && steps[j].LetGo?;
  }

  /** A process let go of and taken up again has what its rings still hold returned again. */
  lemma LetGoReadsAgain(pid: int, w: World, key: RingKey, entry: nat) returns (steps: seq<Step>, v: World)
    requires Attached(pid, w) && Readable(pid, w, key, entry)
    ensures LetGoRun(pid, w, steps, v)
    ensures v.output == [ReadEntry(w, key, entry), ReadEntry(w, key, entry)]
  {
    var poll := ReadPoll(key, entry);
    assert key.pid == pid;
    AttachedUnread(pid, w, key);
    var u := ReadAlone(pid, w, key, entry);
    LetGoUnreads(pid, u, key);
    v := ReadAlone(pid, Take(pid, u, LetGo), key, entry);
    HeldLetGoHeld(pid, w, poll, u, poll, v);
    steps := poll + [LetGo] + poll;
  }

  // ---- crowding one interpreter out -----------------------------------------------------

  lemma NotLater(s: CursorState, pid: int, names: set<int>)
    requires Bounded(s)
    ensures RecentIn(s.(polls := s.polls + 1), pid, s.polls + 1, names)
  {
    assert SizeOk(RetainedOf(s, pid), s.polls);
    assert RetainedOf(s.(polls := s.polls + 1), pid) == RetainedOf(s, pid);
  }

  lemma {:induction false} AllMarked(s: CursorState, pid: int, records: seq<Record>)
    requires Bounded(s) && |Named(records)| <= MAX_RETAINED_INTERPRETERS
    ensures Named(records) <= RetainedOf(Admit(s, pid, records).0, pid).Keys
  {
    var start, cands, names := s.(polls := s.polls + 1), Candidates(records), Named(records);
    NotLater(s, pid, names);
    CandidateNames(records);
    forall i | i in names ensures i in RetainedOf(Admit(s, pid, records).0, pid) {
      FoldMarks(start, pid, cands, names, i);
    }
  }

  /** A poll that names as many interpreters as are kept leaves no other an accumulator. */
  lemma CrowdEvicts(s: CursorState, pid: int, records: seq<Record>, key: RingKey)
    requires Bounded(s) && |Named(records)| == MAX_RETAINED_INTERPRETERS
    requires key.pid == pid && key.interpreter !in Named(records)
    ensures key !in Admit(s, pid, records).0.rings
  {
    var t := Admit(s, pid, records).0;
    AllMarked(s, pid, records);
    ApplyBounded(s, Polled(pid, records));
    assert Bounded(t);
    assert SizeOk(RetainedOf(t, pid), t.polls) && RingOk(t, key);
    SameSize(Named(records), RetainedOf(t, pid).Keys);
  }

  lemma SameSize(a: set<int>, b: set<int>)
    requires a <= b && |b| <= |a|
    ensures a == b
  {
    assert b == a + (b - a);
    assert |b - a| == 0;
  }

  lemma {:induction false} Choose(from: set<int>, n: nat) returns (some: set<int>)
    requires n <= |from|
    ensures some <= from && |some| == n
    decreases |from|
  {
    if n == |from| {
      some := from;
    } else {
      var x := Witness(from);
      some := Choose(from - {x}, n);
    }
  }

  lemma RingOfInterpreter(w: World, i: int) returns (key: RingKey)
    requires i in Interpreters(w)
    ensures key in w.rings && key.interpreter == i
  {
    key :| key in w.rings && key.interpreter == i;
  }

  /** Read an Entry of each of `names`. */
  lemma {:induction false} ReadNames(pid: int, w: World, names: set<int>) returns (steps: seq<Step>, v: World)
    requires RingsValid(pid, w) && names <= Interpreters(w)
    ensures Held(pid, w, steps, v)
    ensures v == w.(pending := v.pending) && Named(v.pending) == Named(w.pending) + names
    decreases |names|
  {
    if names == {} {
      steps, v := [], w;
      HeldNone(pid, w);
    } else {
      var i := Witness(names);
      var u;
      steps, u := ReadNames(pid, w, names - {i});
      var key := RingOfInterpreter(w, i);
      ReadOne(pid, w, u, names - {i}, key);
      HeldSnoc(pid, w, steps, u, Read(key, 0));
      steps, v := steps + [Read(key, 0)], Take(pid, u, Read(key, 0));
      assert names - {i} + {i} == names;
    }
  }

  lemma {:induction false} ReadOne(pid: int, w: World, u: World, names: set<int>, key: RingKey)
    requires RingsValid(pid, w) && key in w.rings
    requires u == w.(pending := u.pending) && Named(u.pending) == Named(w.pending) + names
    ensures RingsValid(pid, u) && Enabled(pid, u, Read(key, 0))
    ensures var v := Take(pid, u, Read(key, 0));
      v == w.(pending := v.pending) && Named(v.pending) == Named(w.pending) + (names + {key.interpreter})
  {
    NamedSnoc(u.pending, ReadEntry(u, key, 0));
  }

  lemma NamedSnoc(records: seq<Record>, r: Record)
    ensures Named(records + [r]) == Named(records) + {r.interpreter}
  {
    forall i | i in Named(records) + {r.interpreter} ensures i in Named(records + [r]) {
      if i in Named(records) {
        var x :| x in records && x.interpreter == i;
        assert x in records + [r];
      } else {
        assert r in records + [r];
      }
    }
  }

  /** The poll that crowds `key`'s interpreter out, the process having more of them than are kept. */
  lemma {:induction false} CrowdOut(pid: int, w: World, key: RingKey) returns (steps: seq<Step>, v: World)
    requires RingsValid(pid, w) && Bounded(w.cursor) && w.pending == [] && key in w.rings
    requires |Interpreters(w)| > MAX_RETAINED_INTERPRETERS
    ensures Held(pid, w, steps, v)
    ensures v.rings == w.rings && v.pending == [] && key !in v.cursor.rings && w.output <= v.output
  {
    assert key.pid == pid && key.interpreter in Interpreters(w);
    var names := Choose(Interpreters(w) - {key.interpreter}, MAX_RETAINED_INTERPRETERS);
    var u;
    steps, u := ReadNames(pid, w, names);
    CrowdPoll(pid, u, key);
    HeldSnoc(pid, w, steps, u, EndPoll);
    steps, v := steps + [EndPoll], Take(pid, u, EndPoll);
  }

  lemma {:induction false} CrowdPoll(pid: int, w: World, key: RingKey)
    requires RingsValid(pid, w) && Bounded(w.cursor) && |Named(w.pending)| == MAX_RETAINED_INTERPRETERS
    requires key.pid == pid && key.interpreter !in Named(w.pending)
    ensures var v := Take(pid, w, EndPoll);
      v.rings == w.rings && v.pending == [] && key !in v.cursor.rings && w.output <= v.output
  {
    CrowdEvicts(w.cursor, pid, w.pending, key);
  }

  /** What the first poll leaves: the Record out, the cursor bounded. */
  lemma {:induction false} FirstRead(pid: int, w: World, key: RingKey, entry: nat) returns (v: World)
    requires Attached(pid, w) && Readable(pid, w, key, entry)
    ensures Held(pid, w, ReadPoll(key, entry), v) && Bounded(v.cursor)
    ensures v.rings == w.rings && v.pending == [] && v.output == [ReadEntry(w, key, entry)]
  {
    assert key.pid == pid;
    AttachedUnread(pid, w, key);
    v := ReadAlone(pid, w, key, entry);
    ApplyBounded(w.cursor, Polled(pid, [ReadEntry(w, key, entry)]));
  }

  /** An interpreter crowded out has what its rings still hold returned again. */
  lemma {:induction false} EvictionReadsAgain(pid: int, w: World, key: RingKey, entry: nat) returns (steps: seq<Step>, v: World)
    requires Attached(pid, w) && Readable(pid, w, key, entry)
    requires |Interpreters(w)| > MAX_RETAINED_INTERPRETERS
    ensures Held(pid, w, steps, v)
    ensures |v.output| >= 2 && v.output[0] == v.output[|v.output| - 1] == ReadEntry(w, key, entry)
  {
    var once := ReadPoll(key, entry);
    var u := FirstRead(pid, w, key, entry);
    assert Interpreters(u) == Interpreters(w);
    var crowd, t := CrowdOut(pid, u, key);
    assert ReadEntry(t, key, entry) == ReadEntry(w, key, entry);
    v := ReadAlone(pid, t, key, entry);
    HeldConcat(pid, w, once, u, crowd, t);
    HeldConcat(pid, w, once + crowd, t, once, v);
    steps := once + crowd + once;
  }

  // ---- a ring with something to read ------------------------------------------------------

  function WithRing(w: World, key: RingKey, r: RW.RingState): World {
    w.(rings := w.rings[key := r])
  }

  lemma WithRingTwice(w: World, key: RingKey, a: RW.RingState, b: RW.RingState)
    ensures WithRing(WithRing(w, key, a), key, b) == WithRing(w, key, b)
  {
    assert w.rings[key := a][key := b] == w.rings[key := b];
  }

  lemma WithOwnRing(w: World, key: RingKey)
    requires key in w.rings
    ensures WithRing(w, key, w.rings[key]) == w
  {
    assert w.rings[key := w.rings[key]] == w.rings;
  }

  lemma WithRingValid(pid: int, w: World, key: RingKey, r: RW.RingState)
    requires RingsValid(pid, w) && key.pid == pid && RW.Valid(r)
    ensures RingsValid(pid, WithRing(w, key, r))
  {}

  function Published(r: RW.RingState): seq<RW.Collection> {
    if r.stage == 0 then r.history else r.history + [r.pending]
  }

  /** Let the publish under way, if any, run to its end. */
  lemma {:induction false} Settle(pid: int, w: World, key: RingKey, r: RW.RingState) returns (steps: seq<Step>, done: RW.RingState)
    requires RingsValid(pid, w) && key.pid == pid && RW.Valid(r)
    ensures Held(pid, WithRing(w, key, r), steps, WithRing(w, key, done))
    ensures RW.Valid(done) && done.stage == 0 && done.history == Published(r)
    decreases RW.STORES - r.stage
  {
    if r.stage == 0 {
      steps, done := [], r;
      HeldNone(pid, WithRing(w, key, r));
    } else {
      RW.StepValid(r);
      WithRingValid(pid, w, key, r);
      WithRingTwice(w, key, r, RW.Step(r));
      HeldNone(pid, WithRing(w, key, r));
      HeldSnoc(pid, WithRing(w, key, r), [], WithRing(w, key, r), Store(key));
      StoreTakes(pid, w, key, r);
      if r.stage == RW.STORES - 1 {
        steps, done := [] + [Store(key)], RW.Step(r);
      } else {
        var rest;
        rest, done := Settle(pid, w, key, RW.Step(r));
        steps := [] + [Store(key)] + rest;
        HeldConcat(pid, WithRing(w, key, r), [] + [Store(key)], WithRing(w, key, RW.Step(r)), rest, WithRing(w, key, done));
      }
    }
  }

  lemma {:induction false} StoreTakes(pid: int, w: World, key: RingKey, r: RW.RingState)
    requires RingsValid(pid, WithRing(w, key, r)) && r.stage > 0
    ensures Take(pid, WithRing(w, key, r), Store(key)) == WithRing(w, key, RW.Step(r))
  {
    WithRingTwice(w, key, r, RW.Step(r));
  }

  lemma BeginTakes(pid: int, w: World, key: RingKey, r: RW.RingState, c: RW.Collection)
    requires RingsValid(pid, WithRing(w, key, r)) && RW.CanBegin(r, c)
    ensures Take(pid, WithRing(w, key, r), BeginPublish(key, c)) == WithRing(w, key, RW.Begin(r, c))
  {
    WithRingTwice(w, key, r, RW.Begin(r, c));
  }

  /** Publish one more Collection in a ring at rest. */
  lemma PublishNext(pid: int, w: World, key: RingKey, r: RW.RingState) returns (steps: seq<Step>, done: RW.RingState)
    requires RingsValid(pid, w) && key.pid == pid && RW.Valid(r) && r.stage == 0 && |r.history| < I64_MAX
    ensures Held(pid, WithRing(w, key, r), steps, WithRing(w, key, done))
    ensures RW.Valid(done) && done.stage == 0 && done.history == r.history + [RW.Next(r.history)]
  {
    var c := RW.Next(r.history);
    RW.NextFollows(r.history);
    RW.BeginValid(r, c);
    WithRingValid(pid, w, key, r);
    HeldNone(pid, WithRing(w, key, r));
    HeldSnoc(pid, WithRing(w, key, r), [], WithRing(w, key, r), BeginPublish(key, c));
    BeginTakes(pid, w, key, r, c);
    steps, done := Settle(pid, w, key, RW.Begin(r, c));
    HeldConcat(pid, WithRing(w, key, r), [] + [BeginPublish(key, c)], WithRing(w, key, RW.Begin(r, c)), steps, WithRing(w, key, done));
    steps := [] + [BeginPublish(key, c)] + steps;
  }

  /** The newest Collection of a ring at rest can be read if it took time. */
  lemma NewestReadable(pid: int, w: World, key: RingKey, r: RW.RingState)
    requires RingsValid(pid, w) && key.pid == pid && RW.Valid(r) && r.stage == 0
    requires r.history != [] && Wide(r.history[|r.history| - 1])
    ensures Readable(pid, WithRing(w, key, r), key, r.index)
  {
    WithRingValid(pid, w, key, r);
    RW.NewestAtIndex(r);
  }

  // ---- a process with nothing to show -------------------------------------------------------

  predicate Wide(c: RW.Collection) { c.tsStart < c.tsStop }

  /** The ring's counter is spent, or will be by the publish under way, and no Entry shows a Collection that took time, or will. */
  ghost predicate Spent(r: RW.RingState) {
    && |Published(r)| >= I64_MAX
    && (r.stage > 0 ==> !Wide(r.pending))
    && forall i :: 0 <= i < |r.items| ==> r.items[i].tsStart >= r.items[i].tsStop
  }

  ghost predicate AllSpent(w: World) {
    forall key :: key in w.rings ==> Spent(w.rings[key])
  }

  /** From any ring that is not spent, a run makes an Entry for a reader to find. */
  lemma ShowOne(pid: int, w: World, key: RingKey) returns (steps: seq<Step>, v: World, entry: nat)
    requires RingsValid(pid, w) && key in w.rings && !Spent(w.rings[key])
    ensures Held(pid, w, steps, v) && Readable(pid, v, key, entry)
    ensures v == w.(rings := v.rings) && v.rings.Keys == w.rings.Keys
  {
    var r := w.rings[key];
    if |Published(r)| < I64_MAX {
      steps, v, entry := PublishOne(pid, w, key);
    } else if r.stage > 0 && Wide(r.pending) {
      steps, v, entry := FinishOne(pid, w, key);
    } else {
      var i :| 0 <= i < |r.items| && r.items[i].tsStart < r.items[i].tsStop;
      RW.EntryKinds(r, i);
      HeldNone(pid, w);
      steps, v, entry := [], w, i;
    }
  }

  lemma {:induction false} FinishOne(pid: int, w: World, key: RingKey) returns (steps: seq<Step>, v: World, entry: nat)
    requires RingsValid(pid, w) && key in w.rings && w.rings[key].stage > 0 && Wide(w.rings[key].pending)
    ensures Held(pid, w, steps, v) && Readable(pid, v, key, entry)
    ensures v == w.(rings := v.rings) && v.rings.Keys == w.rings.Keys
  {
    var done;
    WithOwnRing(w, key);
    steps, done := Settle(pid, w, key, w.rings[key]);
    NewestReadable(pid, w, key, done);
    v, entry := WithRing(w, key, done), done.index;
    assert v.rings.Keys == w.rings.Keys + {key};
  }

  lemma PublishOne(pid: int, w: World, key: RingKey) returns (steps: seq<Step>, v: World, entry: nat)
    requires RingsValid(pid, w) && key in w.rings && |Published(w.rings[key])| < I64_MAX
    ensures Held(pid, w, steps, v) && Readable(pid, v, key, entry)
    ensures v == w.(rings := v.rings) && v.rings.Keys == w.rings.Keys
  {
    var first, rest, r, done;
    WithOwnRing(w, key);
    first, r := Settle(pid, w, key, w.rings[key]);
    rest, done := PublishNext(pid, w, key, r);
    HeldConcat(pid, w, first, WithRing(w, key, r), rest, WithRing(w, key, done));
    NewestReadable(pid, w, key, done);
    steps, v, entry := first + rest, WithRing(w, key, done), done.index;
    assert v.rings.Keys == w.rings.Keys + {key};
  }

  lemma StepSpent(r: RW.RingState)
    requires RW.Valid(r) && r.stage > 0 && Spent(r)
    ensures Spent(RW.Step(r))
  {
    var s := RW.Step(r);
    RW.StepValid(r);
    forall i | 0 <= i < |s.items| ensures s.items[i].tsStart >= s.items[i].tsStop {
      if i == s.index {
        if s.stage == 0 { RW.NewestAtIndex(s); } else if s.stage >= 3 { RW.EntryKinds(s, i); }
      }
    }
  }

  /** A spent process stays spent. */
  lemma TakeSpent(pid: int, w: World, s: Step)
    requires RingsValid(pid, w) && Enabled(pid, w, s) && AllSpent(w)
    ensures AllSpent(Take(pid, w, s))
  {
    if s.Store? {
      StepSpent(w.rings[s.key]);
      var v := Take(pid, w, s);
      forall key | key in v.rings ensures Spent(v.rings[key]) { assert key == s.key || v.rings[key] == w.rings[key]; }
    }
  }

  lemma {:induction false} FoldNothing(s: CursorState, pid: int, cands: seq<Record>)
    requires forall r :: r in cands ==> !r.IsComplete()
    ensures FoldCandidates(s, pid, cands).1 == []
    decreases |cands|
  {
    if cands != [] {
      var u := Offer(Retain(s, pid, cands[0].interpreter), pid, cands[0]);
      FoldNothing(u, pid, cands[1..]);
      assert !cands[0].IsComplete();
    }
  }

  lemma AdmitNothing(s: CursorState, pid: int, records: seq<Record>)
    requires forall r :: r in records ==> !r.IsComplete()
    ensures Admit(s, pid, records).1 == []
  {
    var next, cands := s.(polls := s.polls + 1), Candidates(records);
    CandidatesAreRecords(records);
    FoldNothing(next, pid, cands);
    assert Admit(s, pid, records) == AdmitSorted(next, pid, cands);
  }

  /** Nothing is out, nothing in hand is finished, and nothing ever will be. */
  ghost predicate Silent(w: World) {
    AllSpent(w) && w.output == [] && forall r :: r in w.pending ==> !r.IsComplete()
  }

  lemma TakeSilent(pid: int, w: World, s: Step)
    requires RingsValid(pid, w) && Enabled(pid, w, s) && Silent(w)
    ensures Silent(Take(pid, w, s))
  {
    TakeSpent(pid, w, s);
    match s
    case Read(key, entry) => assert Spent(w.rings[key]);
    case EndPoll => AdmitNothing(w.cursor, pid, w.pending);
    case _ =>
  }

  /** No run of it, with or without lettings go, returns anything. */
  lemma {:induction false} SpentReturnsNothing(pid: int, w: World, steps: seq<Step>, v: World)
    requires Path(pid, w, steps, v) && Silent(w)
    ensures v.output == []
    decreases |steps|
  {
    if steps != [] {
      TakeSilent(pid, w, steps[0]);
      SpentReturnsNothing(pid, Take(pid, w, steps[0]), steps[1..], v);
    }
  }

  // ---- exactly when ---------------------------------------------------------------------

  /** No run on which the process is never let go of returns a Collection of a ring twice. */
  ghost predicate AlwaysOnce(pid: int, w: World) {
    forall steps, v, key: RingKey :: Held(pid, w, steps, v) && key.pid == pid ==> Increasing(Output(v, key))
  }

  /** Some run that lets go of the process once returns a Collection of a ring twice. */
  ghost predicate CanRepeat(pid: int, w: World) {
    exists steps, v, key: RingKey :: LetGoRun(pid, w, steps, v) && key.pid == pid && !Increasing(Output(v, key))
  }

  lemma TwiceIsTwice(v: World, key: RingKey, r: Record)
    requires |v.output| >= 2 && v.output[0] == v.output[|v.output| - 1] == r && InRing(key)(r)
    ensures !Increasing(Output(v, key))
  {
    var mid := v.output[1..|v.output| - 1];
    assert v.output == [r] + (mid + [r]);
    FilterCons(InRing(key), r, mid + [r]);
    FilterConcat(InRing(key), mid, [r]);
    assert [r][1..] == [];
    var out := Output(v, key);
    assert out == [r] + (Filter(InRing(key), mid) + [r]);
    assert out[0] == r && out[|out| - 1] == r;
  }

  lemma AttachedAgain(pid: int, w: World, v: World)
    requires Attached(pid, w) && RingsValid(pid, v) && v == w.(rings := v.rings)
    ensures Attached(pid, v)
  {}

  lemma SameInterpreters(w: World, v: World)
    requires v.rings.Keys == w.rings.Keys
    ensures Interpreters(v) == Interpreters(w)
  {
    assert forall k :: k in v.rings <==> k in v.rings.Keys;
    assert forall k :: k in w.rings <==> k in w.rings.Keys;
  }

  lemma CrowdedRepeats(pid: int, w: World) returns (steps: seq<Step>, v: World, key: RingKey)
    requires Attached(pid, w) && !AllSpent(w) && |Interpreters(w)| > MAX_RETAINED_INTERPRETERS
    ensures Held(pid, w, steps, v) && key.pid == pid && !Increasing(Output(v, key))
  {
    key :| key in w.rings && !Spent(w.rings[key]);
    var show, u, entry := ShowOne(pid, w, key);
    AttachedAgain(pid, w, u);
    SameInterpreters(w, u);
    steps, v := EvictionReadsAgain(pid, u, key, entry);
    HeldConcat(pid, w, show, u, steps, v);
    TwiceIsTwice(v, key, ReadEntry(u, key, entry));
    steps := show + steps;
  }

  lemma {:induction false} FewOnce(pid: int, w: World)
    requires Attached(pid, w) && |Interpreters(w)| <= MAX_RETAINED_INTERPRETERS
    ensures AlwaysOnce(pid, w)
  {
    forall steps, v, key: RingKey | Held(pid, w, steps, v) && key.pid == pid ensures Increasing(Output(v, key)) {
      AttachedSplits(pid, w, key);
      FewUndisturbed(pid, w, steps, v, key);
      UndisturbedReturnsOnce(pid, w, steps, v, key);
    }
  }

  lemma {:induction false} SpentOnce(pid: int, w: World)
    requires Attached(pid, w) && AllSpent(w)
    ensures AlwaysOnce(pid, w) && !CanRepeat(pid, w)
  {
    forall steps, v, key: RingKey | Path(pid, w, steps, v) && key.pid == pid ensures Increasing(Output(v, key)) {
      SpentReturnsNothing(pid, w, steps, v);
    }
  }

  /**
   Every run that never lets go of the process returns each Collection of each ring at most once if
   and only if the process has no more interpreters than the cursor keeps, or has nothing to show.
   */
  lemma {:induction false} OnceIff(pid: int, w: World)
    requires Attached(pid, w)
    ensures AlwaysOnce(pid, w) <==> |Interpreters(w)| <= MAX_RETAINED_INTERPRETERS || AllSpent(w)
  {
    if |Interpreters(w)| <= MAX_RETAINED_INTERPRETERS {
      FewOnce(pid, w);
    } else if AllSpent(w) {
      SpentOnce(pid, w);
    } else {
      var steps, v, key := CrowdedRepeats(pid, w);
    }
  }

  lemma LetGoRepeats(pid: int, w: World) returns (steps: seq<Step>, v: World, key: RingKey)
    requires Attached(pid, w) && !AllSpent(w)
    ensures LetGoRun(pid, w, steps, v) && key.pid == pid && !Increasing(Output(v, key))
  {
    key :| key in w.rings && !Spent(w.rings[key]);
    var show, u, entry := ShowOne(pid, w, key);
    AttachedAgain(pid, w, u);
    var again;
    again, v := LetGoReadsAgain(pid, u, key, entry);
    steps := PrependHeld(pid, w, show, u, again, v);
    TwiceIsTwice(v, key, ReadEntry(u, key, entry));
  }

  /** Let go of once, the process can have one returned twice, however few interpreters it has, unless it has nothing to show. */
  lemma LetGoRepeatsIff(pid: int, w: World)
    requires Attached(pid, w)
    ensures CanRepeat(pid, w) <==> !AllSpent(w)
  {
    if AllSpent(w) {
      SpentOnce(pid, w);
    } else {
      var steps, v, key := LetGoRepeats(pid, w);
    }
  }
}
