/** What a Record's events say: which fields they carry, and when their times run in order. */
module TraceMeaning {
  import opened Prelude
  import opened Text
  import opened GcStats
  import opened TraceEvents

  // ---- event by event --------------------------------------------------------------------

  /** A field's value; one the build lacks counts as zero. */
  function Count(s: GcStat, name: string): int {
    if Get(s, name).Some? then Get(s, name).value else 0
  }

  /** An argument under its field's own name. */
  function Told(s: GcStat, name: string): Arg { Arg(name, Int(Count(s, name))) }

  function Origin(s: GcStat): seq<Arg> { [Arg("generation", Int(s.generation)), Arg("iid", Int(s.interpreterId))] }

  /** A sub-step's two events, if there are both its ends and they lie apart. */
  function Step(pid: int, s: GcStat, title: string, cat: string, from: Option<int>, to: Option<int>, args: seq<Arg>): seq<TraceEvent> {
    if from.Some? && to.Some? && from.value < to.value then
      [Begin(pid, s.interpreterId, from.value, title + " (gen=" + Decimal(s.generation) + ")",
             cat + "(gen=" + Decimal(s.generation) + ")", Origin(s) + args),
       End(pid, s.interpreterId, to.value, title + " (gen=" + Decimal(s.generation) + ")",
           cat + "(gen=" + Decimal(s.generation) + ")")]
    else []
  }

  /** The first of two moments that there is, else a third. */
  function Else(a: Option<int>, b: Option<int>, otherwise: int): Option<int> {
    if a.Some? then a else if b.Some? then b else Some(otherwise)
  }

  function Steps(pid: int, s: GcStat): seq<TraceEvent> {
    Step(pid, s, "Mark Alive", "gc.mark.alive",
         Get(s, "ts_mark_alive_start"), Get(s, "ts_mark_alive_stop"), [Told(s, "alive_size")])
    + (Step(pid, s, "Fill increment", "gc.increment",
            Get(s, "ts_fill_increment_start"), Get(s, "ts_fill_increment_stop"), [Told(s, "increment_size")])
    + (Step(pid, s, "Deduce Unreachable", "gc.deduce",
            Get(s, "ts_deduce_unreachable_start"), Get(s, "ts_deduce_unreachable_stop"), [Told(s, "candidates")])
    + (Step(pid, s, "Handle Weakrefs Callbacks", "gc.weakrefs",
            Get(s, "ts_handle_weakref_callbacks_start"), Get(s, "ts_handle_weakref_callbacks_stop"), [])
    + LateSteps(pid, s))))
  }

  function LateSteps(pid: int, s: GcStat): seq<TraceEvent> {
    Step(pid, s, "Finalize Garbage", "gc.finalize",
            Else(Get(s, "ts_handle_weakref_callbacks_stop"), Get(s, "ts_deduce_unreachable_stop"), Count(s, "ts_start")),
            Get(s, "ts_finalize_garbage_stop"), [Told(s, "finalized_garbage_count")])
    + (Step(pid, s, "Handle Resurrected", "gc.resurrect",
            Else(Get(s, "ts_finalize_garbage_stop"), None, Count(s, "ts_start")), Get(s, "ts_handle_resurrected_stop"), [])
    + (Step(pid, s, "Clear Weakrefs", "gc.clear_weakrefs",
            Else(Get(s, "ts_handle_resurrected_stop"), None, Count(s, "ts_start")), Get(s, "ts_clear_weakrefs_stop"),
            [Told(s, "clear_weakrefs_count")])
    + Step(pid, s, "Delete Garbage", "gc.delete",
           Get(s, "ts_delete_garbage_start"), Get(s, "ts_delete_garbage_stop"), [Told(s, "deleted_garbage_count")])))
  }

  /** A double's raw bits, out of the signed word the field reads as. */
  function Bits(i: int): int { i % 0x1_0000_0000_0000_0000 }

  /** `uncollectable`, told only of what could not be collected. */
  function Trouble(s: GcStat): seq<Arg> { if Count(s, "uncollectable") > 0 then [Told(s, "uncollectable")] else [] }

  function Names(pid: int, s: GcStat): seq<TraceEvent> {
    [ProcessMeta(pid, "python " + IntText(pid)), ThreadMeta(pid, s.interpreterId, IntText(pid) + ":" + IntText(s.interpreterId))]
  }

  /**
   A Record of a build with timestamps, event by event and field by field: the names, the pause from
   its start to its stop around its sub-steps, and two samples taken at its start.
   */
  lemma {:induction false} PauseTells(pid: int, s: GcStat, observedAt: int)
    requires Has(s.layout, "ts_start") && Has(s.layout, "ts_stop")
    ensures DurationBits(s) == Bits(Count(s, "duration"))
    ensures ConvertRecord(pid, s, observedAt)
         == Names(pid, s)
            + ([Begin(pid, s.interpreterId, Count(s, "ts_start"), "GC Pause (gen=" + Decimal(s.generation) + ")",
                      "gc.pause(gen=" + Decimal(s.generation) + ")",
                      Origin(s) + [Told(s, "collections"), Told(s, "heap_size"), Told(s, "collected"), Told(s, "uncollectable"),
                                   Told(s, "candidates")])]
               + Steps(pid, s)
               + [End(pid, s.interpreterId, Count(s, "ts_stop"), "GC Pause (gen=" + Decimal(s.generation) + ")",
                      "gc.pause(gen=" + Decimal(s.generation) + ")")]
               + [Counter(pid, s.interpreterId, Count(s, "ts_start"), "G" + Decimal(s.generation),
                          [Told(s, "collected"), Told(s, "candidates"), Arg("duration", Float(DurationBits(s)))] + Trouble(s)),
                  Counter(pid, s.interpreterId, Count(s, "ts_start"), "", [Told(s, "heap_size")])])
  {
    BitsTell(s);
    StepsTell(pid, s);
    PauseBeginTells(pid, s);
    SamplesTell(pid, s);
  }

  lemma BitsTell(s: GcStat)
    ensures DurationBits(s) == Bits(Count(s, "duration"))
  {
    var off := OffsetIn(s.layout.fields, "duration");
    if off.Some? { RawIsWord(s.bytes, off.value); }
  }

  lemma PauseBeginTells(pid: int, s: GcStat)
    ensures PauseBegin(pid, s)
         == Begin(pid, s.interpreterId, Count(s, "ts_start"), "GC Pause (gen=" + Decimal(s.generation) + ")",
                  "gc.pause(gen=" + Decimal(s.generation) + ")",
                  Origin(s) + [Told(s, "collections"), Told(s, "heap_size"), Told(s, "collected"), Told(s, "uncollectable"),
                               Told(s, "candidates")])
  {
    var fields := ["collections", "heap_size", "collected", "uncollectable", "candidates"];
    FieldsTell(s, fields);
    assert FieldArgs(s, fields)
        == [Told(s, "collections"), Told(s, "heap_size"), Told(s, "collected"), Told(s, "uncollectable"), Told(s, "candidates")];
  }

  lemma {:induction false} SamplesTell(pid: int, s: GcStat)
    ensures Samples(pid, s)
         == [Counter(pid, s.interpreterId, Count(s, "ts_start"), "G" + Decimal(s.generation),
                     [Told(s, "collected"), Told(s, "candidates"), Arg("duration", Float(DurationBits(s)))] + Trouble(s)),
             Counter(pid, s.interpreterId, Count(s, "ts_start"), "", [Told(s, "heap_size")])]
  {
    FieldsTell(s, ["collected", "candidates"]);
    FieldsTell(s, ["heap_size"]);
    assert FieldArgs(s, ["collected", "candidates"]) == [Told(s, "collected"), Told(s, "candidates")];
    assert FieldArgs(s, ["heap_size"]) == [Told(s, "heap_size")];
    assert Uncollectable(s) == Trouble(s);
    assert FieldArgs(s, ["collected", "candidates"]) + [Arg("duration", Float(DurationBits(s)))]
        == [Told(s, "collected"), Told(s, "candidates"), Arg("duration", Float(DurationBits(s)))];
  }

  lemma {:induction false} FieldsTell(s: GcStat, fields: seq<string>)
    ensures |FieldArgs(s, fields)| == |fields|
    ensures forall k :: 0 <= k < |fields| ==> FieldArgs(s, fields)[k] == Told(s, fields[k])
    decreases |fields|
  {
    if fields != [] { FieldsTell(s, fields[1..]); }
  }

  lemma {:induction false} OwnStep(pid: int, s: GcStat, p: Phase)
    requires p.start.Explicit?
    ensures PhaseEvents(pid, s, p) == Step(pid, s, p.title, p.cat, Get(s, p.start.field), Get(s, p.stop), FieldArgs(s, p.args))
  {}

  lemma {:induction false} ChainedStep(pid: int, s: GcStat, p: Phase)
    requires p.start.Chained? && 1 <= |p.start.fields| <= 2
    ensures var fields := p.start.fields;
      PhaseEvents(pid, s, p)
      == Step(pid, s, p.title, p.cat, Else(Get(s, fields[0]), if |fields| == 2 then Get(s, fields[1]) else None, Count(s, "ts_start")),
              Get(s, p.stop), FieldArgs(s, p.args))
  {
    FirstOfTwo(s, p.start.fields, Count(s, "ts_start"));
  }

  lemma {:induction false} FirstOfTwo(s: GcStat, fields: seq<string>, otherwise: int)
    requires 1 <= |fields| <= 2
    ensures Some(FirstPresent(s, fields, otherwise))
         == Else(Get(s, fields[0]), if |fields| == 2 then Get(s, fields[1]) else None, otherwise)
  {
    var rest := fields[1..];
    assert FirstPresent(s, [], otherwise) == otherwise;
    if |fields| == 2 {
      assert rest[0] == fields[1] && rest[1..] == [];
      assert FirstPresent(s, rest, otherwise) == if Get(s, fields[1]).Some? then Get(s, fields[1]).value else otherwise;
    } else {
      assert rest == [];
    }
  }

  lemma {:induction false} OneField(s: GcStat, name: string)
    ensures FieldArgs(s, [name]) == [Told(s, name)] && FieldArgs(s, []) == []
  {
    FieldsTell(s, [name]);
  }

  lemma {:induction false} PhasesFrom(pid: int, s: GcStat, k: nat)
    requires k < |PHASES|
    ensures AllPhases(pid, s, PHASES[k..]) == PhaseEvents(pid, s, PHASES[k]) + AllPhases(pid, s, PHASES[k + 1..])
  {
    assert PHASES[k..][0] == PHASES[k] && PHASES[k..][1..] == PHASES[k + 1..];
  }

  lemma {:induction false} LatePhases(pid: int, s: GcStat)
    ensures AllPhases(pid, s, PHASES[4..]) == LateSteps(pid, s)
  {
    assert PHASES[8..] == [];
    PhasesFrom(pid, s, 7);
    OwnStep(pid, s, PHASES[7]);
    OneField(s, "deleted_garbage_count");
    PhasesFrom(pid, s, 6);
    ChainedStep(pid, s, PHASES[6]);
    OneField(s, "clear_weakrefs_count");
    PhasesFrom(pid, s, 5);
    ChainedStep(pid, s, PHASES[5]);
    PhasesFrom(pid, s, 4);
    ChainedStep(pid, s, PHASES[4]);
    OneField(s, "finalized_garbage_count");
  }

  lemma {:induction false} StepsTell(pid: int, s: GcStat)
    ensures AllPhases(pid, s, PHASES) == Steps(pid, s)
  {
    LatePhases(pid, s);
    PhasesFrom(pid, s, 3);
    OwnStep(pid, s, PHASES[3]);
    PhasesFrom(pid, s, 2);
    OwnStep(pid, s, PHASES[2]);
    OneField(s, "candidates");
    PhasesFrom(pid, s, 1);
    OwnStep(pid, s, PHASES[1]);
    OneField(s, "increment_size");
    PhasesFrom(pid, s, 0);
    OwnStep(pid, s, PHASES[0]);
    OneField(s, "alive_size");
    assert PHASES[0..] == PHASES;
  }

  /** The counts a build without timestamps has. */
  function Counts(s: GcStat): seq<Arg> {
    (if Get(s, "collections").Some? then [Told(s, "collections")] else [])
    + ((if Get(s, "collected").Some? then [Told(s, "collected")] else []) + Trouble(s))
  }

  /** A Record of a build without them tells its counts, at the moment it was observed, or nothing at all. */
  lemma {:induction false} CountTells(pid: int, s: GcStat, observedAt: int)
    requires !(Has(s.layout, "ts_start") && Has(s.layout, "ts_stop"))
    ensures ConvertRecord(pid, s, observedAt)
         == if Counts(s) == [] then []
            else Names(pid, s) + [Counter(pid, s.interpreterId, observedAt, "G" + Decimal(s.generation), Counts(s))]
  {
    var rest := ["collections", "collected"][1..];
    assert rest == ["collected"] && rest[1..] == [] && PresentArgs(s, []) == [];
    assert Uncollectable(s) == Trouble(s);
    assert PresentArgs(s, ["collections", "collected"]) + Uncollectable(s) == Counts(s);
  }

  // ---- when the times run in order -------------------------------------------------------

  /** The moments spans open and close, in the order told. */
  function Moments(es: seq<TraceEvent>): seq<int> {
    if es == [] then []
    else (if es[0].Begin? || es[0].End? then [es[0].ts] else []) + Moments(es[1..])
  }

  predicate Rising(s: seq<int>) { forall i, j :: 0 <= i < j < |s| ==> s[i] <= s[j] }

  lemma {:induction false} MomentsConcat(a: seq<TraceEvent>, b: seq<TraceEvent>)
    ensures Moments(a + b) == Moments(a) + Moments(b)
    decreases |a|
  {
    if a == [] {
      assert a + b == b;
    } else {
      assert (a + b)[0] == a[0] && (a + b)[1..] == a[1..] + b;
      MomentsConcat(a[1..], b);
      var own := if a[0].Begin? || a[0].End? then [a[0].ts] else [];
      assert own + (Moments(a[1..]) + Moments(b)) == (own + Moments(a[1..])) + Moments(b);
    }
  }

  type Moment = Option<int>

  /** The collector's moments as the build has them, in the order the collector passes them. */
  function Clock(s: GcStat): seq<Moment> {
    [Get(s, "ts_start"), Get(s, "ts_mark_alive_start"), Get(s, "ts_mark_alive_stop"),
     Get(s, "ts_fill_increment_start"), Get(s, "ts_fill_increment_stop"),
     Get(s, "ts_deduce_unreachable_start"), Get(s, "ts_deduce_unreachable_stop"),
     Get(s, "ts_handle_weakref_callbacks_start"), Get(s, "ts_handle_weakref_callbacks_stop"),
     Get(s, "ts_finalize_garbage_stop"), Get(s, "ts_handle_resurrected_stop"), Get(s, "ts_clear_weakrefs_stop"),
     Get(s, "ts_delete_garbage_start"), Get(s, "ts_delete_garbage_stop"), Get(s, "ts_stop")]
  }

  /** They never run backwards, and the pause itself has both its ends. */
  predicate Clocked(c: seq<Moment>) {
    && |c| == 15 && c[0].Some? && c[14].Some?
    && forall i, j :: 0 <= i < j < 15 && c[i].Some? && c[j].Some? ==> c[i].value <= c[j].value
  }

  predicate Wide(from: Moment, to: Moment) { from.Some? && to.Some? && from.value < to.value }

  /**
   A sub-step with no start of its own and nothing to chain onto is put at the start of the pause, over
   a sub-step already told: finalizing, resurrecting or clearing, by the fields the build lacks.
   */
  predicate FallsBack(c: seq<Moment>)
    requires |c| == 15 && c[0].Some?
  {
    var early := Wide(c[1], c[2]) || Wide(c[3], c[4]);
    var middle := early || Wide(c[5], c[6]) || Wide(c[7], c[8]);
    || (c[8].None? && c[6].None? && Wide(c[0], c[9]) && early)
    || (c[9].None? && Wide(c[0], c[10]) && middle)
    || (c[10].None? && Wide(c[0], c[11]) && (middle || Wide(Else(c[8], c[6], c[0].value), c[9])))
  }

  /** From where to where each sub-step is told. */
  function Bounds(c: seq<Moment>): (r: seq<(Moment, Moment)>)
    requires |c| == 15 && c[0].Some?
    ensures |r| == 8
  {
    var lo := c[0].value;
    [(c[1], c[2]), (c[3], c[4]), (c[5], c[6]), (c[7], c[8]), (Else(c[8], c[6], lo), c[9]), (Else(c[9], None, lo), c[10]),
     (Else(c[10], None, lo), c[11]), (c[12], c[13])]
  }

  /** Those told lie apart, in order. */
  predicate Apart(bounds: seq<(Moment, Moment)>) {
    forall k :: 0 <= k < |bounds| ==> ClearOf(bounds, k)
  }

  /** The `k`th, if told, starts after every one told before it. */
  predicate ClearOf(bounds: seq<(Moment, Moment)>, k: nat)
    requires k < |bounds|
  {
    Wide(bounds[k].0, bounds[k].1) ==>
      forall j :: 0 <= j < k && Wide(bounds[j].0, bounds[j].1) ==> bounds[j].1.value <= bounds[k].0.value
  }

  /** A sub-step with a start of its own is never told over another. */
  lemma OwnClear(c: seq<Moment>, k: nat)
    requires Clocked(c) && (k < 4 || k == 7)
    ensures ClearOf(Bounds(c), k)
  {
    forall j | 0 <= j < k && Wide(Bounds(c)[j].0, Bounds(c)[j].1) && Wide(Bounds(c)[k].0, Bounds(c)[k].1)
      ensures Bounds(c)[j].1.value <= Bounds(c)[k].0.value
    {}
  }

  lemma FinalizeClear(c: seq<Moment>)
    requires Clocked(c)
    ensures ClearOf(Bounds(c), 4) <==>
      !(c[8].None? && c[6].None? && Wide(c[0], c[9]) && (Wide(c[1], c[2]) || Wide(c[3], c[4])))
  {
    var b := Bounds(c);
    if c[8].None? && c[6].None? && Wide(c[0], c[9]) {
      assert Wide(b[0].0, b[0].1) ==> b[0].1.value > b[4].0.value;
      assert Wide(b[1].0, b[1].1) ==> b[1].1.value > b[4].0.value;
    }
  }

  lemma ResurrectClear(c: seq<Moment>)
    requires Clocked(c)
    ensures ClearOf(Bounds(c), 5) <==>
      !(c[9].None? && Wide(c[0], c[10]) && (Wide(c[1], c[2]) || Wide(c[3], c[4]) || Wide(c[5], c[6]) || Wide(c[7], c[8])))
  {
    var b := Bounds(c);
    if c[9].None? && Wide(c[0], c[10]) {
      assert forall j :: 0 <= j < 4 && Wide(b[j].0, b[j].1) ==> b[j].1.value > b[5].0.value;
      assert Wide(b[0].0, b[0].1) || Wide(b[1].0, b[1].1) || Wide(b[2].0, b[2].1) || Wide(b[3].0, b[3].1) || ClearOf(b, 5);
    }
  }

  lemma ClearClear(c: seq<Moment>)
    requires Clocked(c)
    ensures ClearOf(Bounds(c), 6) <==>
      !(c[10].None? && Wide(c[0], c[11])
        && (Wide(c[1], c[2]) || Wide(c[3], c[4]) || Wide(c[5], c[6]) || Wide(c[7], c[8])
            || Wide(Else(c[8], c[6], c[0].value), c[9])))
  {
    var b := Bounds(c);
    if c[10].None? && Wide(c[0], c[11]) {
      assert forall j :: 0 <= j < 5 && Wide(b[j].0, b[j].1) ==> b[j].1.value > b[6].0.value;
      assert Wide(b[0].0, b[0].1) || Wide(b[1].0, b[1].1) || Wide(b[2].0, b[2].1) || Wide(b[3].0, b[3].1) || Wide(b[4].0, b[4].1)
          || ClearOf(b, 6);
    }
  }

  lemma ApartIff(c: seq<Moment>)
    requires Clocked(c)
    ensures Apart(Bounds(c)) <==> !FallsBack(c)
  {
    forall k | 0 <= k < 4 || k == 7 ensures ClearOf(Bounds(c), k) { OwnClear(c, k); }
    FinalizeClear(c);
    ResurrectClear(c);
    ClearClear(c);
    assert Apart(Bounds(c)) <==> ClearOf(Bounds(c), 4) && ClearOf(Bounds(c), 5) && ClearOf(Bounds(c), 6);
  }

  function Ends(bounds: seq<(Moment, Moment)>): seq<int> {
    if bounds == [] then []
    else
      var last := bounds[|bounds| - 1];
      Ends(bounds[..|bounds| - 1]) + if Wide(last.0, last.1) then [last.0.value, last.1.value] else []
  }

  lemma {:induction false} EndsHold(bounds: seq<(Moment, Moment)>, x: int)
    ensures x in Ends(bounds) <==>
      exists k :: 0 <= k < |bounds| && Wide(bounds[k].0, bounds[k].1) && (bounds[k].0.value == x || bounds[k].1.value == x)
    decreases |bounds|
  {
    if bounds != [] {
      var init := bounds[..|bounds| - 1];
      EndsHold(init, x);
      assert forall k :: 0 <= k < |init| ==> bounds[k] == init[k];
    }
  }

  lemma RisingSnoc(s: seq<int>, x: int)
    ensures Rising(s + [x]) <==> Rising(s) && forall y :: y in s ==> y <= x
  {
    var more := s + [x];
    if Rising(more) {
      forall i, j | 0 <= i < j < |s| ensures s[i] <= s[j] { assert more[i] == s[i] && more[j] == s[j]; }
      forall y | y in s ensures y <= x {
        var i :| 0 <= i < |s| && s[i] == y;
        assert more[i] == y && more[|s|] == x;
      }
    }
    if Rising(s) && forall y :: y in s ==> y <= x {
      forall i, j | 0 <= i < j < |more| ensures more[i] <= more[j] { assert more[i] in s; }
    }
  }

  lemma {:induction false} ClearMeans(bounds: seq<(Moment, Moment)>, from: int)
    ensures (forall y :: y in Ends(bounds) ==> y <= from)
       <==> forall j :: 0 <= j < |bounds| && Wide(bounds[j].0, bounds[j].1) ==> bounds[j].1.value <= from
  {
    forall y { EndsHold(bounds, y); }
    forall j | 0 <= j < |bounds| && Wide(bounds[j].0, bounds[j].1) ensures bounds[j].1.value in Ends(bounds) {
      EndsHold(bounds, bounds[j].1.value);
    }
  }

  lemma {:induction false} EndsRise(bounds: seq<(Moment, Moment)>)
    ensures Rising(Ends(bounds)) <==> Apart(bounds)
    decreases |bounds|
  {
    if bounds != [] {
      var n := |bounds| - 1;
      var init, last := bounds[..n], bounds[n];
      EndsRise(init);
      forall k | 0 <= k < n ensures ClearOf(bounds, k) <==> ClearOf(init, k) {
        assert forall j :: 0 <= j <= k ==> init[j] == bounds[j];
      }
      assert Apart(bounds) <==> Apart(init) && ClearOf(bounds, n);
      if Wide(last.0, last.1) {
        var from, to := last.0.value, last.1.value;
        ClearMeans(init, from);
        assert ClearOf(bounds, n) <==> forall j :: 0 <= j < n && Wide(init[j].0, init[j].1) ==> init[j].1.value <= from by {
          assert forall j :: 0 <= j < n ==> init[j] == bounds[j];
        }
        RisingSnoc(Ends(init), from);
        RisingSnoc(Ends(init) + [from], to);
        assert Ends(bounds) == Ends(init) + [from] + [to];
        if forall y :: y in Ends(init) ==> y <= from {
          assert forall y :: y in Ends(init) + [from] ==> y in Ends(init) || y == from;
        }
        assert Rising(Ends(bounds)) <==> Rising(Ends(init)) && forall y :: y in Ends(init) ==> y <= from;
        assert Rising(Ends(init)) <==> Apart(init);
      } else {
        assert Ends(bounds) == Ends(init) + [] == Ends(init);
        assert ClearOf(bounds, n);
      }
    }
  }

  lemma RisingCons(x: int, s: seq<int>)
    requires forall y :: y in s ==> x <= y
    ensures Rising([x] + s) <==> Rising(s)
  {
    if Rising([x] + s) {
      forall i, j | 0 <= i < j < |s| ensures s[i] <= s[j] { assert ([x] + s)[i + 1] == s[i] && ([x] + s)[j + 1] == s[j]; }
    }
    if Rising(s) {
      forall i, j | 0 <= i < j < |[x] + s| ensures ([x] + s)[i] <= ([x] + s)[j] {
        assert ([x] + s)[j] == s[j - 1] && s[j - 1] in s && (i > 0 ==> ([x] + s)[i] == s[i - 1]);
      }
    }
  }

  /** The sub-steps' bounds as the table gives them. */
  function TableBounds(s: GcStat, phases: seq<Phase>): seq<(Moment, Moment)> {
    seq(|phases|, k requires 0 <= k < |phases| => (StartOf(s, phases[k].start), Get(s, phases[k].stop)))
  }

  lemma ChainedBound(s: GcStat, k: nat)
    requires 4 <= k < 7
    ensures var fields := PHASES[k].start.fields;
      StartOf(s, PHASES[k].start) == Else(Get(s, fields[0]), if |fields| == 2 then Get(s, fields[1]) else None, GetOrZero(s, "ts_start"))
  {
    FirstOfTwo(s, PHASES[k].start.fields, GetOrZero(s, "ts_start"));
  }

  lemma TableIsClock(s: GcStat)
    requires Get(s, "ts_start").Some?
    ensures TableBounds(s, PHASES) == Bounds(Clock(s))
  {
    var t, b := TableBounds(s, PHASES), Bounds(Clock(s));
    ChainedBound(s, 4);
    ChainedBound(s, 5);
    ChainedBound(s, 6);
    assert t[0] == b[0] && t[1] == b[1] && t[2] == b[2] && t[3] == b[3] && t[7] == b[7];
    assert t[4] == b[4] && t[5] == b[5] && t[6] == b[6];
  }

  lemma {:induction false} PhaseMoments(pid: int, s: GcStat, phases: seq<Phase>)
    ensures Moments(AllPhases(pid, s, phases)) == Ends(TableBounds(s, phases))
    decreases |phases|
  {
    if phases != [] {
      var init, last := phases[..|phases| - 1], phases[|phases| - 1];
      PhaseMoments(pid, s, init);
      assert phases == init + [last];
      PhasesSnoc(pid, s, init, last);
      MomentsConcat(AllPhases(pid, s, init), PhaseEvents(pid, s, last));
      var bounds := TableBounds(s, phases);
      assert bounds[..|bounds| - 1] == TableBounds(s, init);
      OneMoments(pid, s, last);
    }
  }

  lemma {:induction false} OneMoments(pid: int, s: GcStat, p: Phase)
    ensures Moments(PhaseEvents(pid, s, p))
         == if Wide(StartOf(s, p.start), Get(s, p.stop)) then [StartOf(s, p.start).value, Get(s, p.stop).value] else []
  {
    var es := PhaseEvents(pid, s, p);
    if es != [] {
      assert es[1..] == [es[1]] && es[1..][1..] == [];
      assert Moments(es[1..]) == [es[1].ts] + Moments([]);
      assert Moments(es) == [es[0].ts] + [es[1].ts];
    }
  }

  lemma {:induction false} NoMoments(es: seq<TraceEvent>)
    requires forall k :: 0 <= k < |es| ==> !es[k].Begin? && !es[k].End?
    ensures Moments(es) == []
    decreases |es|
  {
    if es != [] { NoMoments(es[1..]); }
  }

  lemma {:induction false} RecordMoments(pid: int, s: GcStat, observedAt: int)
    requires HasTiming(s) && Get(s, "ts_start").Some?
    ensures Moments(ConvertRecord(pid, s, observedAt))
         == [GetOrZero(s, "ts_start")] + Ends(Bounds(Clock(s))) + [GetOrZero(s, "ts_stop")]
  {
    var b, e := [PauseBegin(pid, s)], [PauseEnd(pid, s)];
    var steps := AllPhases(pid, s, PHASES);
    TableIsClock(s);
    PhaseMoments(pid, s, PHASES);
    NoMoments(Metadata(pid, s));
    NoMoments(Samples(pid, s));
    MomentsConcat(Metadata(pid, s), PauseEvents(pid, s));
    MomentsConcat(b + steps + e, Samples(pid, s));
    MomentsConcat(b + steps, e);
    MomentsConcat(b, steps);
    assert Moments(b) == [b[0].ts] + Moments([]) && Moments(e) == [e[0].ts] + Moments([]);
  }

  lemma ClockMoments(pid: int, s: GcStat, observedAt: int, c: seq<Moment>)
    requires c == Clock(s) && c[0].Some? && c[14].Some?
    ensures Moments(ConvertRecord(pid, s, observedAt)) == [c[0].value] + Ends(Bounds(c)) + [c[14].value]
  {
    OffsetFound(s.layout.fields, "ts_start");
    OffsetFound(s.layout.fields, "ts_stop");
    RecordMoments(pid, s, observedAt);
    assert c[0] == Get(s, "ts_start") && c[14] == Get(s, "ts_stop");
  }

  /**
   The spans of a Record whose moments never run backwards open and close at rising times, all within
   its pause, exactly when no sub-step falls back to the start of the pause over another.
   */
  lemma {:induction false} TimesRiseIff(pid: int, s: GcStat, observedAt: int)
    requires Clocked(Clock(s))
    ensures Rising(Moments(ConvertRecord(pid, s, observedAt))) <==> !FallsBack(Clock(s))
  {
    var c := Clock(s);
    var lo, hi, ends := c[0].value, c[14].value, Ends(Bounds(c));
    ClockMoments(pid, s, observedAt, c);
    WithinPause(c);
    EndsRise(Bounds(c));
    ApartIff(c);
    RisingSnoc([lo] + ends, hi);
    RisingCons(lo, ends);
  }

  lemma WithinPause(c: seq<Moment>)
    requires Clocked(c)
    ensures forall y :: y in Ends(Bounds(c)) ==> c[0].value <= y <= c[14].value
  {
    forall y | y in Ends(Bounds(c)) ensures c[0].value <= y <= c[14].value { EndsHold(Bounds(c), y); }
  }

  /**
   So a build that times marking, finalizing and the pause and nothing between, whose pause from 10 to
   50 marks from 20 to 30 and finalizes until 40, is told to finalize from 10.
   */
  lemma SparseRunsBack(pid: int, s: GcStat, observedAt: int)
    requires Sparse(Clock(s))
    ensures Moments(ConvertRecord(pid, s, observedAt)) == [10, 20, 30, 10, 40, 50]
  {
    var c := Clock(s);
    SparseEnds(c);
    ClockMoments(pid, s, observedAt, c);
  }

  predicate Sparse(c: seq<Moment>) {
    && |c| == 15 && (forall k :: 0 <= k < 15 && c[k].Some? ==> k in {0, 1, 2, 9, 14})
    && c[0] == Some(10) && c[1] == Some(20) && c[2] == Some(30) && c[9] == Some(40) && c[14] == Some(50)
  }

  lemma SparseEnds(c: seq<Moment>)
    requires Sparse(c)
    ensures [c[0].value] + Ends(Bounds(c)) + [c[14].value] == [10, 20, 30, 10, 40, 50]
  {
    var b := Bounds(c);
    forall k | 0 < k <= 8 ensures Ends(b[..k]) == Ends(b[..k - 1]) + if Wide(b[k - 1].0, b[k - 1].1) then [b[k - 1].0.value, b[k - 1].1.value] else [] {
      assert b[..k][..k - 1] == b[..k - 1];
    }
    assert b[..8] == b && Ends(b[..0]) == [];
    assert Ends(b[..1]) == [20, 30];
    assert Ends(b[..2]) == [20, 30] && Ends(b[..3]) == [20, 30] && Ends(b[..4]) == [20, 30];
    assert Ends(b[..5]) == [20, 30, 10, 40];
    assert Ends(b[..6]) == [20, 30, 10, 40] && Ends(b[..7]) == [20, 30, 10, 40];
  }
}
