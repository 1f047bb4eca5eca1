/** Records to trace events, and what holds of every stream of them. */
module TraceEvents {
  import opened Prelude
  import opened Text
  import opened GcStats

  /** An argument's value: a counter, or the raw bits of a double. */
  datatype ArgValue = Int(v: int) | Float(bits: nat)

  datatype Arg = Arg(key: string, value: ArgValue)

  datatype TraceEvent =
    | ProcessMeta(pid: int, name: string)
    | ThreadMeta(pid: int, tid: int, name: string)
    | Begin(pid: int, tid: int, ts: int, name: string, cat: string, args: seq<Arg>)
    | End(pid: int, tid: int, ts: int, name: string, cat: string)
    | Instant(pid: int, ts: int, name: string)
    | Counter(pid: int, tid: int, ts: int, name: string, args: seq<Arg>)

  function IntText(i: int): string {
    if i < 0 then "-" + Decimal(-i) else Decimal(i)
  }

  /** A sign only below zero, digits that spell the magnitude, and no zero in front of others. */
  lemma {:induction false} IntTextSpells(i: int)
    ensures var t := IntText(i);
      var ds := if i < 0 then t[1..] else t;
      && t != [] && (t[0] == '-' <==> i < 0)
      && AllDigits(ds) && ds != [] && Value(ds) == (if i < 0 then -i else i)
      && (ds[0] == '0' ==> |ds| == 1)
  {
    DecimalSpells(if i < 0 then -i else i);
    NoLeadingZero(if i < 0 then -i else i);
  }

  lemma {:induction false} NoLeadingZero(n: nat)
    ensures Decimal(n) != [] && (Decimal(n)[0] == '0' <==> n == 0)
    decreases n
  {
    if n >= 10 { NoLeadingZero(n / 10); }
  }

  // ---- the sub-steps of a pause ------------------------------------------------------

  datatype Start = Explicit(field: string) | Chained(fields: seq<string>)

  datatype Phase = Phase(title: string, cat: string, start: Start, stop: string, args: seq<string>)

  const PHASES: seq<Phase> := [
    Phase("Mark Alive", "gc.mark.alive", Explicit("ts_mark_alive_start"), "ts_mark_alive_stop", ["alive_size"]),
    Phase("Fill increment", "gc.increment", Explicit("ts_fill_increment_start"), "ts_fill_increment_stop", ["increment_size"]),
    Phase("Deduce Unreachable", "gc.deduce", Explicit("ts_deduce_unreachable_start"), "ts_deduce_unreachable_stop", ["candidates"]),
    Phase("Handle Weakrefs Callbacks", "gc.weakrefs", Explicit("ts_handle_weakref_callbacks_start"), "ts_handle_weakref_callbacks_stop", []),
    Phase("Finalize Garbage", "gc.finalize", Chained(["ts_handle_weakref_callbacks_stop", "ts_deduce_unreachable_stop"]),
          "ts_finalize_garbage_stop", ["finalized_garbage_count"]),
    Phase("Handle Resurrected", "gc.resurrect", Chained(["ts_finalize_garbage_stop"]), "ts_handle_resurrected_stop", []),
    Phase("Clear Weakrefs", "gc.clear_weakrefs", Chained(["ts_handle_resurrected_stop"]), "ts_clear_weakrefs_stop", ["clear_weakrefs_count"]),
    Phase("Delete Garbage", "gc.delete", Explicit("ts_delete_garbage_start"), "ts_delete_garbage_stop", ["deleted_garbage_count"])]

  /** The first of `fields` the build has, else `otherwise`. */
  function FirstPresent(s: GcStat, fields: seq<string>, otherwise: int): int {
    if fields == [] then otherwise
    else if Get(s, fields[0]).Some? then Get(s, fields[0]).value
    else FirstPresent(s, fields[1..], otherwise)
  }

  function StartOf(s: GcStat, start: Start): Option<int> {
    match start
    case Explicit(field) => if Get(s, field).Some? then Some(Get(s, field).value) else None
    case Chained(fields) => Some(FirstPresent(s, fields, GetOrZero(s, "ts_start")))
  }

  function GenName(title: string, generation: nat): string { title + " (gen=" + Decimal(generation) + ")" }

  function GenCat(cat: string, generation: nat): string { cat + "(gen=" + Decimal(generation) + ")" }

  function Identity(s: GcStat): seq<Arg> {
    [Arg("generation", Int(s.generation)), Arg("iid", Int(s.interpreterId))]
  }

  function FieldArgs(s: GcStat, fields: seq<string>): seq<Arg> {
    if fields == [] then [] else [Arg(fields[0], Int(GetOrZero(s, fields[0])))] + FieldArgs(s, fields[1..])
  }

  /** A sub-step as a pair of events, or nothing when the build lacks it or it has no width. */
  function PhaseEvents(pid: int, s: GcStat, p: Phase): seq<TraceEvent> {
    var stop, start := Get(s, p.stop), StartOf(s, p.start);
    if stop.None? || start.None? || stop.value <= start.value then []
    else
      var name, cat := GenName(p.title, s.generation), GenCat(p.cat, s.generation);
      [Begin(pid, s.interpreterId, start.value, name, cat, Identity(s) + FieldArgs(s, p.args)),
       End(pid, s.interpreterId, stop.value, name, cat)]
  }

  function AllPhases(pid: int, s: GcStat, phases: seq<Phase>): seq<TraceEvent> {
    if phases == [] then [] else PhaseEvents(pid, s, phases[0]) + AllPhases(pid, s, phases[1..])
  }

  // ---- one Record ----------------------------------------------------------------------

  function PauseName(s: GcStat): string { GenName("GC Pause", s.generation) }

  function PauseCat(s: GcStat): string { GenCat("gc.pause", s.generation) }

  function PauseBegin(pid: int, s: GcStat): TraceEvent {
    Begin(pid, s.interpreterId, GetOrZero(s, "ts_start"), PauseName(s), PauseCat(s),
          Identity(s) + FieldArgs(s, ["collections", "heap_size", "collected", "uncollectable", "candidates"]))
  }

  function PauseEnd(pid: int, s: GcStat): TraceEvent {
    End(pid, s.interpreterId, GetOrZero(s, "ts_stop"), PauseName(s), PauseCat(s))
  }

  function DurationBits(s: GcStat): nat {
    var off := OffsetIn(s.layout.fields, "duration");
    if off.None? || RawAt(s.bytes, off.value).None? then 0 else RawAt(s.bytes, off.value).value
  }

  /** `uncollectable`, only when there is any. */
  function Uncollectable(s: GcStat): seq<Arg> {
    if GetOrZero(s, "uncollectable") > 0 then [Arg("uncollectable", Int(GetOrZero(s, "uncollectable")))] else []
  }

  function Samples(pid: int, s: GcStat): seq<TraceEvent> {
    var ts := GetOrZero(s, "ts_start");
    [Counter(pid, s.interpreterId, ts, "G" + Decimal(s.generation),
             FieldArgs(s, ["collected", "candidates"]) + [Arg("duration", Float(DurationBits(s)))] + Uncollectable(s)),
     Counter(pid, s.interpreterId, ts, "", FieldArgs(s, ["heap_size"]))]
  }

  function PauseEvents(pid: int, s: GcStat): seq<TraceEvent> {
    [PauseBegin(pid, s)] + AllPhases(pid, s, PHASES) + [PauseEnd(pid, s)] + Samples(pid, s)
  }

  function PresentArgs(s: GcStat, fields: seq<string>): seq<Arg> {
    if fields == [] then []
    else (if Get(s, fields[0]).Some? then [Arg(fields[0], Int(Get(s, fields[0]).value))] else []) + PresentArgs(s, fields[1..])
  }

  function CountEvents(pid: int, s: GcStat, observedAt: int): seq<TraceEvent> {
    var counts := PresentArgs(s, ["collections", "collected"]) + Uncollectable(s);
    if counts == [] then [] else [Counter(pid, s.interpreterId, observedAt, "G" + Decimal(s.generation), counts)]
  }

  function Metadata(pid: int, s: GcStat): seq<TraceEvent> {
    [ProcessMeta(pid, "python " + IntText(pid)),
     ThreadMeta(pid, s.interpreterId, IntText(pid) + ":" + IntText(s.interpreterId))]
  }

  function ConvertRecord(pid: int, s: GcStat, observedAt: int): seq<TraceEvent> {
    var body := if HasTiming(s) then PauseEvents(pid, s) else CountEvents(pid, s, observedAt);
    if body == [] then [] else Metadata(pid, s) + body
  }

  /** The events of a pause, pushed one by one. */
  method PushPauseEvents(pid: int, s: GcStat) returns (events: seq<TraceEvent>)
    ensures events == PauseEvents(pid, s)
  {
    events := [PauseBegin(pid, s)];
    for i := 0 to |PHASES|
      invariant events == [PauseBegin(pid, s)] + AllPhases(pid, s, PHASES[..i])
    {
      var phase := PHASES[i];
      PhasesSnoc(pid, s, PHASES[..i], phase);
      assert PHASES[..i + 1] == PHASES[..i] + [phase];
      var stop := Get(s, phase.stop);
      if stop.None? { continue; }
      var start := StartOf(s, phase.start);
      if start.None? || stop.value <= start.value { continue; }
      var name, cat := GenName(phase.title, s.generation), GenCat(phase.cat, s.generation);
      events := events + [Begin(pid, s.interpreterId, start.value, name, cat, Identity(s) + FieldArgs(s, phase.args)),
                          End(pid, s.interpreterId, stop.value, name, cat)];
    }
    assert PHASES[..|PHASES|] == PHASES;
    events := events + [PauseEnd(pid, s)];
    events := events + Samples(pid, s);
  }

  lemma {:induction false} PhasesSnoc(pid: int, s: GcStat, phases: seq<Phase>, p: Phase)
    ensures AllPhases(pid, s, phases + [p]) == AllPhases(pid, s, phases) + PhaseEvents(pid, s, p)
  {
    if phases == [] {
      assert [] + [p] == [p] && [p][1..] == [];
    } else {
      assert (phases + [p])[0] == phases[0] && (phases + [p])[1..] == phases[1..] + [p];
      PhasesSnoc(pid, s, phases[1..], p);
    }
  }

  // ---- spans: opened and closed in pairs, innermost first --------------------------------

  /** The spans open on a track, innermost first, after a stream; none once a close does not match. */
  function Spans(es: seq<TraceEvent>, pid: int, tid: int, open: seq<(string, string)>): Option<seq<(string, string)>>
    decreases |es|
  {
    if es == [] then Some(open)
    else
      match es[0]
      case Begin(p, t, _, name, cat, _) =>
        Spans(es[1..], pid, tid, if p == pid && t == tid then [(name, cat)] + open else open)
      case End(p, t, _, name, cat) =>
        if p == pid && t == tid then
          if open == [] || open[0] != (name, cat) then None else Spans(es[1..], pid, tid, open[1..])
        else Spans(es[1..], pid, tid, open)
      case _ => Spans(es[1..], pid, tid, open)
  }

  lemma {:induction false} SpansConcat(a: seq<TraceEvent>, b: seq<TraceEvent>, pid: int, tid: int, open: seq<(string, string)>)
    ensures Spans(a + b, pid, tid, open)
         == if Spans(a, pid, tid, open).None? then None else Spans(b, pid, tid, Spans(a, pid, tid, open).value)
    decreases |a|
  {
    if a == [] {
      assert a + b == b;
    } else {
      assert (a + b)[0] == a[0] && (a + b)[1..] == a[1..] + b;
      match a[0]
      case Begin(p, t, _, name, cat, _) =>
        SpansConcat(a[1..], b, pid, tid, if p == pid && t == tid then [(name, cat)] + open else open);
      case End(p, t, _, name, cat) =>
        if p == pid && t == tid {
          if open != [] { SpansConcat(a[1..], b, pid, tid, open[1..]); }
        } else {
          SpansConcat(a[1..], b, pid, tid, open);
        }
      case _ => SpansConcat(a[1..], b, pid, tid, open);
    }
  }

  lemma {:induction false} SpansPair(b: TraceEvent, inner: seq<TraceEvent>, e: TraceEvent, pid: int, tid: int, open: seq<(string, string)>)
    requires b.Begin? && e.End? && b.pid == e.pid && b.tid == e.tid && b.name == e.name && b.cat == e.cat
    requires forall o :: Spans(inner, pid, tid, o) == Some(o)
    ensures Spans([b] + inner + [e], pid, tid, open) == Some(open)
  {
    var mid := if b.pid == pid && b.tid == tid then [(b.name, b.cat)] + open else open;
    assert [b][1..] == [] && [e][1..] == [];
    assert Spans([b], pid, tid, open) == Some(mid);
    SpansConcat([b], inner, pid, tid, open);
    SpansConcat([b] + inner, [e], pid, tid, open);
    if b.pid == pid && b.tid == tid { assert mid[1..] == open; }
  }

  lemma {:induction false} PhasesNest(pid: int, s: GcStat, phases: seq<Phase>, p: int, t: int)
    ensures forall open :: Spans(AllPhases(pid, s, phases), p, t, open) == Some(open)
    decreases |phases|
  {
    if phases != [] {
      PhasesNest(pid, s, phases[1..], p, t);
      var es := PhaseEvents(pid, s, phases[0]);
      forall open ensures Spans(AllPhases(pid, s, phases), p, t, open) == Some(open) {
        PhaseNests(es, p, t, open);
        SpansConcat(es, AllPhases(pid, s, phases[1..]), p, t, open);
      }
    }
  }

  lemma {:induction false} PhaseNests(es: seq<TraceEvent>, p: int, t: int, open: seq<(string, string)>)
    requires es == [] || (|es| == 2 && es[0].Begin? && es[1].End? && es[0].pid == es[1].pid && es[0].tid == es[1].tid
                          && es[0].name == es[1].name && es[0].cat == es[1].cat)
    ensures Spans(es, p, t, open) == Some(open)
  {
    if es != [] {
      SpansPair(es[0], [], es[1], p, t, open);
      assert [es[0]] + [] + [es[1]] == es;
    }
  }

  /** Every Record's events close all they open, pair by pair, on every track, over whatever was open. */
  lemma ConvertNests(pid: int, s: GcStat, observedAt: int, p: int, t: int)
    ensures forall open :: Spans(ConvertRecord(pid, s, observedAt), p, t, open) == Some(open)
  {
    PhasesNest(pid, s, PHASES, p, t);
    forall open ensures Spans(ConvertRecord(pid, s, observedAt), p, t, open) == Some(open) {
      var inner := AllPhases(pid, s, PHASES);
      SpansPair(PauseBegin(pid, s), inner, PauseEnd(pid, s), p, t, open);
      SpansConcat([PauseBegin(pid, s)] + inner + [PauseEnd(pid, s)], Samples(pid, s), p, t, open);
      SpansFree(Samples(pid, s), p, t, open);
      SpansFree(Metadata(pid, s), p, t, open);
      SpansFree(CountEvents(pid, s, observedAt), p, t, open);
      SpansConcat(Metadata(pid, s), PauseEvents(pid, s), p, t, open);
      SpansConcat(Metadata(pid, s), CountEvents(pid, s, observedAt), p, t, open);
    }
  }

  lemma {:induction false} SpansFree(es: seq<TraceEvent>, p: int, t: int, open: seq<(string, string)>)
    requires forall k :: 0 <= k < |es| ==> !es[k].Begin? && !es[k].End?
    ensures Spans(es, p, t, open) == Some(open)
    decreases |es|
  {
    if es != [] { SpansFree(es[1..], p, t, open); }
  }
}
