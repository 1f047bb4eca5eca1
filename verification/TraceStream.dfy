/** The whole path from Records to a closed trace file. */
module TraceStream {
  import opened Prelude
  import opened Text
  import opened Bytes
  import opened GcStats
  import opened Json
  import opened JsonGrammar
  import opened TraceEvents
  import opened ChromeTrace

  /** One Record returned by a poll, with whose it is and when it was read. */
  datatype Sample = Sample(pid: int, stat: GcStat, observedAt: int)

  function Events(s: Sample): seq<TraceEvent> { ConvertRecord(s.pid, s.stat, s.observedAt) }

  /** Every event of a run, in the order the exporter receives them. */
  function Stream(samples: seq<Sample>): seq<TraceEvent> {
    if samples == [] then [] else Stream(samples[..|samples| - 1]) + Events(samples[|samples| - 1])
  }

  // ---- named before use ------------------------------------------------------------------

  lemma HasConcat(a: seq<TraceEvent>, b: seq<TraceEvent>)
    ensures forall p :: HasPid(a, p) || HasPid(b, p) ==> HasPid(a + b, p)
    ensures forall p, t :: HasTid(a, p, t) || HasTid(b, p, t) ==> HasTid(a + b, p, t)
  {
    var ab := a + b;
    assert forall k :: 0 <= k < |a| ==> ab[k] == a[k];
    assert forall k :: 0 <= k < |b| ==> ab[|a| + k] == b[k];
  }

  lemma NamedConcat(a: seq<TraceEvent>, b: seq<TraceEvent>)
    requires NamedFirst(a) && NamedFirst(b)
    ensures NamedFirst(a + b)
  {
    var ab := a + b;
    forall i | 0 <= i < |ab| ensures Introduced(ab[..i], ab[i]) {
      if i < |a| {
        assert ab[..i] == a[..i];
        assert Introduced(a[..i], a[i]);
      } else {
        assert ab[..i] == a + b[..i - |a|];
        HasConcat(a, b[..i - |a|]);
        assert Introduced(b[..i - |a|], b[i - |a|]);
      }
    }
  }

  /** Events of one track, after the metadata that names it. */
  lemma LedByMetadata(meta: seq<TraceEvent>, body: seq<TraceEvent>, pid: int, tid: int)
    requires |meta| == 2 && NamesPid(meta[0], pid) && NamesTid(meta[1], pid, tid)
    requires forall k :: 0 <= k < |body| ==> OnTrack(body[k], pid, tid)
    ensures NamedFirst(meta + body)
  {
    var es := meta + body;
    forall i | 0 <= i < |es| ensures Introduced(es[..i], es[i]) {
      if i >= 1 { assert es[..i][0] == meta[0]; }
      if i >= 2 {
        assert es[..i][1] == meta[1];
        assert OnTrack(body[i - 2], pid, tid);
      }
    }
  }

  predicate OnTrack(e: TraceEvent, pid: int, tid: int) {
    (e.Begin? || e.End? || e.Counter?) && e.pid == pid && e.tid == tid
  }

  lemma {:induction false} PhasesOnTrack(pid: int, s: GcStat, phases: seq<Phase>)
    ensures forall e :: e in AllPhases(pid, s, phases) ==> OnTrack(e, pid, s.interpreterId)
    decreases |phases|
  {
    if phases != [] { PhasesOnTrack(pid, s, phases[1..]); }
  }

  lemma EventsNamed(s: Sample)
    ensures NamedFirst(Events(s))
  {
    PhasesOnTrack(s.pid, s.stat, PHASES);
    var body := if HasTiming(s.stat) then PauseEvents(s.pid, s.stat) else CountEvents(s.pid, s.stat, s.observedAt);
    forall k | 0 <= k < |body| ensures OnTrack(body[k], s.pid, s.stat.interpreterId) {
      assert body[k] in body;
    }
    LedByMetadata(Metadata(s.pid, s.stat), body, s.pid, s.stat.interpreterId);
  }

  lemma {:induction false} StreamNamed(samples: seq<Sample>)
    ensures NamedFirst(Stream(samples))
    decreases |samples|
  {
    if samples != [] {
      StreamNamed(samples[..|samples| - 1]);
      EventsNamed(samples[|samples| - 1]);
      NamedConcat(Stream(samples[..|samples| - 1]), Events(samples[|samples| - 1]));
    }
  }

  lemma {:induction false} StreamNests(samples: seq<Sample>, pid: int, tid: int)
    ensures Spans(Stream(samples), pid, tid, []) == Some([])
    decreases |samples|
  {
    if samples != [] {
      var last := samples[|samples| - 1];
      StreamNests(samples[..|samples| - 1], pid, tid);
      ConvertNests(last.pid, last.stat, last.observedAt, pid, tid);
      SpansConcat(Stream(samples[..|samples| - 1]), Events(last), pid, tid, []);
    }
  }

  // ---- nothing needs escaping -------------------------------------------------------------

  lemma {:induction false} DecimalStart(n: nat)
    ensures IsIntPart(Decimal(n))
    decreases n
  {
    DecimalSpells(n);
    if n >= 10 {
      DecimalStart(n / 10);
      assert Decimal(n)[0] == Decimal(n / 10)[0];
      if n / 10 >= 10 { LongDecimal(n / 10); }
    }
  }

  lemma {:induction false} LongDecimal(n: nat)
    requires n >= 10
    ensures |Decimal(n)| > 1
  {
    DecimalSpells(n / 10);
  }

  lemma NumeralIsNumber(t: string)
    requires IsIntPart(t)
    ensures IsNumber(t) && IsNumber("-" + t)
  {
    assert t[0] != '-' && t[..|t|] == t;
    var u := ("-" + t)[1..];
    assert u == t && IsIntPart(u[..|u|]);
  }

  lemma IntIsNumber(i: int)
    ensures IsNumber(IntText(i)) && PlainText(IntText(i))
  {
    DecimalStart(if i < 0 then -i else i);
    NumeralIsNumber(Decimal(if i < 0 then -i else i));
  }

  /** A field that prints as it stands. */
  predicate CleanField(f: Field) { PlainText(f.0) && Clean(f.1) }

  lemma {:induction false} FieldsClean(fields: seq<Field>)
    requires forall k :: 0 <= k < |fields| ==> CleanField(fields[k])
    ensures CleanMembers(MembersOf(fields))
    decreases |fields|
  {
    if fields != [] { FieldsClean(fields[1..]); }
  }

  predicate CleanArg(a: Arg, show: FloatText) {
    PlainText(a.key) && (a.value.Float? ==> IsNumber(show(a.value.bits)))
  }

  lemma {:induction false} ArgsClean(args: seq<Arg>, show: FloatText)
    requires forall k :: 0 <= k < |args| ==> CleanArg(args[k], show)
    ensures CleanMembers(MembersOf(ArgFields(args, show)))
    decreases |args|
  {
    if args != [] {
      ArgsClean(args[1..], show);
      if args[0].value.Int? { IntIsNumber(args[0].value.v); }
      assert ArgFields(args, show)[1..] == ArgFields(args[1..], show);
    }
  }

  /** What an event must be for its text to read back: plain names, and doubles that print as numbers. */
  predicate Printable(e: TraceEvent, show: FloatText) {
    && PlainText(e.name)
    && (e.Begin? || e.End? ==> PlainText(e.cat))
    && (e.Begin? || e.Counter? ==> forall k :: 0 <= k < |e.args| ==> CleanArg(e.args[k], show))
  }

  lemma PrintableIsClean(e: TraceEvent, show: FloatText)
    requires Printable(e, show)
    ensures Clean(JsonOf(e, show))
  {
    IntIsNumber(e.pid);
    if !e.ProcessMeta? && !e.Instant? { IntIsNumber(e.tid); }
    if !e.ProcessMeta? && !e.ThreadMeta? { IntIsNumber(TsUs(e.ts)); }
    if e.Begin? || e.Counter? { ArgsClean(e.args, show); }
    if e.ProcessMeta? || e.ThreadMeta? { FieldsClean([StrField("name", e.name)]); }
    var fields := FieldsOf(e, show);
    KeysPlain();
    forall k | 0 <= k < |fields| ensures CleanField(fields[k]) {}
    FieldsClean(fields);
  }

  lemma KeysPlain()
    ensures PlainText("ph") && PlainText("pid") && PlainText("tid") && PlainText("ts") && PlainText("name") && PlainText("cat")
    ensures PlainText("args") && PlainText("s") && PlainText("M") && PlainText("B") && PlainText("E") && PlainText("I")
    ensures PlainText("p") && PlainText("C") && PlainText("process_name") && PlainText("thread_name")
  {}

  lemma PlainConcat(a: string, b: string)
    requires PlainText(a) && PlainText(b)
    ensures PlainText(a + b)
  {}

  lemma {:induction false} DecimalPlain(n: nat)
    ensures PlainText(Decimal(n))
  {
    DecimalSpells(n);
  }

  lemma GenNamesPlain(title: string, cat: string, generation: nat)
    requires PlainText(title) && PlainText(cat)
    ensures PlainText(GenName(title, generation)) && PlainText(GenCat(cat, generation))
  {
    DecimalPlain(generation);
    assert PlainText(" (gen=") && PlainText("(gen=") && PlainText(")");
  }

  predicate PlainPhase(p: Phase) {
    PlainText(p.title) && PlainText(p.cat) && forall k :: 0 <= k < |p.args| ==> PlainText(p.args[k])
  }

  lemma MarkAlivePlain()
    ensures PlainPhase(PHASES[0])
  {
    assert PlainText("Mark Alive") && PlainText("gc.mark.alive") && PlainText("alive_size");
  }

  lemma FillIncrementPlain()
    ensures PlainPhase(PHASES[1])
  {
    assert PlainText("Fill increment") && PlainText("gc.increment") && PlainText("increment_size");
  }

  lemma DeduceUnreachablePlain()
    ensures PlainPhase(PHASES[2])
  {
    assert PlainText("Deduce Unreachable") && PlainText("gc.deduce") && PlainText("candidates");
  }

  lemma HandleWeakrefsPlain()
    ensures PlainPhase(PHASES[3])
  {
    assert PlainText("Handle Weakrefs") && PlainText(" Callbacks") && PlainText("gc.weakrefs");
    PlainConcat("Handle Weakrefs", " Callbacks");
    assert "Handle Weakrefs" + " Callbacks" == "Handle Weakrefs Callbacks";
  }

  lemma FinalizeGarbagePlain()
    ensures PlainPhase(PHASES[4])
  {
    assert PlainText("Finalize Garbage") && PlainText("gc.finalize") && PlainText("finalized_garbage_count");
  }

  lemma HandleResurrectedPlain()
    ensures PlainPhase(PHASES[5])
  {
    assert PlainText("Handle Resurrected") && PlainText("gc.resurrect");
  }

  lemma ClearWeakrefsPlain()
    ensures PlainPhase(PHASES[6])
  {
    assert PlainText("Clear Weakrefs") && PlainText("gc.clear_weakrefs") && PlainText("clear_weakrefs_count");
  }

  lemma DeleteGarbagePlain()
    ensures PlainPhase(PHASES[7])
  {
    assert PlainText("Delete Garbage") && PlainText("gc.delete") && PlainText("deleted_garbage_count");
  }

  lemma PhasesPlain()
    ensures forall k :: 0 <= k < |PHASES| ==> PlainPhase(PHASES[k])
  {
    MarkAlivePlain();
    FillIncrementPlain();
    DeduceUnreachablePlain();
    HandleWeakrefsPlain();
    FinalizeGarbagePlain();
    HandleResurrectedPlain();
    ClearWeakrefsPlain();
    DeleteGarbagePlain();
  }

  ghost predicate AllPrintable(es: seq<TraceEvent>, show: FloatText) {
    forall k :: 0 <= k < |es| ==> Printable(es[k], show)
  }

  lemma {:induction false} FieldArgsClean(s: GcStat, fields: seq<string>, show: FloatText)
    requires forall k :: 0 <= k < |fields| ==> PlainText(fields[k])
    ensures forall k :: 0 <= k < |FieldArgs(s, fields)| ==> CleanArg(FieldArgs(s, fields)[k], show)
    decreases |fields|
  {
    if fields != [] { FieldArgsClean(s, fields[1..], show); }
  }

  lemma {:induction false} PresentArgsClean(s: GcStat, fields: seq<string>, show: FloatText)
    requires forall k :: 0 <= k < |fields| ==> PlainText(fields[k])
    ensures forall k :: 0 <= k < |PresentArgs(s, fields)| ==> CleanArg(PresentArgs(s, fields)[k], show)
    decreases |fields|
  {
    if fields != [] { PresentArgsClean(s, fields[1..], show); }
  }

  lemma PhasePrintable(pid: int, s: GcStat, p: Phase, show: FloatText)
    requires PlainPhase(p)
    ensures AllPrintable(PhaseEvents(pid, s, p), show)
  {
    GenNamesPlain(p.title, p.cat, s.generation);
    FieldArgsClean(s, p.args, show);
    assert PlainText("generation") && PlainText("iid");
  }

  lemma {:induction false} PhasesPrintable(pid: int, s: GcStat, phases: seq<Phase>, show: FloatText)
    requires forall k :: 0 <= k < |phases| ==> PlainPhase(phases[k])
    ensures AllPrintable(AllPhases(pid, s, phases), show)
    decreases |phases|
  {
    if phases != [] {
      PhasePrintable(pid, s, phases[0], show);
      PhasesPrintable(pid, s, phases[1..], show);
    }
  }

  lemma CorePlain()
    ensures PlainText("collections") && PlainText("heap_size") && PlainText("collected") && PlainText("uncollectable")
    ensures PlainText("candidates") && PlainText("duration") && PlainText("generation") && PlainText("iid")
    ensures PlainText("GC Pause") && PlainText("gc.pause") && PlainText("G") && PlainText("") && PlainText("python ") && PlainText(":")
  {}

  lemma BoundsPrintable(pid: int, s: GcStat, show: FloatText)
    ensures Printable(PauseBegin(pid, s), show) && Printable(PauseEnd(pid, s), show)
  {
    CorePlain();
    GenNamesPlain("GC Pause", "gc.pause", s.generation);
    FieldArgsClean(s, ["collections", "heap_size", "collected", "uncollectable", "candidates"], show);
  }

  lemma {:induction false} SamplesPrintable(pid: int, s: GcStat, show: FloatText)
    requires IsNumber(show(DurationBits(s)))
    ensures AllPrintable(Samples(pid, s), show)
  {
    CorePlain();
    DecimalPlain(s.generation);
    PlainConcat("G", Decimal(s.generation));
    FieldArgsClean(s, ["collected", "candidates"], show);
    FieldArgsClean(s, ["heap_size"], show);
  }

  lemma CountsPrintable(pid: int, s: GcStat, observedAt: int, show: FloatText)
    ensures AllPrintable(CountEvents(pid, s, observedAt), show)
  {
    CorePlain();
    DecimalPlain(s.generation);
    PlainConcat("G", Decimal(s.generation));
    PresentArgsClean(s, ["collections", "collected"], show);
  }

  lemma MetadataPrintable(pid: int, s: GcStat, show: FloatText)
    ensures AllPrintable(Metadata(pid, s), show)
  {
    CorePlain();
    IntIsNumber(pid);
    IntIsNumber(s.interpreterId);
    PlainConcat("python ", IntText(pid));
    PlainConcat(IntText(pid), ":");
    PlainConcat(IntText(pid) + ":", IntText(s.interpreterId));
  }

  lemma PausePrintable(pid: int, s: GcStat, show: FloatText)
    requires IsNumber(show(DurationBits(s)))
    ensures AllPrintable(PauseEvents(pid, s), show)
  {
    PhasesPlain();
    BoundsPrintable(pid, s, show);
    PhasesPrintable(pid, s, PHASES, show);
    SamplesPrintable(pid, s, show);
    JoinPrintable([PauseBegin(pid, s)], AllPhases(pid, s, PHASES), show);
    JoinPrintable([PauseBegin(pid, s)] + AllPhases(pid, s, PHASES), [PauseEnd(pid, s)], show);
    JoinPrintable([PauseBegin(pid, s)] + AllPhases(pid, s, PHASES) + [PauseEnd(pid, s)], Samples(pid, s), show);
  }

  lemma JoinPrintable(a: seq<TraceEvent>, b: seq<TraceEvent>, show: FloatText)
    requires AllPrintable(a, show) && AllPrintable(b, show)
    ensures AllPrintable(a + b, show)
  {}

  /** Whether the one double a Record puts in the trace prints as a number. */
  predicate PricedOk(s: Sample, show: FloatText) {
    HasTiming(s.stat) ==> IsNumber(show(DurationBits(s.stat)))
  }

  lemma EventsPrintable(s: Sample, show: FloatText)
    requires PricedOk(s, show)
    ensures AllPrintable(Events(s), show)
  {
    MetadataPrintable(s.pid, s.stat, show);
    if HasTiming(s.stat) {
      PausePrintable(s.pid, s.stat, show);
    } else {
      CountsPrintable(s.pid, s.stat, s.observedAt, show);
    }
  }

  lemma {:induction false} StreamPrintable(samples: seq<Sample>, show: FloatText)
    requires forall k :: 0 <= k < |samples| ==> PricedOk(samples[k], show)
    ensures AllPrintable(Stream(samples), show)
    decreases |samples|
  {
    if samples != [] {
      StreamPrintable(samples[..|samples| - 1], show);
      EventsPrintable(samples[|samples| - 1], show);
    }
  }

  lemma {:induction false} KeptPrintable(es: seq<TraceEvent>, show: FloatText)
    requires AllPrintable(es, show)
    ensures AllPrintable(Kept(es), show)
    decreases |es|
  {
    if es != [] { KeptPrintable(es[..|es| - 1], show); }
  }

  /**
   For every run of Records: what is written names each process and track once, before its first
   use, closes every span it opens on every track, and drops nothing but repeated names.
   */
  lemma {:induction false} TraceIsOrderly(samples: seq<Sample>, pid: int, tid: int)
    ensures var kept := Kept(Stream(samples));
      && NamedOnce(kept) && NamedFirst(kept)
      && Spans(kept, pid, tid, []) == Some([])
      && Filter((e: TraceEvent) => !IsMeta(e), kept) == Filter((e: TraceEvent) => !IsMeta(e), Stream(samples))
  {
    StreamNamed(samples);
    KeptNamedOnce(Stream(samples));
    KeptNamedFirst(Stream(samples));
    StreamNests(samples, pid, tid);
    KeptSpans(Stream(samples), pid, tid, []);
    KeptEvents(Stream(samples));
  }

  lemma {:induction false} StreamClean(samples: seq<Sample>, show: FloatText)
    requires forall k :: 0 <= k < |samples| ==> PricedOk(samples[k], show)
    ensures AllClean(Kept(Stream(samples)), show)
  {
    StreamPrintable(samples, show);
    KeptPrintable(Stream(samples), show);
    AllPrintableClean(Kept(Stream(samples)), show);
  }

  lemma AllPrintableClean(es: seq<TraceEvent>, show: FloatText)
    requires AllPrintable(es, show)
    ensures AllClean(es, show)
  {
    forall k | 0 <= k < |es| ensures Clean(JsonOf(es[k], show)) { PrintableIsClean(es[k], show); }
  }

  lemma {:induction false} TraceReadsBack(samples: seq<Sample>, show: FloatText)
    requires forall k :: 0 <= k < |samples| ==> PricedOk(samples[k], show)
    ensures ParseDocument(ClosedText(Kept(Stream(samples)), show)) == Some(Jsons(Kept(Stream(samples)), show))
  {
    StreamClean(samples, show);
    ClosedReadsBackIff(Kept(Stream(samples)), show);
  }

  lemma {:induction false} FieldClean(fields: seq<Field>, k: nat)
    requires CleanMembers(MembersOf(fields)) && k < |fields|
    ensures CleanField(fields[k])
    decreases k
  {
    if k > 0 { FieldClean(fields[1..], k - 1); }
  }

  lemma {:induction false} ArgFieldAt(args: seq<Arg>, show: FloatText, k: nat)
    requires k < |args|
    ensures |ArgFields(args, show)| == |args| && ArgFields(args, show)[k] == ArgField(args[k], show)
    decreases |args|
  {
    if |args| > 1 { ArgFieldAt(args[1..], show, if k > 0 then k - 1 else 0); }
  }

  lemma {:induction false} FieldArgsSize(s: GcStat, fields: seq<string>)
    ensures |FieldArgs(s, fields)| == |fields|
    decreases |fields|
  {
    if fields != [] { FieldArgsSize(s, fields[1..]); }
  }

  /** The sample that carries a pause's duration. */
  function DurationSample(pid: int, s: GcStat): TraceEvent { Samples(pid, s)[0] }

  lemma DurationArg(pid: int, s: GcStat)
    ensures var e := DurationSample(pid, s); e.Counter? && |e.args| > 2 && e.args[2] == Arg("duration", Float(DurationBits(s)))
  {
    var counts := FieldArgs(s, ["collected", "candidates"]);
    FieldArgsSize(s, ["collected", "candidates"]);
    assert (counts + [Arg("duration", Float(DurationBits(s)))] + Uncollectable(s))[2] == Arg("duration", Float(DurationBits(s)));
  }

  lemma CounterArgsClean(e: TraceEvent, show: FloatText, k: nat)
    requires e.Counter? && k < |e.args| && e.args[k].value.Float? && Clean(JsonOf(e, show))
    ensures IsNumber(show(e.args[k].value.bits))
  {
    var fields := FieldsOf(e, show);
    assert |fields| == 6 && fields[5] == ObjField("args", ArgFields(e.args, show));
    FieldClean(fields, 5);
    ArgFieldAt(e.args, show, k);
    FieldClean(ArgFields(e.args, show), k);
  }

  lemma DurationShows(pid: int, s: GcStat, show: FloatText)
    requires Clean(JsonOf(DurationSample(pid, s), show))
    ensures IsNumber(show(DurationBits(s)))
  {
    DurationArg(pid, s);
    CounterArgsClean(DurationSample(pid, s), show, 2);
  }

  lemma SampleIsEvent(pid: int, s: GcStat)
    ensures DurationSample(pid, s) in PauseEvents(pid, s)
  {
    var before := [PauseBegin(pid, s)] + AllPhases(pid, s, PHASES) + [PauseEnd(pid, s)];
    assert (before + Samples(pid, s))[|before|] == Samples(pid, s)[0];
  }

  lemma SampleInEvents(s: Sample)
    requires HasTiming(s.stat)
    ensures DurationSample(s.pid, s.stat) in Events(s) && !IsMeta(DurationSample(s.pid, s.stat))
  {
    SampleIsEvent(s.pid, s.stat);
  }

  lemma {:induction false} KeptHas(es: seq<TraceEvent>, e: TraceEvent)
    requires e in es && !IsMeta(e)
    ensures e in Kept(es)
    decreases |es|
  {
    if e != es[|es| - 1] { KeptHas(es[..|es| - 1], e); }
  }

  lemma {:induction false} DurationKept(samples: seq<Sample>, k: nat, e: TraceEvent)
    requires k < |samples| && e in Events(samples[k]) && !IsMeta(e)
    ensures e in Kept(Stream(samples))
  {
    StreamHas(samples, k, e);
    KeptHas(Stream(samples), e);
  }

  predicate HasSample(es: seq<TraceEvent>, pid: int, s: GcStat) { DurationSample(pid, s) in es }

  lemma {:induction false} UnpricedIsUnclean(samples: seq<Sample>, show: FloatText, k: nat)
    requires k < |samples| && !PricedOk(samples[k], show)
    ensures !AllClean(Kept(Stream(samples)), show)
  {
    SampleKept(samples, k);
    MemberUnclean(Kept(Stream(samples)), show, samples[k]);
  }

  lemma {:induction false} SampleKept(samples: seq<Sample>, k: nat)
    requires k < |samples| && HasTiming(samples[k].stat)
    ensures HasSample(Kept(Stream(samples)), samples[k].pid, samples[k].stat)
  {
    SampleInEvents(samples[k]);
    DurationKept(samples, k, DurationSample(samples[k].pid, samples[k].stat));
  }

  lemma MemberUnclean(kept: seq<TraceEvent>, show: FloatText, s: Sample)
    requires HasSample(kept, s.pid, s.stat) && !PricedOk(s, show)
    ensures !AllClean(kept, show)
  {
    var e := DurationSample(s.pid, s.stat);
    var j :| 0 <= j < |kept| && kept[j] == e;
    if Clean(JsonOf(kept[j], show)) { DurationShows(s.pid, s.stat, show); }
  }

  lemma {:induction false} StreamHas(samples: seq<Sample>, k: nat, e: TraceEvent)
    requires k < |samples| && e in Events(samples[k])
    ensures e in Stream(samples)
    decreases |samples|
  {
    if k < |samples| - 1 { StreamHas(samples[..|samples| - 1], k, e); }
  }

  // ---- durations that are no number ----------------------------------------------------------

  const EXPONENT_UNIT: nat := 0x10_0000_0000_0000
  const EXPONENTS: nat := 0x800

  /** A double whose exponent bits are all ones: an infinity, or not a number. */
  predicate AllOnes(bits: nat) { bits / EXPONENT_UNIT % EXPONENTS == EXPONENTS - 1 }

  /** How doubles print: such a one as a word, every other as a decimal. */
  ghost predicate PrintsDoubles(show: FloatText) {
    forall bits :: if AllOnes(bits) then IsNonNumber(show(bits)) else IsNumber(show(bits))
  }

  /** The trace holds this Record's duration, and it is no number. */
  predicate Unpriced(s: Sample) { HasTiming(s.stat) && AllOnes(DurationBits(s.stat)) }

  lemma {:induction false} UnpricedShows(s: Sample, show: FloatText)
    requires PrintsDoubles(show)
    ensures Unpriced(s) <==> !PricedOk(s, show)
  {
    if AllOnes(DurationBits(s.stat)) {
      NonNumberIsNone(show(DurationBits(s.stat)));
    }
  }

  // ---- with plain names, what prints is legible ------------------------------------------------

  predicate LegibleField(f: Field) { PlainText(f.0) && Legible(f.1) }

  lemma {:induction false} FieldsLegible(fields: seq<Field>)
    requires forall k :: 0 <= k < |fields| ==> LegibleField(fields[k])
    ensures LegibleMembers(MembersOf(fields))
    decreases |fields|
  {
    if fields != [] { FieldsLegible(fields[1..]); }
  }

  lemma {:induction false} ArgsLegible(args: seq<Arg>, show: FloatText)
    requires PrintsDoubles(show) && forall k :: 0 <= k < |args| ==> PlainText(args[k].key)
    ensures LegibleMembers(MembersOf(ArgFields(args, show)))
    decreases |args|
  {
    if args != [] {
      ArgsLegible(args[1..], show);
      if args[0].value.Int? { IntIsNumber(args[0].value.v); }
      assert ArgFields(args, show)[1..] == ArgFields(args[1..], show);
    }
  }

  /** What prints every double as zero: with it, only names can go wrong. */
  function ZeroText(): FloatText { (bits: nat) => "0" }

  lemma {:induction false} PrintableIsLegible(e: TraceEvent, show: FloatText)
    requires PrintsDoubles(show) && Printable(e, ZeroText())
    ensures Legible(JsonOf(e, show))
  {
    IntIsNumber(e.pid);
    if !e.ProcessMeta? && !e.Instant? { IntIsNumber(e.tid); }
    if !e.ProcessMeta? && !e.ThreadMeta? { IntIsNumber(TsUs(e.ts)); }
    if e.Begin? || e.Counter? { ArgsLegible(e.args, show); }
    if e.ProcessMeta? || e.ThreadMeta? { FieldsLegible([StrField("name", e.name)]); }
    var fields := FieldsOf(e, show);
    KeysPlain();
    forall k | 0 <= k < |fields| ensures LegibleField(fields[k]) {}
    FieldsLegible(fields);
  }

  ghost predicate AllLegible(kept: seq<TraceEvent>, show: FloatText) {
    forall k :: 0 <= k < |kept| ==> Legible(JsonOf(kept[k], show))
  }

  lemma {:induction false} AllPrintableLegible(es: seq<TraceEvent>, show: FloatText)
    requires PrintsDoubles(show) && AllPrintable(es, ZeroText())
    ensures AllLegible(es, show)
  {
    forall k | 0 <= k < |es| ensures Legible(JsonOf(es[k], show)) { PrintableIsLegible(es[k], show); }
  }

  lemma {:induction false} StreamLegible(samples: seq<Sample>, show: FloatText)
    requires PrintsDoubles(show)
    ensures AllLegible(Kept(Stream(samples)), show)
  {
    NumeralIsNumber("0");
    forall i | 0 <= i < |samples| ensures PricedOk(samples[i], ZeroText()) {}
    StreamPrintable(samples, ZeroText());
    KeptPrintable(Stream(samples), ZeroText());
    AllPrintableLegible(Kept(Stream(samples)), show);
  }

  /** As a text: whoever reads it, the closed file is JSON if and only if no such Record is in it. */
  lemma {:induction false} TraceIsJsonIff(samples: seq<Sample>, show: FloatText)
    requires PrintsDoubles(show)
    ensures IsJson(ClosedText(Kept(Stream(samples)), show)) <==> !exists k :: 0 <= k < |samples| && Unpriced(samples[k])
  {
    var kept := Kept(Stream(samples));
    StreamLegible(samples, show);
    if k :| 0 <= k < |samples| && Unpriced(samples[k]) {
      UnpricedShows(samples[k], show);
      UnpricedIsUnclean(samples, show, k);
    } else {
      forall k | 0 <= k < |samples| ensures PricedOk(samples[k], show) { UnpricedShows(samples[k], show); }
      StreamClean(samples, show);
    }
    CleanIsJsonIff(kept, show);
  }

  lemma CleanIsJsonIff(kept: seq<TraceEvent>, show: FloatText)
    requires AllLegible(kept, show)
    ensures IsJson(ClosedText(kept, show)) <==> AllClean(kept, show)
  {
    if kept == [] {
      EmptyIsJson();
    } else {
      BodyIsItems(kept, show, "\n]");
      if AllClean(kept, show) {
        DocumentIsJson(Jsons(kept, show));
      } else {
        var i :| 0 <= i < |kept| && !Clean(JsonOf(kept[i], show));
        DocumentIsNoJson(Jsons(kept, show), i);
      }
    }
  }

  /**
   Read back, it gives exactly the events written, or, some such Record being in it, nothing at all.
   */
  lemma {:induction false} TraceReadsBackIff(samples: seq<Sample>, show: FloatText)
    requires PrintsDoubles(show)
    ensures var text := ClosedText(Kept(Stream(samples)), show);
      if exists k :: 0 <= k < |samples| && Unpriced(samples[k]) then ParseDocument(text) == None
      else ParseDocument(text) == Some(Jsons(Kept(Stream(samples)), show))
  {
    if exists k :: 0 <= k < |samples| && Unpriced(samples[k]) {
      TraceIsJsonIff(samples, show);
      if ParseDocument(ClosedText(Kept(Stream(samples)), show)).Some? { AcceptedIsJson(ClosedText(Kept(Stream(samples)), show)); }
    } else {
      forall k | 0 <= k < |samples| ensures PricedOk(samples[k], show) { UnpricedShows(samples[k], show); }
      TraceReadsBack(samples, show);
    }
  }

  // ---- such a Record -------------------------------------------------------------------------

  const TIMED_LAYOUT := ItemLayout(24, [("ts_start", 0), ("ts_stop", 8), ("duration", 16)])

  /** A finished Collection as any bits in its duration field make it. */
  function Carrying(bits: nat): Sample
    requires bits < TWO_64
  {
    Sample(1, GcStat(0, 0, 0, Word(1) + Word(2) + ToLittleEndian(bits, WORD_BYTES), TIMED_LAYOUT), 0)
  }

  lemma TimedOffsets()
    ensures var f := TIMED_LAYOUT.fields;
      OffsetIn(f, "ts_start") == Some(0) && OffsetIn(f, "ts_stop") == Some(8) && OffsetIn(f, "duration") == Some(16)
    ensures Has(TIMED_LAYOUT, "ts_start") && Has(TIMED_LAYOUT, "ts_stop")
  {
    var f := TIMED_LAYOUT.fields;
    assert f[0].0 == "ts_start" && f[1].0 == "ts_stop";
    assert OffsetIn(f[1..], "ts_stop") == Some(8) && OffsetIn(f[2..], "duration") == Some(16);
    assert f[1..][1..] == f[2..];
  }

  lemma CarryingWords(bits: nat)
    requires bits < TWO_64
    ensures var bytes := Carrying(bits).stat.bytes;
      RawAt(bytes, 0) == Some(1) && RawAt(bytes, 8) == Some(2) && RawAt(bytes, 16) == Some(bits)
  {
    var bytes := Carrying(bits).stat.bytes;
    EightBytes();
    LittleEndianRoundTrip(bits, WORD_BYTES);
    LittleEndianRoundTrip(1, WORD_BYTES);
    LittleEndianRoundTrip(2, WORD_BYTES);
    assert bytes[0..8] == Word(1) && bytes[8..16] == Word(2) && bytes[16..24] == ToLittleEndian(bits, WORD_BYTES);
  }

  lemma CarryingIsTimed(bits: nat)
    requires bits < TWO_64
    ensures var s := Carrying(bits).stat; HasTiming(s) && IsComplete(s) && DurationBits(s) == bits
  {
    TimedOffsets();
    CarryingWords(bits);
  }

  const INFINITY_BITS: nat := 0x7ff0_0000_0000_0000

  lemma CarryingInfinity()
    ensures Unpriced(Carrying(INFINITY_BITS)) && IsComplete(Carrying(INFINITY_BITS).stat)
  {
    CarryingIsTimed(INFINITY_BITS);
    assert INFINITY_BITS / EXPONENT_UNIT == EXPONENTS - 1;
  }

  /** One finished Collection whose duration reads as an infinity, and the file is no JSON text, whatever else it holds. */
  lemma {:induction false} InfinityIsNoJson(samples: seq<Sample>, k: nat, show: FloatText)
    requires PrintsDoubles(show) && k < |samples| && samples[k] == Carrying(INFINITY_BITS)
    ensures IsComplete(samples[k].stat) && !IsJson(ClosedText(Kept(Stream(samples)), show))
  {
    CarryingInfinity();
    TraceIsJsonIff(samples, show);
  }
}
