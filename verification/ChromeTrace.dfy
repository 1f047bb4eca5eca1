/** The Chrome Trace encoder: a stream of events in batches, one JSON array out. */
module ChromeTrace {
  import opened Prelude
  import opened Json
  import opened TraceEvents

  /** Nanoseconds to microseconds, truncating toward zero. */
  function TsUs(ns: int): int { if ns >= 0 then ns / 1000 else -((-ns) / 1000) }

  /** Truncation never inverts a pair, and loses less than a microsecond, toward zero. */
  lemma TsUsOrder(a: int, b: int)
    requires a <= b
    ensures TsUs(a) <= TsUs(b)
    ensures -1000 < a - 1000 * TsUs(a) < 1000 && (a >= 0 ==> 0 <= 1000 * TsUs(a) <= a) && (a <= 0 ==> a <= 1000 * TsUs(a) <= 0)
  {}

  /** How a double's bits print. What they mean is not this module's concern. */
  type FloatText = nat -> string

  type Field = (string, Json)

  function IntField(key: string, i: int): Field { (key, Num(IntText(i))) }

  function StrField(key: string, text: string): Field { (key, Str(text)) }

  function ObjField(key: string, fields: seq<Field>): Field { (key, Object(fields)) }

  function MembersOf(fields: seq<Field>): Members {
    if fields == [] then NoMore else Member(fields[0].0, fields[0].1, MembersOf(fields[1..]))
  }

  function Object(fields: seq<Field>): Json { Obj(MembersOf(fields)) }

  function ArgField(a: Arg, show: FloatText): Field {
    match a.value
    case Int(v) => IntField(a.key, v)
    case Float(bits) => (a.key, Num(show(bits)))
  }

  function ArgFields(args: seq<Arg>, show: FloatText): seq<Field> {
    if args == [] then [] else [ArgField(args[0], show)] + ArgFields(args[1..], show)
  }

  /** One event's keys and values, in the order the format has always had them. */
  function FieldsOf(e: TraceEvent, show: FloatText): seq<Field> {
    match e
    case ProcessMeta(pid, name) =>
      [StrField("ph", "M"), IntField("pid", pid), StrField("name", "process_name"), ObjField("args", [StrField("name", name)])]
    case ThreadMeta(pid, tid, name) =>
      [StrField("ph", "M"), IntField("pid", pid), IntField("tid", tid), StrField("name", "thread_name"),
       ObjField("args", [StrField("name", name)])]
    case Begin(pid, tid, ts, name, cat, args) =>
      [StrField("ph", "B"), IntField("pid", pid), IntField("tid", tid), IntField("ts", TsUs(ts)), StrField("name", name),
       StrField("cat", cat), ObjField("args", ArgFields(args, show))]
    case End(pid, tid, ts, name, cat) =>
      [StrField("ph", "E"), IntField("pid", pid), IntField("tid", tid), IntField("ts", TsUs(ts)), StrField("name", name),
       StrField("cat", cat)]
    case Instant(pid, ts, name) =>
      [StrField("name", name), StrField("ph", "I"), StrField("s", "p"), IntField("ts", TsUs(ts)), IntField("pid", pid)]
    case Counter(pid, tid, ts, name, args) =>
      [StrField("name", name), StrField("ph", "C"), IntField("ts", TsUs(ts)), IntField("pid", pid), IntField("tid", tid),
       ObjField("args", ArgFields(args, show))]
  }

  function JsonOf(e: TraceEvent, show: FloatText): (j: Json)
    ensures j.Obj?
  {
    Object(FieldsOf(e, show))
  }

  function Encode(e: TraceEvent, show: FloatText): string { Print(JsonOf(e, show)) }

  // ---- repeated metadata ----------------------------------------------------------------

  predicate NamesPid(e: TraceEvent, pid: int) { e.ProcessMeta? && e.pid == pid }

  predicate NamesTid(e: TraceEvent, pid: int, tid: int) { e.ThreadMeta? && e.pid == pid && e.tid == tid }

  predicate HasPid(es: seq<TraceEvent>, pid: int) { exists k :: 0 <= k < |es| && NamesPid(es[k], pid) }

  predicate HasTid(es: seq<TraceEvent>, pid: int, tid: int) { exists k :: 0 <= k < |es| && NamesTid(es[k], pid, tid) }

  /** Metadata that `es` already gave for the same process or track. */
  predicate Repeats(es: seq<TraceEvent>, e: TraceEvent) {
    match e
    case ProcessMeta(pid, _) => HasPid(es, pid)
    case ThreadMeta(pid, tid, _) => HasTid(es, pid, tid)
    case _ => false
  }

  /** The events of a stream, each but the first naming of a process or track. */
  function Kept(es: seq<TraceEvent>): seq<TraceEvent> {
    if es == [] then []
    else
      var init, last := es[..|es| - 1], es[|es| - 1];
      if Repeats(init, last) then Kept(init) else Kept(init) + [last]
  }

  lemma {:induction false} KeptSnoc(es: seq<TraceEvent>, e: TraceEvent)
    ensures Kept(es + [e]) == if Repeats(es, e) then Kept(es) else Kept(es) + [e]
  {
    assert (es + [e])[..|es|] == es;
  }

  lemma {:induction false} KeptNames(es: seq<TraceEvent>)
    ensures forall p :: HasPid(Kept(es), p) <==> HasPid(es, p)
    ensures forall p, t :: HasTid(Kept(es), p, t) <==> HasTid(es, p, t)
    decreases |es|
  {
    if es != [] {
      var init, last := es[..|es| - 1], es[|es| - 1];
      KeptNames(init);
      assert es == init + [last];
      HasSnoc(init, last);
      HasSnoc(Kept(init), last);
    }
  }

  lemma HasSnoc(es: seq<TraceEvent>, e: TraceEvent)
    ensures forall p :: HasPid(es + [e], p) <==> HasPid(es, p) || NamesPid(e, p)
    ensures forall p, t :: HasTid(es + [e], p, t) <==> HasTid(es, p, t) || NamesTid(e, p, t)
  {
    var more := es + [e];
    assert more[|es|] == e && forall k :: 0 <= k < |es| ==> more[k] == es[k];
  }

  /** No process and no track is named twice. */
  ghost predicate NamedOnce(es: seq<TraceEvent>) {
    forall i :: 0 <= i < |es| ==> !Repeats(es[..i], es[i])
  }

  /** Whether the naming `e` needs is in `es`. */
  predicate Introduced(es: seq<TraceEvent>, e: TraceEvent) {
    match e
    case ProcessMeta(_, _) => true
    case ThreadMeta(pid, _, _) => HasPid(es, pid)
    case Begin(pid, tid, _, _, _, _) => HasPid(es, pid) && HasTid(es, pid, tid)
    case End(pid, tid, _, _, _) => HasPid(es, pid) && HasTid(es, pid, tid)
    case Instant(pid, _, _) => HasPid(es, pid)
    case Counter(pid, tid, _, _, _) => HasPid(es, pid) && HasTid(es, pid, tid)
  }

  /** Every process and track is named before its first use. */
  ghost predicate NamedFirst(es: seq<TraceEvent>) {
    forall i :: 0 <= i < |es| ==> Introduced(es[..i], es[i])
  }

  lemma {:induction false} KeptNamedOnce(es: seq<TraceEvent>)
    ensures NamedOnce(Kept(es))
    decreases |es|
  {
    if es != [] {
      var init, last := es[..|es| - 1], es[|es| - 1];
      KeptNamedOnce(init);
      KeptNames(init);
      if !Repeats(init, last) {
        var k := Kept(init);
        forall i | 0 <= i < |k| + 1 ensures !Repeats((k + [last])[..i], (k + [last])[i]) {
          if i < |k| {
            assert (k + [last])[..i] == k[..i];
          } else {
            assert (k + [last])[..i] == k;
          }
        }
      }
    }
  }

  lemma {:induction false} KeptNamedFirst(es: seq<TraceEvent>)
    requires NamedFirst(es)
    ensures NamedFirst(Kept(es))
    decreases |es|
  {
    if es != [] {
      var init, last := es[..|es| - 1], es[|es| - 1];
      forall i | 0 <= i < |init| ensures Introduced(init[..i], init[i]) {
        assert es[..i] == init[..i];
      }
      KeptNamedFirst(init);
      KeptNames(init);
      assert Introduced(init, last);
      var k := Kept(init);
      forall i | 0 <= i < |k| + 1 ensures Introduced((k + [last])[..i], (k + [last])[i]) {
        if i < |k| {
          assert (k + [last])[..i] == k[..i];
        } else {
          assert (k + [last])[..i] == k;
        }
      }
    }
  }

  /** Dropping repeated metadata touches no span. */
  lemma {:induction false} KeptSpans(es: seq<TraceEvent>, pid: int, tid: int, open: seq<(string, string)>)
    ensures Spans(Kept(es), pid, tid, open) == Spans(es, pid, tid, open)
    decreases |es|
  {
    if es != [] {
      var init, last := es[..|es| - 1], es[|es| - 1];
      KeptSpans(init, pid, tid, open);
      assert es == init + [last];
      SpansConcat(init, [last], pid, tid, open);
      SpansConcat(Kept(init), [last], pid, tid, open);
      if Repeats(init, last) && Spans(init, pid, tid, open).Some? {
        SpansFree([last], pid, tid, Spans(init, pid, tid, open).value);
      }
    }
  }

  predicate IsMeta(e: TraceEvent) { e.ProcessMeta? || e.ThreadMeta? }

  /** Everything but metadata is written, in order. */
  lemma {:induction false} KeptEvents(es: seq<TraceEvent>)
    ensures Filter((e: TraceEvent) => !IsMeta(e), Kept(es)) == Filter((e: TraceEvent) => !IsMeta(e), es)
    decreases |es|
  {
    if es != [] {
      var p := (e: TraceEvent) => !IsMeta(e);
      var init, last := es[..|es| - 1], es[|es| - 1];
      KeptEvents(init);
      assert es == init + [last];
      FilterConcat(p, init, [last]);
      FilterConcat(p, Kept(init), [last]);
      if Repeats(init, last) {
        FilterNone(p, [last]);
        assert Filter(p, init) + [] == Filter(p, init);
      }
    }
  }

  // ---- the file -------------------------------------------------------------------------------

  /** The file's text so far, having written `kept`. */
  function Body(kept: seq<TraceEvent>, show: FloatText): string {
    if kept == [] then ""
    else
      var init, last := kept[..|kept| - 1], kept[|kept| - 1];
      Body(init, show) + (Separator(init == []) + Encode(last, show))
  }

  function Separator(first: bool): string { if first then "[\n" else ",\n" }

  lemma {:induction false} BodySnoc(kept: seq<TraceEvent>, e: TraceEvent, show: FloatText)
    ensures Body(kept + [e], show) == Body(kept, show) + (Separator(kept == []) + Encode(e, show))
  {
    assert (kept + [e])[..|kept|] == kept;
  }

  function ClosedText(kept: seq<TraceEvent>, show: FloatText): string {
    if kept == [] then "[]\n" else Body(kept, show) + "\n]"
  }

  function Jsons(kept: seq<TraceEvent>, show: FloatText): (r: seq<Json>)
    ensures |r| == |kept| && forall k :: 0 <= k < |kept| ==> r[k] == JsonOf(kept[k], show)
  {
    if kept == [] then [] else Jsons(kept[..|kept| - 1], show) + [JsonOf(kept[|kept| - 1], show)]
  }

  lemma {:induction false} ItemsSnoc(js: seq<Json>, j: Json, tail: string)
    requires js != []
    ensures ItemsTo(js + [j], tail) == ItemsTo(js, ",\n" + PrintTo(j, tail))
    decreases |js|
  {
    var more := js + [j];
    assert more[0] == js[0] && more[1..] == js[1..] + [j];
    if |js| == 1 {
      assert more[1..] == [j];
    } else {
      ItemsSnoc(js[1..], j, tail);
    }
  }

  lemma {:induction false} BodyIsItems(kept: seq<TraceEvent>, show: FloatText, tail: string)
    requires kept != []
    ensures Body(kept, show) + tail == "[\n" + ItemsTo(Jsons(kept, show), tail)
    decreases |kept|
  {
    var init, last := kept[..|kept| - 1], kept[|kept| - 1];
    var j := JsonOf(last, show);
    PrintAppends(j, "", tail);
    assert "" + tail == tail;
    if init == [] {
      assert Jsons(kept, show) == [j];
      assert Body(kept, show) + tail == "[\n" + (Encode(last, show) + tail);
    } else {
      BodyIsItems(init, show, ",\n" + PrintTo(j, tail));
      ItemsSnoc(Jsons(init, show), j, tail);
      LastLine(Body(init, show), Encode(last, show), tail);
    }
  }

  lemma LastLine(body: string, line: string, tail: string)
    ensures (body + (",\n" + line)) + tail == body + (",\n" + (line + tail))
  {}

  ghost predicate AllClean(kept: seq<TraceEvent>, show: FloatText) {
    forall k :: 0 <= k < |kept| ==> Clean(JsonOf(kept[k], show))
  }

  /**
   The closed file reads back as one JSON array of exactly the events written, in order, if and
   only if every name is plain and every double printed as a number.
   */
  lemma {:induction false} ClosedReadsBackIff(kept: seq<TraceEvent>, show: FloatText)
    ensures ParseDocument(ClosedText(kept, show)) == Some(Jsons(kept, show)) <==> AllClean(kept, show)
  {
    if kept == [] {
      EmptyReads();
    } else if AllClean(kept, show) {
      CleanReads(kept, show);
    } else if ParseDocument(ClosedText(kept, show)) == Some(Jsons(kept, show)) {
      DocumentIsClean(ClosedText(kept, show));
    }
  }

  lemma {:induction false} CleanReads(kept: seq<TraceEvent>, show: FloatText)
    requires kept != [] && AllClean(kept, show)
    ensures ParseDocument(ClosedText(kept, show)) == Some(Jsons(kept, show))
  {
    var js := Jsons(kept, show);
    CleanJsons(kept, show, js);
    BodyIsItems(kept, show, "\n]");
    DocumentReads(js);
  }

  lemma {:induction false} CleanJsons(kept: seq<TraceEvent>, show: FloatText, js: seq<Json>)
    requires AllClean(kept, show) && kept != [] && js == Jsons(kept, show)
    ensures js != [] && js[0].Obj? && forall k :: 0 <= k < |js| ==> Clean(js[k])
  {}

  lemma EmptyReads()
    ensures ParseDocument("[]\n") == Some([])
  {
    assert Skip("[]\n") == "[]\n" && "[]\n"[1..] == "]\n";
    assert Skip("]\n") == "]\n" && "]\n"[1..] == "\n";
    assert "\n" == "\n" + "";
    SkipLine("");
  }

  // ---- the exporter -----------------------------------------------------------------------

  /** What the exporter keeps of an open file. */
  datatype FileState = FileState(text: string, hasWritten: bool, pids: set<int>, tids: set<(int, int)>)

  const EMPTY_FILE := FileState("", false, {}, {})

  function Written(f: FileState, e: TraceEvent, show: FloatText): FileState {
    f.(text := f.text + (Separator(!f.hasWritten) + Encode(e, show)), hasWritten := true)
  }

  function NextFile(f: FileState, e: TraceEvent, show: FloatText): FileState {
    match e
    case ProcessMeta(pid, _) => if pid in f.pids then f else Written(f.(pids := f.pids + {pid}), e, show)
    case ThreadMeta(pid, tid, _) => if (pid, tid) in f.tids then f else Written(f.(tids := f.tids + {(pid, tid)}), e, show)
    case _ => Written(f, e, show)
  }

  /** The file after a stream of events. */
  function FileAfter(es: seq<TraceEvent>, show: FloatText): FileState {
    if es == [] then EMPTY_FILE else NextFile(FileAfter(es[..|es| - 1], show), es[|es| - 1], show)
  }

  /** Its sets are what the stream has named. */
  ghost predicate FileNames(f: FileState, es: seq<TraceEvent>) {
    && (forall p :: p in f.pids <==> HasPid(es, p))
    && (forall p, t :: (p, t) in f.tids <==> HasTid(es, p, t))
  }

  /** Its text is the kept events, line by line. */
  ghost predicate FileText(f: FileState, kept: seq<TraceEvent>, show: FloatText) {
    f.text == Body(kept, show) && (f.hasWritten <==> kept != [])
  }

  ghost predicate FileMeans(f: FileState, es: seq<TraceEvent>, show: FloatText) {
    FileText(f, Kept(es), show) && FileNames(f, es)
  }

  lemma NextNames(f: FileState, es: seq<TraceEvent>, e: TraceEvent, show: FloatText)
    requires FileNames(f, es)
    ensures FileNames(NextFile(f, e, show), es + [e])
  {
    HasSnoc(es, e);
  }

  lemma WrittenText(f: FileState, kept: seq<TraceEvent>, e: TraceEvent, show: FloatText)
    requires FileText(f, kept, show)
    ensures FileText(Written(f, e, show), kept + [e], show)
  {
    BodySnoc(kept, e, show);
  }

  lemma {:induction false} NextText(f: FileState, es: seq<TraceEvent>, e: TraceEvent, show: FloatText)
    requires FileText(f, Kept(es), show) && FileNames(f, es)
    ensures FileText(NextFile(f, e, show), if Repeats(es, e) then Kept(es) else Kept(es) + [e], show)
  {
    match e
    case ProcessMeta(pid, _) => WrittenText(f.(pids := f.pids + {pid}), Kept(es), e, show);
    case ThreadMeta(pid, tid, _) => WrittenText(f.(tids := f.tids + {(pid, tid)}), Kept(es), e, show);
    case _ => WrittenText(f, Kept(es), e, show);
  }

  lemma NextFileMeans(f: FileState, es: seq<TraceEvent>, e: TraceEvent, show: FloatText)
    requires FileMeans(f, es, show)
    ensures FileMeans(NextFile(f, e, show), es + [e], show)
  {
    KeptSnoc(es, e);
    NextNames(f, es, e, show);
    NextText(f, es, e, show);
  }

  lemma {:induction false} FileAfterMeans(es: seq<TraceEvent>, show: FloatText)
    ensures FileMeans(FileAfter(es, show), es, show)
    decreases |es|
  {
    if es != [] {
      FileAfterMeans(es[..|es| - 1], show);
      NextFileMeans(FileAfter(es[..|es| - 1], show), es[..|es| - 1], es[|es| - 1], show);
      assert es == es[..|es| - 1] + [es[|es| - 1]];
    }
  }

  lemma {:induction false} AfterOneMore(given: seq<TraceEvent>, events: seq<TraceEvent>, i: nat, show: FloatText)
    requires i < |events|
    ensures FileAfter(given + events[..i + 1], show) == NextFile(FileAfter(given + events[..i], show), events[i], show)
  {
    var more := given + events[..i + 1];
    assert more[..|more| - 1] == given + events[..i];
  }

  class ChromeTraceExporter {
    const show: FloatText
    var isOpen: bool
    var text: string
    var hasWritten: bool
    var pidMetaDone: set<int>
    var tidMetaDone: set<(int, int)>
    /** Every event handed over since the file was opened. */
    ghost var given: seq<TraceEvent>

    function File(): FileState
      reads this
    {
      FileState(text, hasWritten, pidMetaDone, tidMetaDone)
    }

    ghost predicate Valid()
      reads this
    {
      isOpen ==> File() == FileAfter(given, show)
    }

    constructor (show: FloatText)
      ensures Valid() && !isOpen && this.show == show
    {
      this.show := show;
      isOpen, text, hasWritten, pidMetaDone, tidMetaDone, given := false, "", false, {}, {}, [];
    }

    method Open()
      modifies this
      ensures Valid() && isOpen && given == []
    {
      isOpen, text, hasWritten, pidMetaDone, tidMetaDone, given := true, "", false, {}, {}, [];
    }

    /** Write a batch. What the file ends up holding depends on the events, not on how they were batched. */
    method AddEvents(events: seq<TraceEvent>)
      requires Valid()
      modifies this
      ensures Valid() && isOpen == old(isOpen)
      ensures given == if isOpen then old(given) + events else old(given)
      ensures !isOpen ==> text == old(text)
    {
      if !isOpen { return; }
      assert given + events[..0] == given;
      for i := 0 to |events|
        invariant isOpen && given == old(given)
        invariant File() == FileAfter(old(given) + events[..i], show)
      {
        AfterOneMore(given, events, i, show);
        AddEvent(events[i]);
      }
      given := given + events;
      assert events[..|events|] == events;
    }

    /** Write one event, unless it names again what the file has named. */
    method AddEvent(event: TraceEvent)
      modifies this`text, this`hasWritten, this`pidMetaDone, this`tidMetaDone
      ensures File() == NextFile(old(File()), event, show)
    {
      match event {
        case ProcessMeta(pid, _) =>
          if pid in pidMetaDone { return; }
          pidMetaDone := pidMetaDone + {pid};
        case ThreadMeta(pid, tid, _) =>
          if (pid, tid) in tidMetaDone { return; }
          tidMetaDone := tidMetaDone + {(pid, tid)};
        case _ =>
      }
      WriteEvent(Encode(event, show));
    }

    method WriteEvent(json: string)
      modifies this`text, this`hasWritten
      ensures hasWritten && text == old(text) + (Separator(!old(hasWritten)) + json)
    {
      text := text + (Separator(!hasWritten) + json);
      hasWritten := true;
    }

    /** Close the file, or do nothing if it was never opened or is closed already. */
    method Close()
      requires Valid()
      modifies this
      ensures Valid() && !isOpen && given == old(given)
      ensures text == if old(isOpen) then ClosedText(Kept(given), show) else old(text)
    {
      if !isOpen { return; }
      FileAfterMeans(given, show);
      isOpen := false;
      if hasWritten {
        text := text + "\n]";
      } else {
        text := text + "[]\n";
      }
    }
  }
}
