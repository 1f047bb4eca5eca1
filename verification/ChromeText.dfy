/** The Chrome Trace lines character by character, spelled without the JSON values behind them. */
module ChromeText {
  import opened Prelude
  import opened Json
  import opened TraceEvents
  import opened ChromeTrace

  function Text(key: string, text: string): string { "\"" + key + "\":\"" + text + "\"" }

  function Number(key: string, text: string): string { "\"" + key + "\":" + text }

  function Whole(key: string, i: int): string { Number(key, IntText(i)) }

  function Joined(parts: seq<string>): string {
    if parts == [] then "" else if |parts| == 1 then parts[0] else parts[0] + "," + Joined(parts[1..])
  }

  function Braced(parts: seq<string>): string { "{" + Joined(parts) + "}" }

  /** An event's arguments: a count as a whole number, a double as it prints. */
  function ArgText(a: Arg, show: FloatText): string {
    Number(a.key, match a.value case Int(v) => IntText(v) case Float(bits) => show(bits))
  }

  function ArgTexts(args: seq<Arg>, show: FloatText): (r: seq<string>)
    ensures |r| == |args|
  {
    seq(|args|, k requires 0 <= k < |args| => ArgText(args[k], show))
  }

  // ---- a printed object is its fields' texts, joined -----------------------------------------

  function FieldText(f: Field): string {
    match f.1
    case Num(t) => Number(f.0, t)
    case Str(t) => Text(f.0, t)
    case Obj(m) => Number(f.0, Print(f.1))
  }

  function FieldTexts(fields: seq<Field>): (r: seq<string>)
    ensures |r| == |fields|
  {
    seq(|fields|, k requires 0 <= k < |fields| => FieldText(fields[k]))
  }

  lemma {:induction false} FieldPrints(f: Field, tail: string)
    ensures "\"" + (f.0 + ("\":" + PrintTo(f.1, tail))) == FieldText(f) + tail
  {
    PrintAppends(f.1, "", tail);
    assert "" + tail == tail;
    Regroup("\"" + f.0, "\":", Print(f.1), tail);
    assert "\"" + (f.0 + ("\":" + (Print(f.1) + tail))) == ("\"" + f.0) + ("\":" + (Print(f.1) + tail));
    if f.1.Str? { Requote("\"" + f.0, f.1.text); }
  }

  lemma Regroup(a: string, b: string, c: string, d: string)
    ensures a + (b + (c + d)) == (a + b + c) + d
  {}

  lemma Requote(a: string, text: string)
    ensures a + "\":" + ("\"" + (text + ("\"" + ""))) == a + "\":\"" + text + "\""
  {
    assert "\"" + "" == "\"" && "\":" + "\"" == "\":\"";
    assert a + "\":" + ("\"" + (text + "\"")) == a + ("\":" + "\"") + text + "\"";
  }

  lemma {:induction false} MembersPrint(fields: seq<Field>, tail: string)
    ensures MembersTo(MembersOf(fields), tail) == Joined(FieldTexts(fields)) + tail
    decreases |fields|
  {
    if fields != [] {
      var rest := fields[1..];
      var texts := FieldTexts(fields);
      assert texts[1..] == FieldTexts(rest);
      MembersPrint(rest, tail);
      if rest == [] {
        FieldPrints(fields[0], tail);
      } else {
        FieldPrints(fields[0], "," + MembersTo(MembersOf(rest), tail));
        assert texts[0] + ("," + (Joined(texts[1..]) + tail)) == texts[0] + "," + Joined(texts[1..]) + tail;
      }
    }
  }

  lemma ObjectPrints(fields: seq<Field>)
    ensures Print(Object(fields)) == Braced(FieldTexts(fields))
  {
    MembersPrint(fields, "}" + "");
    assert "}" + "" == "}";
    assert "{" + (Joined(FieldTexts(fields)) + "}") == "{" + Joined(FieldTexts(fields)) + "}";
  }

  lemma {:induction false} ArgsInOrder(args: seq<Arg>, show: FloatText)
    ensures |ArgFields(args, show)| == |args| && forall k :: 0 <= k < |args| ==> ArgFields(args, show)[k] == ArgField(args[k], show)
    decreases |args|
  {
    if args != [] { ArgsInOrder(args[1..], show); }
  }

  lemma {:induction false} ArgsPrint(args: seq<Arg>, show: FloatText)
    ensures Print(Object(ArgFields(args, show))) == Braced(ArgTexts(args, show))
  {
    ArgsInOrder(args, show);
    ObjectPrints(ArgFields(args, show));
    assert FieldTexts(ArgFields(args, show)) == ArgTexts(args, show);
  }

  /** Each kind of event as the format has always spelled it: which keys, in which order, with which values. */
  function Pieces(e: TraceEvent, show: FloatText): seq<string> {
    match e
    case ProcessMeta(pid, name) =>
      [Text("ph", "M"), Whole("pid", pid), Text("name", "process_name"), Number("args", Braced([Text("name", name)]))]
    case ThreadMeta(pid, tid, name) =>
      [Text("ph", "M"), Whole("pid", pid), Whole("tid", tid), Text("name", "thread_name"),
       Number("args", Braced([Text("name", name)]))]
    case Begin(pid, tid, ts, name, cat, args) =>
      [Text("ph", "B"), Whole("pid", pid), Whole("tid", tid), Whole("ts", TsUs(ts)), Text("name", name), Text("cat", cat),
       Number("args", Braced(ArgTexts(args, show)))]
    case End(pid, tid, ts, name, cat) =>
      [Text("ph", "E"), Whole("pid", pid), Whole("tid", tid), Whole("ts", TsUs(ts)), Text("name", name), Text("cat", cat)]
    case Instant(pid, ts, name) =>
      [Text("name", name), Text("ph", "I"), Text("s", "p"), Whole("ts", TsUs(ts)), Whole("pid", pid)]
    case Counter(pid, tid, ts, name, args) =>
      [Text("name", name), Text("ph", "C"), Whole("ts", TsUs(ts)), Whole("pid", pid), Whole("tid", tid),
       Number("args", Braced(ArgTexts(args, show)))]
  }

  function Spelled(e: TraceEvent, show: FloatText): string { Braced(Pieces(e, show)) }

  lemma EncodeSpells(e: TraceEvent, show: FloatText)
    ensures Encode(e, show) == Spelled(e, show)
  {
    ObjectPrints(FieldsOf(e, show));
    FieldsSpell(e, show);
  }

  lemma FieldsSpell(e: TraceEvent, show: FloatText)
    ensures FieldTexts(FieldsOf(e, show)) == Pieces(e, show)
  {
    if e.ProcessMeta? || e.ThreadMeta? { NamePrints(e.name); }
    if e.Begin? || e.Counter? { ArgsPrint(e.args, show); }
  }

  /** The whole file: the kept events' lines between brackets, commas between, and a bare pair of brackets for none. */
  lemma {:induction false} FileSpells(kept: seq<TraceEvent>, show: FloatText)
    ensures ClosedText(kept, show) == if kept == [] then "[]\n" else "[\n" + Lines(kept, show) + "\n]"
  {
    if kept != [] { BodySpells(kept, show); }
  }

  function Lines(kept: seq<TraceEvent>, show: FloatText): string
    requires kept != []
  {
    var n := |kept| - 1;
    (if n == 0 then "" else Lines(kept[..n], show) + ",\n") + Spelled(kept[n], show)
  }

  lemma {:induction false} BodySpells(kept: seq<TraceEvent>, show: FloatText)
    requires kept != []
    ensures Body(kept, show) == "[\n" + Lines(kept, show)
    decreases |kept|
  {
    var n := |kept| - 1;
    EncodeSpells(kept[n], show);
    if n > 0 {
      BodySpells(kept[..n], show);
      NextLine("[\n", Lines(kept[..n], show), ",\n", Spelled(kept[n], show));
    } else {
      FirstLine("[\n", Spelled(kept[n], show));
    }
  }

  lemma NextLine(a: string, b: string, c: string, d: string)
    ensures (a + b) + (c + d) == a + ((b + c) + d)
  {}

  lemma FirstLine(a: string, b: string)
    ensures "" + (a + b) == a + ("" + b)
  {}

  lemma NamePrints(name: string)
    ensures Print(Object([StrField("name", name)])) == Braced([Text("name", name)])
  {
    ObjectPrints([StrField("name", name)]);
    assert FieldTexts([StrField("name", name)]) == [Text("name", name)];
  }
}
