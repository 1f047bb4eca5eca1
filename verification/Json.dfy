/**
 JSON text: values with no escapes, how they are printed compactly, and a parser after RFC 8259
 (sections 2 to 7) that reads them back. Whatever the parser accepts is a JSON text
 (`JsonGrammar.AcceptedIsJson`); it refuses escapes, exponents, literals and nested arrays, which
 nothing here prints.
 */
module Json {
  import opened Prelude
  import opened Text

  datatype Json = Num(text: string) | Str(text: string) | Obj(members: Members)

  datatype Members = NoMore | Member(key: string, value: Json, rest: Members)

  // ---- lexical classes ----------------------------------------------------------------

  predicate IsSpace(c: char) { c in {' ', '\n', '\r', '\t'} }

  /** A character a string holds as itself. */
  predicate IsPlain(c: char) { c >= ' ' && c != '"' && c != '\\' }

  predicate PlainText(t: string) { forall k :: 0 <= k < |t| ==> IsPlain(t[k]) }

  predicate IsNumberChar(c: char) { IsDigit(c) || c == '-' || c == '.' }

  predicate IsIntPart(t: string) {
    t != [] && AllDigits(t) && (t[0] == '0' ==> |t| == 1)
  }

  /** An optional sign, an integer with no leading zero, and an optional fraction. */
  predicate IsNumber(t: string) {
    var u := if t != [] && t[0] == '-' then t[1..] else t;
    exists k :: 0 < k <= |u| && IsIntPart(u[..k]) && (k == |u| || (u[k] == '.' && k + 1 < |u| && AllDigits(u[k + 1..])))
  }

  predicate Clean(j: Json) {
    match j
    case Num(t) => IsNumber(t)
    case Str(t) => PlainText(t)
    case Obj(m) => CleanMembers(m)
  }

  predicate CleanMembers(m: Members) {
    m.Member? ==> PlainText(m.key) && Clean(m.value) && CleanMembers(m.rest)
  }

  // ---- printing ------------------------------------------------------------------------

  /** `j` printed in front of `tail`. */
  function PrintTo(j: Json, tail: string): string {
    match j
    case Num(t) => t + tail
    case Str(t) => "\"" + (t + ("\"" + tail))
    case Obj(m) => "{" + MembersTo(m, "}" + tail)
  }

  function MembersTo(m: Members, tail: string): string {
    match m
    case NoMore => tail
    case Member(key, value, rest) =>
      "\"" + (key + ("\":" + PrintTo(value, if rest.NoMore? then tail else "," + MembersTo(rest, tail))))
  }

  function Print(j: Json): string { PrintTo(j, "") }

  lemma {:induction false} PrintAppends(j: Json, a: string, b: string)
    ensures PrintTo(j, a + b) == PrintTo(j, a) + b
    decreases j
  {
    match j
    case Num(t) =>
      assert t + (a + b) == (t + a) + b;
    case Str(t) =>
      assert "\"" + (t + ("\"" + (a + b))) == ("\"" + (t + ("\"" + a))) + b;
    case Obj(m) =>
      assert "}" + (a + b) == ("}" + a) + b;
      MembersAppend(m, "}" + a, b);
      assert "{" + (MembersTo(m, "}" + a) + b) == ("{" + MembersTo(m, "}" + a)) + b;
  }

  lemma {:induction false} MembersAppend(m: Members, a: string, b: string)
    ensures MembersTo(m, a + b) == MembersTo(m, a) + b
    decreases m
  {
    match m
    case NoMore =>
    case Member(key, value, rest) =>
      var tail := if rest.NoMore? then a else "," + MembersTo(rest, a);
      if rest.Member? {
        MembersAppend(rest, a, b);
        assert "," + (MembersTo(rest, a) + b) == ("," + MembersTo(rest, a)) + b;
      }
      PrintAppends(value, tail, b);
      var v := PrintTo(value, tail);
      assert "\"" + (key + ("\":" + (v + b))) == ("\"" + (key + ("\":" + v))) + b;
  }

  // ---- parsing -------------------------------------------------------------------------

  function Skip(s: string): (r: string)
    ensures |r| <= |s|
  {
    if s != [] && IsSpace(s[0]) then Skip(s[1..]) else s
  }

  /** A string's text up to its closing quote, and what follows. */
  function StringRest(s: string): (r: Option<(string, string)>)
    ensures r.Some? ==> |r.value.1| < |s|
  {
    if s == [] then None
    else if s[0] == '"' then Some(("", s[1..]))
    else if !IsPlain(s[0]) then None
    else
      var r := StringRest(s[1..]);
      if r.None? then None else Some(([s[0]] + r.value.0, r.value.1))
  }

  function NumberRun(s: string): (k: nat)
    ensures k <= |s|
  {
    if s != [] && IsNumberChar(s[0]) then 1 + NumberRun(s[1..]) else 0
  }

  function ParseValue(s0: string): (r: Option<(Json, string)>)
    ensures r.Some? ==> |r.value.1| < |s0|
    decreases |s0|, 1
  {
    var s := Skip(s0);
    if s == [] then None
    else if s[0] == '"' then
      var t := StringRest(s[1..]);
      if t.None? then None else Some((Str(t.value.0), t.value.1))
    else if s[0] == '{' then
      var t := Skip(s[1..]);
      if t != [] && t[0] == '}' then Some((Obj(NoMore), t[1..]))
      else
        var m := ParseMembers(t);
        if m.None? then None else Some((Obj(m.value.0), m.value.1))
    else
      var k := NumberRun(s);
      if k > 0 && IsNumber(s[..k]) then
        Some((Num(s[..k]), s[k..]))
      else None
  }

  /** Members up to and over the closing brace. */
  function ParseMembers(s0: string): (r: Option<(Members, string)>)
    ensures r.Some? ==> |r.value.1| < |s0|
    decreases |s0|, 0
  {
    var s := Skip(s0);
    if s == [] || s[0] != '"' then None
    else
      var key := StringRest(s[1..]);
      if key.None? then None
      else
        var c := Skip(key.value.1);
        if c == [] || c[0] != ':' then None
        else
          var v := ParseValue(c[1..]);
          if v.None? then None
          else
            var e := Skip(v.value.1);
            if e == [] then None
            else if e[0] == '}' then Some((Member(key.value.0, v.value.0, NoMore), e[1..]))
            else if e[0] != ',' then None
            else
              var more := ParseMembers(e[1..]);
              if more.None? then None
              else Some((Member(key.value.0, v.value.0, more.value.0), more.value.1))
  }

  /** Array elements up to and over the closing bracket. */
  function ParseItems(s: string): (r: Option<(seq<Json>, string)>)
    decreases |s|
  {
    var v := ParseValue(s);
    if v.None? then None
    else
      var e := Skip(v.value.1);
      if e == [] then None
      else if e[0] == ']' then Some(([v.value.0], e[1..]))
      else if e[0] != ',' then None
      else
        var more := ParseItems(e[1..]);
        if more.None? then None else Some(([v.value.0] + more.value.0, more.value.1))
  }

  /** The whole text as one array, with nothing but white space around it. */
  function ParseDocument(s0: string): Option<seq<Json>> {
    var s := Skip(s0);
    if s == [] || s[0] != '[' then None
    else
      var t := Skip(s[1..]);
      if t != [] && t[0] == ']' then (if Skip(t[1..]) == [] then Some([]) else None)
      else
        var items := ParseItems(t);
        if items.Some? && Skip(items.value.1) == [] then Some(items.value.0) else None
  }

  // ---- the parser inverts the printer ---------------------------------------------------

  lemma {:induction false} StringReads(t: string, tail: string)
    requires PlainText(t)
    ensures StringRest(t + ("\"" + tail)) == Some((t, tail))
  {
    var s := t + ("\"" + tail);
    if t == [] {
      assert s == "\"" + tail;
      assert s[1..] == tail;
    } else {
      assert s[1..] == t[1..] + ("\"" + tail);
      StringReads(t[1..], tail);
      assert [t[0]] + t[1..] == t;
    }
  }

  lemma {:induction false} RunReads(t: string, tail: string)
    requires (forall k :: 0 <= k < |t| ==> IsNumberChar(t[k])) && (tail == [] || !IsNumberChar(tail[0]))
    ensures NumberRun(t + tail) == |t|
  {
    if t == [] {
      assert t + tail == tail;
    } else {
      assert (t + tail)[1..] == t[1..] + tail;
      RunReads(t[1..], tail);
    }
  }

  lemma NumberIsChars(t: string)
    requires IsNumber(t)
    ensures t != [] && (forall k :: 0 <= k < |t| ==> IsNumberChar(t[k])) && !IsSpace(t[0]) && t[0] != '"' && t[0] != '{'
  {
    var d := if t != [] && t[0] == '-' then 1 else 0;
    var u := t[d..];
    assert d == 0 ==> u == t;
    var k :| 0 < k <= |u| && IsIntPart(u[..k]) && (k == |u| || (u[k] == '.' && k + 1 < |u| && AllDigits(u[k + 1..])));
    var whole, fraction := u[..k], if k < |u| then u[k + 1..] else "";
    assert IsIntPart(whole);
    assert AllDigits(whole);
    assert AllDigits(fraction);
    forall i | 0 <= i < |u| ensures IsNumberChar(u[i]) {
      assert i < k ==> u[i] == whole[i];
      assert i > k ==> u[i] == fraction[i - k - 1];
    }
    forall i | d <= i < |t| ensures IsNumberChar(t[i]) { assert t[i] == u[i - d]; }
  }

  /** What may follow a value in a printed text. */
  predicate Delimited(tail: string) {
    tail == [] || !IsNumberChar(tail[0])
  }

  lemma {:induction false} NumReads(t: string, tail: string)
    requires IsNumber(t) && Delimited(tail)
    ensures ParseValue(t + tail) == Some((Num(t), tail))
  {
    NumberIsChars(t);
    RunReads(t, tail);
    var s := t + tail;
    assert s[0] == t[0] && Skip(s) == s;
    assert s[..|t|] == t && s[|t|..] == tail;
  }

  lemma {:induction false} StrReads(t: string, tail: string)
    requires PlainText(t)
    ensures ParseValue("\"" + (t + ("\"" + tail))) == Some((Str(t), tail))
  {
    var s := "\"" + (t + ("\"" + tail));
    assert s[0] == '"' && Skip(s) == s;
    assert s[1..] == t + ("\"" + tail);
    StringReads(t, tail);
  }

  lemma {:induction false} ValueReads(j: Json, tail: string)
    requires Clean(j) && Delimited(tail)
    ensures ParseValue(PrintTo(j, tail)) == Some((j, tail))
    decreases j
  {
    match j
    case Num(t) => NumReads(t, tail);
    case Str(t) => StrReads(t, tail);
    case Obj(m) =>
      var s := PrintTo(j, tail);
      var rest := MembersTo(m, "}" + tail);
      assert s == "{" + rest;
      assert s[0] == '{' && Skip(s) == s && s[1..] == rest;
      if m.NoMore? {
        assert rest[0] == '}' && Skip(rest) == rest && rest[1..] == tail;
      } else {
        MembersRead(m, tail);
        assert rest[0] == '"' && Skip(rest) == rest;
      }
  }

  lemma {:induction false} MembersRead(m: Members, tail: string)
    requires CleanMembers(m) && m.Member?
    ensures ParseMembers(MembersTo(m, "}" + tail)) == Some((m, tail))
    decreases m
  {
    var after := if m.rest.NoMore? then "}" + tail else "," + MembersTo(m.rest, "}" + tail);
    var v := PrintTo(m.value, after);
    ValueReads(m.value, after);
    KeyReads(m.key, v);
    var s := MembersTo(m, "}" + tail);
    assert s == "\"" + (m.key + ("\":" + v));
    assert Skip(after) == after;
    if m.rest.NoMore? {
      assert after[1..] == tail;
    } else {
      MembersRead(m.rest, tail);
      assert after[1..] == MembersTo(m.rest, "}" + tail);
    }
  }

  lemma {:induction false} KeyReads(key: string, v: string)
    requires PlainText(key)
    ensures var s := "\"" + (key + ("\":" + v));
      && Skip(s) == s && s[0] == '"' && StringRest(s[1..]) == Some((key, ":" + v))
      && Skip(":" + v) == ":" + v && (":" + v)[1..] == v
  {
    var s := "\"" + (key + ("\":" + v));
    assert s[0] == '"';
    assert "\":" + v == "\"" + (":" + v);
    assert s[1..] == key + ("\"" + (":" + v));
    StringReads(key, ":" + v);
  }

  // ---- the parser yields nothing unclean ------------------------------------------------

  lemma {:induction false} StringIsPlain(s: string)
    requires StringRest(s).Some?
    ensures PlainText(StringRest(s).value.0)
  {
    if s[0] != '"' { StringIsPlain(s[1..]); }
  }

  lemma {:induction false} ParsedIsClean(s0: string)
    requires ParseValue(s0).Some?
    ensures Clean(ParseValue(s0).value.0)
    decreases |s0|, 1
  {
    var s := Skip(s0);
    if s[0] == '"' {
      StringIsPlain(s[1..]);
    } else if s[0] == '{' {
      var t := Skip(s[1..]);
      if t == [] || t[0] != '}' { MembersAreClean(t); }
    }
  }

  lemma {:induction false} MembersAreClean(s0: string)
    requires ParseMembers(s0).Some?
    ensures CleanMembers(ParseMembers(s0).value.0)
    decreases |s0|, 0
  {
    var s := Skip(s0);
    StringIsPlain(s[1..]);
    var c := Skip(StringRest(s[1..]).value.1);
    ParsedIsClean(c[1..]);
    var e := Skip(ParseValue(c[1..]).value.1);
    if e[0] != '}' { MembersAreClean(e[1..]); }
  }

  lemma {:induction false} ItemsAreClean(s: string)
    requires ParseItems(s).Some?
    ensures forall k :: 0 <= k < |ParseItems(s).value.0| ==> Clean(ParseItems(s).value.0[k])
    decreases |s|
  {
    ParsedIsClean(s);
    var e := Skip(ParseValue(s).value.1);
    if e[0] != ']' { ItemsAreClean(e[1..]); }
  }

  lemma DocumentIsClean(s: string)
    requires ParseDocument(s).Some?
    ensures forall k :: 0 <= k < |ParseDocument(s).value| ==> Clean(ParseDocument(s).value[k])
  {
    var t := Skip(Skip(s)[1..]);
    if t == [] || t[0] != ']' { ItemsAreClean(t); }
  }

  // ---- arrays --------------------------------------------------------------------------------

  /** Elements a line each, in front of `tail`. */
  function ItemsTo(js: seq<Json>, tail: string): string
    requires js != []
  {
    PrintTo(js[0], if |js| == 1 then tail else ",\n" + ItemsTo(js[1..], tail))
  }

  lemma {:induction false} SkipLine(s: string)
    ensures Skip("\n" + s) == Skip(s)
  {
    assert ("\n" + s)[1..] == s;
  }

  lemma {:induction false} ItemsSkipLine(s: string)
    ensures ParseItems("\n" + s) == ParseItems(s)
  {
    SkipLine(s);
    assert ParseValue("\n" + s) == ParseValue(s);
  }

  lemma {:induction false} ItemsRead(js: seq<Json>)
    requires js != [] && forall k :: 0 <= k < |js| ==> Clean(js[k])
    ensures ParseItems(ItemsTo(js, "\n]")) == Some((js, ""))
    decreases |js|
  {
    if |js| == 1 {
      LastItemReads(js[0]);
      assert js == [js[0]];
    } else {
      ItemsRead(js[1..]);
      NextItemReads(js[0], ItemsTo(js[1..], "\n]"));
      assert js == [js[0]] + js[1..];
    }
  }

  lemma {:induction false} LastItemReads(j: Json)
    requires Clean(j)
    ensures ParseItems(PrintTo(j, "\n]")) == Some(([j], ""))
  {
    ValueReads(j, "\n]");
    SkipLine("]");
    assert Skip("]") == "]" && "]"[1..] == "";
  }

  lemma {:induction false} NextItemReads(j: Json, rest: string)
    requires Clean(j) && ParseItems(rest).Some?
    ensures ParseItems(PrintTo(j, ",\n" + rest)) == Some(([j] + ParseItems(rest).value.0, ParseItems(rest).value.1))
  {
    var tail := ",\n" + rest;
    ValueReads(j, tail);
    assert Skip(tail) == tail && tail[1..] == "\n" + rest;
    ItemsSkipLine(rest);
    ItemsStep(PrintTo(j, tail), j, tail);
  }

  lemma {:induction false} ItemsStep(s: string, j: Json, tail: string)
    requires ParseValue(s) == Some((j, tail)) && tail != [] && Skip(tail) == tail && tail[0] == ','
    requires ParseItems(tail[1..]).Some?
    ensures ParseItems(s) == Some(([j] + ParseItems(tail[1..]).value.0, ParseItems(tail[1..]).value.1))
  {}

  /** A bracketed list of clean objects, one a line, reads back as exactly that list. */
  lemma {:induction false} DocumentReads(js: seq<Json>)
    requires js != [] && js[0].Obj? && forall k :: 0 <= k < |js| ==> Clean(js[k])
    ensures ParseDocument("[\n" + ItemsTo(js, "\n]")) == Some(js)
  {
    var items := ItemsTo(js, "\n]");
    var s := "[\n" + items;
    assert s[0] == '[' && Skip(s) == s;
    assert s[1..] == "\n" + items;
    SkipLine(items);
    assert items[0] == '{' && Skip(items) == items;
    ItemsRead(js);
    assert Skip("") == "";
  }

  // ---- numbers that print as none --------------------------------------------------------------

  /** What a double that is no number prints as. */
  predicate IsNonNumber(t: string) { t == "NaN" || t == "inf" || t == "-inf" }

  /** A value with nothing to escape, whose numbers printed as a number or as one of those. */
  predicate Legible(j: Json) {
    match j
    case Num(t) => IsNumber(t) || IsNonNumber(t)
    case Str(t) => PlainText(t)
    case Obj(m) => LegibleMembers(m)
  }

  predicate LegibleMembers(m: Members) {
    m.Member? ==> PlainText(m.key) && Legible(m.value) && LegibleMembers(m.rest)
  }

  lemma NumberStarts(t: string)
    ensures IsNumber(t) ==> t != [] && (IsDigit(t[0]) || (t[0] == '-' && |t| > 1 && IsDigit(t[1])))
  {
    if IsNumber(t) {
      var d := if t != [] && t[0] == '-' then 1 else 0;
      var u := t[d..];
      assert d == 0 ==> u == t;
      var k :| 0 < k <= |u| && IsIntPart(u[..k]) && (k == |u| || (u[k] == '.' && k + 1 < |u| && AllDigits(u[k + 1..])));
      var whole := u[..k];
      assert IsIntPart(whole) && AllDigits(whole);
      assert IsDigit(whole[0]) && whole[0] == t[d];
    }
  }

  lemma NonNumberIsNone(t: string)
    requires IsNonNumber(t)
    ensures !IsNumber(t)
  {
    NumberStarts(t);
  }
}
