/**
 The grammar of JSON, all of it (sections 2 to 7 of RFC 8259), as trees and the text each spells, with
 the white space where the grammar allows it. A text is JSON if some tree spells it, whoever reads it.
 */
module JsonGrammar {
  import opened Prelude
  import opened Text
  import opened Json

  datatype Tree =
    | Literal(text: string)
    | Numeral(text: string)
    | Quoted(body: string)
    | Bracketed(space: string, items: Items)
    | Braced(space: string, fields: Fields)

  /** Array elements, each between the white space before it and after it. */
  datatype Items = NoItems | Item(before: string, value: Tree, after: string, rest: Items)

  /** Object members: a key, a colon and a value, with white space around each. */
  datatype Fields = NoFields | Pair(before: string, key: string, middle: string, ahead: string, value: Tree, after: string, rest: Fields)

  // ---- the words --------------------------------------------------------------------------

  predicate AllSpace(t: string) { forall k :: 0 <= k < |t| ==> IsSpace(t[k]) }

  predicate IsLiteral(t: string) { t == "true" || t == "false" || t == "null" }

  predicate IsFraction(t: string) { t == "" || (|t| > 1 && t[0] == '.' && AllDigits(t[1..])) }

  predicate IsExponent(t: string) {
    t == "" || (|t| > 1 && (t[0] == 'e' || t[0] == 'E') &&
                (var u := if t[1] == '+' || t[1] == '-' then t[2..] else t[1..]; u != [] && AllDigits(u)))
  }

  /** A number: a sign, an integer, a fraction and an exponent, all but the integer optional. */
  ghost predicate IsNumeral(t: string) {
    exists sign, whole, fraction, exponent ::
      && t == sign + whole + fraction + exponent
      && (sign == "" || sign == "-") && IsIntPart(whole) && IsFraction(fraction) && IsExponent(exponent)
  }

  predicate IsHex(c: char) { IsDigit(c) || 'a' <= c <= 'f' || 'A' <= c <= 'F' }

  predicate IsEscape(c: char) { c in {'"', '\\', '/', 'b', 'f', 'n', 'r', 't'} }

  /** What stands between a string's quotes: plain characters and escapes. */
  predicate IsBody(t: string) {
    || t == ""
    || (IsPlain(t[0]) && IsBody(t[1..]))
    || (|t| >= 2 && t[0] == '\\' && IsEscape(t[1]) && IsBody(t[2..]))
    || (|t| >= 6 && t[0] == '\\' && t[1] == 'u' && IsHex(t[2]) && IsHex(t[3]) && IsHex(t[4]) && IsHex(t[5]) && IsBody(t[6..]))
  }

  // ---- the trees --------------------------------------------------------------------------

  ghost predicate Grammatical(t: Tree) {
    match t
    case Literal(text) => IsLiteral(text)
    case Numeral(text) => IsNumeral(text)
    case Quoted(body) => IsBody(body)
    case Bracketed(space, items) => AllSpace(space) && GrammaticalItems(items)
    case Braced(space, fields) => AllSpace(space) && GrammaticalFields(fields)
  }

  ghost predicate GrammaticalItems(items: Items) {
    items.Item? ==> AllSpace(items.before) && Grammatical(items.value) && AllSpace(items.after) && GrammaticalItems(items.rest)
  }

  ghost predicate GrammaticalFields(fields: Fields) {
    fields.Pair? ==>
      && AllSpace(fields.before) && IsBody(fields.key) && AllSpace(fields.middle) && AllSpace(fields.ahead)
      && Grammatical(fields.value) && AllSpace(fields.after) && GrammaticalFields(fields.rest)
  }

  function Spell(t: Tree): string {
    match t
    case Literal(text) => text
    case Numeral(text) => text
    case Quoted(body) => "\"" + body + "\""
    case Bracketed(space, items) => "[" + (if items.NoItems? then space else SpellItems(items)) + "]"
    case Braced(space, fields) => "{" + (if fields.NoFields? then space else SpellFields(fields)) + "}"
  }

  function SpellItems(items: Items): string {
    match items
    case NoItems => ""
    case Item(before, value, after, rest) =>
      before + Spell(value) + after + (if rest.NoItems? then "" else "," + SpellItems(rest))
  }

  function SpellFields(fields: Fields): string {
    match fields
    case NoFields => ""
    case Pair(before, key, middle, ahead, value, after, rest) =>
      before + ("\"" + key + "\"") + middle + ":" + ahead + Spell(value) + after
      + (if rest.NoFields? then "" else "," + SpellFields(rest))
  }

  ghost predicate Spells(s: string, before: string, t: Tree, after: string) {
    AllSpace(before) && Grammatical(t) && AllSpace(after) && s == before + Spell(t) + after
  }

  /** A JSON text: one value, with white space around it. */
  ghost predicate IsJson(s: string) {
    exists before, t, after :: Spells(s, before, t, after)
  }

  // ---- what no JSON text has ------------------------------------------------------------------

  /** Where a reader of characters stands: outside every string, inside one, or past a backslash in one. */
  datatype Place = Outside | Inside | Escaped

  /** The letters of the words doubles print as that are in no word of the grammar. */
  predicate IsStray(c: char) { c == 'N' || c == 'i' }

  function NextPlace(p: Place, c: char): Place {
    match p
    case Outside => if c == '"' then Inside else Outside
    case Inside => if c == '"' then Outside else if c == '\\' then Escaped else Inside
    case Escaped => Inside
  }

  /** Where a text leads, or none if it has a stray letter outside its strings. */
  function Scan(s: string, p: Place): Option<Place> {
    if s == [] then Some(p)
    else if p == Outside && IsStray(s[0]) then None
    else Scan(s[1..], NextPlace(p, s[0]))
  }

  lemma {:induction false} ScanConcat(a: string, b: string, p: Place)
    ensures Scan(a + b, p) == if Scan(a, p).None? then None else Scan(b, Scan(a, p).value)
    decreases |a|
  {
    if a == [] {
      assert a + b == b;
    } else {
      assert (a + b)[0] == a[0] && (a + b)[1..] == a[1..] + b;
      if !(p == Outside && IsStray(a[0])) { ScanConcat(a[1..], b, NextPlace(p, a[0])); }
    }
  }

  /** A text that leaves the reader where it was, outside every string. */
  predicate Passes(s: string) { Scan(s, Outside) == Some(Outside) }

  lemma PassesConcat(a: string, b: string)
    requires Passes(a) && Passes(b)
    ensures Passes(a + b)
  {
    ScanConcat(a, b, Outside);
  }

  predicate IsTame(c: char) { !IsStray(c) && c != '"' }

  lemma {:induction false} TamePasses(s: string)
    requires forall k :: 0 <= k < |s| ==> IsTame(s[k])
    ensures Passes(s)
    decreases |s|
  {
    if s != [] { TamePasses(s[1..]); }
  }

  lemma NumeralTame(t: string)
    requires IsNumeral(t)
    ensures Passes(t)
  {
    var sign, whole, fraction, exponent :|
      && t == sign + whole + fraction + exponent
      && (sign == "" || sign == "-") && IsIntPart(whole) && IsFraction(fraction) && IsExponent(exponent);
    TamePasses(sign);
    TamePasses(whole);
    FractionTame(fraction);
    ExponentTame(exponent);
    PassesConcat(sign, whole);
    PassesConcat(sign + whole, fraction);
    PassesConcat(sign + whole + fraction, exponent);
  }

  lemma DigitsTame(t: string)
    requires AllDigits(t)
    ensures Passes(t)
  {
    TamePasses(t);
  }

  lemma FractionTame(t: string)
    requires IsFraction(t)
    ensures Passes(t)
  {
    if t != "" {
      DigitsTame(t[1..]);
      TamePasses([t[0]]);
      PassesConcat([t[0]], t[1..]);
      assert [t[0]] + t[1..] == t;
    }
  }

  lemma ExponentTame(t: string)
    requires IsExponent(t)
    ensures Passes(t)
  {
    if t != "" {
      var n := if t[1] == '+' || t[1] == '-' then 2 else 1;
      DigitsTame(t[n..]);
      TamePasses(t[..n]);
      PassesConcat(t[..n], t[n..]);
      assert t[..n] + t[n..] == t;
    }
  }

  lemma {:induction false} BodyStaysInside(t: string)
    requires IsBody(t)
    ensures Scan(t, Inside) == Some(Inside)
    decreases |t|
  {
    if t == "" {
    } else if IsPlain(t[0]) && IsBody(t[1..]) {
      BodyStaysInside(t[1..]);
    } else {
      var n := if IsEscape(t[1]) && IsBody(t[2..]) then 2 else 6;
      BodyStaysInside(t[n..]);
      EscapeStaysInside(t[..n]);
      ScanConcat(t[..n], t[n..], Inside);
      assert t[..n] + t[n..] == t;
    }
  }

  lemma {:induction false} UnquotedStaysInside(t: string)
    requires forall k :: 0 <= k < |t| ==> t[k] != '"' && t[k] != '\\'
    ensures Scan(t, Inside) == Some(Inside)
    decreases |t|
  {
    if t != [] { UnquotedStaysInside(t[1..]); }
  }

  lemma {:induction false} EscapeStaysInside(t: string)
    requires |t| == 2 || (|t| == 6 && IsHex(t[2]) && IsHex(t[3]) && IsHex(t[4]) && IsHex(t[5]))
    requires t[0] == '\\'
    ensures Scan(t, Inside) == Some(Inside)
  {
    var u := t[1..][1..];
    assert u == t[2..];
    forall k | 0 <= k < |u| ensures u[k] != '"' && u[k] != '\\' { assert IsHex(u[k]); }
    UnquotedStaysInside(u);
    assert Scan(t, Inside) == Scan(t[1..], Escaped) == Scan(u, Inside);
  }

  lemma {:induction false} QuotedPasses(body: string)
    requires IsBody(body)
    ensures Passes("\"" + body + "\"")
  {
    BodyStaysInside(body);
    assert "\""[1..] == "";
    assert Scan("\"", Outside) == Some(Inside) && Scan("\"", Inside) == Some(Outside);
    ScanConcat("\"", body, Outside);
    ScanConcat("\"" + body, "\"", Outside);
  }

  lemma SpacePasses(t: string)
    requires AllSpace(t)
    ensures Passes(t)
  {
    TamePasses(t);
  }

  lemma PunctuationPasses()
    ensures Passes("") && Passes("[") && Passes("]") && Passes("{") && Passes("}") && Passes(",") && Passes(":")
  {
    TamePasses("[");
    TamePasses("]");
    TamePasses("{");
    TamePasses("}");
    TamePasses(",");
    TamePasses(":");
  }

  lemma {:induction false} TreePasses(t: Tree)
    requires Grammatical(t)
    ensures Passes(Spell(t))
    decreases t
  {
    PunctuationPasses();
    match t
    case Literal(text) => TamePasses(text);
    case Numeral(text) => NumeralTame(text);
    case Quoted(body) => QuotedPasses(body);
    case Bracketed(space, items) =>
      var inner := if items.NoItems? then space else SpellItems(items);
      if items.NoItems? { SpacePasses(space); } else { ItemsPass(items); }
      PassesConcat("[", inner);
      PassesConcat("[" + inner, "]");
    case Braced(space, fields) =>
      var inner := if fields.NoFields? then space else SpellFields(fields);
      if fields.NoFields? { SpacePasses(space); } else { FieldsPass(fields); }
      PassesConcat("{", inner);
      PassesConcat("{" + inner, "}");
  }

  lemma {:induction false} ItemsPass(items: Items)
    requires GrammaticalItems(items)
    ensures Passes(SpellItems(items))
    decreases items
  {
    PunctuationPasses();
    if items.Item? {
      var more := if items.rest.NoItems? then "" else "," + SpellItems(items.rest);
      SpacePasses(items.before);
      TreePasses(items.value);
      SpacePasses(items.after);
      ItemsPass(items.rest);
      PassesConcat(",", SpellItems(items.rest));
      PassesConcat(items.before, Spell(items.value));
      PassesConcat(items.before + Spell(items.value), items.after);
      PassesConcat(items.before + Spell(items.value) + items.after, more);
    }
  }

  lemma {:induction false} FieldsPass(fields: Fields)
    requires GrammaticalFields(fields)
    ensures Passes(SpellFields(fields))
    decreases fields
  {
    PunctuationPasses();
    if fields.Pair? {
      var key, value := "\"" + fields.key + "\"", Spell(fields.value);
      var more := if fields.rest.NoFields? then "" else "," + SpellFields(fields.rest);
      SpacePasses(fields.before);
      QuotedPasses(fields.key);
      SpacePasses(fields.middle);
      SpacePasses(fields.ahead);
      TreePasses(fields.value);
      SpacePasses(fields.after);
      FieldsPass(fields.rest);
      PassesConcat(",", SpellFields(fields.rest));
      PassesConcat(fields.before, key);
      PassesConcat(fields.before + key, fields.middle);
      PassesConcat(fields.before + key + fields.middle, ":");
      PassesConcat(fields.before + key + fields.middle + ":", fields.ahead);
      PassesConcat(fields.before + key + fields.middle + ":" + fields.ahead, value);
      PassesConcat(fields.before + key + fields.middle + ":" + fields.ahead + value, fields.after);
      PassesConcat(fields.before + key + fields.middle + ":" + fields.ahead + value + fields.after, more);
    }
  }

  /** No JSON text has a stray letter outside its strings. */
  lemma JsonPasses(s: string)
    requires IsJson(s)
    ensures Passes(s)
  {
    var before, t, after :| Spells(s, before, t, after);
    SpacePasses(before);
    TreePasses(t);
    SpacePasses(after);
    PassesConcat(before, Spell(t));
    PassesConcat(before + Spell(t), after);
  }

  // ---- what is printed, scanned ---------------------------------------------------------------

  /** Scanning printed text: over what is clean to what follows, and no further than a word that is no number. */
  predicate ScansOver(whole: string, clean: bool, tail: string) {
    Scan(whole, Outside) == if clean then Scan(tail, Outside) else None
  }

  lemma {:induction false} PassOver(a: string, tail: string)
    requires Passes(a)
    ensures Scan(a + tail, Outside) == Scan(tail, Outside)
  {
    ScanConcat(a, tail, Outside);
  }

  lemma {:induction false} PlainIsBody(t: string)
    requires PlainText(t)
    ensures IsBody(t)
    decreases |t|
  {
    if t != [] { PlainIsBody(t[1..]); }
  }

  lemma PlainPasses(t: string)
    requires PlainText(t)
    ensures Passes("\"" + t + "\"")
  {
    PlainIsBody(t);
    QuotedPasses(t);
  }

  lemma NumScans(t: string, tail: string)
    requires IsNumber(t) || IsNonNumber(t)
    ensures ScansOver(t + tail, IsNumber(t), tail)
  {
    if IsNumber(t) {
      NumberIsChars(t);
      TamePasses(t);
      PassOver(t, tail);
    } else {
      ScanConcat(t, tail, Outside);
      if t == "-inf" { assert t[1..][0] == 'i'; }
    }
  }

  lemma {:induction false} ValueScans(j: Json, tail: string)
    requires Legible(j)
    ensures ScansOver(PrintTo(j, tail), Clean(j), tail)
    decreases j
  {
    PunctuationPasses();
    match j
    case Num(t) => NumScans(t, tail);
    case Str(t) =>
      PlainPasses(t);
      PassOver("\"" + t + "\"", tail);
      assert "\"" + t + "\"" + tail == PrintTo(j, tail);
    case Obj(m) =>
      PassOver("{", MembersTo(m, "}" + tail));
      MembersScan(m, "}" + tail);
      PassOver("}", tail);
  }

  lemma {:induction false} MembersScan(m: Members, tail: string)
    requires LegibleMembers(m)
    ensures ScansOver(MembersTo(m, tail), CleanMembers(m), tail)
    decreases m
  {
    PunctuationPasses();
    if m.Member? {
      var after := if m.rest.NoMore? then tail else "," + MembersTo(m.rest, tail);
      var v := PrintTo(m.value, after);
      PlainPasses(m.key);
      PassesConcat("\"" + m.key + "\"", ":");
      PassOver("\"" + m.key + "\"" + ":", v);
      assert "\"" + m.key + "\"" + ":" + v == MembersTo(m, tail);
      ValueScans(m.value, after);
      MembersScan(m.rest, tail);
      if m.rest.Member? { PassOver(",", MembersTo(m.rest, tail)); }
    }
  }

  lemma {:induction false} ItemsScan(js: seq<Json>, k: nat, tail: string)
    requires k < |js| && !Clean(js[k]) && forall i :: 0 <= i < |js| ==> Legible(js[i])
    ensures Scan(ItemsTo(js, tail), Outside) == None
    decreases |js|
  {
    var after := if |js| == 1 then tail else ",\n" + ItemsTo(js[1..], tail);
    ValueScans(js[0], after);
    if k > 0 {
      ItemsScan(js[1..], k - 1, tail);
      TamePasses(",\n");
      PassOver(",\n", ItemsTo(js[1..], tail));
    }
  }

  /** One number that printed as none, and the document is no JSON text. */
  lemma {:induction false} DocumentIsNoJson(js: seq<Json>, k: nat)
    requires k < |js| && !Clean(js[k]) && forall i :: 0 <= i < |js| ==> Legible(js[i])
    ensures !IsJson("[\n" + ItemsTo(js, "\n]"))
  {
    var items := ItemsTo(js, "\n]");
    ItemsScan(js, k, "\n]");
    TamePasses("[\n");
    PassOver("[\n", items);
    if IsJson("[\n" + items) { JsonPasses("[\n" + items); }
  }

  // ---- what is printed clean is JSON -----------------------------------------------------------

  function TreeOf(j: Json): Tree {
    match j
    case Num(t) => Numeral(t)
    case Str(t) => Quoted(t)
    case Obj(m) => Braced("", FieldsIn(m))
  }

  function FieldsIn(m: Members): Fields {
    match m
    case NoMore => NoFields
    case Member(key, value, rest) => Pair("", key, "", "", TreeOf(value), "", FieldsIn(rest))
  }

  lemma NumeralOf(sign: string, whole: string, fraction: string)
    requires (sign == "" || sign == "-") && IsIntPart(whole) && IsFraction(fraction)
    ensures IsNumeral(sign + whole + fraction)
  {
    assert sign + whole + fraction == sign + whole + fraction + "";
    assert IsExponent("");
  }

  lemma NumberIsNumeral(t: string)
    requires IsNumber(t)
    ensures IsNumeral(t)
  {
    var n := if t != [] && t[0] == '-' then 1 else 0;
    var u := t[n..];
    assert n == 0 ==> u == t;
    var k :| 0 < k <= |u| && IsIntPart(u[..k]) && (k == |u| || (u[k] == '.' && k + 1 < |u| && AllDigits(u[k + 1..])));
    SignSplits(t, n, u, k);
    assert k < |u| ==> u[k..][1..] == u[k + 1..];
    NumeralOf(t[..n], u[..k], u[k..]);
  }

  lemma SignSplits(t: string, n: nat, u: string, k: nat)
    requires n <= 1 && n <= |t| && u == t[n..] && k <= |u| && (n == 1 ==> t[0] == '-')
    ensures t[..n] + u[..k] + u[k..] == t && (t[..n] == "" || t[..n] == "-")
  {}

  lemma {:induction false} TreeSpells(j: Json, tail: string)
    requires Clean(j)
    ensures Grammatical(TreeOf(j)) && Spell(TreeOf(j)) + tail == PrintTo(j, tail)
    decreases j
  {
    match j
    case Num(t) => NumberIsNumeral(t);
    case Str(t) => PlainIsBody(t);
    case Obj(m) =>
      FieldsSpell(m, "}" + tail);
      var inner := SpellFields(FieldsIn(m));
      assert "{" + (if m.NoMore? then "" else inner) + "}" + tail == "{" + (inner + ("}" + tail));
  }

  lemma {:induction false} FieldsSpell(m: Members, tail: string)
    requires CleanMembers(m)
    ensures GrammaticalFields(FieldsIn(m)) && SpellFields(FieldsIn(m)) + tail == MembersTo(m, tail)
    decreases m
  {
    if m.Member? {
      PlainIsBody(m.key);
      FieldsSpell(m.rest, tail);
      var inner := SpellFields(FieldsIn(m.rest));
      var more := if m.rest.NoMore? then "" else "," + inner;
      MoreSpells(inner, tail);
      TreeSpells(m.value, more + tail);
      PairSpells(m.key, Spell(TreeOf(m.value)), more, tail);
    }
  }

  lemma MoreSpells(inner: string, tail: string)
    ensures ("," + inner) + tail == "," + (inner + tail) && "" + tail == tail
  {}

  lemma PairSpells(key: string, value: string, more: string, tail: string)
    ensures ("" + ("\"" + key + "\"") + "" + ":" + "" + value + "" + more) + tail == "\"" + (key + ("\":" + (value + (more + tail))))
  {}

  /** A document's elements, each on its own line. */
  function ItemsIn(js: seq<Json>): Items {
    if js == [] then NoItems else Item("\n", TreeOf(js[0]), if |js| == 1 then "\n" else "", ItemsIn(js[1..]))
  }

  lemma {:induction false} ItemsSpell(js: seq<Json>)
    requires js != [] && forall i :: 0 <= i < |js| ==> Clean(js[i])
    ensures GrammaticalItems(ItemsIn(js)) && SpellItems(ItemsIn(js)) + "]" == "\n" + ItemsTo(js, "\n]")
    decreases |js|
  {
    var value := Spell(TreeOf(js[0]));
    if |js| == 1 {
      TreeSpells(js[0], "\n]");
      LastSpells(value);
    } else {
      ItemsSpell(js[1..]);
      TreeSpells(js[0], ",\n" + ItemsTo(js[1..], "\n]"));
      NextSpells(value, SpellItems(ItemsIn(js[1..])), ItemsTo(js[1..], "\n]"));
    }
  }

  lemma LastSpells(value: string)
    ensures ("\n" + value + "\n" + "") + "]" == "\n" + (value + "\n]")
  {}

  lemma NextSpells(value: string, more: string, rest: string)
    requires more + "]" == "\n" + rest
    ensures ("\n" + value + "" + ("," + more)) + "]" == "\n" + (value + (",\n" + rest))
  {
    assert ("\n" + value + "" + ("," + more)) + "]" == "\n" + (value + ("," + (more + "]")));
    assert "," + ("\n" + rest) == ",\n" + rest;
  }

  lemma BracketSpells(inner: string, rest: string)
    requires inner + "]" == "\n" + rest
    ensures "" + ("[\n" + rest) == "[\n" + rest == "[" + (inner + ("]" + ""))
  {
    assert "]" + "" == "]";
    assert "[" + ("\n" + rest) == "[\n" + rest;
  }

  /** Every number having printed as one, it is a JSON text. */
  lemma {:induction false} DocumentIsJson(js: seq<Json>)
    requires js != [] && forall i :: 0 <= i < |js| ==> Clean(js[i])
    ensures IsJson("[\n" + ItemsTo(js, "\n]"))
  {
    ItemsSpell(js);
    BracketSpells(SpellItems(ItemsIn(js)), ItemsTo(js, "\n]"));
    SpellsArray("[\n" + ItemsTo(js, "\n]"), "", "[\n" + ItemsTo(js, "\n]"), SpellItems(ItemsIn(js)), Bracketed("", ItemsIn(js)), "");
  }

  lemma EmptyIsJson()
    ensures IsJson("[]\n")
  {
    assert Spell(Bracketed("", NoItems)) == "[" + "" + "]";
    assert Spells("[]\n", "", Bracketed("", NoItems), "\n");
  }

  // ---- what the parser accepts is JSON ---------------------------------------------------------

  lemma {:induction false} SkipSplits(s: string) returns (space: string)
    ensures AllSpace(space) && s == space + Skip(s)
    decreases |s|
  {
    space := "";
    if s != [] && IsSpace(s[0]) {
      var rest := SkipSplits(s[1..]);
      space := [s[0]] + rest;
      assert s == [s[0]] + s[1..];
    }
  }

  lemma {:induction false} StringSplits(s: string)
    requires StringRest(s).Some?
    ensures var r := StringRest(s).value; IsBody(r.0) && s == r.0 + "\"" + r.1
    decreases |s|
  {
    var r := StringRest(s).value;
    if s[0] == '"' {
      assert s == "" + "\"" + s[1..];
    } else {
      StringSplits(s[1..]);
      assert r.0[1..] == StringRest(s[1..]).value.0;
      assert s == [s[0]] + s[1..];
    }
  }

  lemma Quotes(s: string, body: string, rest: string)
    requires s != [] && s[0] == '"' && s[1..] == body + "\"" + rest
    ensures s == ("\"" + body + "\"") + rest
  {
    assert s == "\"" + s[1..];
  }

  lemma Leads(s: string, first: string, rest: string)
    requires |first| == 1 && s != [] && s[0] == first[0] && s[1..] == rest
    ensures s == first + rest
  {}

  /** A value parsed is a tree spelled, after white space and before what is left. */
  lemma {:induction false} ValueParses(s0: string) returns (space: string, t: Tree)
    requires ParseValue(s0).Some?
    ensures AllSpace(space) && Grammatical(t) && s0 == space + Spell(t) + ParseValue(s0).value.1
    decreases |s0|, 1
  {
    space := SkipSplits(s0);
    var s := Skip(s0);
    if s[0] == '"' {
      t := QuotedParses(s);
    } else if s[0] == '{' {
      t := BracedParses(s);
    } else {
      t := NumeralParses(s);
    }
    Close(space, Spell(t), ParseValue(s0).value.1);
  }

  lemma QuotedParses(s: string) returns (t: Tree)
    requires s != [] && s[0] == '"' && Skip(s) == s && ParseValue(s).Some?
    ensures Grammatical(t) && s == Spell(t) + ParseValue(s).value.1
  {
    var r := StringRest(s[1..]).value;
    StringSplits(s[1..]);
    t := Quoted(r.0);
    Quotes(s, r.0, r.1);
  }

  lemma NumeralParses(s: string) returns (t: Tree)
    requires s != [] && s[0] != '"' && s[0] != '{' && Skip(s) == s && ParseValue(s).Some?
    ensures Grammatical(t) && s == Spell(t) + ParseValue(s).value.1
  {
    var k := NumberRun(s);
    t := Numeral(s[..k]);
    NumberIsNumeral(s[..k]);
  }

  lemma {:induction false} BracedParses(s: string) returns (t: Tree)
    requires s != [] && s[0] == '{' && Skip(s) == s && ParseValue(s).Some?
    ensures Grammatical(t) && s == Spell(t) + ParseValue(s).value.1
    decreases |s|, 0, 1
  {
    var inner := Skip(s[1..]);
    var space := SkipSplits(s[1..]);
    if inner != [] && inner[0] == '}' {
      t := Braced(space, NoFields);
      Leads(inner, "}", inner[1..]);
      Encloses(s, "{", space, inner, "", "}", inner[1..]);
      Shut("{", space + "", "}", inner[1..]);
      assert space + "" == space;
    } else {
      var fields := FieldsParse(inner);
      var rest := ParseMembers(inner).value.1;
      t := Braced("", Pair(space + fields.before, fields.key, fields.middle, fields.ahead, fields.value, fields.after, fields.rest));
      SpaceFirst(space, fields);
      Encloses(s, "{", space, inner, SpellFields(fields), "}", rest);
      Shut("{", space + SpellFields(fields), "}", rest);
    }
  }

  /** A bracket opened, white space, what is inside, and the bracket closed. */
  lemma Encloses(s: string, open: string, space: string, t: string, inner: string, close: string, after: string)
    requires |open| == 1 && s != [] && s[0] == open[0] && s[1..] == space + t && t == inner + close + after
    ensures s == open + ((space + inner) + (close + after))
  {
    assert s == open + s[1..];
    assert space + (inner + close + after) == (space + inner) + (close + after);
  }

  lemma Shut(open: string, inner: string, close: string, after: string)
    ensures open + (inner + (close + after)) == (open + inner + close) + after
  {}

  lemma {:induction false} SpaceFirst(space: string, fields: Fields)
    requires fields.Pair? && AllSpace(space) && AllSpace(fields.before)
    ensures var spaced := Pair(space + fields.before, fields.key, fields.middle, fields.ahead, fields.value, fields.after, fields.rest);
      AllSpace(space + fields.before) && SpellFields(spaced) == space + SpellFields(fields)
  {
    var key, value := "\"" + fields.key + "\"", Spell(fields.value);
    var more := if fields.rest.NoFields? then "" else "," + SpellFields(fields.rest);
    assert (space + fields.before) + key + fields.middle + ":" + fields.ahead + value + fields.after + more
        == space + (fields.before + key + fields.middle + ":" + fields.ahead + value + fields.after + more);
  }

  /** The end of a list that closes here, and of one that goes on. */
  lemma ClosesHere(e: string, close: string, rest: string)
    requires |close| == 1 && e != [] && e[0] == close[0] && e[1..] == rest
    ensures e == "" + (close + rest)
  {}

  lemma GoesOn(e: string, inner: string, close: string, rest: string)
    requires e != [] && e[0] == ',' && e[1..] == inner + close + rest
    ensures e == ("," + inner) + (close + rest)
  {
    assert e == "," + e[1..];
  }

  lemma Close(inner: string, close: string, rest: string)
    ensures inner + (close + rest) == inner + close + rest
  {}

  /** The members up to and over the closing brace. */
  lemma {:induction false} FieldsParse(s0: string) returns (fields: Fields)
    requires ParseMembers(s0).Some?
    ensures fields.Pair? && GrammaticalFields(fields) && s0 == SpellFields(fields) + "}" + ParseMembers(s0).value.1
    decreases |s0|, 0, 0
  {
    var rest := ParseMembers(s0).value.1;
    var before := SkipSplits(s0);
    var s := Skip(s0);
    var key := StringRest(s[1..]).value;
    StringSplits(s[1..]);
    Quotes(s, key.0, key.1);
    var middle := SkipSplits(key.1);
    var c := Skip(key.1);
    Leads(c, ":", c[1..]);
    var ahead, value := ValueParses(c[1..]);
    var v := ParseValue(c[1..]).value.1;
    var after := SkipSplits(v);
    var others, more := FieldsGoOn(Skip(v), rest);
    fields := Pair(before, key.0, middle, ahead, value, after, others);
    PairJoins(s0, before, s, "\"" + key.0 + "\"", key.1, middle, c, ahead, Spell(value), c[1..], v, after, Skip(v), more, "}" + rest);
    Close(SpellFields(fields), "}", rest);
  }

  /** After a member: the closing brace, or a comma and more of them. */
  lemma {:induction false} FieldsGoOn(e: string, rest: string) returns (others: Fields, more: string)
    requires e != [] && (e[0] == '}' ==> e[1..] == rest)
    requires e[0] != '}' ==> e[0] == ',' && ParseMembers(e[1..]).Some? && ParseMembers(e[1..]).value.1 == rest
    ensures GrammaticalFields(others) && more == (if others.NoFields? then "" else "," + SpellFields(others))
    ensures e == more + ("}" + rest)
    decreases |e|, 0, 0
  {
    if e[0] == '}' {
      others, more := NoFields, "";
      ClosesHere(e, "}", rest);
    } else {
      others := FieldsParse(e[1..]);
      more := "," + SpellFields(others);
      GoesOn(e, SpellFields(others), "}", rest);
    }
  }

  lemma PairJoins(s0: string, before: string, s: string, key: string, k: string, middle: string, c: string, ahead: string,
                  value: string, c1: string, v: string, after: string, e: string, more: string, end: string)
    requires s0 == before + s && s == key + k && k == middle + c && c == ":" + c1 && c1 == ahead + value + v
    requires v == after + e && e == more + end
    ensures s0 == (before + key + middle + ":" + ahead + value + after + more) + end
  {
    assert v == (after + more) + end;
    assert c1 == (ahead + value + after + more) + end;
    assert c == (":" + ahead + value + after + more) + end;
    assert k == (middle + ":" + ahead + value + after + more) + end;
    assert s == (key + middle + ":" + ahead + value + after + more) + end;
  }

  /** The elements up to and over the closing bracket. */
  lemma {:induction false} ItemsParse(s: string) returns (items: Items)
    requires ParseItems(s).Some?
    ensures items.Item? && GrammaticalItems(items) && s == SpellItems(items) + "]" + ParseItems(s).value.1
    decreases |s|, 0
  {
    var rest := ParseItems(s).value.1;
    var before, value := ValueParses(s);
    var v := ParseValue(s).value.1;
    var after := SkipSplits(v);
    var others, more := ItemsGoOn(Skip(v), rest);
    items := Item(before, value, after, others);
    ItemJoins(s, before, Spell(value), v, after, Skip(v), more, "]" + rest);
    Close(SpellItems(items), "]", rest);
  }

  /** After an element: the closing bracket, or a comma and more of them. */
  lemma {:induction false} ItemsGoOn(e: string, rest: string) returns (others: Items, more: string)
    requires e != [] && (e[0] == ']' ==> e[1..] == rest)
    requires e[0] != ']' ==> e[0] == ',' && ParseItems(e[1..]).Some? && ParseItems(e[1..]).value.1 == rest
    ensures GrammaticalItems(others) && more == (if others.NoItems? then "" else "," + SpellItems(others))
    ensures e == more + ("]" + rest)
    decreases |e|, 0
  {
    if e[0] == ']' {
      others, more := NoItems, "";
      ClosesHere(e, "]", rest);
    } else {
      others := ItemsParse(e[1..]);
      more := "," + SpellItems(others);
      GoesOn(e, SpellItems(others), "]", rest);
    }
  }

  lemma ItemJoins(s: string, before: string, value: string, v: string, after: string, e: string, more: string, end: string)
    requires s == before + value + v && v == after + e && e == more + end
    ensures s == (before + value + after + more) + end
  {
    assert v == (after + more) + end;
  }

  lemma {:induction false} SpellsArray(s0: string, before: string, s: string, inner: string, t: Tree, after: string)
    requires AllSpace(before) && Grammatical(t) && AllSpace(after) && s0 == before + s
    requires Spell(t) == "[" + inner + "]" && s == "[" + (inner + ("]" + after))
    ensures IsJson(s0)
  {
    assert s == Spell(t) + after;
    assert Spells(s0, before, t, after);
  }

  lemma {:induction false} SpaceFirstItem(space: string, items: Items)
    requires items.Item? && AllSpace(space) && AllSpace(items.before)
    ensures var spaced := Item(space + items.before, items.value, items.after, items.rest);
      AllSpace(space + items.before) && SpellItems(spaced) == space + SpellItems(items)
  {
    var more := if items.rest.NoItems? then "" else "," + SpellItems(items.rest);
    SpaceJoins(space, items.before, Spell(items.value), items.after, more);
  }

  lemma SpaceJoins(space: string, before: string, value: string, after: string, more: string)
    ensures (space + before) + value + after + more == space + (before + value + after + more)
  {}

  /** The parser reads a part of the language and nothing outside it. */
  lemma AcceptedIsJson(s0: string)
    requires ParseDocument(s0).Some?
    ensures IsJson(s0)
  {
    var before := SkipSplits(s0);
    var s := Skip(s0);
    var space := SkipSplits(s[1..]);
    var t := Skip(s[1..]);
    if t != [] && t[0] == ']' {
      var after := AllSkipped(t[1..]);
      Leads(t, "]", t[1..]);
      Encloses(s, "[", space, t, "", "]", after);
      assert space + "" == space;
      SpellsArray(s0, before, s, space, Bracketed(space, NoItems), after);
    } else {
      var items := ItemsParse(t);
      var after := AllSkipped(ParseItems(t).value.1);
      SpaceFirstItem(space, items);
      Encloses(s, "[", space, t, SpellItems(items), "]", after);
      SpellsArray(s0, before, s, space + SpellItems(items),
                  Bracketed("", Item(space + items.before, items.value, items.after, items.rest)), after);
    }
  }

  lemma AllSkipped(s: string) returns (space: string)
    requires Skip(s) == []
    ensures AllSpace(space) && space == s
  {
    space := SkipSplits(s);
    assert space + [] == space;
  }
}
