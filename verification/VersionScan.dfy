/** Finding an embedded version literal in the bytes of an image. */
module VersionScan {
  import opened Prelude
  import opened Text
  import opened Version

  predicate IsVersionChar(c: char) {
    IsDigit(c) || c in {'.', 'a', 'b', 'c', 'r'}
  }

  predicate IsTerminator(c: char) {
    c in {'\0', ' ', '(', '\n', '\r', '\t', '"', '+'}
  }

  /** By their codes: the digits, the dot, a, b, c and r run on; NUL, tab, newline, return, blank, quote, ( and + end a literal. */
  lemma CharCodes(c: char)
    ensures IsVersionChar(c) <==> 48 <= c as int <= 57 || c as int in {46, 97, 98, 99, 114}
    ensures IsTerminator(c) <==> c as int in {0, 9, 10, 13, 32, 34, 40, 43}
  {}

  /** Where the run of version characters from `i` stops. */
  function RunEnd(b: string, i: nat): (end: nat)
    requires i <= |b|
    ensures i <= end <= |b|
    ensures forall k :: i <= k < end ==> IsVersionChar(b[k])
    ensures end < |b| ==> !IsVersionChar(b[end])
    decreases |b| - i
  {
    if i < |b| && IsVersionChar(b[i]) then RunEnd(b, i + 1) else i
  }

  predicate Anchored(b: string, i: nat) {
    i + 1 < |b| && b[i] == '3' && b[i + 1] == '.' && (i == 0 || !IsVersionChar(b[i - 1]))
  }

  /** What the scanner makes of position `i`. */
  function MatchAt(b: string, i: nat): Option<PythonVersion> {
    if !Anchored(b, i) then None
    else
      var end := RunEnd(b, i);
      var candidate := ParseExact(b[i..end]);
      if candidate.Some? && (end == |b| || IsTerminator(b[end])) then candidate else None
  }

  /** A version literal of the image, delimited on both sides: no word of how it is searched for. */
  ghost predicate Literal(b: string, i: nat, end: nat, v: PythonVersion) {
    && i + 1 < end <= |b|
    && b[i] == '3' && b[i + 1] == '.'
    && (i == 0 || !IsVersionChar(b[i - 1]))
    && (forall k :: i <= k < end ==> IsVersionChar(b[k]))
    && (end == |b| || IsTerminator(b[end]))
    && Spells(b[i..end], v)
  }

  lemma {:induction false} RunEndUnique(b: string, i: nat, end: nat)
    requires i <= end <= |b| && forall k :: i <= k < end ==> IsVersionChar(b[k])
    requires end < |b| ==> !IsVersionChar(b[end])
    ensures RunEnd(b, i) == end
    decreases end - i
  {
    if i < end { RunEndUnique(b, i + 1, end); }
  }

  lemma {:induction false} RunCoversAnchor(b: string, i: nat)
    requires Anchored(b, i)
    ensures RunEnd(b, i) >= i + 2
  {
    assert RunEnd(b, i) == RunEnd(b, i + 1) == RunEnd(b, i + 2);
  }

  lemma {:induction false} MatchIsLiteral(b: string, i: nat, v: PythonVersion)
    requires MatchAt(b, i) == Some(v)
    ensures Literal(b, i, RunEnd(b, i), v)
  {
    RunCoversAnchor(b, i);
    ParseIff(b[i..RunEnd(b, i)], v);
  }

  lemma LiteralMatches(b: string, i: nat, end: nat, v: PythonVersion)
    requires Literal(b, i, end, v)
    ensures MatchAt(b, i) == Some(v)
  {
    RunEndUnique(b, i, end);
    ParseIff(b[i..end], v);
  }

  /** A position matches exactly when a delimited literal of the grammar stands there. */
  lemma MatchIff(b: string, i: nat, v: PythonVersion)
    ensures MatchAt(b, i) == Some(v) <==> exists end :: Literal(b, i, end, v)
  {
    if MatchAt(b, i) == Some(v) { MatchIsLiteral(b, i, v); }
    forall end | Literal(b, i, end, v) ensures MatchAt(b, i) == Some(v) { LiteralMatches(b, i, end, v); }
  }

  /** The first match at or after `i`. */
  function First(b: string, i: nat): Option<PythonVersion>
    decreases |b| - i
  {
    if i >= |b| then None
    else if MatchAt(b, i).Some? then MatchAt(b, i)
    else First(b, i + 1)
  }

  ghost predicate FirstAt(b: string, i: nat, k: nat, v: PythonVersion) {
    i <= k < |b| && MatchAt(b, k) == Some(v) && forall j :: i <= j < k ==> MatchAt(b, j) == None
  }

  lemma {:induction false} FirstHas(b: string, i: nat, v: PythonVersion)
    requires First(b, i) == Some(v)
    ensures exists k :: FirstAt(b, i, k, v)
    decreases |b| - i
  {
    if MatchAt(b, i).Some? {
      assert FirstAt(b, i, i, v);
    } else {
      FirstHas(b, i + 1, v);
      var k :| FirstAt(b, i + 1, k, v);
      assert FirstAt(b, i, k, v);
    }
  }

  lemma {:induction false} FirstTakes(b: string, i: nat, k: nat, v: PythonVersion)
    requires FirstAt(b, i, k, v)
    ensures First(b, i) == Some(v)
    decreases k - i
  {
    if i < k { FirstTakes(b, i + 1, k, v); }
  }

  /** `v` is found exactly when it is the literal at the first position that has any. */
  lemma {:induction false} FirstIff(b: string, i: nat, v: PythonVersion)
    ensures First(b, i) == Some(v) <==> exists k :: FirstAt(b, i, k, v)
  {
    if First(b, i) == Some(v) { FirstHas(b, i, v); }
    forall k | FirstAt(b, i, k, v) ensures First(b, i) == Some(v) { FirstTakes(b, i, k, v); }
  }

  lemma {:induction false} NoneIff(b: string, i: nat)
    ensures First(b, i) == None <==> forall k :: i <= k < |b| ==> MatchAt(b, k) == None
    decreases |b| - i
  {
    if i < |b| { NoneIff(b, i + 1); }
  }

  /** Inside a run no position can start a match, so the run may be skipped whole. */
  lemma {:induction false} SkipRun(b: string, i: nat, end: nat)
    requires 0 < i <= end <= |b| && forall k :: i - 1 <= k < end ==> IsVersionChar(b[k])
    ensures First(b, i) == First(b, end)
    decreases end - i
  {
    if i < end {
      assert IsVersionChar(b[i - 1]);
      SkipRun(b, i + 1, end);
    }
  }

  method FindRunEnd(b: string, i: nat) returns (end: nat)
    requires i <= |b|
    ensures end == RunEnd(b, i)
  {
    end := i;
    while end < |b| && IsVersionChar(b[end])
      invariant i <= end <= |b| && RunEnd(b, end) == RunEnd(b, i)
    {
      end := end + 1;
    }
  }

  /** The scan: past every position that does not match, one byte at a time. */
  method ScanForVersion(b: string) returns (r: Option<PythonVersion>)
    ensures r == First(b, 0)
  {
    var i := 0;
    while i + 1 < |b|
      invariant First(b, i) == First(b, 0)
    {
      if b[i] != '3' || b[i + 1] != '.' || (i > 0 && IsVersionChar(b[i - 1])) {
        i := i + 1;
        continue;
      }
      var end := FindRunEnd(b, i);
      var candidate := Parse(b[i..end]);
      if candidate.Some? && IsTerminator(if end < |b| then b[end] else '\0') {
        return candidate;
      }
      i := i + 1;
    }
    assert First(b, i) == None by { NoneIff(b, i); }
    return None;
  }

  /** The same scan, jumping over a run that did not parse. */
  method ScanSkippingRuns(b: string) returns (r: Option<PythonVersion>)
    ensures r == First(b, 0)
  {
    var i := 0;
    while i + 1 < |b|
      invariant First(b, i) == First(b, 0)
      decreases |b| - i
    {
      if b[i] != '3' || b[i + 1] != '.' || (i > 0 && IsVersionChar(b[i - 1])) {
        i := i + 1;
        continue;
      }
      var end := FindRunEnd(b, i);
      RunCoversAnchor(b, i);
      var candidate := Parse(b[i..end]);
      if candidate.Some? && IsTerminator(if end < |b| then b[end] else '\0') {
        return candidate;
      }
      SkipRun(b, i + 1, end);
      i := end;
    }
    assert First(b, i) == None by { NoneIff(b, i); }
    return None;
  }

  /** Whatever is found is a 3.x version whose fields all fit the hex. */
  lemma FoundIsThree(b: string, i: nat, v: PythonVersion)
    requires MatchAt(b, i) == Some(v)
    ensures v.major == 3 && Representable(v)
  {
    RunCoversAnchor(b, i);
    var s := b[i..RunEnd(b, i)];
    ParsedFits(s, v);
    assert s[0] == '3' && s[1] == '.';
    RunEnds(s, 0, 1);
    assert s[0..1] == "3" && "3"[..0] == "";
    assert Value("3") == 3;
  }

  /** Two scans whose versions pack alike found the same version. */
  lemma {:induction false} ScansNeverCollide(b: string, c: string, v: PythonVersion, w: PythonVersion)
    requires First(b, 0) == Some(v) && First(c, 0) == Some(w) && ToHex(v) == ToHex(w)
    ensures v == w
  {
    FirstHas(b, 0, v);
    FirstHas(c, 0, w);
    var i :| FirstAt(b, 0, i, v);
    var j :| FirstAt(c, 0, j, w);
    FoundIsThree(b, i, v);
    FoundIsThree(c, j, w);
    HexInjective(v, w);
  }

  // ---- a printed version in context ---------------------------------------------------------

  predicate EndsOutside(p: string) {
    p == [] || !IsVersionChar(p[|p| - 1])
  }

  /** What follows a prefix that ends outside a run changes nothing inside it. */
  lemma PrefixMatches(p: string, w: string, i: nat)
    requires EndsOutside(p) && i < |p|
    ensures MatchAt(p + w, i) == MatchAt(p, i)
  {
    if i + 1 < |p| {
      var end := RunEnd(p, i);
      RunEndUnique(p + w, i, end);
      assert (p + w)[i..end] == p[i..end];
    }
  }

  lemma {:induction false} PrefixFirst(p: string, w: string, i: nat)
    requires EndsOutside(p) && i <= |p|
    ensures First(p + w, i) == if First(p, i).Some? then First(p, i) else First(p + w, |p|)
    decreases |p| - i
  {
    if i < |p| {
      PrefixMatches(p, w, i);
      PrefixFirst(p, w, i + 1);
    }
  }

  lemma {:induction false} DigitsAreVersionChars(n: nat)
    ensures forall k :: 0 <= k < |Decimal(n)| ==> IsVersionChar(Decimal(n)[k])
  {
    DecimalSpells(n);
  }

  lemma DisplayIsRun(v: PythonVersion)
    requires Representable(v)
    ensures forall k :: 0 <= k < |Display(v)| ==> IsVersionChar(Display(v)[k])
  {
    DigitsAreVersionChars(v.major);
    DigitsAreVersionChars(v.minor);
    DigitsAreVersionChars(v.micro);
    DigitsAreVersionChars(v.serial);
  }

  /**
   A representable 3.x version printed after any prefix that ends outside a run, before any
   terminator or the end, is what the scan finds, unless the prefix holds a literal already.
   */
  lemma {:induction false} ScanFindsPrinted(p: string, v: PythonVersion, r: string)
    requires EndsOutside(p) && Representable(v) && v.major == 3 && (r == [] || IsTerminator(r[0]))
    ensures First(p + (Display(v) + r), 0) == if First(p, 0).Some? then First(p, 0) else Some(v)
  {
    DisplayStart(v);
    DisplayIsRun(v);
    PrintParse(v);
    ScanFindsRun(p, Display(v), r, v);
  }

  lemma {:induction false} ScanFindsRun(p: string, d: string, r: string, v: PythonVersion)
    requires EndsOutside(p) && |d| >= 2 && d[0] == '3' && d[1] == '.' && (r == [] || IsTerminator(r[0]))
    requires ParseExact(d) == Some(v) && forall k :: 0 <= k < |d| ==> IsVersionChar(d[k])
    ensures First(p + (d + r), 0) == if First(p, 0).Some? then First(p, 0) else Some(v)
  {
    PrefixFirst(p, d + r, 0);
    RunIsFound(p, d, r, v);
  }

  lemma {:induction false} RunIsFound(p: string, d: string, r: string, v: PythonVersion)
    requires EndsOutside(p) && |d| >= 2 && d[0] == '3' && d[1] == '.' && (r == [] || IsTerminator(r[0]))
    requires ParseExact(d) == Some(v) && forall k :: 0 <= k < |d| ==> IsVersionChar(d[k])
    ensures First(p + (d + r), |p|) == Some(v)
  {
    RunInPlace(p, d, r);
    Found(p + (d + r), |p|, d, v);
  }

  lemma RunInPlace(p: string, d: string, r: string)
    requires EndsOutside(p) && |d| >= 2 && d[0] == '3' && d[1] == '.'
    requires forall k :: 0 <= k < |d| ==> IsVersionChar(d[k])
    ensures var b := p + (d + r);
      && Anchored(b, |p|) && b[|p|..|p| + |d|] == d && (forall k :: |p| <= k < |p| + |d| ==> IsVersionChar(b[k]))
      && (|p| + |d| == |b| <==> r == []) && (r != [] ==> b[|p| + |d|] == r[0])
  {}

  lemma DisplayStart(v: PythonVersion)
    requires v.major == 3
    ensures |Display(v)| >= 2 && Display(v)[0] == '3' && Display(v)[1] == '.'
  {
    assert Decimal(3) == "3";
  }

  lemma {:induction false} Found(b: string, i: nat, d: string, v: PythonVersion)
    requires Anchored(b, i) && i + |d| <= |b| && b[i..i + |d|] == d && ParseExact(d) == Some(v)
    requires forall k :: i <= k < i + |d| ==> IsVersionChar(b[k])
    requires i + |d| == |b| || IsTerminator(b[i + |d|])
    ensures First(b, i) == Some(v)
  {
    RunEndUnique(b, i, i + |d|);
  }
}
