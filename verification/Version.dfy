/**
 The CPython version: its hexadecimal packing, its printed form, and the one grammar that reads it
 back. A character of the text is a byte of the image.
 */
module Version {
  import opened Prelude
  import opened Text

  type u8 = x: int | 0 <= x <= 255

  /** Release levels: 0xA alpha, 0xB beta, 0xC candidate, 0xF final. */
  datatype PythonVersion = PythonVersion(major: u8, minor: u8, micro: u8, releaseLevel: u8, serial: u8)

  // ---- the hexadecimal packing --------------------------------------------------------

  function Pow2(k: nat): nat
    ensures Pow2(k) > 0
  {
    if k == 0 then 1 else 2 * Pow2(k - 1)
  }

  function ShiftLeft(a: nat, k: nat): nat { a * Pow2(k) }

  /** Bitwise or of two unsigned numbers. */
  function Or(a: nat, b: nat): nat {
    if a == 0 && b == 0 then 0
    else 2 * Or(a / 2, b / 2) + (if a % 2 == 1 || b % 2 == 1 then 1 else 0)
  }

  function ToHex(v: PythonVersion): nat {
    Or(Or(Or(Or(ShiftLeft(v.major, 24), ShiftLeft(v.minor, 16)), ShiftLeft(v.micro, 8)), ShiftLeft(v.releaseLevel, 4)), v.serial)
  }

  /** On an unsigned number, shifting right divides and masking takes the remainder. */
  function FromHex(h: nat): Option<PythonVersion> {
    var major, minor := (h / 0x100_0000) % 0x100, (h / 0x1_0000) % 0x100;
    if major == 0 && minor == 0 then None
    else Some(PythonVersion(major, minor, (h / 0x100) % 0x100, (h / 0x10) % 0x10, h % 0x10))
  }

  /** Each field within the bits the packing gives it. */
  predicate Packable(v: PythonVersion) {
    v.releaseLevel <= 0xF && v.serial <= 0xF
  }

  lemma {:induction false} OrZero(a: nat)
    ensures Or(a, 0) == a
    decreases a
  {
    if a != 0 { OrZero(a / 2); }
  }

  lemma {:induction false} OrStep(a: nat, b: nat)
    requires Or(a, b / 2) == a + b / 2
    ensures Or(2 * a, b) == 2 * a + b
  {
    assert (2 * a) / 2 == a && (2 * a) % 2 == 0;
    assert b == 2 * (b / 2) + b % 2;
  }

  lemma ShiftStep(q: nat, k: nat)
    requires k > 0
    ensures ShiftLeft(q, k) == 2 * ShiftLeft(q, k - 1)
  {
    assert q * (2 * Pow2(k - 1)) == 2 * (q * Pow2(k - 1));
  }

  /** Where the bits of two numbers do not overlap, or is addition. */
  lemma {:induction false} OrAdds(q: nat, b: nat, k: nat)
    requires b < Pow2(k)
    ensures Or(ShiftLeft(q, k), b) == ShiftLeft(q, k) + b
    decreases k
  {
    if k == 0 {
      OrZero(q);
    } else {
      ShiftStep(q, k);
      OrAdds(q, b / 2, k - 1);
      OrStep(ShiftLeft(q, k - 1), b);
    }
  }

  function HexOf(v: PythonVersion): nat {
    (((v.major * 0x100 + v.minor) * 0x100 + v.micro) * 0x10 + v.releaseLevel) * 0x10 + v.serial
  }

  lemma {:induction false} Powers()
    ensures Pow2(4) == 0x10 && Pow2(8) == 0x100 && Pow2(16) == 0x1_0000 && Pow2(24) == 0x100_0000
  {
    assert Pow2(12) == 0x10 * Pow2(8) && Pow2(20) == 0x10 * Pow2(16);
  }

  lemma ToHexAdds(v: PythonVersion)
    requires Packable(v)
    ensures ToHex(v) == HexOf(v)
  {
    Powers();
    var a := v.major * 0x100 + v.minor;
    var b := a * 0x100 + v.micro;
    OrAdds(v.major, v.minor * 0x1_0000, 24);
    OrAdds(a, v.micro * 0x100, 16);
    OrAdds(b, v.releaseLevel * 0x10, 8);
    OrAdds(b * 0x10 + v.releaseLevel, v.serial, 4);
  }

  /** Packing spells the fields out in order: a byte for each of X, Y and Z, half a byte each for level and serial. */
  lemma HexSpells(v: PythonVersion)
    requires Packable(v)
    ensures ToHex(v) == v.major * 0x1000000 + v.minor * 0x10000 + v.micro * 0x100 + v.releaseLevel * 0x10 + v.serial
  {
    ToHexAdds(v);
  }

  /** Unpacking inverts packing on exactly the versions whose fields fit and whose X.Y is not 0.0. */
  lemma HexRoundTrip(v: PythonVersion)
    ensures FromHex(ToHex(v)) == Some(v) <==> Packable(v) && (v.major != 0 || v.minor != 0)
  {
    if Packable(v) {
      ToHexAdds(v);
      Unpacks(v);
    }
  }

  lemma Scale(d: int, n: int)
    requires n >= 0
    ensures (d >= 1 ==> d * n >= n) && (d <= -1 ==> d * n <= -n)
  {
    if d >= 1 { assert d * n == (d - 1) * n + n; }
    if d <= -1 { assert d * n == (d + 1) * n - n; }
  }

  lemma Quotient(h: nat, q: nat, r: nat, n: nat)
    requires r < n && h == q * n + r
    ensures h / n == q && h % n == r
  {
    var d := h / n - q;
    assert d * n == r - h % n;
    Scale(d, n);
  }

  lemma Unpacks(v: PythonVersion)
    requires Packable(v)
    ensures var h := HexOf(v);
      && (h / 0x100_0000) % 0x100 == v.major && (h / 0x1_0000) % 0x100 == v.minor && (h / 0x100) % 0x100 == v.micro
      && (h / 0x10) % 0x10 == v.releaseLevel && h % 0x10 == v.serial
  {
    var h := HexOf(v);
    var a := v.major * 0x100 + v.minor;
    var b := a * 0x100 + v.micro;
    var c := b * 0x10 + v.releaseLevel;
    Quotient(h, c, v.serial, 0x10);
    Quotient(h, b, v.releaseLevel * 0x10 + v.serial, 0x100);
    Quotient(h, a, (v.micro * 0x10 + v.releaseLevel) * 0x10 + v.serial, 0x1_0000);
    Quotient(h, v.major, ((v.minor * 0x100 + v.micro) * 0x10 + v.releaseLevel) * 0x10 + v.serial, 0x100_0000);
    Quotient(c, b, v.releaseLevel, 0x10);
    Quotient(b, a, v.micro, 0x100);
    Quotient(a, v.major, v.minor, 0x100);
  }

  /** Two versions that fit never share a hex. */
  lemma HexInjective(v: PythonVersion, w: PythonVersion)
    requires Packable(v) && Packable(w) && ToHex(v) == ToHex(w)
    ensures v == w
  {
    ToHexAdds(v);
    ToHexAdds(w);
    Unpacks(v);
    Unpacks(w);
  }

  // ---- checked decimal numbers ----------------------------------------------------------

  predicate Number(ds: string, n: u8) {
    ds != [] && AllDigits(ds) && Value(ds) == n
  }

  /** How many characters of `s` from `i` on are digits, with none missed. */
  function DigitRun(s: string, i: nat): (j: nat)
    requires i <= |s|
    ensures i <= j <= |s| && AllDigits(s[i..j]) && (j < |s| ==> !IsDigit(s[j]))
    decreases |s| - i
  {
    if i < |s| && IsDigit(s[i]) then
      var j := DigitRun(s, i + 1);
      assert forall k :: i < k < j ==> s[k] == s[i + 1..j][k - i - 1];
      j
    else i
  }

  datatype Digits = NoNumber | Digits(value: u8, end: nat)

  /** The 8-bit number spelled at `i`, and where it ends. */
  function DigitsAt(s: string, i: nat): (d: Digits)
    requires i <= |s|
    ensures d.Digits? ==> i < d.end <= |s|
  {
    var j := DigitRun(s, i);
    if j == i || Value(s[i..j]) > 255 then NoNumber else Digits(Value(s[i..j]), j)
  }

  /** The digit loop, on a checked 8-bit accumulator: it gives up at the first step that overflows. */
  method ParseDigits(s: string, i: nat) returns (d: Digits)
    requires i <= |s|
    ensures d == DigitsAt(s, i)
  {
    var n: int := 0;
    var j := i;
    ghost var end := DigitRun(s, i);
    while j < |s| && IsDigit(s[j])
      invariant i <= j <= end && AllDigits(s[i..j])
      invariant n == Value(s[i..j]) <= 255
    {
      assert j < end;
      assert s[i..j + 1][..j - i] == s[i..j] && s[i..end][..j + 1 - i] == s[i..j + 1];
      ValueGrows(s[i..end], j + 1 - i);
      if n * 10 > 255 { return NoNumber; }
      var more := n * 10 + DigitValue(s[j]);
      if more > 255 { return NoNumber; }
      n := more;
      j := j + 1;
    }
    RunEnds(s, i, j);
    if j == i { return NoNumber; }
    return Digits(n, j);
  }

  // ---- the grammar ------------------------------------------------------------------------

  predicate CharAt(s: string, i: nat, c: char) { i < |s| && s[i] == c }

  datatype Release = Refused | Release(level: u8, serial: u8, end: nat)

  function ReleaseAt(s: string, i: nat): Release
    requires i <= |s|
  {
    if CharAt(s, i, 'a') || CharAt(s, i, 'b') then
      match DigitsAt(s, i + 1)
      case NoNumber => Refused
      case Digits(n, end) => Release(if s[i] == 'a' then 0xA else 0xB, n, end)
    else if CharAt(s, i, 'r') then
      if !CharAt(s, i + 1, 'c') then Refused
      else match DigitsAt(s, i + 2)
        case NoNumber => Refused
        case Digits(n, end) => Release(0xC, n, end)
    else Release(0xF, 0, i)
  }

  /** The whole of `s` as a version: X.Y.Z with an optional suffix and nothing after it. */
  function ParseExact(s: string): Option<PythonVersion> {
    var major := DigitsAt(s, 0);
    if major.NoNumber? || !CharAt(s, major.end, '.') then None else
    var minor := DigitsAt(s, major.end + 1);
    if minor.NoNumber? || !CharAt(s, minor.end, '.') then None else
    var micro := DigitsAt(s, minor.end + 1);
    if micro.NoNumber? then None else
    var release := ReleaseAt(s, micro.end);
    if release.Refused? || release.end < |s| || release.serial > 0xF then None
    else Some(PythonVersion(major.value, minor.value, micro.value, release.level, release.serial))
  }

  /** The strings the grammar means, with no word of how they are read. */
  predicate Suffix(t: string, level: u8, serial: u8) {
    || (t == [] && level == 0xF && serial == 0)
    || (t != [] && t[0] == 'a' && level == 0xA && Number(t[1..], serial) && serial <= 0xF)
    || (t != [] && t[0] == 'b' && level == 0xB && Number(t[1..], serial) && serial <= 0xF)
    || (t != [] && t[0] == 'r' && t[1..] != [] && t[1] == 'c' && level == 0xC && Number(t[2..], serial) && serial <= 0xF)
  }

  predicate SpelledBy(s: string, v: PythonVersion, x: string, y: string, z: string, t: string) {
    && s == x + "." + y + "." + z + t
    && Number(x, v.major) && Number(y, v.minor) && Number(z, v.micro)
    && Suffix(t, v.releaseLevel, v.serial)
  }

  ghost predicate Spells(s: string, v: PythonVersion) {
    exists x, y, z, t :: SpelledBy(s, v, x, y, z, t)
  }

  /** A number standing in `s` before a character that is no digit is read whole. */
  lemma NumberRead(s: string, i: nat, ds: string, n: u8)
    requires i + |ds| <= |s| && s[i..i + |ds|] == ds && Number(ds, n)
    requires i + |ds| < |s| ==> !IsDigit(s[i + |ds|])
    ensures DigitsAt(s, i) == Digits(n, i + |ds|)
  {
    RunEnds(s, i, i + |ds|);
  }

  lemma {:induction false} RunEnds(s: string, i: nat, j: nat)
    requires i <= j <= |s| && AllDigits(s[i..j]) && (j < |s| ==> !IsDigit(s[j]))
    ensures DigitRun(s, i) == j
    decreases j - i
  {
    if i < j {
      assert s[i] == s[i..j][0];
      assert s[i..j][1..] == s[i + 1..j];
      RunEnds(s, i + 1, j);
    }
  }

  /** `s` cut at two of its dots and once more. */
  lemma Cut(s: string, i: nat, j: nat, k: nat)
    requires i < j < k <= |s| && s[i] == '.' && s[j] == '.'
    ensures s == s[..i] + "." + s[i + 1..j] + "." + s[j + 1..k] + s[k..]
  {}

  lemma DigitsMean(s: string, i: nat)
    requires i <= |s| && DigitsAt(s, i).Digits?
    ensures Number(s[i..DigitsAt(s, i).end], DigitsAt(s, i).value)
  {}

  /** Where an accepted string is cut, and what each piece reads as. */
  predicate CutAt(s: string, v: PythonVersion, i: nat, j: nat, k: nat) {
    && i < j < k <= |s| && s[i] == '.' && s[j] == '.'
    && DigitsAt(s, 0) == Digits(v.major, i) && DigitsAt(s, i + 1) == Digits(v.minor, j)
    && DigitsAt(s, j + 1) == Digits(v.micro, k)
    && ReleaseAt(s, k) == Release(v.releaseLevel, v.serial, |s|) && v.serial <= 0xF
  }

  lemma ParseCuts(s: string, v: PythonVersion) returns (i: nat, j: nat, k: nat)
    requires ParseExact(s) == Some(v)
    ensures CutAt(s, v, i, j, k)
  {
    i := DigitsAt(s, 0).end;
    j := DigitsAt(s, i + 1).end;
    k := DigitsAt(s, j + 1).end;
    ReleaseEnds(s, k);
  }

  lemma ReleaseEnds(s: string, i: nat)
    requires i <= |s|
    ensures ReleaseAt(s, i).Release? ==> ReleaseAt(s, i).end <= |s|
  {}

  lemma CutsParse(s: string, v: PythonVersion, i: nat, j: nat, k: nat)
    requires CutAt(s, v, i, j, k)
    ensures ParseExact(s) == Some(v)
  {}

  lemma ParseMeans(s: string, v: PythonVersion)
    requires ParseExact(s) == Some(v)
    ensures Spells(s, v)
  {
    var i, j, k := ParseCuts(s, v);
    DigitsMean(s, 0);
    DigitsMean(s, i + 1);
    DigitsMean(s, j + 1);
    SuffixMeans(s, k);
    Cut(s, i, j, k);
    assert s[0..i] == s[..i];
    Spelled(s, v, s[..i], s[i + 1..j], s[j + 1..k], s[k..]);
  }

  lemma Spelled(s: string, v: PythonVersion, x: string, y: string, z: string, t: string)
    requires s == x + "." + y + "." + z + t && Suffix(t, v.releaseLevel, v.serial)
    requires Number(x, v.major) && Number(y, v.minor) && Number(z, v.micro)
    ensures Spells(s, v)
  {
    assert SpelledBy(s, v, x, y, z, t);
  }

  lemma SuffixMeans(s: string, i: nat)
    requires i <= |s|
    ensures var r := ReleaseAt(s, i);
      r.Release? && r.end >= |s| && r.serial <= 0xF ==> Suffix(s[i..], r.level, r.serial)
  {
    var t := s[i..];
    assert forall k :: 0 < k <= |t| ==> t[k..] == s[i + k..];
    var r := ReleaseAt(s, i);
    if r.Release? && r.end >= |s| && i < |s| {
      assert s[i + 1..|s|] == s[i + 1..];
      if i + 2 <= |s| { assert s[i + 2..|s|] == s[i + 2..]; }
    }
  }

  lemma SuffixRead(s: string, i: nat, level: u8, serial: u8)
    requires i <= |s| && Suffix(s[i..], level, serial)
    ensures ReleaseAt(s, i) == Release(level, serial, |s|) && serial <= 0xF
    ensures i < |s| ==> !IsDigit(s[i]) && s[i] != '.'
  {
    var t := s[i..];
    if t != [] {
      assert t[0] == s[i];
      var d := if t[0] == 'r' then 2 else 1;
      assert t[d..] == s[i + d..i + d + |t[d..]|];
      NumberRead(s, i + d, t[d..], serial);
    }
  }

  lemma SpellingParses(s: string, v: PythonVersion, x: string, y: string, z: string, t: string)
    requires SpelledBy(s, v, x, y, z, t)
    ensures ParseExact(s) == Some(v)
  {
    var i, j, k := |x|, |x| + 1 + |y|, |x| + 1 + |y| + 1 + |z|;
    Pieces(s, x, y, z, t);
    SuffixRead(s, k, v.releaseLevel, v.serial);
    NumberRead(s, 0, x, v.major);
    NumberRead(s, i + 1, y, v.minor);
    NumberRead(s, j + 1, z, v.micro);
    CutsParse(s, v, i, j, k);
  }

  lemma Pieces(s: string, x: string, y: string, z: string, t: string)
    requires s == x + "." + y + "." + z + t
    ensures var i, j, k := |x|, |x| + 1 + |y|, |x| + 1 + |y| + 1 + |z|;
      && k <= |s| && s[i] == '.' && s[j] == '.'
      && s[0..i] == x && s[i + 1..j] == y && s[j + 1..k] == z && s[k..] == t
  {}

  /** The parser accepts exactly the strings of the grammar, and reads from each what it spells. */
  lemma ParseIff(s: string, v: PythonVersion)
    ensures ParseExact(s) == Some(v) <==> Spells(s, v)
  {
    if ParseExact(s) == Some(v) {
      ParseMeans(s, v);
    } else if Spells(s, v) {
      var x, y, z, t :| SpelledBy(s, v, x, y, z, t);
      SpellingParses(s, v, x, y, z, t);
    }
  }

  method ParseRelease(s: string, i: nat) returns (r: Release)
    requires i <= |s|
    ensures r == ReleaseAt(s, i)
  {
    if CharAt(s, i, 'a') || CharAt(s, i, 'b') {
      var d := ParseDigits(s, i + 1);
      if d.NoNumber? { return Refused; }
      return Release(if s[i] == 'a' then 0xA else 0xB, d.value, d.end);
    }
    if CharAt(s, i, 'r') {
      if !CharAt(s, i + 1, 'c') { return Refused; }
      var d := ParseDigits(s, i + 2);
      if d.NoNumber? { return Refused; }
      return Release(0xC, d.value, d.end);
    }
    return Release(0xF, 0, i);
  }

  /** The parser as it runs, one character stream through the digit loop up to four times. */
  method Parse(s: string) returns (r: Option<PythonVersion>)
    ensures r == ParseExact(s)
  {
    var major := ParseDigits(s, 0);
    if major.NoNumber? || !CharAt(s, major.end, '.') { return None; }
    var minor := ParseDigits(s, major.end + 1);
    if minor.NoNumber? || !CharAt(s, minor.end, '.') { return None; }
    var micro := ParseDigits(s, minor.end + 1);
    if micro.NoNumber? { return None; }
    var release := ParseRelease(s, micro.end);
    if release.Refused? || release.end < |s| || release.serial > 0xF { return None; }
    return Some(PythonVersion(major.value, minor.value, micro.value, release.level, release.serial));
  }

  // ---- the printed form -----------------------------------------------------------------

  function HexChar(d: nat): char
    requires d < 16
  {
    if d < 10 then DigitChar(d) else 'a' + ((d - 10) as char)
  }

  function LowerHex(n: nat): string {
    if n < 16 then [HexChar(n)] else LowerHex(n / 16) + [HexChar(n % 16)]
  }

  function DisplaySuffix(level: u8, serial: u8): string {
    if level == 0xF then ""
    else if level == 0xA then "a" + Decimal(serial)
    else if level == 0xB then "b" + Decimal(serial)
    else if level == 0xC then "rc" + Decimal(serial)
    else "-" + LowerHex(level) + Decimal(serial)
  }

  function Display(v: PythonVersion): string {
    Decimal(v.major) + "." + Decimal(v.minor) + "." + Decimal(v.micro) + DisplaySuffix(v.releaseLevel, v.serial)
  }

  /** A level that is none of the four prints as a dash and its hexadecimal digits, no more of them than it needs. */
  lemma OddLevelPrints(v: PythonVersion)
    requires v.releaseLevel !in {0xA, 0xB, 0xC, 0xF}
    ensures var digits := "0123456789abcdef";
      Display(v) == Decimal(v.major) + "." + Decimal(v.minor) + "." + Decimal(v.micro)
        + ("-" + (if v.releaseLevel < 16 then "" else [digits[v.releaseLevel / 16]]) + [digits[v.releaseLevel % 16]] + Decimal(v.serial))
  {
    HexDigit(v.releaseLevel / 16);
    HexDigit(v.releaseLevel % 16);
    assert LowerHex(v.releaseLevel)
        == (if v.releaseLevel < 16 then "" else LowerHex(v.releaseLevel / 16)) + [HexChar(v.releaseLevel % 16)];
  }

  lemma HexDigit(d: nat)
    requires d < 16
    ensures HexChar(d) == "0123456789abcdef"[d]
  {}

  /** Versions CPython can name: an alpha, beta or candidate with a serial that fits, or a final with none. */
  predicate Representable(v: PythonVersion) {
    || (v.releaseLevel == 0xF && v.serial == 0)
    || (v.releaseLevel in {0xA, 0xB, 0xC} && v.serial <= 0xF)
  }

  /** Parsing inverts printing on exactly the representable versions. */
  lemma PrintParse(v: PythonVersion)
    ensures ParseExact(Display(v)) == Some(v) <==> Representable(v)
  {
    if Representable(v) {
      DecimalSpells(v.major);
      DecimalSpells(v.minor);
      DecimalSpells(v.micro);
      DecimalSpells(v.serial);
      var t := DisplaySuffix(v.releaseLevel, v.serial);
      assert Suffix(t, v.releaseLevel, v.serial) by {
        if v.releaseLevel != 0xF {
          assert t[if v.releaseLevel == 0xC then 2 else 1..] == Decimal(v.serial);
        }
      }
      SpellingParses(Display(v), v, Decimal(v.major), Decimal(v.minor), Decimal(v.micro), t);
    }
  }

  /** What the parser accepts is representable, so it packs without loss. */
  lemma ParsedFits(s: string, v: PythonVersion)
    requires ParseExact(s) == Some(v)
    ensures Representable(v) && Packable(v)
  {
    ParseIff(s, v);
  }
}
