/** Bytes and the little-endian integers they spell. */
module Bytes {
  import opened Prelude

  type byte = x: int | 0 <= x < 256

  const WORD_BYTES: nat := 8

  const TWO_63: nat := 0x8000_0000_0000_0000
  const TWO_64: nat := 0x1_0000_0000_0000_0000

  function Capacity(n: nat): nat
    ensures Capacity(n) > 0
  {
    if n == 0 then 1 else 256 * Capacity(n - 1)
  }

  /** `n` bytes, least significant first; what does not fit is cut off. */
  function ToLittleEndian(v: nat, n: nat): (b: seq<byte>)
    ensures |b| == n
    decreases n
  {
    if n == 0 then [] else [v % 256] + ToLittleEndian(v / 256, n - 1)
  }

  function FromLittleEndian(b: seq<byte>): nat {
    if b == [] then 0 else b[0] + 256 * FromLittleEndian(b[1..])
  }

  lemma {:induction false} LittleEndianRoundTrip(v: nat, n: nat)
    requires v < Capacity(n)
    ensures FromLittleEndian(ToLittleEndian(v, n)) == v
    decreases n
  {
    if n > 0 {
      LittleEndianRoundTrip(v / 256, n - 1);
      assert ToLittleEndian(v, n)[1..] == ToLittleEndian(v / 256, n - 1);
    }
  }

  lemma {:induction false} LittleEndianInverse(b: seq<byte>)
    ensures FromLittleEndian(b) < Capacity(|b|) && ToLittleEndian(FromLittleEndian(b), |b|) == b
  {
    if b != [] {
      LittleEndianInverse(b[1..]);
      assert (b[0] + 256 * FromLittleEndian(b[1..])) % 256 == b[0];
      assert (b[0] + 256 * FromLittleEndian(b[1..])) / 256 == FromLittleEndian(b[1..]);
    }
  }

  lemma {:induction false} EightBytes()
    ensures Capacity(WORD_BYTES) == TWO_64
  {
    assert Capacity(4) == 0x1_0000_0000;
  }

  /** The first byte counts ones, the last the most. */
  lemma {:induction false} BytesWeigh(b: seq<byte>)
    requires |b| == 8
    ensures FromLittleEndian(b)
         == (b[0] as int) + 0x100 * (b[1] as int) + 0x1_0000 * (b[2] as int) + 0x100_0000 * (b[3] as int)
            + 0x1_0000_0000 * (b[4] as int) + 0x100_0000_0000 * (b[5] as int)
            + 0x1_0000_0000_0000 * (b[6] as int) + 0x100_0000_0000_0000 * (b[7] as int)
  {
    FourBytes(b[4..]);
    assert b[1..][1..] == b[2..] && b[2..][1..] == b[3..] && b[3..][1..] == b[4..];
    assert FromLittleEndian(b[3..]) == b[3] + 256 * FromLittleEndian(b[4..]);
    assert FromLittleEndian(b[2..]) == b[2] + 256 * FromLittleEndian(b[3..]);
    assert FromLittleEndian(b[1..]) == b[1] + 256 * FromLittleEndian(b[2..]);
  }

  lemma {:induction false} FourBytes(b: seq<byte>)
    requires |b| == 4
    ensures FromLittleEndian(b) == (b[0] as int) + 0x100 * (b[1] as int) + 0x1_0000 * (b[2] as int) + 0x100_0000 * (b[3] as int)
  {
    assert b[1..][1..] == b[2..] && b[2..][1..] == b[3..] && b[3..][1..] == [];
    assert FromLittleEndian(b[3..]) == b[3];
    assert FromLittleEndian(b[2..]) == b[2] + 256 * FromLittleEndian(b[3..]);
    assert FromLittleEndian(b[1..]) == b[1] + 256 * FromLittleEndian(b[2..]);
  }

  /** The unsigned word with the same bits, and back. */
  function Unsigned(x: i64): nat { if x < 0 then x + TWO_64 else x }

  function Signed(u: nat): i64
    requires u < TWO_64
  {
    if u >= TWO_63 then u - TWO_64 else u
  }

  function Word(x: i64): (b: seq<byte>)
    ensures |b| == WORD_BYTES
  {
    ToLittleEndian(Unsigned(x), WORD_BYTES)
  }

  /** A signed word stored and read back is itself. */
  lemma WordRoundTrip(x: i64)
    ensures FromLittleEndian(Word(x)) < TWO_64 && Signed(FromLittleEndian(Word(x))) == x
  {
    EightBytes();
    LittleEndianRoundTrip(Unsigned(x), WORD_BYTES);
  }
}
