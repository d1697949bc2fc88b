/** Byte strings: fixed-width little-endian integers, unsigned base-128 integers
    (LEB128, section 7.6 of DWARF 5), and the zigzag map of the Protocol Buffers
    encoding specification. */
module Bytes {
  type byte = x: int | 0 <= x < 0x100
  type u16 = x: int | 0 <= x < 0x1_0000
  type u32 = x: int | 0 <= x < 0x1_0000_0000
  type u64 = x: int | 0 <= x < 0x1_0000_0000_0000_0000

  const U64_MAX: u64 := 0xFFFF_FFFF_FFFF_FFFF

  /** The result of reading a value off the front of a byte string. */
  datatype Parsed<+T> = Reject | Got(value: T, rest: seq<byte>) {
    predicate IsFailure() { Reject? }
    function PropagateFailure<U>(): Parsed<U>
      requires Reject?
    {
      Reject
    }
    function Extract(): (T, seq<byte>)
      requires Got?
    {
      (value, rest)
    }
  }

  // --- saturating 64-bit arithmetic -----------------------------------------

  function SaturatingAdd(a: u64, b: u64): u64 {
    if a + b <= U64_MAX then a + b else U64_MAX
  }

  function SaturatingSub(a: u64, b: u64): u64 {
    if b <= a then a - b else 0
  }

  // --- little-endian ---------------------------------------------------------

  function U16Le(v: u16): (s: seq<byte>)
    ensures |s| == 2
  {
    [v % 0x100, v / 0x100]
  }

  function U32Le(v: u32): (s: seq<byte>)
    ensures |s| == 4
  {
    [v % 0x100, v / 0x100 % 0x100, v / 0x1_0000 % 0x100, v / 0x100_0000]
  }

  /** Two's complement 16-bit value. */
  function I16Le(v: int): (s: seq<byte>)
    requires -0x8000 <= v < 0x8000
    ensures |s| == 2
  {
    U16Le(if v < 0 then v + 0x1_0000 else v)
  }

  function Combine(low: int, high: int, unit: int): int {
    low + unit * high
  }

  function ReadU8(s: seq<byte>): (p: Parsed<byte>) {
    if |s| < 1 then Reject else Got(s[0], s[1..])
  }

  function ReadU16(s: seq<byte>): (p: Parsed<u16>) {
    if |s| < 2 then Reject else Got(Combine(s[0], s[1], 0x100), s[2..])
  }

  function ReadU32(s: seq<byte>): (p: Parsed<u32>) {
    if |s| < 4 then Reject
    else
      Got(Combine(Combine(s[0], s[1], 0x100), Combine(s[2], s[3], 0x100), 0x1_0000), s[4..])
  }

  function ReadI16(s: seq<byte>): (p: Parsed<int>) {
    var (v, rest) :- ReadU16(s);
    Got(if v < 0x8000 then v else v - 0x1_0000, rest)
  }

  function ReadRaw(s: seq<byte>, length: nat): (p: Parsed<seq<byte>>) {
    if |s| < length then Reject else Got(s[..length], s[length..])
  }

  lemma {:induction false} U8RoundTrip(v: byte, rest: seq<byte>)
    ensures ReadU8([v] + rest) == Got(v, rest)
  {
    assert ([v] + rest)[1..] == rest;
  }

  lemma {:induction false} U16RoundTrip(v: u16, rest: seq<byte>)
    ensures ReadU16(U16Le(v) + rest) == Got(v, rest)
  {
    assert (U16Le(v) + rest)[2..] == rest;
  }

  lemma {:induction false} U32RoundTrip(v: u32, rest: seq<byte>)
    ensures ReadU32(U32Le(v) + rest) == Got(v, rest)
  {
    var low, high := v % 0x1_0000, v / 0x1_0000;
    assert v / 0x100 % 0x100 == low / 0x100;
    assert high / 0x100 == v / 0x100_0000;
    assert (U32Le(v) + rest)[4..] == rest;
  }

  lemma {:induction false} I16RoundTrip(v: int, rest: seq<byte>)
    requires -0x8000 <= v < 0x8000
    ensures ReadI16(I16Le(v) + rest) == Got(v, rest)
  {
    U16RoundTrip(if v < 0 then v + 0x1_0000 else v, rest);
  }

  lemma {:induction false} RawRoundTrip(s: seq<byte>, rest: seq<byte>)
    ensures ReadRaw(s + rest, |s|) == Got(s, rest)
  {
    assert (s + rest)[..|s|] == s;
    assert (s + rest)[|s|..] == rest;
  }

  // --- unsigned base 128 -----------------------------------------------------

  /** The shortest base-128 form, least significant group first. */
  function VarBytes(v: nat): (s: seq<byte>)
    ensures |s| >= 1
  {
    if v < 0x80 then [v] else [0x80 + v % 0x80] + VarBytes(v / 0x80)
  }

  function Pow128(n: nat): (p: nat)
    ensures p >= 1
  {
    if n == 0 then 1 else 128 * Pow128(n - 1)
  }

  /** The shortest form has n bytes exactly when the value needs n groups. */
  lemma {:induction false} VarBytesLength(v: nat, n: nat)
    requires n >= 1
    ensures |VarBytes(v)| <= n <==> v < Pow128(n)
  {
    if n == 1 {
      assert Pow128(1) == 128 * Pow128(0);
    } else if v >= 0x80 {
      VarBytesLength(v / 0x80, n - 1);
      assert Pow128(n) == 128 * Pow128(n - 1);
      DivLess(v, Pow128(n - 1));
    } else {
      assert Pow128(n) == 128 * Pow128(n - 1);
    }
  }

  lemma {:induction false} DivLess(v: nat, p: nat)
    ensures v / 0x80 < p <==> v < 0x80 * p
  {
  }

  // --- zigzag ----------------------------------------------------------------

  function ZigZag(d: int): (z: nat) {
    if d >= 0 then 2 * d else -2 * d - 1
  }

  function UnZigZag(z: nat): (d: int) {
    if z % 2 == 0 then z / 2 else -(z / 2) - 1
  }

  lemma {:induction false} ZigZagRoundTrip(d: int, z: nat)
    ensures UnZigZag(ZigZag(d)) == d
    ensures ZigZag(UnZigZag(z)) == z
  {
  }
}
