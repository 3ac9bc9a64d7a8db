/**
 * Fixed-width machine arithmetic the lexer relies on: Rust's `i64`
 * accumulators with `<<=` (bits shifted out are lost) and `>>=`
 * (arithmetic shift), the `u8` indentation width, the `as u32` cast and
 * `char::from_u32`, and `String::into_bytes` (UTF-8).
 */
module Bits {

  const I64_MIN: int := -0x8000_0000_0000_0000
  const I64_MAX: int := 0x7FFF_FFFF_FFFF_FFFF
  const U32_MAX: int := 0xFFFF_FFFF

  type I64 = x: int | I64_MIN <= x <= I64_MAX
  type U8 = x: int | 0 <= x < 256
  type Byte = x: int | 0 <= x < 256

  /** An integer read back as an `i64`: its residue modulo 2^64, in two's complement. */
  function Wrap(y: int): (r: I64)
    ensures (y - r) % 0x1_0000_0000_0000_0000 == 0
    ensures I64_MIN <= y <= I64_MAX ==> r == y
  {
    (y + 0x8000_0000_0000_0000) % 0x1_0000_0000_0000_0000 - 0x8000_0000_0000_0000
  }

  /** `x << 1` on an `i64`: the top bit is lost and the result is read back as two's complement. */
  function Shl1(x: I64): (r: I64)
    ensures r % 2 == 0
  {
    Wrap(2 * x)
  }

  /** Nothing is lost while the top two bits agree. */
  lemma Shl1Exact(x: I64)
    requires -0x4000_0000_0000_0000 <= x < 0x4000_0000_0000_0000
    ensures Shl1(x) == 2 * x
  {
  }

  /** `x << 4` on an `i64`. */
  function Shl4(x: I64): (r: I64)
    ensures r % 16 == 0 && r <= I64_MAX - 15
  {
    Wrap(16 * x)
  }

  /** Nothing is lost while the top five bits agree. */
  lemma Shl4Exact(x: I64)
    requires -0x0800_0000_0000_0000 <= x < 0x0800_0000_0000_0000
    ensures Shl4(x) == 16 * x
  {
  }

  /** `x >> 1` on an `i64` (arithmetic: rounds towards negative infinity). */
  function Sar1(x: I64): (r: I64)
    ensures 2 * r <= x < 2 * r + 2
  {
    x / 2
  }

  /** `x >> 4` on an `i64`. */
  function Sar4(x: I64): (r: I64)
    ensures 16 * r <= x < 16 * r + 16
  {
    x / 16
  }

  /** `x as u32` on an `i64`: the low 32 bits. */
  function AsU32(x: I64): (r: nat)
    ensures r <= U32_MAX
    ensures 0 <= x <= U32_MAX ==> r == x
    ensures (x - r) % 0x1_0000_0000 == 0
  {
    x % 0x1_0000_0000
  }

  /** `char::from_u32` succeeds exactly on Unicode scalar values. */
  predicate IsScalar(n: int) {
    0 <= n < 0xD800 || 0xE000 <= n < 0x11_0000
  }

  /** The UTF-8 encoding of one character: one to four bytes. */
  function EncodeChar(c: char): (r: seq<Byte>)
    ensures 1 <= |r| <= 4
    ensures (c as int < 0x80) <==> |r| == 1
    ensures c as int < 0x80 ==> r == [c as int]
  {
    var n := c as int;
    var q := n / 0x40;
    var p := q / 0x40;
    if n < 0x80 then [n]
    else if n < 0x800 then [0xC0 + q, 0x80 + n % 0x40]
    else if n < 0x1_0000 then [0xE0 + p, 0x80 + q % 0x40, 0x80 + n % 0x40]
    else [0xF0 + p / 0x40, 0x80 + p % 0x40, 0x80 + q % 0x40, 0x80 + n % 0x40]
  }

  /** `String::into_bytes`: the UTF-8 encoding of a text. */
  function Utf8(s: seq<char>): (r: seq<Byte>)
    ensures |s| <= |r| <= 4 * |s|
  {
    if s == [] then [] else EncodeChar(s[0]) + Utf8(s[1..])
  }

  /** Decoding one UTF-8 sequence at the front of a byte string (for the round trip below). */
  function DecodeFirst(b: seq<Byte>): (int, nat)
    requires |b| > 0
  {
    var b0 := b[0];
    if b0 < 0x80 then (b0, 1)
    else if b0 < 0xE0 && |b| >= 2 then ((b0 - 0xC0) * 0x40 + (b[1] - 0x80), 2)
    else if b0 < 0xF0 && |b| >= 3 then (((b0 - 0xE0) * 0x40 + (b[1] - 0x80)) * 0x40 + (b[2] - 0x80), 3)
    else if |b| >= 4 then ((((b0 - 0xF0) * 0x40 + (b[1] - 0x80)) * 0x40 + (b[2] - 0x80)) * 0x40 + (b[3] - 0x80), 4)
    else (b0, 1)
  }

  /** Every character's encoding decodes back to that character, whatever follows it. */
  lemma EncodeCharRoundTrip(c: char, rest: seq<Byte>)
    ensures DecodeFirst(EncodeChar(c) + rest) == (c as int, |EncodeChar(c)|)
  {
    var n := c as int;
    var q := n / 0x40;
    var p := q / 0x40;
    assert n == 0x40 * q + n % 0x40;
    assert q == 0x40 * p + q % 0x40;
    assert p == 0x40 * (p / 0x40) + p % 0x40;
    var e := EncodeChar(c) + rest;
    if n < 0x80 {
    } else if n < 0x800 {
      assert e[0] == 0xC0 + q && e[1] == 0x80 + n % 0x40;
    } else if n < 0x1_0000 {
      assert e[0] == 0xE0 + p && e[1] == 0x80 + q % 0x40 && e[2] == 0x80 + n % 0x40;
    } else {
      assert e[0] == 0xF0 + p / 0x40 && e[1] == 0x80 + p % 0x40;
      assert e[2] == 0x80 + q % 0x40 && e[3] == 0x80 + n % 0x40;
    }
  }

  /** Decoding a whole byte string, one sequence at a time, into code points. */
  function Decode(b: seq<Byte>): seq<int>
    decreases |b|
  {
    if b == [] then [] else
    var (c, k) := DecodeFirst(b);
    if k <= |b| then [c] + Decode(b[k..]) else []
  }

  function CodePoints(s: seq<char>): (r: seq<int>)
    ensures |r| == |s|
    ensures forall k :: 0 <= k < |s| ==> r[k] == s[k] as int
  {
    if s == [] then [] else [s[0] as int] + CodePoints(s[1..])
  }

  /** The bytes of a `Bytes` literal decode back to the characters of its content. */
  lemma {:induction false} Utf8RoundTrip(s: seq<char>)
    ensures Decode(Utf8(s)) == CodePoints(s)
  {
    if s != [] {
      var e := EncodeChar(s[0]);
      EncodeCharRoundTrip(s[0], Utf8(s[1..]));
      assert (e + Utf8(s[1..]))[|e|..] == Utf8(s[1..]);
      Utf8RoundTrip(s[1..]);
    }
  }
}
