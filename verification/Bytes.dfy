/** Fixed-width integers and their little-endian byte images, as read and written by
    get_u16/get_u32 and put_u32/dbuf_put_u16/dbuf_put_u32. */
module Bytes {

  type u8 = x: int | 0 <= x < 0x100
  type u16 = x: int | 0 <= x < 0x1_0000
  type u32 = x: int | 0 <= x < 0x1_0000_0000

  /** A Unicode code point. */
  type cp = x: int | 0 <= x <= 0x10_ffff

  const INT32_MAX := 0x7fff_ffff
  const UINT32_MAX := 0xffff_ffff

  predicate IsU8(x: int) { 0 <= x < 0x100 }
  predicate IsU16(x: int) { 0 <= x < 0x1_0000 }
  predicate IsU32(x: int) { 0 <= x < 0x1_0000_0000 }
  predicate IsI32(x: int) { -0x8000_0000 <= x < 0x8000_0000 }

  /** The cast (uint32_t)x. */
  function ToU32(x: int): u32 { x % 0x1_0000_0000 }

  /** The cast (int)x of an unsigned 32-bit value. */
  function ToI32(x: u32): int { if x < 0x8000_0000 then x else x - 0x1_0000_0000 }

  function PutU16(x: int): (b: seq<u8>)
    ensures |b| == 2
  {
    [x % 0x100, x / 0x100 % 0x100]
  }

  function PutU32(x: int): (b: seq<u8>)
    ensures |b| == 4
  {
    [x % 0x100, x / 0x100 % 0x100, x / 0x1_0000 % 0x100, x / 0x100_0000 % 0x100]
  }

  function GetU16(code: seq<u8>, p: nat): u16
    requires p + 2 <= |code|
  {
    var b0: int, b1: int := code[p], code[p + 1];
    b0 + 0x100 * b1
  }

  function GetU32(code: seq<u8>, p: nat): u32
    requires p + 4 <= |code|
  {
    var b0: int, b1: int, b2: int, b3: int := code[p], code[p + 1], code[p + 2], code[p + 3];
    b0 + 0x100 * b1 + 0x1_0000 * b2 + 0x100_0000 * b3
  }

  lemma U16RoundTrip(x: int, code: seq<u8>, p: nat)
    requires IsU16(x) && p + 2 <= |code| && code[p..p + 2] == PutU16(x)
    ensures GetU16(code, p) == x
  {
    assert code[p] == code[p..p + 2][0] && code[p + 1] == code[p..p + 2][1];
  }

  /** Reading back a stored 32-bit value gives the value modulo 2^32. */
  lemma U32RoundTrip(x: int, code: seq<u8>, p: nat)
    requires p + 4 <= |code| && code[p..p + 4] == PutU32(x)
    ensures GetU32(code, p) == ToU32(x)
    ensures IsU32(x) ==> GetU32(code, p) == x
    ensures IsI32(x) ==> ToI32(GetU32(code, p)) == x
  {
    var s := code[p..p + 4];
    assert code[p] == s[0] && code[p + 1] == s[1] && code[p + 2] == s[2] && code[p + 3] == s[3];
    var a, b, c := x / 0x100, x / 0x1_0000, x / 0x100_0000;
    assert x == x % 0x100 + 0x100 * a;
    assert a == a % 0x100 + 0x100 * b by { assert b == a / 0x100; }
    assert b == b % 0x100 + 0x100 * c by { assert c == b / 0x100; }
    assert c == c % 0x100 + 0x100 * (x / 0x1_0000_0000) by { assert x / 0x1_0000_0000 == c / 0x100; }
  }
}
