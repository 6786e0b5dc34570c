/**
 Zigzag mapping of signed numbers and the typed VLQ readers and writers built on it.
 Shifts wrap, as two's complement hardware does.  Source: src/common/zigzag.h,
 src/common/gve.c, src/common/gve.h.
 */
module Zigzag {
  import opened Bytes
  import opened Bits
  import opened Gve

  type i16 = x: int | -0x8000 <= x < 0x8000
  type i32 = x: int | -0x8000_0000 <= x < 0x8000_0000

  const TWO32: int := 0x1_0000_0000
  const TWO64: int := 0x1_0000_0000_0000_0000

  /** The bit pattern of a 32-bit number, read as signed. */
  function Signed32(u: u32): i32 {
    if u < 0x8000_0000 then u else u - TWO32
  }

  function Signed64(u: u64): i64 {
    if u < 0x8000_0000_0000_0000 then u else u - TWO64
  }

  /** Every bit equal to the sign bit: what an arithmetic shift by 31 or 63 leaves. */
  function SignMask(v: int, ones: nat): nat {
    if v < 0 then ones else 0
  }

  lemma XorMaskInRange(x: nat, negative: bool, k: nat)
    requires x < Pow(2, k)
    ensures Xor(x, if negative then Pow(2, k) - 1 else 0) == if negative then Pow(2, k) - 1 - x else x
  {
    if negative {
      XorOnes(x, k);
    } else {
      XorZero(x);
    }
  }

  /** zigzag_encode_i64 */
  function EncodeI64(v: i64): (r: u64)
    ensures r == if v < 0 then -2 * v - 1 else 2 * v
  {
    Powers2();
    XorMaskInRange(2 * v % TWO64, v < 0, 64);
    Xor(2 * v % TWO64, SignMask(v, TWO64 - 1))
  }

  /** zigzag_decode_i64 */
  function DecodeI64(u: u64): (r: i64)
    ensures r == if u % 2 == 0 then u / 2 else -(u / 2) - 1
  {
    Powers2();
    XorMaskInRange(u / 2, u % 2 == 1, 64);
    Signed64(Xor(u / 2, if u % 2 == 1 then TWO64 - 1 else 0))
  }

  /** The 32-bit pattern (v << 1) ^ (v >> 31). */
  function Pattern32(v: i32): (r: u32)
    ensures r == if v < 0 then -2 * v - 1 else 2 * v
  {
    Powers2();
    XorMaskInRange(2 * v % TWO32, v < 0, 32);
    Xor(2 * v % TWO32, SignMask(v, TWO32 - 1))
  }

  /** zigzag_encode_i32: the 32-bit pattern is a signed int, so widening it copies its top bit. */
  function EncodeI32(v: i32): (r: u64)
    ensures -0x4000_0000 <= v < 0x4000_0000 ==> r == Pattern32(v) < 0x8000_0000
    ensures !(-0x4000_0000 <= v < 0x4000_0000) ==> r == TWO64 - TWO32 + Pattern32(v) > 0xFFFF_FFFF
  {
    Signed32(Pattern32(v)) % TWO64
  }

  /** zigzag_decode_i32: only the low 32 bits of the argument matter. */
  function DecodeI32(u: u64): (r: i32)
    ensures var w := u % TWO32; r == if w % 2 == 0 then w / 2 else -(w / 2) - 1
  {
    Powers2();
    var w := u % TWO32;
    XorMaskInRange(w / 2, w % 2 == 1, 32);
    Signed32(Xor(w / 2, if w % 2 == 1 then TWO32 - 1 else 0))
  }

  /** The 64-bit map is a bijection between i64 and u64. */
  lemma BijectionI64(v: i64, u: u64)
    ensures DecodeI64(EncodeI64(v)) == v
    ensures EncodeI64(DecodeI64(u)) == u
  {
  }

  /** The 32-bit pattern is a bijection between i32 and u32. */
  lemma BijectionI32(v: i32, u: u32)
    ensures DecodeI32(Pattern32(v)) == v
    ensures Pattern32(DecodeI32(u)) == u
  {
    hide Pattern32, DecodeI32;
    DecodePattern32(v);
    PatternDecode32(u);
  }

  lemma DecodePattern32(v: i32)
    ensures DecodeI32(Pattern32(v)) == v
  {
  }

  lemma PatternDecode32(u: u32)
    ensures Pattern32(DecodeI32(u)) == u
  {
  }

  datatype Read<+T> = Value(v: T, used: nat) | IntTooBig | DataSize

  /** gve_get_u64 as a function of the bytes at the read position. */
  function ReadU64(s: bytes): Read<u64> {
    if Accepts(s) then Read.Value(Gve.Value(s[..Used(s, 10)]) % TWO64, Used(s, 10)) else DataSize
  }

  function ReadU16(s: bytes): Read<u16> {
    match ReadU64(s)
    case Value(v, n) => if v > 0xFFFF then IntTooBig else Read.Value(v, n)
    case IntTooBig => IntTooBig
    case DataSize => DataSize
  }

  function ReadU32(s: bytes): Read<u32> {
    match ReadU64(s)
    case Value(v, n) => if v > 0xFFFF_FFFF then IntTooBig else Read.Value(v, n)
    case IntTooBig => IntTooBig
    case DataSize => DataSize
  }

  function ReadI32(s: bytes): Read<i32> {
    match ReadU64(s)
    case Value(v, n) => if v > 0xFFFF_FFFF then IntTooBig else Read.Value(DecodeI32(v), n)
    case IntTooBig => IntTooBig
    case DataSize => DataSize
  }

  function ReadI16(s: bytes): Read<i16> {
    match ReadI32(s)
    case Value(v, n) => if v > 0x7FFF || v < -0x8000 then IntTooBig else Read.Value(v, n)
    case IntTooBig => IntTooBig
    case DataSize => DataSize
  }

  function ReadI64(s: bytes): Read<i64> {
    match ReadU64(s)
    case Value(v, n) => Read.Value(DecodeI64(v), n)
    case IntTooBig => IntTooBig
    case DataSize => DataSize
  }

  lemma GetPut(v: u64, rest: bytes)
    ensures ReadU64(Vlq(v) + rest) == Read.Value(v, |Vlq(v)|)
  {
    RoundTrip(v, rest);
    Untruncated(v);
  }

  lemma RoundTripUnsigned(a: u16, b: u32, rest: bytes)
    ensures ReadU16(Vlq(a) + rest) == Read.Value(a, |Vlq(a)|)
    ensures ReadU32(Vlq(b) + rest) == Read.Value(b, |Vlq(b)|)
  {
    GetPut(a, rest);
    GetPut(b, rest);
  }

  lemma RoundTripI64(v: i64, rest: bytes)
    ensures ReadI64(Vlq(EncodeI64(v)) + rest) == Read.Value(v, |Vlq(EncodeI64(v))|)
  {
    GetPut(EncodeI64(v), rest);
    BijectionI64(v, 0);
  }

  /** gve_put_i16 narrows the pattern to 32 bits; 16-bit numbers survive that. */
  lemma RoundTripI16(v: i16, rest: bytes)
    ensures var written := Vlq(EncodeI32(v) % TWO32);
            ReadI16(written + rest) == Read.Value(v, |written|)
  {
    var u: u64 := EncodeI32(v) % TWO32;
    assert u == Pattern32(v);
    GetPut(u, rest);
    BijectionI32(v, 0);
  }

  /** gve_put_i32 round-trips for half of the numbers only; the others read back as "too big". */
  lemma RoundTripI32(v: i32, rest: bytes)
    ensures var written := Vlq(EncodeI32(v));
            ReadI32(written + rest) == if -0x4000_0000 <= v < 0x4000_0000
                                       then Read.Value(v, |written|) else IntTooBig
  {
    GetPut(EncodeI32(v), rest);
    BijectionI32(v, 0);
  }
}
