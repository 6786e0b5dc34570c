/**
 Bytes, the machine integers of the application, and big-endian numbers as the
 APDU buffers carry them.
 */
module Bytes {

  type byte = b: int | 0 <= b < 0x100
  type bytes = seq<byte>

  type u8 = byte
  type u16 = x: int | 0 <= x < 0x1_0000
  type u32 = x: int | 0 <= x < 0x1_0000_0000
  type u64 = x: int | 0 <= x < 0x1_0000_0000_0000_0000
  type i64 = x: int | -0x8000_0000_0000_0000 <= x < 0x8000_0000_0000_0000

  const U64_MAX: int := 0xFFFF_FFFF_FFFF_FFFF
  const I64_MAX: int := 0x7FFF_FFFF_FFFF_FFFF
  const I64_MIN: int := -0x8000_0000_0000_0000

  datatype Option<+T> = None | Some(value: T)

  function Zeros(n: nat): (s: bytes)
    ensures |s| == n && forall i :: 0 <= i < n ==> s[i] == 0
  {
    seq(n, _ => 0)
  }

  lemma Assoc(a: bytes, b: bytes, c: bytes)
    ensures a + b + c == a + (b + c)
  {
  }

  /** `base` to the power `n`. */
  function Pow(base: nat, n: nat): (p: nat)
    ensures base > 0 ==> p > 0
  {
    if n == 0 then 1 else base * Pow(base, n - 1)
  }

  lemma {:induction false} PowAdd(base: nat, m: nat, n: nat)
    ensures Pow(base, m + n) == Pow(base, m) * Pow(base, n)
  {
    if m != 0 {
      PowAdd(base, m - 1, n);
      assert base * (Pow(base, m - 1) * Pow(base, n)) == (base * Pow(base, m - 1)) * Pow(base, n);
    }
  }

  lemma {:induction false} PowMonotone(base: nat, m: nat, n: nat)
    requires base > 0 && m <= n
    ensures Pow(base, m) <= Pow(base, n)
  {
    PowAdd(base, m, n - m);
    MulGrows(Pow(base, m), Pow(base, n - m));
  }

  lemma MulGrows(a: nat, b: nat)
    requires b > 0
    ensures a <= a * b
  {
    assert a * b == a + a * (b - 1);
  }

  lemma MulMono(a: int, b: int, c: nat)
    requires a <= b
    ensures a * c <= b * c
  {
    assert b * c - a * c == (b - a) * c;
  }

  lemma MulMono2(a: nat, b: nat, c: nat, d: nat)
    requires a <= b && c <= d
    ensures a * c <= b * d
  {
    MulMono(a, b, c);
    MulMono(c, d, b);
  }

  /** Quotient and remainder are unique. */
  lemma DivModUnique(v: nat, d: nat, base: nat)
    requires d < base
    ensures (v * base + d) / base == v && (v * base + d) % base == d
  {
    var x := v * base + d;
    var q, r := x / base, x % base;
    assert x == base * q + r;
    var k := q - v;
    assert k * base == d - r;
    MultipleIsFar(k, base);
  }

  lemma MultipleIsFar(k: int, base: nat)
    ensures k >= 1 ==> k * base >= base
    ensures k <= -1 ==> k * base <= 0 - base
  {
    if k >= 1 {
      MulMono(1, k, base);
    } else if k <= -1 {
      MulMono(k, -1, base);
    }
  }

  /** The number that the digits `s` spell in base `base`, most significant first. */
  function Number(s: bytes, base: nat): nat {
    if s == [] then 0 else Number(s[..|s| - 1], base) * base + s[|s| - 1]
  }

  lemma {:induction false} NumberSplit(s: bytes, i: nat, base: nat)
    requires i <= |s|
    ensures Number(s, base) == Number(s[..i], base) * Pow(base, |s| - i) + Number(s[i..], base)
  {
    if i == |s| {
      assert s[..i] == s && s[i..] == [];
    } else {
      var t := s[..|s| - 1];
      NumberSplit(t, i, base);
      assert t[..i] == s[..i];
      assert s[i..][..|s| - i - 1] == t[i..];
      var a, p, b := Number(s[..i], base), Pow(base, |s| - 1 - i), Number(t[i..], base);
      Rearrange(a, p, b, base);
    }
  }

  lemma Rearrange(a: nat, p: nat, b: nat, base: nat)
    ensures (a * p + b) * base == a * (base * p) + b * base
  {
  }

  /** The number a byte string spells, most significant byte first. */
  function FromBE(s: bytes): nat {
    Number(s, 256)
  }

  /** The low `n` bytes of `v`, most significant first. */
  function ToBE(v: nat, n: nat): (s: bytes)
    ensures |s| == n
  {
    if n == 0 then [] else ToBE(v / 256, n - 1) + [v % 256]
  }

  lemma {:induction false} FromBEBound(s: bytes)
    ensures FromBE(s) < Pow(256, |s|)
  {
    if s != [] {
      FromBEBound(s[..|s| - 1]);
    }
  }

  lemma {:induction false} FromBEToBE(v: nat, n: nat)
    requires v < Pow(256, n)
    ensures FromBE(ToBE(v, n)) == v
  {
    if n != 0 {
      FromBEToBE(v / 256, n - 1);
      assert ToBE(v, n)[..n - 1] == ToBE(v / 256, n - 1);
    }
  }

  lemma {:induction false} ToBEFromBE(s: bytes)
    ensures ToBE(FromBE(s), |s|) == s
  {
    if s != [] {
      var front := s[..|s| - 1];
      DivModUnique(FromBE(front), s[|s| - 1], 256);
      ToBEFromBE(front);
      assert s == front + [s[|s| - 1]];
    }
  }

  function U16(s: bytes): u16
    requires |s| == 2
  {
    FromBEBound(s);
    FromBE(s)
  }

  function U32(s: bytes): u32
    requires |s| == 4
  {
    FromBEBound(s);
    Powers256();
    FromBE(s)
  }

  function U64(s: bytes): u64
    requires |s| == 8
  {
    FromBEBound(s);
    Powers256();
    FromBE(s)
  }

  lemma Powers256()
    ensures Pow(256, 2) == 0x1_0000
    ensures Pow(256, 4) == 0x1_0000_0000
    ensures Pow(256, 8) == 0x1_0000_0000_0000_0000
  {
    PowAdd(256, 2, 2);
    PowAdd(256, 4, 4);
  }

  /** Big-endian: the first byte is worth most. */
  lemma BigEndian(a: byte, b: byte, c: byte, d: byte, low: bytes)
    requires |low| == 4
    ensures U16([a, b]) == 0x100 * a + b
    ensures U32([a, b, c, d]) == 0x100_0000 * a + 0x1_0000 * b + 0x100 * c + d
    ensures U64([a, b, c, d] + low) == 0x1_0000_0000 * U32([a, b, c, d]) + U32(low)
  {
    assert [a, b, c, d][..3] == [a, b, c] && [a, b, c][..2] == [a, b] && [a, b][..1] == [a];
    assert Number([], 256) == 0 && Number([a], 256) == a && Number([a, b], 256) == 0x100 * a + b;
    assert Number([a, b, c], 256) == 0x1_0000 * a + 0x100 * b + c;
    NumberSplit([a, b, c, d] + low, 4, 256);
    assert ([a, b, c, d] + low)[..4] == [a, b, c, d] && ([a, b, c, d] + low)[4..] == low;
    Powers256();
  }
}
