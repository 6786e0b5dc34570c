/**
 Positional numbers: digit strings, most significant first.
 */
module Positional {
  import opened Bytes

  predicate DigitsBelow(s: bytes, base: nat) {
    forall i :: 0 <= i < |s| ==> s[i] < base
  }

  predicate AllZero(s: bytes) {
    forall i :: 0 <= i < |s| ==> s[i] == 0
  }

  /** The digits of `v` without leading zeros. */
  function Digits(v: nat, base: nat): (s: bytes)
    requires 2 <= base <= 256
    ensures DigitsBelow(s, base)
    ensures s != [] ==> s[0] != 0
    decreases v
  {
    if v == 0 then []
    else
      assert v / base < v by { DivShrinks(v, base); }
      Digits(v / base, base) + [v % base]
  }

  lemma DivShrinks(v: nat, base: nat)
    requires v > 0 && base >= 2
    ensures v / base < v
  {
    var q, r := v / base, v % base;
    assert v == base * q + r;
    MulMono(2, base, q);
  }

  lemma {:induction false} NumberDigits(v: nat, base: nat)
    requires 2 <= base <= 256
    ensures Number(Digits(v, base), base) == v
  {
    if v != 0 {
      DivShrinks(v, base);
      NumberDigits(v / base, base);
      NumberSnoc(Digits(v / base, base), v % base, base);
      QuotientAndRemainder(v, base);
    }
  }

  lemma PrefixSnoc(s: bytes, k: nat)
    requires k < |s|
    ensures s[..k + 1] == s[..k] + [s[k]]
  {
  }

  lemma NumberSnoc(s: bytes, d: byte, base: nat)
    ensures Number(s + [d], base) == Number(s, base) * base + d
  {
    assert (s + [d])[..|s|] == s;
  }

  lemma QuotientAndRemainder(v: nat, base: nat)
    requires base > 0
    ensures v / base * base + v % base == v
  {
  }

  lemma {:induction false} NumberZero(s: bytes, base: nat)
    requires AllZero(s)
    ensures Number(s, base) == 0
  {
    if s != [] {
      NumberZero(s[..|s| - 1], base);
    }
  }

  lemma SkipZeros(s: bytes, j: nat, base: nat)
    requires j <= |s| && AllZero(s[..j])
    ensures Number(s, base) == Number(s[j..], base)
  {
    NumberSplit(s, j, base);
    NumberZero(s[..j], base);
  }

  lemma {:induction false} NumberBound(s: bytes, base: nat)
    requires base > 0 && DigitsBelow(s, base)
    ensures Number(s, base) < Pow(base, |s|)
  {
    if s != [] {
      NumberBound(s[..|s| - 1], base);
      var n, p := Number(s[..|s| - 1], base), Pow(base, |s| - 1);
      MulMono(n + 1, p, base);
      assert (n + 1) * base == n * base + base;
    }
  }

  /** A nonzero leading digit puts a floor under the number. */
  lemma NumberFloor(s: bytes, base: nat)
    requires s != [] && s[0] != 0 && base > 0
    ensures Pow(base, |s| - 1) <= Number(s, base)
  {
    NumberSplit(s, 1, base);
    assert Number(s[..1], base) == s[0] by {
      assert s[..1][..0] == [];
    }
    MulMono(1, s[0], Pow(base, |s| - 1));
  }

  /** A digit string without leading zeros is the digit string of its number. */
  lemma {:induction false} DigitsNumber(s: bytes, base: nat)
    requires 2 <= base <= 256 && DigitsBelow(s, base)
    requires s == [] || s[0] != 0
    ensures Digits(Number(s, base), base) == s
  {
    if s != [] {
      var t, d := s[..|s| - 1], s[|s| - 1];
      DigitsNumber(t, base);
      var v := Number(t, base);
      DivModUnique(v, d, base);
      assert s == t + [d];
      assert v * base + d > 0 by {
        if t != [] {
          NumberFloor(t, base);
          MulGrows(v, base);
        }
      }
    }
  }

  /** How many zeros lead `s`. */
  function LeadingZeros(s: bytes): (z: nat)
    ensures z <= |s| && AllZero(s[..z])
    ensures z < |s| ==> s[z] != 0
  {
    if s == [] || s[0] != 0 then 0
    else
      var z := LeadingZeros(s[1..]);
      assert forall i :: 0 < i < 1 + z ==> s[i] == s[1..][..z][i - 1];
      1 + z
  }

  lemma {:induction false} LeadingZerosUnique(s: bytes, z: nat)
    requires z <= |s| && AllZero(s[..z])
    requires z < |s| ==> s[z] != 0
    ensures LeadingZeros(s) == z
  {
    assert z > 0 ==> s[..z][0] == 0;
    if z > 0 {
      assert forall i :: 0 <= i < z - 1 ==> s[1..][i] == s[..z][i + 1];
      LeadingZerosUnique(s[1..], z - 1);
    }
  }
}

/**
 Base58, as draft-msporny-base58-02 (sections 3 and 4) describes it.
 Source: unit-tests/utils/base58.c.
 */
module Base58 {
  import opened Bytes
  import opened Positional

  const MAX_DEC_INPUT_SIZE: nat := 164
  const MAX_ENC_INPUT_SIZE: nat := 120
  const SIZE_MAX: nat := 0xFFFF_FFFF

  /** BASE58_ALPHABET: digits and letters without 0, O, I and l. */
  function Letter(d: byte): (c: char)
    requires d < 58
    ensures Table(c) == d
  {
    if d < 9 then '1' + d as char
    else if d < 17 then 'A' + (d - 9) as char
    else if d < 22 then 'J' + (d - 17) as char
    else if d < 33 then 'P' + (d - 22) as char
    else if d < 44 then 'a' + (d - 33) as char
    else 'm' + (d - 44) as char
  }

  /** BASE58_TABLE: the value of a character, 0xFF for a character outside the alphabet. */
  function Table(c: char): (d: byte)
    ensures d == 0xFF || d < 58
  {
    if '1' <= c <= '9' then c as int - '1' as int
    else if 'A' <= c <= 'H' then c as int - 'A' as int + 9
    else if 'J' <= c <= 'N' then c as int - 'J' as int + 17
    else if 'P' <= c <= 'Z' then c as int - 'P' as int + 22
    else if 'a' <= c <= 'k' then c as int - 'a' as int + 33
    else if 'm' <= c <= 'z' then c as int - 'm' as int + 44
    else 0xFF
  }

  /** A digit or an ASCII letter that cannot be taken for another one. */
  predicate Unmistakable(c: char) {
    ('0' <= c <= '9' || 'A' <= c <= 'Z' || 'a' <= c <= 'z') && c != '0' && c != 'O' && c != 'I' && c != 'l'
  }

  /** The alphabet is the unmistakable digits and letters in ASCII order, and the table is its inverse. */
  lemma AlphabetExact(c: char, d: byte, e: byte)
    requires d < 58 && e < 58
    ensures Unmistakable(Letter(d)) && (Letter(d) < Letter(e) <==> d < e)
    ensures Unmistakable(c) <==> Table(c) < 58
    ensures Table(c) < 58 ==> Letter(Table(c)) == c
  {
  }

  // ---------- reference ----------

  function Letters(ds: bytes): (s: string)
    requires DigitsBelow(ds, 58)
    ensures |s| == |ds|
  {
    seq(|ds|, i requires 0 <= i < |ds| => Letter(ds[i]))
  }

  /** Leading zero bytes become leading '1's; the rest is one number written in base 58. */
  function EncodedDigits(input: bytes): (ds: bytes)
    ensures DigitsBelow(ds, 58)
  {
    var z := LeadingZeros(input);
    Zeros(z) + Digits(Number(input[z..], 256), 58)
  }

  function DecodedBytes(ds: bytes): bytes {
    var z := LeadingZeros(ds);
    Zeros(z) + Digits(Number(ds[z..], 58), 256)
  }

  /** The same number and as many leading zeros, in digits of the other base. */
  lemma EncodingExact(input: bytes)
    ensures var ds := EncodedDigits(input);
            Number(ds, 58) == Number(input, 256) && LeadingZeros(ds) == LeadingZeros(input)
  {
    hide Number, Digits;
    var z := LeadingZeros(input);
    var ds, v := EncodedDigits(input), Number(input[z..], 256);
    ZerosFirst(z, Digits(v, 58));
    LeadingZerosUnique(ds, z);
    SkipZeros(ds, z, 58);
    SkipZeros(input, z, 256);
    NumberDigits(v, 58);
  }

  lemma DecodeEncode(input: bytes)
    ensures DecodedBytes(EncodedDigits(input)) == input
  {
    hide Number, Digits;
    var z := LeadingZeros(input);
    var rest := input[z..];
    var v := Number(rest, 256);
    var all := EncodedDigits(input);
    ZerosFirst(z, Digits(v, 58));
    assert LeadingZeros(all) == z by { LeadingZerosUnique(all, z); }
    assert Number(all[z..], 58) == v by { NumberDigits(v, 58); }
    assert Digits(v, 256) == rest by { DigitsNumber(rest, 256); }
    LeadingPart(input);
  }

  lemma ZerosFirst(z: nat, rest: bytes)
    ensures (Zeros(z) + rest)[..z] == Zeros(z) && (Zeros(z) + rest)[z..] == rest
  {
  }

  lemma LeadingPart(s: bytes)
    ensures var z := LeadingZeros(s); s == Zeros(z) + s[z..]
  {
    var z := LeadingZeros(s);
    assert s[..z] == Zeros(z);
    assert s == s[..z] + s[z..];
  }

  // ---------- enough room ----------

  /** The digit count the encoder reserves for `n` bytes. */
  function Room(n: nat): nat {
    n * 138 / 100 + 1
  }

  lemma {:induction false} PowOfPow(base: nat, m: nat, n: nat)
    ensures Pow(Pow(base, m), n) == Pow(base, m * n)
  {
    if n != 0 {
      PowOfPow(base, m, n - 1);
      PowAdd(base, m, m * (n - 1));
      assert m + m * (n - 1) == m * n;
    }
  }

  lemma {:induction false} PowGrows(a: nat, b: nat, n: nat)
    requires a <= b
    ensures Pow(a, n) <= Pow(b, n)
  {
    if n != 0 {
      PowGrows(a, b, n - 1);
      var p, q := Pow(a, n - 1), Pow(b, n - 1);
      MulMono2(a, b, p, q);
    }
  }

  /** Eleven base-58 digits hold eight bytes. */
  lemma EightBytes()
    ensures Pow(256, 8) <= Pow(58, 11)
  {
    assert Pow(58, 3) == 195112;
    PowAdd(58, 3, 3);
    PowAdd(58, 6, 3);
    assert Pow(58, 2) == 3364;
    PowAdd(58, 9, 2);
    Powers256();
  }

  lemma FewBytes(r: nat)
    requires r < 8
    ensures Pow(256, r) <= Pow(58, r * 138 / 100 + (if r == 0 then 0 else 1))
  {
    assert Pow(58, 2) == 3364 && Pow(58, 3) == 195112;
    PowAdd(58, 3, 2);
    PowAdd(58, 3, 3);
    PowAdd(58, 3, 4);
    PowAdd(58, 6, 3);
    PowAdd(58, 9, 1);
    assert Pow(58, 1) == 58;
    PowAdd(58, 2, 2);
    assert Pow(256, 1) == 256 && Pow(256, 2) == 65536 && Pow(256, 3) == 16777216;
    PowAdd(256, 3, 1);
    PowAdd(256, 3, 2);
    PowAdd(256, 3, 3);
    PowAdd(256, 4, 3);
    assert r * 138 / 100 == if r == 0 then 0 else if r == 1 then 1 else if r == 2 then 2 else if r == 3 then 4
                            else if r == 4 then 5 else if r == 5 then 6 else if r == 6 then 8 else 9;
  }

  lemma Blocks(q: nat)
    ensures Pow(256, 8 * q) <= Pow(58, 11 * q)
  {
    PowOfPow(256, 8, q);
    PowOfPow(58, 11, q);
    EightBytes();
    PowGrows(Pow(256, 8), Pow(58, 11), q);
  }

  /** Room(n) digits hold every number of `n` bytes, for every n. */
  lemma RoomSuffices(n: nat)
    ensures Pow(256, n) <= Pow(58, Room(n))
  {
    hide Pow, Room;
    var q, r := n / 8, n % 8;
    var e := r * 138 / 100 + (if r == 0 then 0 else 1);
    Blocks(q);
    FewBytes(r);
    MulMono2(Pow(256, 8 * q), Pow(58, 11 * q), Pow(256, r), Pow(58, e));
    PowAdd(256, 8 * q, r);
    PowAdd(58, 11 * q, e);
    RoomOfBlocks(q, r);
    PowMonotone(58, 11 * q + e, Room(n));
  }

  lemma RoomOfBlocks(q: nat, r: nat)
    requires r < 8
    ensures 11 * q + r * 138 / 100 + (if r == 0 then 0 else 1) <= Room(8 * q + r)
  {
  }

  /** Forty-one base-58 digits hold thirty bytes, so 164 hold 120. */
  lemma ThirtyBytes()
    ensures Pow(256, 30) <= Pow(58, 41)
  {
    hide Pow;
    SmallPowers();
    PowAdd(58, 4, 4);
    PowAdd(58, 8, 2);
    PowAdd(58, 10, 10);
    PowAdd(58, 20, 20);
    PowAdd(58, 40, 1);
    PowAdd(256, 3, 3);
    PowAdd(256, 6, 6);
    PowAdd(256, 12, 3);
    PowAdd(256, 15, 15);
  }

  lemma SmallPowers()
    ensures Pow(58, 1) == 58 && Pow(58, 2) == 3364 && Pow(58, 4) == 11316496 && Pow(256, 3) == 16777216
  {
  }

  lemma DecoderLimitSuffices()
    ensures Pow(256, 120) <= Pow(58, 164)
  {
    ThirtyBytes();
    PowOfPow(256, 30, 4);
    PowOfPow(58, 41, 4);
    PowGrows(Pow(256, 30), Pow(58, 41), 4);
  }

  lemma {:induction false} DigitsLength(v: nat, k: nat)
    requires v < Pow(58, k)
    ensures |Digits(v, 58)| <= k
  {
    var s := Digits(v, 58);
    NumberDigits(v, 58);
    if |s| > k {
      NumberFloor(s, 58);
      PowMonotone(58, k, |s| - 1);
    }
  }

  lemma ShortRoom(n: nat)
    requires n <= 120
    ensures Pow(256, n) <= Pow(58, 44 + n)
  {
    hide Pow;
    var m := 120 - n;
    var a, x, b, y := Pow(256, n), Pow(256, m), Pow(58, 44 + n), Pow(58, m);
    assert a * x == Pow(256, 120) by { PowAdd(256, n, m); }
    assert b * y == Pow(58, 164) by { PowAdd(58, 44 + n, m); }
    assert a * x <= b * y by { DecoderLimitSuffices(); }
    PowGrows(58, 256, m);
    PowMonotone(58, 0, m);
    assert y > 0 by { PowPositive(58, m); }
    FactorOrder(a, x, b, y);
  }

  lemma PowPositive(base: nat, n: nat)
    requires base > 0
    ensures Pow(base, n) > 0
  {
  }

  lemma FactorOrder(a: nat, x: nat, b: nat, y: nat)
    requires a * x <= b * y && 0 < y <= x
    ensures a <= b
  {
    MulMono(y, x, b);
    var k := a - b;
    assert k * x == a * x - b * x;
    MultipleIsFar(k, x);
  }

  /** No encoding of at most 120 bytes is longer than the decoder accepts. */
  lemma EncodingFitsDecoder(input: bytes)
    requires |input| <= MAX_ENC_INPUT_SIZE
    ensures |EncodedDigits(input)| <= MAX_DEC_INPUT_SIZE
  {
    var z := LeadingZeros(input);
    NumberBound(input[z..], 256);
    ShortRoom(|input| - z);
    DigitsLength(Number(input[z..], 256), 44 + |input| - z);
  }

  // ---------- the encoder ----------

  /** Unsigned decrement, which wraps at zero. */
  function Dec(x: nat): nat {
    if x == 0 then SIZE_MAX else x - 1
  }

  /** What the buffer stands for while the carry stands between the old digits and the new ones. */
  ghost function Pending(head: bytes, carry: nat, tail: bytes): nat {
    (256 * Number(head, 58) + carry) * Pow(58, |tail|) + Number(tail, 58)
  }

  lemma PendingStart(was: bytes, b: nat)
    ensures Pending(was, b, []) == 256 * Number(was, 58) + b
  {
  }

  lemma CarryStep(head: bytes, d: byte, tail: bytes, carry: nat, q: nat, r: byte)
    requires carry + 256 * (d as int) == 58 * q + r
    ensures Pending(head + [d], carry, tail) == Pending(head, q, [r] + tail)
  {
    var n, p := Number(head, 58), Pow(58, |tail|);
    assert (head + [d])[..|head|] == head;
    Cons(r, tail, 58);
    var m := 256 * n + q;
    assert 256 * Number(head + [d], 58) + carry == 58 * m + r;
    Distribute(58, m, r, p);
  }

  /** With no digits left to the left, a number that fits leaves no carry. */
  lemma NoCarryOut(carry: nat, tail: bytes)
    requires Pending([], carry, tail) < Pow(58, |tail|)
    ensures carry == 0
  {
    MultipleIsFar(carry, Pow(58, |tail|));
  }

  lemma Distribute(base: nat, m: nat, r: nat, p: nat)
    ensures (base * m + r) * p == m * (base * p) + r * p
  {
  }

  lemma Cons(b: byte, tail: bytes, base: nat)
    ensures Number([b] + tail, base) == b * Pow(base, |tail|) + Number(tail, base)
  {
    NumberSplit([b] + tail, 1, base);
    assert ([b] + tail)[..1] == [b] && ([b] + tail)[1..] == tail;
    assert [b][..0] == [] && Number([b], base) == b;
  }

  lemma PowOrder(x: nat, y: nat)
    requires Pow(58, x) < Pow(58, y)
    ensures x < y
  {
    if y <= x {
      PowMonotone(58, y, x);
    }
  }

  /** Where the last round stopped: one digit further left, or at the leading digit. */
  lemma StopWidth(s: bytes, v: nat, k: nat)
    requires s != [] && s[0] != 0 && Number(s, 58) == v < Pow(256, k)
    ensures |s| <= Room(k)
  {
    NumberFloor(s, 58);
    RoomSuffices(k);
    PowOrder(|s| - 1, Room(k));
  }

  /** One digit: multiplied by 256, plus the carry, modulo 58. */
  method MulDigit(buffer: array<byte>, outputSize: nat, j: nat, carryIn: nat, ghost was: bytes) returns (carry: nat)
    requires j < outputSize <= buffer.Length && |was| == outputSize && carryIn < 256
    requires DigitsBelow(was, 58) && buffer[..j + 1] == was[..j + 1]
    requires DigitsBelow(buffer[j + 1..outputSize], 58)
    modifies buffer
    ensures carry < 256
    ensures buffer[..j] == was[..j] && DigitsBelow(buffer[j..outputSize], 58)
    ensures Pending(was[..j], carry, buffer[j..outputSize])
         == Pending(was[..j + 1], carryIn, old(buffer[j + 1..outputSize]))
    ensures was[j] == 0 && carryIn != 0 && carry == 0 ==> buffer[j] != 0
  {
    ghost var tail := buffer[j + 1..outputSize];
    assert buffer[j] == buffer[..j + 1][j] == was[j];
    var c := carryIn + 256 * (buffer[j] as int);
    buffer[j] := c % 58;
    carry := c / 58;
    assert was[..j + 1] == was[..j] + [was[j]];
    assert buffer[j..outputSize] == [buffer[j]] + tail;
    assert forall i :: 0 <= i < j ==> buffer[i] == was[..j + 1][i];
    CarryStep(was[..j], was[j], tail, carryIn, carry, buffer[j]);
  }

  /**
   One byte of the input: every digit is multiplied by 256 and the carry moves left until
   it is used up somewhere left of `stopAt`.  After `k` bytes all digits lie in the last
   Room(k) places, so `stopAt` is positive here, Dec does not wrap, and the loop never
   runs off the left end of the buffer.
   */
  method AddByte(buffer: array<byte>, outputSize: nat, stopAt: nat, b: byte, ghost k: nat) returns (stop: nat)
    requires 0 < stopAt < outputSize <= buffer.Length
    requires DigitsBelow(buffer[..outputSize], 58) && AllZero(buffer[..stopAt])
    requires Number(buffer[..outputSize], 58) < Pow(256, k)
    requires outputSize - stopAt <= Room(k) && Room(k + 1) <= outputSize
    modifies buffer
    ensures stop < outputSize && outputSize - stop <= Room(k + 1)
    ensures DigitsBelow(buffer[..outputSize], 58) && AllZero(buffer[..stop])
    ensures Number(buffer[..outputSize], 58) == 256 * Number(old(buffer[..outputSize]), 58) + b
    ensures Number(buffer[..outputSize], 58) < Pow(256, k + 1)
  {
    hide Number, Pow, Pending;
    ghost var was := buffer[..outputSize];
    ghost var target := 256 * Number(was, 58) + b;
    PendingStart(was, b);
    RoundFits(Number(was, 58), b, k, outputSize);
    var carry: nat := b;
    var j: int := outputSize - 1;
    assert was[..j + 1] == was && was[j + 1..] == [];
    while j >= 0
      invariant 0 <= j < outputSize
      invariant buffer[..j + 1] == was[..j + 1]
      invariant DigitsBelow(buffer[j + 1..outputSize], 58)
      invariant carry < 256
      invariant j < stopAt - 1 ==> carry != 0
      invariant target == Pending(was[..j + 1], carry, buffer[j + 1..outputSize])
    {
      carry := MulDigit(buffer, outputSize, j, carry, was);
      assert j == 0 ==> was[..j] == [] && buffer[j..outputSize] == buffer[..outputSize];
      if j == 0 {
        NoCarryOut(carry, buffer[..outputSize]);
      }
      if j <= Dec(stopAt) && carry == 0 {
        RoundDone(buffer[..outputSize], was, j, stopAt, target);
        if j < stopAt - 1 {
          StopWidth(buffer[j..outputSize], target, k + 1);
        }
        break;
      }
      j := j - 1;
    }
    stop := j;
  }

  lemma RoundFits(v: nat, b: byte, k: nat, outputSize: nat)
    requires v < Pow(256, k) && Room(k + 1) <= outputSize
    ensures 256 * v + b < Pow(256, k + 1) <= Pow(58, outputSize)
    ensures Room(k) + 1 <= Room(k + 1)
  {
    RoomSuffices(k + 1);
    PowMonotone(58, Room(k + 1), outputSize);
  }

  lemma RoundDone(cur: bytes, was: bytes, j: nat, stopAt: nat, target: nat)
    requires j < stopAt <= |was| == |cur| && AllZero(was[..stopAt]) && cur[..j] == was[..j]
    requires target == Pending(was[..j], 0, cur[j..])
    ensures AllZero(cur[..j]) && Number(cur, 58) == target == Number(cur[j..], 58)
  {
    assert forall i :: 0 <= i < j ==> cur[..j][i] == was[..stopAt][i];
    SkipZeros(cur, j, 58);
    NumberZero(was[..j], 58);
  }

  /** Dropping leading zeros leaves the digits of the number. */
  lemma Trimmed(s: bytes, j: nat, base: nat)
    requires 2 <= base <= 256 && DigitsBelow(s, base)
    requires j <= |s| && AllZero(s[..j]) && (j < |s| ==> s[j] != 0)
    ensures s[j..] == Digits(Number(s, base), base)
  {
    SkipZeros(s, j, base);
    DigitsNumber(s[j..], base);
  }

  /** The conversion loop: the buffer ends up holding the base-58 digits of the whole number. */
  method Convert(buffer: array<byte>, input: bytes, zeroCount: nat) returns (outputSize: nat)
    requires zeroCount <= |input| <= MAX_ENC_INPUT_SIZE && buffer.Length == 166
    requires AllZero(buffer[..])
    modifies buffer
    ensures outputSize == Room(|input| - zeroCount) <= 166
    ensures DigitsBelow(buffer[..outputSize], 58)
    ensures Number(buffer[..outputSize], 58) == Number(input[zeroCount..], 256)
  {
    ghost var rest := input[zeroCount..];
    outputSize := (|input| - zeroCount) * 138 / 100 + 1;
    var stopAt := outputSize - 1;
    assert forall i :: 0 <= i < 166 ==> buffer[i] == buffer[..][i];
    NumberZero(buffer[..outputSize], 58);
    for startAt := zeroCount to |input|
      invariant stopAt < outputSize <= 166
      invariant outputSize - stopAt <= Room(startAt - zeroCount)
      invariant DigitsBelow(buffer[..outputSize], 58) && AllZero(buffer[..stopAt])
      invariant Number(buffer[..outputSize], 58) == Number(rest[..startAt - zeroCount], 256)
      invariant Number(buffer[..outputSize], 58) < Pow(256, startAt - zeroCount)
    {
      ghost var k := startAt - zeroCount;
      assert rest[..k + 1][..k] == rest[..k];
      stopAt := AddByte(buffer, outputSize, stopAt, input[startAt], k);
    }
    assert rest[..|rest|] == rest;
  }

  /** base58_encode: exactly the reference encoding, or failure when a size limit is exceeded. */
  method Encode(input: bytes, outLen: nat) returns (r: Option<string>)
    ensures r == if |input| > MAX_ENC_INPUT_SIZE || outLen < |EncodedDigits(input)| then None
                 else Some(Letters(EncodedDigits(input)))
  {
    if |input| > MAX_ENC_INPUT_SIZE {
      return None;
    }
    var buffer := new byte[166](_ => 0);
    var zeroCount := 0;
    while zeroCount < |input| && input[zeroCount] == 0
      invariant zeroCount <= |input| && AllZero(input[..zeroCount])
    {
      zeroCount := zeroCount + 1;
    }
    LeadingZerosUnique(input, zeroCount);
    var outputSize := Convert(buffer, input, zeroCount);
    var j := 0;
    while j < outputSize && buffer[j] == 0
      invariant j <= outputSize && AllZero(buffer[..j])
    {
      j := j + 1;
    }
    var digits := buffer[..outputSize];
    assert digits[..j] == buffer[..j];
    Trimmed(digits, j, 58);
    assert |EncodedDigits(input)| == zeroCount + outputSize - j;
    if outLen < zeroCount + outputSize - j {
      return None;
    }
    var out := WriteLetters(zeroCount, digits[j..]);
    return Some(out);
  }

  /** The output: a '1' for every leading zero byte, then one letter a digit. */
  method WriteLetters(zeroCount: nat, ds: bytes) returns (out: string)
    requires DigitsBelow(ds, 58)
    ensures out == Letters(Zeros(zeroCount) + ds)
  {
    ghost var all := Zeros(zeroCount) + ds;
    out := seq(zeroCount, _ => Letter(0));
    for j := 0 to |ds|
      invariant |out| == zeroCount + j
      invariant forall i :: 0 <= i < |out| ==> out[i] == Letter(all[i])
    {
      assert all[zeroCount + j] == ds[j];
      out := out + [Letter(ds[j])];
    }
  }

  // ---------- the decoder ----------

  function Values(input: string): (ds: bytes)
    ensures |ds| == |input|
  {
    seq(|input|, i requires 0 <= i < |input| => Table(input[i]))
  }

  predicate InAlphabet(input: string) {
    forall i :: 0 <= i < |input| ==> Table(input[i]) != 0xFF
  }

  lemma DivideStep(was: bytes, cur: bytes, d: byte, remainder: nat)
    requires Number(was, 58) == Number(cur, 58) * 256 + remainder
    requires d < 58 && remainder < 256
    ensures var t := remainder * 58 + d;
            Number(was + [d], 58) == Number(cur + [(t / 256) as byte], 58) * 256 + t % 256
  {
    var t := remainder * 58 + d;
    assert (was + [d])[..|was|] == was;
    assert (cur + [(t / 256) as byte])[..|cur|] == cur;
  }

  /** The digits before `i` are divided, with this remainder; those from `i` on are as they were. */
  ghost predicate Divided(tmp: array<byte>, startAt: nat, i: nat, len: nat, was: bytes, remainder: byte)
    requires startAt <= i <= len <= tmp.Length && |was| == len - startAt
    reads tmp
  {
    var k := i - startAt;
    && (forall j :: i <= j < len ==> tmp[j] == was[j - startAt])
    && DigitsBelow(tmp[startAt..i], 58) && (i > startAt ==> tmp[startAt] == 0) && (i == startAt ==> remainder == 0)
    && Number(was[..k], 58) == Number(tmp[startAt..i], 58) * 256 + remainder
  }

  /** One digit of the long division: the quotient digit replaces it. */
  method DivideDigit(tmp: array<byte>, startAt: nat, i: nat, len: nat, remainderIn: byte, ghost was: bytes)
      returns (remainder: byte)
    requires startAt <= i < len <= tmp.Length && |was| == len - startAt && DigitsBelow(was, 58)
    requires Divided(tmp, startAt, i, len, was, remainderIn)
    modifies tmp
    ensures Divided(tmp, startAt, i + 1, len, was, remainder)
  {
    hide Number;
    ghost var done, k := tmp[startAt..i], i - startAt;
    DivideStep(was[..k], done, tmp[i], remainderIn);
    PrefixSnoc(was, k);
    var t := remainderIn * 58 + tmp[i];
    tmp[i] := t / 256;
    remainder := t % 256;
    assert tmp[startAt..i + 1] == done + [tmp[i]];
  }

  /** One pass of the long division by 256, in place: quotient digits stay, the remainder comes out. */
  method DividePass(tmp: array<byte>, startAt: nat, len: nat) returns (remainder: byte)
    requires startAt < len <= tmp.Length && DigitsBelow(tmp[startAt..len], 58)
    modifies tmp
    ensures DigitsBelow(tmp[startAt..len], 58) && tmp[startAt] == 0
    ensures Number(old(tmp[startAt..len]), 58) == Number(tmp[startAt..len], 58) * 256 + remainder
  {
    ghost var was := tmp[startAt..len];
    remainder := 0;
    Untouched(tmp, startAt, len);
    hide Number, DigitsBelow;
    var i := startAt;
    while i < len
      invariant startAt <= i <= len && Divided(tmp, startAt, i, len, was, remainder)
    {
      remainder := DivideDigit(tmp, startAt, i, len, remainder, was);
      i := i + 1;
    }
    assert was[..len - startAt] == was;
  }

  lemma Untouched(tmp: array<byte>, startAt: nat, len: nat)
    requires startAt <= len <= tmp.Length
    ensures Divided(tmp, startAt, startAt, len, tmp[startAt..len], 0)
  {
    assert tmp[startAt..len][..0] == [] && tmp[startAt..startAt] == [];
  }

  /** The conversion loop: one output byte for every digit, the last byte first. */
  method Unpack(tmp: array<byte>, buffer: array<byte>, zeroCount: nat, n: nat)
    requires tmp != buffer && zeroCount <= n <= tmp.Length && n <= buffer.Length
    requires DigitsBelow(tmp[zeroCount..n], 58) && AllZero(buffer[..n])
    modifies tmp, buffer
    ensures AllZero(buffer[..zeroCount])
    ensures Number(buffer[zeroCount..n], 256) == Number(old(tmp[zeroCount..n]), 58)
  {
    hide Number, Remaining;
    ghost var v := Number(tmp[zeroCount..n], 58);
    RemainingEnds(tmp[zeroCount..n], []);
    var j, startAt := n, zeroCount;
    assert buffer[n..n] == [];
    while startAt < n
      invariant zeroCount <= startAt <= n && j == n - (startAt - zeroCount)
      invariant DigitsBelow(tmp[startAt..n], 58) && AllZero(buffer[..j])
      invariant v == Remaining(tmp[startAt..n], buffer[j..n])
    {
      ghost var digits, tail := tmp[startAt..n], buffer[j..n];
      var remainder := DividePass(tmp, startAt, n);
      assert tmp[startAt..n][1..] == tmp[startAt + 1..n];
      DropZero(tmp[startAt..n]);
      if tmp[startAt] == 0 {
        startAt := startAt + 1;
      }
      ghost var zeros := buffer[..j];
      j := j - 1;
      buffer[j] := remainder;
      assert buffer[..j] == zeros[..j];
      assert buffer[j..n] == [remainder] + tail;
      DivideRound(digits, tmp[startAt..n], remainder, tail);
    }
    RemainingEnds([], buffer[zeroCount..n]);
    assert tmp[n..n] == [];
  }

  /** The number still to convert, above the bytes already produced. */
  ghost function Remaining(digits: bytes, tail: bytes): nat {
    Number(digits, 58) * Pow(256, |tail|) + Number(tail, 256)
  }

  lemma RemainingEnds(digits: bytes, tail: bytes)
    ensures Remaining(digits, []) == Number(digits, 58)
    ensures Remaining([], tail) == Number(tail, 256)
  {
  }

  lemma DivideRound(digits: bytes, quotient: bytes, remainder: byte, tail: bytes)
    requires Number(digits, 58) == Number(quotient, 58) * 256 + remainder
    ensures Remaining(digits, tail) == Remaining(quotient, [remainder] + tail)
  {
    Cons(remainder, tail, 256);
    Distribute(256, Number(quotient, 58), remainder, Pow(256, |tail|));
    assert |[remainder] + tail| == |tail| + 1;
  }

  /** base58_decode: exactly the reference decoding of what it accepts. */
  method Decode(input: string, outLen: nat) returns (r: Option<bytes>)
    ensures r == if |input| > MAX_DEC_INPUT_SIZE || |input| < 2 || !InAlphabet(input)
                    || outLen < |DecodedBytes(Values(input))| then None
                 else Some(DecodedBytes(Values(input)))
  {
    var n := |input|;
    if n > MAX_DEC_INPUT_SIZE || n < 2 {
      return None;
    }
    var tmp := new byte[MAX_DEC_INPUT_SIZE](_ => 0);
    var ok := LookUp(input, tmp);
    if !ok {
      return None;
    }
    var out := DecodeDigits(tmp, n);
    if outLen < |out| {
      return None;
    }
    return Some(out);
  }

  /** Leading zero digits are counted, the rest is converted, and exactly that many zero bytes lead the result. */
  method DecodeDigits(tmp: array<byte>, n: nat) returns (out: bytes)
    requires n <= tmp.Length && DigitsBelow(tmp[..n], 58)
    modifies tmp
    ensures out == DecodedBytes(old(tmp[..n]))
  {
    hide Number, Digits;
    ghost var ds := tmp[..n];
    var zeroCount := 0;
    while zeroCount < n && tmp[zeroCount] == 0
      invariant zeroCount <= n && AllZero(ds[..zeroCount])
    {
      zeroCount := zeroCount + 1;
    }
    LeadingZerosUnique(ds, zeroCount);
    var buffer := new byte[n](_ => 0);
    assert tmp[zeroCount..n] == ds[zeroCount..];
    Unpack(tmp, buffer, zeroCount, n);
    var j := zeroCount;
    ghost var all := buffer[..n];
    assert all[..zeroCount] == buffer[..zeroCount];
    assert all[zeroCount..] == buffer[zeroCount..n];
    while j < n && buffer[j] == 0
      invariant zeroCount <= j <= n && AllZero(all[..j])
    {
      j := j + 1;
    }
    TrimmedTail(all, zeroCount, j);
    out := buffer[j - zeroCount..n];
  }

  /** The lookup loop: fails at the first character outside the alphabet. */
  method LookUp(input: string, tmp: array<byte>) returns (ok: bool)
    requires |input| <= tmp.Length
    modifies tmp
    ensures ok == InAlphabet(input)
    ensures ok ==> tmp[..|input|] == Values(input) && DigitsBelow(Values(input), 58)
  {
    for i := 0 to |input|
      invariant forall k :: 0 <= k < i ==> tmp[k] == Table(input[k]) != 0xFF
    {
      tmp[i] := Table(input[i]);
      if tmp[i] == 0xFF {
        return false;
      }
    }
    return true;
  }

  lemma TrimmedTail(s: bytes, z: nat, j: nat)
    requires z <= j <= |s| && AllZero(s[..j]) && (j < |s| ==> s[j] != 0)
    ensures s[j - z..] == Zeros(z) + Digits(Number(s[z..], 256), 256)
  {
    var t := s[z..];
    assert t[..j - z] == s[..j][z..];
    assert t[j - z..] == Digits(Number(t, 256), 256) by { Trimmed(t, j - z, 256); }
    assert t[j - z..] == s[j..];
    assert forall i :: j - z <= i < j ==> s[i] == s[..j][i];
    assert s[j - z..] == s[j - z..j] + s[j..];
    assert s[j - z..j] == Zeros(z);
  }

  lemma DropZero(s: bytes)
    requires s != [] && s[0] == 0
    ensures Number(s[1..], 58) == Number(s, 58)
    ensures DigitsBelow(s, 58) ==> DigitsBelow(s[1..], 58)
  {
    SkipZeros(s, 1, 58);
  }

  // ---------- round trip ----------

  /** Encoding then decoding gives the bytes back, unless the encoding has fewer than two characters. */
  method EncodeThenDecode(input: bytes, outLen: nat) returns (r: Option<bytes>)
    requires |input| <= MAX_ENC_INPUT_SIZE && outLen >= |input|
    ensures r == if |EncodedDigits(input)| < 2 then None else Some(input)
  {
    EncodingFitsDecoder(input);
    DecodeEncode(input);
    var text := Encode(input, MAX_DEC_INPUT_SIZE);
    assert Values(text.value) == EncodedDigits(input);
    r := Decode(text.value, outLen);
  }

  /** The encoding is too short to decode exactly for the empty string and for one byte below 58. */
  lemma TooShortToDecode(input: bytes)
    ensures |EncodedDigits(input)| < 2 <==> input == [] || (|input| == 1 && input[0] < 58)
  {
    var z := LeadingZeros(input);
    var rest := input[z..];
    var v := Number(rest, 256);
    if rest == [] {
      assert v == 0;
    } else {
      NumberFloor(rest, 256);
      if |rest| == 1 {
        assert rest[..0] == [] && v == rest[0];
        if v < 58 {
          assert Digits(v, 58) == [v] by { assert Digits(0, 58) == []; }
        } else {
          assert |Digits(v, 58)| >= 2 by { assert |Digits(v / 58, 58)| >= 1; }
        }
      } else {
        PowMonotone(256, 1, |rest| - 1);
        assert Pow(256, 1) == 256;
        assert |Digits(v, 58)| >= 2 by { assert |Digits(v / 58, 58)| >= 1; }
      }
    }
  }
}
