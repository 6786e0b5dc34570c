/**
 Bitwise operations on natural numbers, defined bit by bit.
 */
module Bits {
  import opened Bytes

  function Or(a: nat, b: nat): nat
    decreases a + b
  {
    if a == 0 && b == 0 then 0
    else 2 * Or(a / 2, b / 2) + (if a % 2 == 1 || b % 2 == 1 then 1 else 0)
  }

  function Xor(a: nat, b: nat): nat
    decreases a + b
  {
    if a == 0 && b == 0 then 0
    else 2 * Xor(a / 2, b / 2) + (if a % 2 != b % 2 then 1 else 0)
  }

  lemma {:induction false} OrZero(b: nat)
    ensures Or(0, b) == b
  {
    if b != 0 {
      OrZero(b / 2);
    }
  }

  /** Joining numbers that share no bit is adding them. */
  lemma {:induction false} OrDisjoint(a: nat, b: nat, k: nat)
    requires a < Pow(2, k)
    ensures Or(a, b * Pow(2, k)) == a + b * Pow(2, k)
  {
    if k == 0 {
      OrZero(b);
    } else {
      var half := b * Pow(2, k - 1);
      assert b * Pow(2, k) == 2 * half;
      OrDisjoint(a / 2, b, k - 1);
    }
  }

  lemma {:induction false} XorZero(a: nat)
    ensures Xor(a, 0) == a
  {
    if a != 0 {
      XorZero(a / 2);
    }
  }

  /** Exclusive or with `k` one bits is the `k`-bit complement. */
  lemma {:induction false} XorOnes(a: nat, k: nat)
    requires a < Pow(2, k)
    ensures Xor(a, Pow(2, k) - 1) == Pow(2, k) - 1 - a
  {
    if k != 0 {
      XorOnes(a / 2, k - 1);
      assert (Pow(2, k) - 1) / 2 == Pow(2, k - 1) - 1;
    }
  }

  lemma Powers2()
    ensures Pow(2, 16) == 0x1_0000
    ensures Pow(2, 32) == 0x1_0000_0000
    ensures Pow(2, 63) == 0x8000_0000_0000_0000
    ensures Pow(2, 64) == 0x1_0000_0000_0000_0000
  {
    assert Pow(2, 8) == 256;
    PowAdd(2, 8, 8);
    PowAdd(2, 16, 16);
    PowAdd(2, 32, 32);
  }

  lemma {:induction false} Pow128(n: nat)
    ensures Pow(128, n) == Pow(2, 7 * n)
  {
    if n != 0 {
      Pow128(n - 1);
      assert Pow(2, 7) == 128;
      PowAdd(2, 7, 7 * (n - 1));
    }
  }
}

/**
 Variable-length quantities: seven bits a byte, least significant group first,
 the high bit set on every byte but the last (unsigned LEB128, section 7.6 of
 DWARF 5).  Source: src/common/gve.c.
 */
module Gve {
  import opened Bytes
  import opened Bits

  /** The encoding of `v`. */
  function Vlq(v: nat): (s: bytes)
    ensures |s| >= 1
  {
    if v < 128 then [v] else [128 + v % 128] + Vlq(v / 128)
  }

  /** The number the seven-bit groups of `s` spell. */
  function Value(s: bytes): nat {
    if s == [] then 0 else s[0] % 128 + 128 * Value(s[1..])
  }

  /** How many bytes a reader takes that stops after a byte without the high bit, or after `room` bytes. */
  function Used(s: bytes, room: nat): (n: nat)
    ensures n <= |s| && n <= room
  {
    if room == 0 || s == [] then 0
    else if s[0] < 128 then 1
    else 1 + Used(s[1..], room - 1)
  }

  /** Every byte of `s` asks for another one. */
  predicate AllContinue(s: bytes) {
    forall i :: 0 <= i < |s| ==> s[i] >= 128
  }

  /** `s` is a complete encoding: only its last byte has the high bit clear. */
  predicate Terminated(s: bytes) {
    s != [] && s[|s| - 1] < 128 && AllContinue(s[..|s| - 1])
  }

  /** What the reader accepts: a terminated group within ten bytes, or ten bytes without one. */
  predicate Accepts(s: bytes) {
    var n := Used(s, 10);
    n == 10 || (n > 0 && s[n - 1] < 128)
  }

  // ---------- writing ----------

  lemma VlqStep(v: nat)
    ensures v / 128 == 0 ==> Vlq(v) == [v % 128]
    ensures v / 128 != 0 ==> Vlq(v) == [v % 128 + 128] + Vlq(v / 128) && v / 128 < v
  {
  }

  /** gve_put_u64: the groups are collected in a ten-byte array, which every u64 fits. */
  method PutU64(val: u64) returns (out: array<byte>, i: nat)
    ensures i <= out.Length == 10
    ensures out[..i] == Vlq(val)
  {
    hide Vlq;
    out := new byte[10];
    i := 0;
    var rest := val;
    BuffersSuffice(val);
    assert out[..0] == [];
    while true
      invariant 0 <= i < 10
      invariant 0 <= rest
      invariant out[..i] + Vlq(rest) == Vlq(val)
      decreases rest
    {
      VlqStep(rest);
      ghost var before := out[..i];
      var b: byte := rest % 128;
      var next := rest / 128;
      if next != 0 {
        out[i] := b + 128;
      } else {
        out[i] := b;
      }
      i := i + 1;
      assert out[..i] == before + [out[i - 1]];
      if next == 0 {
        break;
      }
      Assoc(before, [out[i - 1]], Vlq(next));
      rest := next;
    }
  }

  /** The bytes are the base-128 digits, lowest first, with the high bit on all but the last. */
  lemma {:induction false} VlqDigits(v: nat, k: nat)
    requires k < |Vlq(v)|
    ensures Vlq(v)[k] == v / Pow(128, k) % 128 + (if k < |Vlq(v)| - 1 then 128 else 0)
  {
    if k > 0 {
      assert v >= 128;
      VlqDigits(v / 128, k - 1);
      DivDiv(v, Pow(128, k - 1));
    }
  }

  lemma DivDiv(v: nat, p: nat)
    requires p > 0
    ensures v / 128 / p == v / (128 * p)
  {
    var q, r := v / 128, v % 128;
    var a, b := q / p, q % p;
    assert v == a * (128 * p) + (128 * b + r) by {
      assert q == p * a + b;
      assert 128 * (p * a) == a * (128 * p);
    }
    DivModUnique(a, 128 * b + r, 128 * p);
  }

  /** Encodings are minimal: `k` bytes suffice exactly for the values below 128^k. */
  lemma {:induction false} VlqSize(v: nat, k: nat)
    requires k >= 1
    ensures |Vlq(v)| <= k <==> v < Pow(128, k)
  {
    if v >= 128 {
      if k == 1 {
        assert Pow(128, 1) == 128;
      } else {
        VlqSize(v / 128, k - 1);
      }
    } else {
      PowMonotone(128, 1, k);
      assert Pow(128, 1) == 128;
    }
  }

  /** The 4-byte buffer of the counts and the 10-byte buffer of everything else always suffice. */
  lemma BuffersSuffice(v: u64)
    ensures v < 0x1_0000 ==> |Vlq(v)| <= 3
    ensures v < 0x1_0000_0000 ==> |Vlq(v)| <= 5
    ensures |Vlq(v)| <= 10
  {
    VlqSize(v, 3);
    VlqSize(v, 5);
    VlqSize(v, 10);
    Pow128(3);
    Pow128(5);
    Pow128(10);
    PowMonotone(2, 16, 21);
    PowMonotone(2, 32, 35);
    PowMonotone(2, 64, 70);
    Powers2();
  }

  // ---------- reading ----------

  /** gve_get_u64: reads from the front of `s`, joining shifted groups in 64 bits. */
  method GetU64(s: bytes) returns (ok: bool, val: u64, used: nat)
    ensures ok == Accepts(s)
    ensures used == Used(s, 10)
    ensures val == Value(s[..used]) % 0x1_0000_0000_0000_0000
  {
    ok, val, used := false, 0, 0;
    Powers2();
    while used < 10
      invariant used <= 10 && used <= |s|
      invariant AllContinue(s[..used])
      invariant val == Value(s[..used]) % 0x1_0000_0000_0000_0000
      invariant used < 10 ==> val == Value(s[..used]) < Pow(2, 7 * used)
      invariant ok <==> used > 0
    {
      UsedContinues(s, used, 10);
      if used == |s| {
        ok := false;
        return;
      }
      var b := s[used];
      JoinGroup(s, used, val);
      assert s[..used + 1] == s[..used] + [b];
      val := Or(val, Part(b, used));
      if used < 9 {
        Untruncated(Value(s[..used + 1]));
      }
      ok := true;
      used := used + 1;
      if b < 128 {
        UsedStops(s, used, 10);
        return;
      }
    }
    UsedContinues(s, 10, 10);
  }

  /** The group of the `i`-th byte, shifted to its place in a 64-bit word. */
  function Part(b: byte, i: nat): u64 {
    (b % 128) * Pow(2, 7 * i) % 0x1_0000_0000_0000_0000
  }

  /** Or-ing the next group into the groups read so far adds it modulo 2^64. */
  lemma JoinGroup(s: bytes, i: nat, val: nat)
    requires i < |s| && i < 10
    requires val == Value(s[..i]) < Pow(2, 7 * i)
    ensures Or(val, Part(s[i], i)) == Value(s[..i + 1]) % 0x1_0000_0000_0000_0000
    ensures i < 9 ==> Value(s[..i + 1]) < Pow(2, 7 * (i + 1)) <= 0x8000_0000_0000_0000
  {
    ValueSnoc(s[..i], s[i]);
    assert s[..i + 1] == s[..i] + [s[i]];
    if i < 9 {
      JoinLow(val, s[i] % 128, i);
    } else {
      JoinTop(val, s[i] % 128);
    }
  }

  lemma GroupBound(i: nat)
    requires i < 9
    ensures Pow(2, 7 * (i + 1)) == 128 * Pow(2, 7 * i) && Pow(2, 7 * (i + 1)) <= 0x8000_0000_0000_0000
  {
    assert Pow(2, 7) == 128;
    PowAdd(2, 7, 7 * i);
    PowMonotone(2, 7 * (i + 1), 63);
    Powers2();
  }

  lemma JoinLow(val: nat, g: nat, i: nat)
    requires i < 9 && g < 128 && val < Pow(2, 7 * i)
    ensures val + g * Pow(2, 7 * i) < Pow(2, 7 * (i + 1)) <= 0x8000_0000_0000_0000
    ensures Or(val, g * Pow(2, 7 * i) % 0x1_0000_0000_0000_0000)
         == (val + g * Pow(2, 7 * i)) % 0x1_0000_0000_0000_0000
  {
    hide Pow, Or;
    GroupBound(i);
    OrDisjoint(val, g, 7 * i);
    GroupFits(val, g, Pow(2, 7 * i));
  }

  lemma GroupFits(val: nat, g: nat, p: nat)
    requires val < p && g < 128 && 128 * p <= 0x8000_0000_0000_0000
    ensures val + g * p < 128 * p
    ensures g * p % 0x1_0000_0000_0000_0000 == g * p
    ensures (val + g * p) % 0x1_0000_0000_0000_0000 == val + g * p
  {
    MulMono(g, 127, p);
    SumFits(val, g * p, p);
  }

  lemma SumFits(val: nat, x: nat, p: nat)
    requires val < p && x <= 127 * p && 128 * p <= 0x8000_0000_0000_0000
    ensures val + x < 128 * p
    ensures x % 0x1_0000_0000_0000_0000 == x
    ensures (val + x) % 0x1_0000_0000_0000_0000 == val + x
  {
    Untruncated(x);
    Untruncated(val + x);
  }

  lemma Untruncated(x: u64)
    ensures x % 0x1_0000_0000_0000_0000 == x
  {
  }

  lemma JoinTop(val: nat, g: nat)
    requires val < Pow(2, 63)
    ensures Or(val, g * Pow(2, 63) % 0x1_0000_0000_0000_0000)
         == (val + g * Pow(2, 63)) % 0x1_0000_0000_0000_0000
  {
    hide Pow, Or;
    Powers2();
    TopGroup(val, g);
    TopGroup(0, g);
    OrDisjoint(val, g % 2, 63);
  }

  /** Of the tenth group only the lowest bit has a place in the word. */
  lemma TopGroup(val: nat, g: nat)
    requires val < 0x8000_0000_0000_0000
    ensures (val + g * 0x8000_0000_0000_0000) % 0x1_0000_0000_0000_0000 == val + (g % 2) * 0x8000_0000_0000_0000
  {
    var q, r := g / 2, g % 2;
    assert val + g * 0x8000_0000_0000_0000
        == q * 0x1_0000_0000_0000_0000 + (val + r * 0x8000_0000_0000_0000);
    DivModUnique(q, val + r * 0x8000_0000_0000_0000, 0x1_0000_0000_0000_0000);
  }

  lemma {:induction false} ValueSnoc(s: bytes, b: byte)
    ensures Value(s + [b]) == Value(s) + (b % 128) * Pow(2, 7 * |s|)
  {
    if s == [] {
      assert s + [b] == [b];
    } else {
      ValueSnoc(s[1..], b);
      assert (s + [b])[1..] == s[1..] + [b];
      assert Pow(2, 7) == 128;
      PowAdd(2, 7, 7 * (|s| - 1));
      var p := Pow(2, 7 * (|s| - 1));
      assert 128 * ((b % 128) * p) == (b % 128) * (128 * p);
    }
  }

  lemma {:induction false} UsedContinues(s: bytes, n: nat, room: nat)
    requires n <= |s| && n <= room && AllContinue(s[..n])
    ensures n == |s| || n == room ==> Used(s, room) == n
  {
    if n != 0 {
      assert s[0] == s[..n][0];
      assert s[1..][..n - 1] == s[..n][1..];
      UsedContinues(s[1..], n - 1, room - 1);
    }
  }

  lemma {:induction false} UsedStops(s: bytes, n: nat, room: nat)
    requires 0 < n <= |s| && n <= room && Terminated(s[..n])
    ensures Used(s, room) == n
  {
    if n != 1 {
      assert s[0] == s[..n][..n - 1][0];
      assert s[1..][..n - 1] == s[..n][1..];
      assert s[..n][1..][..n - 2] == s[..n][..n - 1][1..];
      UsedStops(s[1..], n - 1, room - 1);
    }
  }

  // ---------- the two directions ----------

  lemma {:induction false} VlqValue(v: nat)
    ensures Value(Vlq(v)) == v && Terminated(Vlq(v))
  {
    if v >= 128 {
      VlqValue(v / 128);
      var s, t := Vlq(v), Vlq(v / 128);
      var b := 128 + v % 128;
      assert s == [b] + t;
      hide Vlq;
      assert s[1..] == t && s[..|s| - 1] == [b] + t[..|t| - 1];
    }
  }

  /** Reading back what was written, whatever follows it: same value, and exactly the bytes written. */
  lemma RoundTrip(v: u64, rest: bytes)
    ensures Accepts(Vlq(v) + rest)
    ensures Used(Vlq(v) + rest, 10) == |Vlq(v)|
    ensures Value((Vlq(v) + rest)[..|Vlq(v)|]) == v
  {
    VlqValue(v);
    BuffersSuffice(v);
    var s := Vlq(v) + rest;
    assert s[..|Vlq(v)|] == Vlq(v);
    UsedStops(s, |Vlq(v)|, 10);
  }

  /** No encoding is a prefix of another: a stream of encodings splits in one way only. */
  lemma {:induction false} PrefixFree(a: nat, b: nat, x: bytes, y: bytes)
    requires Vlq(a) + x == Vlq(b) + y
    ensures a == b && x == y
  {
    VlqHead(a, x);
    VlqHead(b, y);
    hide Vlq;
    if a >= 128 {
      PrefixFree(a / 128, b / 128, x, y);
    }
  }

  lemma VlqHead(v: nat, x: bytes)
    ensures var s := Vlq(v) + x;
            && s[0] == v % 128 + (if v < 128 then 0 else 128)
            && s[1..] == (if v < 128 then x else Vlq(v / 128) + x)
  {
    if v < 128 {
      ConsTail(v, x);
    } else {
      Assoc([128 + v % 128], Vlq(v / 128), x);
      ConsTail(128 + v % 128, Vlq(v / 128) + x);
    }
  }

  lemma ConsTail(b: byte, rest: bytes)
    ensures ([b] + rest)[0] == b && ([b] + rest)[1..] == rest
  {
  }

  /** Writing back a complete encoding reproduces it exactly when its last group carries something. */
  lemma {:induction false} Canonical(s: bytes)
    requires Terminated(s)
    ensures Vlq(Value(s)) == s <==> |s| == 1 || s[|s| - 1] != 0
  {
    if |s| == 1 {
      assert Value(s[1..]) == 0;
    } else {
      var t := s[1..];
      assert s[0] == s[..|s| - 1][0];
      assert t[..|t| - 1] == s[..|s| - 1][1..];
      Canonical(t);
      VlqCons(s[0], Value(t));
      if t[|t| - 1] != 0 {
        ValuePositive(t);
      } else if |t| == 1 {
        assert Value(t[1..]) == 0;
      }
      hide Vlq, Terminated;
      assert s == [s[0]] + t && Value(s) == s[0] % 128 + 128 * Value(t);
      if Value(t) != 0 {
        assert Vlq(Value(s))[1..] == Vlq(Value(t));
      }
    }
  }

  /** A continuing group in front of a number. */
  lemma VlqCons(b: byte, w: nat)
    requires b >= 128
    ensures Vlq(b % 128 + 128 * w) == if w == 0 then [b % 128] else [b] + Vlq(w)
  {
    assert (b % 128 + 128 * w) / 128 == w && (b % 128 + 128 * w) % 128 == b % 128;
  }

  lemma {:induction false} ValuePositive(s: bytes)
    requires s != [] && 0 < s[|s| - 1] < 128
    ensures Value(s) > 0
  {
    if |s| > 1 {
      ValuePositive(s[1..]);
    }
  }

  /** Overlong input is not refused: ten bytes that all ask for more are accepted. */
  lemma OverlongAccepted(s: bytes)
    requires |s| >= 10 && AllContinue(s[..10])
    ensures Accepts(s) && Used(s, 10) == 10 && !Terminated(s[..Used(s, 10)])
  {
    UsedContinues(s, 10, 10);
    assert s[..10][9] >= 128;
  }

  /** The reader takes bytes up to and including the first without the high bit, at most ten. */
  lemma {:induction false} ReadsUpTo(s: bytes, room: nat)
    ensures var n := Used(s, room);
            && (forall i :: 0 <= i < n - 1 ==> s[i] >= 128)
            && (n < room && n < |s| ==> n > 0 && s[n - 1] < 128)
  {
    if room != 0 && s != [] && s[0] >= 128 {
      ReadsUpTo(s[1..], room - 1);
      var n := Used(s[1..], room - 1);
      assert forall i :: 1 <= i < n ==> s[i] == s[1..][i - 1];
    }
  }

  /** The reader refuses exactly the inputs that run out: fewer than ten bytes, all asking for more. */
  lemma {:induction false} RefusesExactly(s: bytes)
    ensures !Accepts(s) <==> |s| < 10 && AllContinue(s)
  {
    UsedAlternatives(s, 10);
    if |s| < 10 && AllContinue(s) {
      assert s[..|s|] == s;
      UsedContinues(s, |s|, 10);
    }
  }

  lemma {:induction false} UsedAlternatives(s: bytes, room: nat)
    ensures var n := Used(s, room);
            n == room || (n == |s| && AllContinue(s)) || (n > 0 && s[n - 1] < 128)
  {
    if room != 0 && s != [] && s[0] >= 128 {
      UsedAlternatives(s[1..], room - 1);
      var n := Used(s[1..], room - 1);
      if n == |s[1..]| && AllContinue(s[1..]) {
        forall i | 0 <= i < |s| ensures s[i] >= 128 {
          if i > 0 {
            assert s[i] == s[1..][i - 1];
          }
        }
      }
    }
  }
}
