/**
 Overflow-checked addition and subtraction, written with the wrapping machine
 arithmetic of the source.  Source: src/common/safeint.h.
 */
module SafeInt {
  import opened Bytes

  function Wrap(x: int): u64 {
    x % 0x1_0000_0000_0000_0000
  }

  function AsSigned(u: u64): i64 {
    if u <= I64_MAX then u else u - 0x1_0000_0000_0000_0000
  }

  /** On failure the destination keeps the old value, as the out-pointer is not written. */
  method CheckedAddU64(l: u64, r: u64) returns (ok: bool, out: u64)
    ensures ok <==> l + r <= U64_MAX
    ensures out == if ok then l + r else l
  {
    out := l;
    if U64_MAX - l < r {
      return false, out;
    }
    return true, Wrap(l + r);
  }

  method CheckedSubU64(l: u64, r: u64) returns (ok: bool, out: u64)
    ensures ok <==> l - r >= 0
    ensures out == if ok then l - r else l
  {
    out := l;
    if r > l {
      return false, out;
    }
    return true, Wrap(l - r);
  }

  /** Exact for every pair, including l = I64_MIN, where -l wraps to 2^63. */
  method CheckedAddI64(l: i64, r: u64) returns (ok: bool, out: i64)
    ensures ok <==> I64_MIN <= l + r <= I64_MAX
    ensures out == if ok then l + r else l
  {
    out := l;
    if l < 0 {
      if r >= Wrap(-(l as int)) && Wrap(r + Wrap(l)) > I64_MAX {
        return false, out;
      }
    } else {
      if r > I64_MAX || I64_MAX - r < l {
        return false, out;
      }
    }
    return true, AsSigned(Wrap(Wrap(l) + r));
  }

  method CheckedSubI64(l: i64, r: u64) returns (ok: bool, out: i64)
    ensures ok <==> I64_MIN <= l - r <= I64_MAX
    ensures out == if ok then l - r else l
  {
    out := l;
    if l < 0 {
      if r > I64_MAX || Wrap(r - Wrap(l)) > I64_MAX + 1 {
        return false, out;
      }
    } else {
      if l < r && Wrap(r - l) > I64_MAX + 1 {
        return false, out;
      }
    }
    return true, AsSigned(Wrap(Wrap(l) - r));
  }
}
