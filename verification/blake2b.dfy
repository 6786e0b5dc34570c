/**
 BLAKE2b absorbing a stream: full blocks are compressed, the last block is held back for
 finalisation, and a 128-bit counter follows (section 3.3 of RFC 7693).  The compression
 function is a parameter.  Source: unit-tests/utils/blake2b-ref.c.
 */
module Blake2b {
  import opened Bytes
  import opened TxTypes

  const BLOCK: nat := 128
  const WORD: nat := 0x1_0000_0000_0000_0000

  /** The compression function: chaining value, block, the two counter words, last-block flag. */
  type Compression<!H> = (H, bytes, u64, u64, bool) -> H

  // ---------- the one-shot hash ----------

  /** How many blocks of `len` bytes are compressed before finalisation: never the last one. */
  function FullBlocks(len: nat): nat {
    if len == 0 then 0 else (len - 1) / BLOCK
  }

  function Low(count: nat): u64 {
    count % WORD
  }

  function High(count: nat): u64 {
    count / WORD % WORD
  }

  /** The chaining value after the first `n` blocks of the data. */
  function Chain<H>(f: Compression<H>, iv: H, data: bytes, n: nat): H
    requires BLOCK * n <= |data|
  {
    if n == 0 then iv
    else f(Chain(f, iv, data, n - 1), data[BLOCK * (n - 1)..BLOCK * n], Low(BLOCK * n), High(BLOCK * n), false)
  }

  function Padded(s: bytes): bytes
    requires |s| <= BLOCK
  {
    s + Zeros(BLOCK - |s|)
  }

  /** The hash of the whole of `data`, as the standard defines it. */
  function Digest<H>(f: Compression<H>, iv: H, data: bytes): H {
    var n := FullBlocks(|data|);
    f(Chain(f, iv, data, n), Padded(data[BLOCK * n..]), Low(|data|), High(|data|), true)
  }

  lemma {:induction false} ChainPrefix<H>(f: Compression<H>, iv: H, data: bytes, more: bytes, n: nat)
    requires BLOCK * n <= |data|
    ensures Chain(f, iv, data + more, n) == Chain(f, iv, data, n)
  {
    if n != 0 {
      ChainPrefix(f, iv, data, more, n - 1);
      assert (data + more)[BLOCK * (n - 1)..BLOCK * n] == data[BLOCK * (n - 1)..BLOCK * n];
    }
  }

  // ---------- what the one-shot hash is ----------

  /** What the compression function is given in one call, besides the chaining value. */
  datatype Call = Call(block: bytes, t0: u64, t1: u64, last: bool)

  /** The chaining value after a list of calls. */
  function Fold<H>(f: Compression<H>, iv: H, calls: seq<Call>): H {
    if calls == [] then iv
    else
      var c := Last(calls);
      f(Fold(f, iv, Front(calls)), c.block, c.t0, c.t1, c.last)
  }

  function BlocksOf(calls: seq<Call>): bytes {
    if calls == [] then [] else BlocksOf(Front(calls)) + Last(calls).block
  }

  /**
   The calls that the standard asks for: blocks of 128 bytes that are the data, filled up with
   zeros as little as a whole and at least one block needs; the number of bytes so far with each
   of them, padding not counted; and the flag on the last one only.
   */
  ghost predicate IsTranscript(calls: seq<Call>, data: bytes) {
    var n := |calls|;
    && n > 0 && (128 * (n - 1) < |data| <= 128 * n || (data == [] && n == 1))
    && BlocksOf(calls) == data + Zeros(128 * n - |data|)
    && (forall i :: 0 <= i < n ==> |calls[i].block| == 128 && (calls[i].last <==> i == n - 1))
    && forall i :: 0 <= i < n ==> Counts(calls[i], if i < n - 1 then 128 * (i + 1) else |data|)
  }

  /** The two words hold this count, modulo 2^128. */
  predicate Counts(c: Call, count: nat) {
    c.t0 + 0x1_0000_0000_0000_0000 * c.t1 == count % 0x1_0000_0000_0000_0000_0000_0000_0000_0000
  }

  /** `h` is the BLAKE2b hash of `data`. */
  ghost predicate IsHash<H(!new)>(f: Compression<H>, iv: H, data: bytes, h: H) {
    exists calls :: IsTranscript(calls, data) && h == Fold(f, iv, calls)
  }

  function FullCalls(data: bytes, n: nat): (calls: seq<Call>)
    requires BLOCK * n <= |data|
    ensures |calls| == n
  {
    if n == 0 then []
    else FullCalls(data, n - 1)
         + [Call(data[BLOCK * (n - 1)..BLOCK * n], Low(BLOCK * n), High(BLOCK * n), false)]
  }

  lemma CountSplit(count: nat, c: Call)
    requires c.t0 == Low(count) && c.t1 == High(count)
    ensures Counts(c, count)
  {
    var q := count / WORD;
    var big := 0x1_0000_0000_0000_0000_0000_0000_0000_0000;
    assert count == (q / WORD) * big + (count % WORD + WORD * (q % WORD));
    DivModUnique(q / WORD, count % WORD + WORD * (q % WORD), big);
  }

  lemma {:induction false} FullCallsAre<H>(f: Compression<H>, iv: H, data: bytes, n: nat)
    requires BLOCK * n <= |data|
    ensures Fold(f, iv, FullCalls(data, n)) == Chain(f, iv, data, n)
    ensures BlocksOf(FullCalls(data, n)) == data[..BLOCK * n]
    ensures forall i :: 0 <= i < n ==>
              var c := FullCalls(data, n)[i]; |c.block| == BLOCK && !c.last && Counts(c, BLOCK * (i + 1))
  {
    if n != 0 {
      FullCallsAre(f, iv, data, n - 1);
      var calls := FullCalls(data, n);
      var c := Last(calls);
      assert Front(calls) == FullCalls(data, n - 1);
      CountSplit(BLOCK * n, c);
      assert data[..BLOCK * n] == data[..BLOCK * (n - 1)] + c.block;
      forall i | 0 <= i < n
        ensures |calls[i].block| == BLOCK && !calls[i].last && Counts(calls[i], BLOCK * (i + 1))
      {
        if i < n - 1 {
          assert calls[i] == FullCalls(data, n - 1)[i];
        }
      }
    }
  }

  /** The one-shot hash makes exactly the calls of the standard. */
  lemma DigestIsHash<H(!new)>(f: Compression<H>, iv: H, data: bytes)
    ensures IsHash(f, iv, data, Digest(f, iv, data))
  {
    var n := FullBlocks(|data|);
    var rest := data[BLOCK * n..];
    var full, c := FullCalls(data, n), Call(Padded(rest), Low(|data|), High(|data|), true);
    FullCallsAre(f, iv, data, n);
    CountSplit(|data|, c);
    LastBlock(data, rest, n);
    CallAdded(full, c);
    hide Padded, Low, High, Counts, FullCalls, BlocksOf, Chain, FullBlocks;
    Calls(full, c, data);
  }

  lemma LastBlock(data: bytes, rest: bytes, n: nat)
    requires n == FullBlocks(|data|) && rest == data[BLOCK * n..]
    ensures 128 * n < |data| <= 128 * (n + 1) || (data == [] && n == 0)
    ensures |Padded(rest)| == 128 && data[..BLOCK * n] + Padded(rest) == data + Zeros(128 * (n + 1) - |data|)
  {
    assert data == data[..BLOCK * n] + rest;
  }

  lemma CallAdded(full: seq<Call>, c: Call)
    ensures Front(full + [c]) == full && Last(full + [c]) == c && BlocksOf(full + [c]) == BlocksOf(full) + c.block
  {
    assert Front(full + [c]) == full;
  }

  lemma Calls(full: seq<Call>, c: Call, data: bytes)
    requires var n := |full|; 128 * n < |data| <= 128 * (n + 1) || (data == [] && n == 0)
    requires BlocksOf(full + [c]) == data + Zeros(128 * (|full| + 1) - |data|)
    requires |c.block| == 128 && c.last && Counts(c, |data|)
    requires forall i :: 0 <= i < |full| ==>
               |full[i].block| == 128 && !full[i].last && Counts(full[i], 128 * (i + 1))
    ensures IsTranscript(full + [c], data)
  {
    hide Counts, BlocksOf;
  }

  lemma {:induction false} SameBlocks(a: seq<Call>, b: seq<Call>)
    requires |a| == |b| && BlocksOf(a) == BlocksOf(b)
    requires forall i :: 0 <= i < |a| ==> |a[i].block| == 128 && |b[i].block| == 128
    ensures forall i :: 0 <= i < |a| ==> a[i].block == b[i].block
  {
    if a != [] {
      var s, k := BlocksOf(a), |BlocksOf(a)| - 128;
      assert BlocksOf(Front(a)) == s[..k] && Last(a).block == s[k..];
      assert BlocksOf(Front(b)) == s[..k] && Last(b).block == s[k..];
      SameBlocks(Front(a), Front(b));
      assert forall i :: 0 <= i < |a| - 1 ==> Front(a)[i] == a[i] && Front(b)[i] == b[i];
    }
  }

  lemma SameCounts(a: Call, b: Call, count: nat)
    requires Counts(a, count) && Counts(b, count)
    ensures a.t0 == b.t0 && a.t1 == b.t1
  {
    DivModUnique(a.t1, a.t0, WORD);
    DivModUnique(b.t1, b.t0, WORD);
  }

  /** The calls are determined by the data, and so is the hash. */
  lemma OneTranscript(a: seq<Call>, b: seq<Call>, data: bytes)
    requires IsTranscript(a, data) && IsTranscript(b, data)
    ensures a == b
  {
    SameBlocks(a, b);
    forall i | 0 <= i < |a|
      ensures a[i] == b[i]
    {
      SameCounts(a[i], b[i], if i < |a| - 1 then 128 * (i + 1) else |data|);
    }
  }

  // ---------- the streaming state ----------

  class State<H(!new)> {
    const compress: Compression<H>
    ghost const iv: H
    var h: H
    var t0: u64
    var t1: u64
    var last: bool
    var buf: array<byte>
    var buflen: nat
    ghost var data: bytes

    /** The state is a function of the bytes absorbed, however they were cut into updates. */
    ghost predicate Valid()
      reads this, buf
    {
      && buf.Length == BLOCK
      && !last
      && Holds(FullBlocks(|data|), data)
    }

    /** `n` blocks of `s` are compressed and the rest of `s` is in the buffer. */
    ghost predicate Holds(n: nat, s: bytes)
      requires buf.Length == BLOCK
      reads this, buf
    {
      && BLOCK * n + buflen == |s|
      && buflen <= BLOCK
      && buf[..buflen] == s[BLOCK * n..]
      && Compressed(n, s)
    }

    ghost predicate Compressed(n: nat, s: bytes)
      reads this
    {
      && BLOCK * n <= |s|
      && h == Chain(compress, iv, s, n)
      && t0 == Low(BLOCK * n) && t1 == High(BLOCK * n)
    }

    constructor (f: Compression<H>, init: H)
      ensures Valid() && fresh(buf) && data == [] && compress == f && iv == init
    {
      compress := f;
      iv := init;
      h, t0, t1, last := init, 0, 0, false;
      buf := new byte[BLOCK](_ => 0);
      buflen := 0;
      data := [];
    }

    /** blake2b_increment_counter: a 128-bit counter in two words. */
    method IncrementCounter(inc: u64)
      modifies this`t0, this`t1
      ensures forall n: nat :: old(t0) == Low(n) && old(t1) == High(n) ==> t0 == Low(n + inc) && t1 == High(n + inc)
    {
      ghost var a, b := t0, t1;
      t0 := (t0 + inc) % WORD;
      t1 := (t1 + (if t0 < inc then 1 else 0)) % WORD;
      forall n: nat | a == Low(n) && b == High(n)
        ensures t0 == Low(n + inc) && t1 == High(n + inc)
      {
        CounterStep(n, inc);
      }
    }

    /** Compress one block of the stream `s`, the `n`-th. */
    method CompressNext(block: bytes, ghost s: bytes, ghost n: nat)
      requires Compressed(n, s)
      requires BLOCK * (n + 1) <= |s| && block == s[BLOCK * n..BLOCK * (n + 1)]
      modifies this`t0, this`t1, this`h
      ensures Compressed(n + 1, s)
    {
      IncrementCounter(BLOCK);
      assert BLOCK * n + BLOCK == BLOCK * (n + 1);
      h := compress(h, block, t0, t1, false);
    }

    /** The block loop of blake2b_ref_update: every block but the last, straight from the input. */
    method CompressAll(input: bytes, ghost s: bytes, ghost n0: nat) returns (rest: bytes, ghost n: nat)
      requires Compressed(n0, s) && input == s[BLOCK * n0..] && |input| > 0
      modifies this`t0, this`t1, this`h
      ensures Compressed(n, s) && rest == s[BLOCK * n..] && 0 < |rest| <= BLOCK
    {
      rest, n := input, n0;
      while |rest| > BLOCK
        invariant |rest| > 0
        invariant Compressed(n, s) && rest == s[BLOCK * n..]
        decreases |rest|
      {
        assert rest[..BLOCK] == s[BLOCK * n..BLOCK * (n + 1)];
        CompressNext(rest[..BLOCK], s, n);
        rest := rest[BLOCK..];
        n := n + 1;
      }
    }

    /** The buffered bytes are topped up to a block, which is compressed. */
    method FillAndCompress(input: bytes, ghost s: bytes, ghost n: nat)
      requires buf.Length == BLOCK && buflen + |input| == BLOCK
      requires Compressed(n, s) && BLOCK * (n + 1) <= |s|
      requires buf[..buflen] + input == s[BLOCK * n..BLOCK * (n + 1)]
      modifies this`t0, this`t1, this`h, this`buflen, buf
      ensures Compressed(n + 1, s) && buflen == 0
    {
      ghost var kept := buf[..buflen];
      Copy(buflen, input);
      buflen := 0;
      assert buf[..] == kept + input;
      CompressNext(buf[..], s, n);
    }

    /** The remaining bytes, at most a block together with what is buffered, wait in the buffer. */
    method Keep(rest: bytes, ghost s: bytes, ghost n: nat)
      requires buf.Length == BLOCK && 0 < buflen + |rest| <= BLOCK
      requires Compressed(n, s) && buf[..buflen] + rest == s[BLOCK * n..]
      modifies this`buflen, buf
      ensures Holds(n, s) && n == FullBlocks(|s|)
    {
      ghost var kept := buf[..buflen];
      Copy(buflen, rest);
      buflen := buflen + |rest|;
      assert buf[..buflen] == kept + rest;
      BlockCount(|s|, n, buflen);
    }

    lemma StillCompressed(n: nat, s: bytes, more: bytes)
      requires Compressed(n, s)
      ensures Compressed(n, s + more)
    {
      ChainPrefix(compress, iv, s, more, n);
    }

    /** blake2b_ref_update */
    method Update(input: bytes)
      requires Valid()
      modifies this, buf
      ensures Valid() && buf == old(buf)
      ensures data == old(data) + input
    {
      ghost var s := data + input;
      if |input| == 0 {
        assert s == data;
        return;
      }
      ghost var n := FullBlocks(|data|);
      StillCompressed(n, data, input);
      Appended(data, input, BLOCK * n);
      hide Compressed, FullBlocks;
      data := s;
      var rest := input;
      var fill := BLOCK - buflen;
      if |rest| > fill {
        ToppedUp(s, BLOCK * n, buf[..buflen], rest);
        FillAndCompress(rest[..fill], s, n);
        rest, n := CompressAll(rest[fill..], s, n + 1);
        assert buf[..0] + rest == rest;
      }
      Keep(rest, s, n);
    }

    /** memcpy into the buffer. */
    method Copy(at: nat, src: bytes)
      requires buf.Length == BLOCK && at + |src| <= BLOCK
      modifies buf
      ensures buf[..at] == old(buf[..at]) && buf[at..at + |src|] == src
      ensures buf[at + |src|..] == old(buf[at + |src|..])
    {
      forall i | 0 <= i < |src| {
        buf[at + i] := src[i];
      }
    }

    /** blake2b_ref_final: the padded last block with the true length; a second call is refused. */
    method Final() returns (r: Option<H>)
      requires buf.Length == BLOCK && (last || Valid())
      modifies this, buf
      ensures last && buf == old(buf)
      ensures r == if old(last) then None else Some(Digest(compress, iv, old(data)))
    ensures r.Some? ==> IsHash(compress, iv, old(data), r.value)
    {
      if last {
        return None;
      }
      IncrementCounter(buflen);
      last := true;
      ghost var kept := buf[..buflen];
      Copy(buflen, Zeros(BLOCK - buflen));
      assert buf[..] == kept + buf[buflen..];
      assert buf[..] == Padded(kept);
      h := compress(h, buf[..], t0, t1, true);
      DigestIsHash(compress, iv, data);
      return Some(h);
    }
  }

  lemma Appended(data: bytes, input: bytes, k: nat)
    requires k <= |data|
    ensures (data + input)[k..] == data[k..] + input
  {
  }

  /** A buffered part and enough of the rest make the next block of the stream. */
  lemma ToppedUp(s: bytes, k: nat, kept: bytes, rest: bytes)
    requires k <= |s| && s[k..] == kept + rest && |kept| <= BLOCK < |kept| + |rest|
    ensures k + BLOCK <= |s|
    ensures s[k..k + BLOCK] == kept + rest[..BLOCK - |kept|] && s[k + BLOCK..] == rest[BLOCK - |kept|..]
  {
    assert s[k..k + BLOCK] == s[k..][..BLOCK] && s[k + BLOCK..] == s[k..][BLOCK..];
  }

  lemma BlockCount(len: nat, n: nat, rest: nat)
    requires len == BLOCK * n + rest && 0 < rest <= BLOCK
    ensures FullBlocks(len) == n
  {
  }

  lemma CounterStep(n: nat, inc: u64)
    ensures var lo := (Low(n) + inc) % WORD;
            lo == Low(n + inc) && (High(n) + (if lo < inc then 1 else 0)) % WORD == High(n + inc)
  {
    var q, r := n / WORD, n % WORD;
    Wrapped(r, inc);
    Advanced(n, inc);
    if r + inc < WORD {
      Wrapped(q % WORD, 0);
    } else {
      Carried(q);
    }
  }

  lemma Wrapped(a: u64, b: u64)
    ensures (a + b) % WORD == if a + b < WORD then a + b else a + b - WORD
  {
    if a + b < WORD {
      DivModUnique(0, a + b, WORD);
    } else {
      DivModUnique(1, a + b - WORD, WORD);
    }
  }

  lemma Advanced(n: nat, inc: u64)
    ensures var q, r := n / WORD, n % WORD;
            if r + inc < WORD then (n + inc) / WORD == q && (n + inc) % WORD == r + inc
            else (n + inc) / WORD == q + 1 && (n + inc) % WORD == r + inc - WORD
  {
    var q, r := n / WORD, n % WORD;
    if r + inc < WORD {
      DivModUnique(q, r + inc, WORD);
    } else {
      DivModUnique(q + 1, r + inc - WORD, WORD);
    }
  }

  lemma Carried(q: nat)
    ensures (q % WORD + 1) % WORD == (q + 1) % WORD
  {
    Wrapped(q % WORD, 1);
    Advanced(q, 1);
  }

  // ---------- chunking does not matter ----------

  /** Any way of cutting the data into updates gives the one-shot hash of the whole. */
  method HashChunks<H(!new)>(f: Compression<H>, iv: H, chunks: seq<bytes>) returns (digest: H)
    ensures digest == Digest(f, iv, Flatten(chunks)) && IsHash(f, iv, Flatten(chunks), digest)
  {
    var state := new State(f, iv);
    for i := 0 to |chunks|
      invariant state.Valid() && fresh(state) && fresh(state.buf)
      invariant state.data == Flatten(chunks[..i])
    {
      assert chunks[..i + 1] == chunks[..i] + [chunks[i]];
      FlattenSnoc(chunks[..i], chunks[i]);
      state.Update(chunks[i]);
    }
    assert chunks[..|chunks|] == chunks;
    var r := state.Final();
    digest := r.value;
  }
}
