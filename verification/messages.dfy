/**
 The layout of the messages, field by field, as doc/INS-20-ATTEST-BOX.md and
 doc/INS-21-SIGN-TRANSACTION.md give it: what the handlers read is what stands there, and
 nothing else is read that way.
 Source: src/commands/signtx/stx_handler.c, src/commands/attestinput/ainpt_handler.c,
 src/commands/attestinput/ainpt_response.c.
 */
module Messages {
  import opened Bytes
  import opened TxTypes
  import opened Reference
  import opened Frames
  import opened Application
  import opened Runs
  import FS = FullSerializer
  import BS = BoxSerializer
  import S = Signing
  import A = Attestation

  // ---------- numbers ----------

  lemma ReadBack(a: u16, b: u32)
    ensures U16(ToBE(a, 2)) == a && U32(ToBE(b, 4)) == b
  {
    Powers256();
    FromBEToBE(a, 2);
    FromBEToBE(b, 4);
  }

  /** A field holds this number exactly if it is the number's bytes. */
  lemma Spelled2(s: bytes, v: u16)
    requires |s| == 2
    ensures U16(s) == v <==> s == ToBE(v, 2)
  {
    ToBEFromBE(s);
    ReadBack(v, 0);
  }

  lemma Spelled4(s: bytes, v: u32)
    requires |s| == 4
    ensures U32(s) == v <==> s == ToBE(v, 4)
  {
    ToBEFromBE(s);
    ReadBack(0, v);
  }

  lemma Spelled8(s: bytes, v: u64)
    requires |s| == 8
    ensures U64(s) == v <==> s == ToBE(v, 8)
  {
    ToBEFromBE(s);
    ReadBack64(v);
  }

  // ---------- messages with fixed fields ----------

  /** The numbers of inputs, data inputs, distinct tokens and outputs. */
  function StartData(t: Draft): ApduData {
    ToBE(t.inputsCount, 2) + ToBE(t.dataInputsCount, 2) + [t.tokensCount] + ToBE(t.outputsCount, 2)
  }

  lemma StartDataExact(t: Draft, issued: set<(bytes, bytes)>, data: bytes, env: Surroundings)
    ensures ReadCommand(issued, 0x10, data, env)
            == Ok(S.StartTx(t.inputsCount, t.dataInputsCount, t.tokensCount, t.outputsCount))
            <==> data == StartData(t)
  {
    var all := StartData(t);
    assert all[..2] == ToBE(t.inputsCount, 2) && all[2..4] == ToBE(t.dataInputsCount, 2);
    assert all[4] == t.tokensCount && all[5..7] == ToBE(t.outputsCount, 2);
    if |data| == 7 {
      Spelled2(data[..2], t.inputsCount);
      Spelled2(data[2..4], t.dataInputsCount);
      Spelled2(data[5..7], t.outputsCount);
      assert data == data[..2] + data[2..4] + [data[4]] + data[5..7];
    }
  }

  /** Value, size of the tree, height, number of tokens, size of the registers. */
  function BoxData(b: Box): ApduData {
    ToBE(b.value, 8) + ToBE(b.treeSize, 4) + ToBE(b.height, 4) + [b.tokensCount] + ToBE(b.registersSize, 4)
  }

  lemma BoxDataExact(b: Box, issued: set<(bytes, bytes)>, data: bytes, env: Surroundings)
    ensures ReadCommand(issued, 0x15, data, env)
            == Ok(S.NewOutputBox(b.value, b.treeSize, b.height, b.tokensCount, b.registersSize))
            <==> data == BoxData(b)
  {
    hide ToBE, U32, U64;
    var all := BoxData(b);
    assert all[..8] == ToBE(b.value, 8) && all[8..12] == ToBE(b.treeSize, 4) && all[12..16] == ToBE(b.height, 4);
    assert all[16] == b.tokensCount && all[17..21] == ToBE(b.registersSize, 4);
    if |data| == 21 {
      Spelled8(data[..8], b.value);
      Spelled4(data[8..12], b.treeSize);
      Spelled4(data[12..16], b.height);
      Spelled4(data[17..21], b.registersSize);
      assert data == data[..8] + data[8..12] + data[12..16] + [data[16]] + data[17..21];
    }
  }

  /** The first message of an attestation: transaction id, place of the box, and the box's numbers. */
  function AttestMessage(s: A.Source): bytes {
    s.txId + ToBE(s.boxIndex, 2) + BoxData(s.box)
  }

  lemma AttestExact(s: A.Source, data: bytes)
    requires |s.txId| == ID_LEN && |data| >= 55
    ensures A.NewSource(data) == Announced(s) <==> data[..55] == AttestMessage(s)
  {
    hide ToBE, U16, U32, U64;
    var b, all, d := s.box, AttestMessage(s), data[34..55];
    assert all[..32] == s.txId && all[32..34] == ToBE(s.boxIndex, 2) && all[34..] == BoxData(b);
    BoxPart(data);
    BoxDataExact(b, {}, d, Anything());
    Spelled2(data[32..34], s.boxIndex);
    hide BoxData;
    assert data[..55] == data[..32] + data[32..34] + d;
    NumbersOnly(b, A.NewSource(data).box);
  }

  lemma BoxPart(data: bytes)
    requires |data| >= 55
    ensures var d := data[34..55];
            && d[..8] == data[34..42] && d[8..12] == data[42..46] && d[12..16] == data[46..50]
            && d[16] == data[50] && d[17..21] == data[51..55]
  {
  }

  /** What a command is read with does not matter where nothing is taken from it. */
  function Anything(): Surroundings {
    Surroundings(0, [], false, false, seq(65, _ => 0), false, false, false, false)
  }

  lemma NumbersOnly(b: Box, c: Box)
    requires c == NewBox(c.value, c.treeSize, c.height, c.tokensCount, c.registersSize)
    ensures c == NewBox(b.value, b.treeSize, b.height, b.tokensCount, b.registersSize)
            <==> && c.value == b.value && c.treeSize == b.treeSize && c.height == b.height
                 && c.tokensCount == b.tokensCount && c.registersSize == b.registersSize
  {
  }

  /** It is taken exactly if it has this length, with or without a token, and the sizes are within bounds. */
  lemma InitExact(data: bytes, hasToken: bool, session: u8)
    ensures A.Init(data, hasToken, session).Ok?
            <==> && |data| == (if hasToken then 59 else 55)
                 && var b := A.NewSource(data).box;
                    b.tokensCount <= 100 && b.treeSize <= 32768 && b.registersSize <= 32768
  {
  }

  // ---------- paths ----------

  function Words(ws: seq<u32>): (s: bytes)
    ensures |s| == 4 * |ws|
  {
    if ws == [] then [] else ToBE(ws[0], 4) + Words(ws[1..])
  }

  /** The number of components, and each in four bytes. */
  function PathBytes(path: seq<u32>): bytes
    requires |path| < 256
  {
    [|path|] + Words(path)
  }

  lemma {:induction false} WordsExact(ws: seq<u32>, s: bytes)
    requires |s| == 4 * |ws|
    ensures (forall i :: 0 <= i < |ws| ==> ws[i] == U32(s[4 * i..4 * i + 4])) <==> s == Words(ws)
  {
    hide U32, ToBE;
    if ws != [] {
      Spelled4(s[..4], ws[0]);
      WordsExact(ws[1..], s[4..]);
      assert s == s[..4] + s[4..];
      assert s[4 * 0..4 * 0 + 4] == s[..4];
      assert forall i :: 0 <= i < |ws| - 1 ==> s[4..][4 * i..4 * i + 4] == s[4 * (i + 1)..4 * (i + 1) + 4];
      assert forall i :: 1 <= i < |ws| ==> ws[i] == ws[1..][i - 1];
      assert Words(ws)[..4] == ToBE(ws[0], 4) && Words(ws)[4..] == Words(ws[1..]);
    } else {
      assert s == [];
    }
  }

  lemma PathAt(data: bytes, path: seq<u32>)
    requires 1 <= |path| <= 10 && |data| >= 1 + 4 * |path| && data[0] == |path|
    ensures ReadPath(data) == Ok(path) <==> forall i :: 0 <= i < |path| ==> path[i] == U32(data[1 + 4 * i..5 + 4 * i])
  {
    hide U32;
    var read := ReadPath(data).s;
    assert forall i :: 0 <= i < |path| ==> read[i] == U32(data[1 + 4 * i..5 + 4 * i]);
    assert (forall i :: 0 <= i < |path| ==> path[i] == read[i]) ==> path == read;
  }

  /** A path is read exactly if it stands at the front and has one to ten components; what follows it is ignored. */
  lemma PathExact(data: bytes, path: seq<u32>)
    ensures ReadPath(data) == Ok(path) <==> 1 <= |path| <= 10 && PathBytes(path) <= data
  {
    hide U32, ToBE, Words;
    var n := |path|;
    if 1 <= n <= 10 && |data| >= 1 + 4 * n {
      var s := data[1..1 + 4 * n];
      WordsExact(path, s);
      forall i | 0 <= i < n
        ensures s[4 * i..4 * i + 4] == data[1 + 4 * i..5 + 4 * i]
      {
        Inner(data, 1, 1 + 4 * n, 4 * i);
      }
      if data[0] == n {
        PathAt(data, path);
      }
      SameFront(data, PathBytes(path), 1);
      assert data[..1] == [data[0]] && PathBytes(path)[..1] == [n] && PathBytes(path)[1..] == Words(path);
    }
  }

  lemma Inner(s: bytes, from: nat, to: nat, k: nat)
    requires from + k + 4 <= to <= |s|
    ensures s[from..to][k..k + 4] == s[from + k..from + k + 4]
  {
    var a, b := s[from..to][k..k + 4], s[from + k..from + k + 4];
    forall i | 0 <= i < 4
      ensures a[i] == b[i]
    {
      assert a[i] == s[from..to][k + i];
    }
  }

  /** A prefix is compared in two parts. */
  lemma SameFront(s: bytes, m: bytes, k: nat)
    requires k <= |m| <= |s|
    ensures m <= s <==> s[..k] == m[..k] && s[k..|m|] == m[k..]
  {
    assert m == m[..k] + m[k..];
    assert s[..|m|] == s[..k] + s[k..|m|];
  }

  /** A session is opened with this path exactly if the message is a network, the path, and a token if announced. */
  lemma ParametersExact(data: bytes, hasToken: bool, path: seq<u32>)
    ensures InitParameters(data, hasToken).Ok? && ReadPath(data[1..]) == Ok(path)
            <==> && 1 <= |path| <= 10 && |data| == 2 + 4 * |path| + (if hasToken then 4 else 0)
                 && PathBytes(path) <= data[1..]
  {
    hide ReadPath, PathBytes;
    if data != [] {
      PathExact(data[1..], path);
    }
  }

  // ---------- lists ----------

  /** A token of a message: the id, or its place in four bytes, and the amount in eight. */
  function EntryMessage(e: Entry): bytes {
    (if e.name.ByIndex? then ToBE(e.name.index, 4) else e.token.id) + ToBE(e.token.amount, 8)
  }

  function EntriesMessage(es: seq<Entry>): bytes {
    if es == [] then [] else EntryMessage(es[0]) + EntriesMessage(es[1..])
  }

  /** The entry names its token the way the session's names allow. */
  ghost predicate NamedBy(e: Entry, names: BS.Names) {
    match names
    case FullIds => NamedInFull(e)
    case TableIndexes(distinct, ids) =>
      e.name.ByIndex? && e.name.index < distinct && e.name.index < |ids| && e.token.id == ids[e.name.index]
  }

  lemma EntryExact(data: bytes, names: BS.Names, e: Entry)
    requires names.TableIndexes? ==> names.distinct <= |names.ids|
    ensures BS.ReadEntry(data, names) == Ok(e)
            <==> NamedBy(e, names) && EntryMessage(e) <= data
    ensures NamedBy(e, names) ==> |EntryMessage(e)| == BS.EntrySize(names)
  {
    hide U32, U64, ToBE;
    var m := EntryMessage(e);
    match names
    case FullIds =>
      if |data| >= 40 && NamedInFull(e) {
        Spelled8(data[32..40], e.token.amount);
        assert m[..32] == e.token.id && m[32..] == ToBE(e.token.amount, 8);
        SameFront(data, m, 32);
      }
    case TableIndexes(distinct, ids) =>
      if |data| >= 12 && e.name.ByIndex? {
        Spelled4(data[..4], e.name.index);
        Spelled8(data[4..12], e.token.amount);
        assert m[..4] == ToBE(e.name.index, 4) && m[4..] == ToBE(e.token.amount, 8);
        SameFront(data, m, 4);
      }
  }

  ghost predicate AllNamedBy(es: seq<Entry>, names: BS.Names) {
    forall i :: 0 <= i < |es| ==> NamedBy(es[i], names)
  }

  /** An accepted token message is a list of tokens, one behind the other, named as the session allows. */
  lemma {:induction false} TokensExact(r: BS.Run, data: bytes, names: BS.Names)
    requires names.TableIndexes? ==> names.distinct <= |names.ids|
    requires BS.TokenLoop(r, data, names).Ok?
    ensures data == EntriesMessage(BS.Entries(data, names)) && AllNamedBy(BS.Entries(data, names), names)
    decreases |data|
  {
    hide EntryMessage, NamedBy, AllNamedBy, EntriesMessage, BS.OneToken, BS.ReadEntry, BS.Entries;
    if data != [] {
      OneTokenExact(r, data, names);
      var e, n := BS.ReadEntry(data, names).s, BS.EntrySize(names);
      TokensExact(BS.OneToken(r, data, names).s, data[n..], names);
      ListGrows(data, names);
      OneMore(e, BS.Entries(data[n..], names), names);
      Rejoined(data, n);
    } else {
      NoEntries(names);
    }
  }

  lemma Rejoined(s: bytes, n: nat)
    requires n <= |s|
    ensures s == s[..n] + s[n..]
  {
  }

  lemma ListGrows(data: bytes, names: BS.Names)
    requires names.TableIndexes? ==> names.distinct <= |names.ids|
    requires BS.ReadEntry(data, names).Ok? && |data| >= BS.EntrySize(names)
    ensures BS.Entries(data, names) == [BS.ReadEntry(data, names).s] + BS.Entries(data[BS.EntrySize(names)..], names)
  {
    hide BS.ReadEntry;
  }

  lemma OneMore(e: Entry, es: seq<Entry>, names: BS.Names)
    ensures EntriesMessage([e] + es) == EntryMessage(e) + EntriesMessage(es)
    ensures NamedBy(e, names) && AllNamedBy(es, names) ==> AllNamedBy([e] + es, names)
  {
    hide EntryMessage, NamedBy;
    assert ([e] + es)[1..] == es;
  }

  lemma OneTokenExact(r: BS.Run, data: bytes, names: BS.Names)
    requires names.TableIndexes? ==> names.distinct <= |names.ids|
    requires BS.OneToken(r, data, names).Ok?
    ensures BS.ReadEntry(data, names).Ok? && NamedBy(BS.ReadEntry(data, names).s, names)
    ensures |data| >= BS.EntrySize(names) && data[..BS.EntrySize(names)] == EntryMessage(BS.ReadEntry(data, names).s)
  {
    hide EntryMessage, NamedBy, BS.OnToken;
    EntryExact(data, names, BS.ReadEntry(data, names).s);
  }

  lemma NoEntries(names: BS.Names)
    requires names.TableIndexes? ==> names.distinct <= |names.ids|
    ensures BS.Entries([], names) == [] && EntriesMessage([]) == [] && AllNamedBy([], names)
  {
  }

  /** What is added to a box by an accepted message is what the message lists. */
  lemma AddTokensExact(r: BS.Run, b: Box, data: bytes, names: BS.Names)
    requires names.TableIndexes? ==> names.distinct <= |names.ids|
    requires !BS.AddTokens(r, data, names).Fail?
    ensures var es := BS.WithTokens(b, data, names).entries[|b.entries|..];
            data == EntriesMessage(es) && AllNamedBy(es, names)
  {
    TokensExact(r, data, names);
    hide BS.TokenLoop, AllNamedBy, EntriesMessage, BS.Entries;
    var es := BS.Entries(data, names);
    assert (b.entries + es)[|b.entries|..] == es;
  }

  lemma {:induction false} PiecesWhole(s: bytes)
    requires |s| % ID_LEN == 0
    ensures Flatten(Pieces(s, ID_LEN)) == s
    decreases |s|
  {
    if |s| >= ID_LEN {
      PiecesWhole(s[ID_LEN..]);
      FlattenCons(s[..ID_LEN], Pieces(s[ID_LEN..], ID_LEN));
    }
  }

  lemma {:induction false} TableWhole(table: seq<bytes>, distinct: FS.TokenCount, data: bytes)
    requires FS.TableLoop(table, distinct, data).Ok?
    ensures |data| % ID_LEN == 0
    decreases |data|
  {
    if data != [] {
      TableWhole(table + [data[..ID_LEN]], distinct, data[ID_LEN..]);
    }
  }

  lemma {:induction false} DataWhole(w: FS.World, data: bytes)
    requires FS.DataInputLoop(w, data).Ok?
    ensures |data| % ID_LEN == 0
    decreases |data|
  {
    if data != [] {
      DataWhole(w.(tx := w.tx.(dataInputsCount := w.tx.dataInputsCount - 1), log := w.log + data[..ID_LEN]),
                data[ID_LEN..]);
    }
  }

  /** The ids recorded from an accepted message are the whole message. */
  lemma IdsExact(w: FS.World, data: bytes)
    requires w.tx.state == FS.DataInputsStarted ==> w.tx.distinct <= |w.amounts.table|
    requires !FS.AddTokens(w, data).Fail? || !FS.AddDataInputs(w, data).Fail?
    ensures Flatten(Pieces(data, ID_LEN)) == data
  {
    if w.tx.state == FS.TokensStarted {
      TableWhole(w.amounts.table, w.tx.distinct, data);
    } else {
      FS.DataInputLoopFrame(w, data);
      DataWhole(w, data);
    }
    PiecesWhole(data);
  }

  // ---------- attested frames ----------

  lemma {:induction false} PairAt(ts: seq<Token>, k: nat)
    requires FullIds(ts) && k < |ts|
    ensures |PairsBytes(ts)| == 40 * |ts|
    ensures var s, at := PairsBytes(ts), 40 * k; s[at..at + 32] == ts[k].id && U64(s[at + 32..at + 40]) == ts[k].amount
  {
    hide U64, ToBE;
    PairsSize(ts);
    var s, rest, a := PairsBytes(ts), PairsBytes(ts[1..]), ToBE(ts[0].amount, 8);
    assert s[..32] == ts[0].id && s[32..40] == a && s[40..] == rest;
    if k == 0 {
      ReadBack64(ts[0].amount);
    } else {
      PairAt(ts[1..], k - 1);
      var j := 40 * (k - 1);
      assert s[40 * k..40 * k + 32] == rest[j..j + 32] && s[40 * k + 32..40 * k + 40] == rest[j + 32..j + 40];
    }
  }

  /** Every frame begins with box id, number of frames, its own number, value and number of its tokens. */
  lemma FrameHead(dev: A.Device, s: A.Source, i: nat)
    requires A.Proper(dev) && A.Attestable(s) && i < FramesCount(|s.box.entries|)
    ensures var f, n := A.FrameOf(dev, s, i), |s.box.entries|;
            && |f| >= 43 && f[..32] == A.BoxId(dev, s) && f[32] == FramesCount(n) && f[33] == i
            && U64(f[34..42]) == s.box.value
            && f[42] == (if n < 4 * i + 4 then n - 4 * i else 4) && |f| == 43 + 40 * f[42]
  {
    hide FullBox, BS.Distinct, FrameData, A.Preimage;
    var ts := TokensOf(s.box.entries);
    assert forall k :: 0 <= k < |Share(ts, i)| ==> Share(ts, i)[k] == ts[4 * i + k];
    FrameDataLayout(A.BoxId(dev, s), FramesCount(|ts|), i, s.box.value, Share(ts, i));
  }

  /** The `n`-th token of a box stands in frame n / 4, as its token n % 4. */
  lemma TokenInFrame(dev: A.Device, s: A.Source, n: nat)
    requires A.Proper(dev) && A.Attestable(s) && n < |s.box.entries|
    ensures n / 4 < FramesCount(|s.box.entries|)
    ensures var f, at, t := A.FrameOf(dev, s, n / 4), 43 + 40 * (n % 4), s.box.entries[n].token;
            && |f| >= at + 40 && f[42] > n % 4 && f[at..at + 32] == t.id && U64(f[at + 32..at + 40]) == t.amount
  {
    hide FullBox, BS.Distinct, FrameData, A.Preimage, U64, PairsBytes;
    var ts, i := TokensOf(s.box.entries), n / 4;
    var share := Share(ts, i);
    assert forall k :: 0 <= k < |share| ==> share[k] == ts[4 * i + k];
    assert share[n % 4] == ts[n];
    FrameDataLayout(A.BoxId(dev, s), FramesCount(|ts|), i, s.box.value, share);
    PairAt(share, n % 4);
    Behind(A.FrameOf(dev, s, i), PairsBytes(share), 40 * (n % 4));
  }

  lemma Behind(f: bytes, p: bytes, k: nat)
    requires |f| >= 43 && f[43..] == p && k + 40 <= |p|
    ensures f[43 + k..43 + k + 32] == p[k..k + 32] && f[43 + k + 32..43 + k + 40] == p[k + 32..k + 40]
  {
  }
}
