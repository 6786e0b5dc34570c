/**
 Attested input frames: their layout, how the signing session reads them back, and how the
 tokens of a box are divided among them.
 Source: src/helpers/input_frame.c, src/commands/attestinput/ainpt_response.c,
 src/commands/signtx/stx_handler.c.
 */
module Frames {
  import opened Bytes
  import opened TxTypes
  import opened Reference
  import IS = InputSerializer

  const FRAME_MAX_TOKENS_COUNT: nat := 4
  const PAIR_SIZE: nat := 40
  const COUNT_POSITION: nat := 42
  const PREFIX_LEN: nat := 43
  const SIGNATURE_LEN: nat := 16

  // ---------- writing ----------

  function PairsBytes(ts: seq<Token>): bytes {
    if ts == [] then [] else ts[0].id + ToBE(ts[0].amount, 8) + PairsBytes(ts[1..])
  }

  /** The signed part of a frame. */
  function FrameData(id: bytes, framesCount: u8, index: u8, value: u64, ts: seq<Token>): bytes
    requires |ts| < 256
  {
    id + [framesCount] + [index] + ToBE(value, 8) + [|ts|] + PairsBytes(ts)
  }

  ghost predicate FullIds(ts: seq<Token>) {
    forall i :: 0 <= i < |ts| ==> |ts[i].id| == ID_LEN
  }

  lemma {:induction false} PairsSize(ts: seq<Token>)
    requires FullIds(ts)
    ensures |PairsBytes(ts)| == PAIR_SIZE * |ts|
  {
    if ts != [] {
      PairsSize(ts[1..]);
    }
  }

  lemma ReadBack64(v: u64)
    ensures U64(ToBE(v, 8)) == v
  {
    Powers256();
    FromBEToBE(v, 8);
  }

  /** The token list of a frame is read back as it was written. */
  lemma {:induction false} PairsReadBack(ts: seq<Token>)
    requires FullIds(ts)
    ensures TokenPairs(PairsBytes(ts)) == ts
  {
    if ts != [] {
      PairsReadBack(ts[1..]);
      var s, rest, a := PairsBytes(ts), PairsBytes(ts[1..]), ToBE(ts[0].amount, 8);
      assert s[..32] == ts[0].id && s[32..40] == a && s[40..] == rest;
      ReadBack64(ts[0].amount);
      assert ts == [ts[0]] + ts[1..];
    }
  }

  // ---------- reading ----------

  /** input_frame_data_length, with its 8-bit result; 0 if the message is too short. */
  function DataLength(msg: bytes): u8 {
    if |msg| < PREFIX_LEN + SIGNATURE_LEN then 0
    else
      var len := (msg[COUNT_POSITION] * PAIR_SIZE + PREFIX_LEN) % 256;
      if |msg| < len + SIGNATURE_LEN then 0 else len
  }

  /** The fields of a frame message, after its signature was accepted; frame 0 carries the extension length. */
  function ReadFrame(msg: bytes): Outcome<(Frame, u32)> {
    if |msg| < PREFIX_LEN then Fail(NotEnoughData)
    else
      var pairsLen := msg[COUNT_POSITION] * PAIR_SIZE % 256;
      var end := PREFIX_LEN + pairsLen + SIGNATURE_LEN;
      if |msg| < end then Fail(NotEnoughData)
      else
        var f := Frame(msg[..32], msg[32], msg[33], U64(msg[34..42]), msg[43..43 + pairsLen]);
        if f.index != 0 then Ok((f, 0))
        else if |msg| < end + 4 then Fail(NotEnoughData)
        else Ok((f, U32(msg[end..end + 4])))
  }

  lemma FrameDataLayout(id: bytes, framesCount: u8, index: u8, value: u64, ts: seq<Token>)
    requires |id| == ID_LEN && |ts| <= FRAME_MAX_TOKENS_COUNT && FullIds(ts)
    ensures var s := FrameData(id, framesCount, index, value, ts);
            && |s| == PREFIX_LEN + PAIR_SIZE * |ts| <= 203
            && s[..32] == id && s[32] == framesCount && s[33] == index && U64(s[34..42]) == value
            && s[42] == |ts| && s[43..] == PairsBytes(ts)
  {
    PairsSize(ts);
    ReadBack64(value);
    Layout(id, framesCount, index, ToBE(value, 8), |ts|, PairsBytes(ts));
  }

  lemma Layout(id: bytes, a: byte, b: byte, v: bytes, c: byte, rest: bytes)
    requires |id| == 32 && |v| == 8
    ensures var s := id + [a] + [b] + v + [c] + rest;
            && |s| == 43 + |rest| && s[..32] == id && s[32] == a && s[33] == b
            && s[34..42] == v && s[42] == c && s[43..] == rest
  {
  }

  /**
   A message whose signed part is an attested frame is read as exactly that frame: the 8-bit
   length does not wrap, the signature is looked for right behind the signed bytes, and the
   tokens handed on are the signed ones.
   */
  lemma FrameReadBack(msg: bytes, id: bytes, framesCount: u8, index: u8, value: u64, ts: seq<Token>)
    requires |id| == ID_LEN && |ts| <= FRAME_MAX_TOKENS_COUNT && FullIds(ts)
    requires DataLength(msg) != 0 && msg[..DataLength(msg)] == FrameData(id, framesCount, index, value, ts)
    ensures DataLength(msg) == |FrameData(id, framesCount, index, value, ts)|
    ensures var r := ReadFrame(msg);
            if index == 0 && |msg| < DataLength(msg) + SIGNATURE_LEN + 4 then r == Fail(NotEnoughData)
            else r.Ok? && r.s.0 == Frame(id, framesCount, index, value, PairsBytes(ts))
  {
    FrameDataLayout(id, framesCount, index, value, ts);
    var n := DataLength(msg);
    var s := msg[..n];
    assert msg[42] == s[42] && msg[32] == s[32] && msg[33] == s[33];
    assert msg[..32] == s[..32] && msg[34..42] == s[34..42];
    assert msg[43..n] == s[43..];
  }

  // ---------- dividing a box ----------

  /** get_frames_count: at least one frame, at most four tokens each. */
  function FramesCount(tokens: nat): (n: u8)
    requires tokens <= TOKEN_MAX_COUNT
    ensures n >= 1 && tokens <= 4 * n && (tokens > 0 ==> 4 * (n - 1) < tokens)
  {
    var n := (tokens + 3) / 4;
    if n == 0 then 1 else n
  }

  /** The tokens of one frame. */
  function Share(ts: seq<Token>, index: nat): (r: seq<Token>)
    requires 4 * index <= |ts|
    ensures |r| <= FRAME_MAX_TOKENS_COUNT
  {
    ts[4 * index..if |ts| < 4 * index + 4 then |ts| else 4 * index + 4]
  }

  function Upto(ts: seq<Token>, frames: nat): seq<Token> {
    ts[..if |ts| < 4 * frames then |ts| else 4 * frames]
  }

  lemma ShareExtends(ts: seq<Token>, k: nat)
    requires 4 * k <= |ts|
    ensures Upto(ts, k) + Share(ts, k) == Upto(ts, k + 1)
  {
  }

  /** Frames taken in order give the tokens of the box in order. */
  lemma {:induction false} SharesInOrder(ts: seq<Token>, frames: seq<Frame>)
    requires FullIds(ts)
    requires forall k :: 0 <= k < |frames| ==> 4 * k <= |ts| && frames[k].pairs == PairsBytes(Share(ts, k))
    ensures IS.FrameTokens(frames) == Upto(ts, |frames|)
  {
    if frames != [] {
      var k := |frames| - 1;
      SharesInOrder(ts, Front(frames));
      PairsReadBack(Share(ts, k));
      ShareExtends(ts, k);
    }
  }

  /** All frames of a box together carry each of its tokens once: a partition. */
  lemma SharesPartition(ts: seq<Token>, frames: seq<Frame>)
    requires FullIds(ts) && |ts| <= TOKEN_MAX_COUNT && |frames| == FramesCount(|ts|)
    requires forall k :: 0 <= k < |frames| ==> 4 * k <= |ts| && frames[k].pairs == PairsBytes(Share(ts, k))
    ensures IS.FrameTokens(frames) == ts
  {
    SharesInOrder(ts, frames);
    assert ts[..|ts|] == ts;
  }
}

/**
 The attestation session: a box is hashed with its tokens named in full, its id computed, and
 its value and tokens handed out in authenticated frames.
 Source: src/commands/attestinput/ainpt_handler.c, src/commands/attestinput/ainpt_response.c.
 */
module Attestation {
  import opened Bytes
  import opened Gve
  import opened TxTypes
  import opened Reference
  import opened Frames
  import BS = BoxSerializer

  /** The device's hash and its keyed code; both are parameters. */
  datatype Device = Device(hash: bytes -> bytes, mac: bytes -> bytes)

  ghost predicate Proper(dev: Device) {
    forall x :: |dev.hash(x)| == ID_LEN && |dev.mac(x)| == SIGNATURE_LEN
  }

  datatype AttestState = AttestInitialized | AttestApproved | AttestFinished

  /** `id` holds the transaction id first and the box id in the end. */
  datatype AttestCtx = AttestCtx(
    state: AttestState, session: u8, id: bytes, boxIndex: u16, tokens: TokenList, box: BS.BoxCtx, log: bytes)

  /** What a message returns to the host. */
  datatype Answer = Plain | Count(frames: u8) | Attested(frame: bytes, code: bytes)

  /** handle_init: all fields, nothing more. */
  function Init(data: bytes, hasToken: bool, session: u8): Outcome<AttestCtx> {
    var size := if hasToken then 59 else 55;
    if |data| < size then Fail(NotEnoughData)
    else if |data| > size then Fail(TooMuchData)
    else
      match BS.Init(U64(data[34..42]), U32(data[42..46]), U32(data[46..50]), data[50], U32(data[51..55]), [])
      case Fail(e) => Fail(e)
      case More(_) => Fail(BadState)
      case Ok((box, log)) =>
        Ok(AttestCtx(AttestInitialized, session, data[..32], U16(data[32..34]), [], box, log))
  }

  function RunOf(c: AttestCtx): BS.Run {
    BS.Run(c.box, c.log, BS.Attester(c.tokens))
  }

  function After(c: AttestCtx, r: BS.Run): AttestCtx {
    c.(box := r.box, log := r.log, tokens := if r.l.Attester? then r.l.tokens else c.tokens)
  }

  /** check_box_finished: the id of the box is the hash of its bytes, the transaction id and its place. */
  function CheckFinished(dev: Device, c: AttestCtx): Outcome<(AttestCtx, Answer)> {
    if c.box.state != BS.BoxFinished then Ok((c, Plain))
    else
      var log := c.log + c.id + Vlq(c.boxIndex);
      Ok((c.(state := AttestFinished, box := c.box.(state := BS.HashFinalized), log := log, id := dev.hash(log)),
          Count(FramesCount(|c.tokens|))))
  }

  function EndStep(dev: Device, c: AttestCtx, o: Outcome<BS.Run>): Outcome<(AttestCtx, Answer)> {
    match o
    case Fail(e) => Fail(e)
    case More(r) => Ok((After(c, r), Plain))
    case Ok(r) => CheckFinished(dev, After(c, r))
  }

  /** handle_tree_chunk */
  function TreeChunk(dev: Device, c: AttestCtx, data: bytes): Outcome<(AttestCtx, Answer)> {
    if c.state != AttestApproved then Fail(BadState) else EndStep(dev, c, BS.AddTree(RunOf(c), data))
  }

  /** handle_tokens */
  function Tokens(dev: Device, c: AttestCtx, data: bytes): Outcome<(AttestCtx, Answer)> {
    if c.state != AttestApproved then Fail(BadState) else EndStep(dev, c, BS.AddTokens(RunOf(c), data, BS.FullIds))
  }

  /** handle_registers_chunk */
  function Registers(dev: Device, c: AttestCtx, data: bytes): Outcome<(AttestCtx, Answer)> {
    if c.state != AttestApproved then Fail(BadState) else EndStep(dev, c, BS.AddRegisters(RunOf(c), data))
  }

  /** handle_get_frame and send_response_attested_input_frame */
  function GetFrame(dev: Device, c: AttestCtx, data: bytes): Outcome<(AttestCtx, Answer)> {
    if c.state != AttestFinished then Fail(BadState)
    else if |data| < 1 then Fail(NotEnoughData)
    else if |data| > 1 then Fail(TooMuchData)
    else
      var index, count := data[0], FramesCount(|c.tokens|);
      if index >= count then Fail(BadFrameIndex)
      else
        var frame := FrameData(c.id, count, index, c.box.value, Share(c.tokens, index));
        Ok((c, Attested(frame, dev.mac(frame))))
  }

  // ---------- what was attested ----------

  /** A box with the transaction and place it comes from. */
  datatype Source = Source(box: Box, txId: bytes, boxIndex: u16)

  /** What is hashed into the id of a box. */
  function Preimage(s: Source): bytes {
    BoxBytes(s.box) + s.txId + Vlq(s.boxIndex)
  }

  function BoxId(dev: Device, s: Source): bytes {
    dev.hash(Preimage(s))
  }

  /** A box the device may attest: complete, tokens in full, each once, at most a hundred. */
  ghost predicate Attestable(s: Source) {
    var ts := TokensOf(s.box.entries);
    FullBox(s.box) && |ts| <= TOKEN_MAX_COUNT && BS.Distinct(ts) && Frames.FullIds(ts) && |s.txId| == ID_LEN
  }

  ghost function FrameOf(dev: Device, s: Source, index: nat): bytes
    requires |s.box.entries| <= TOKEN_MAX_COUNT && index < FramesCount(|s.box.entries|)
  {
    var ts := TokensOf(s.box.entries);
    FrameData(BoxId(dev, s), FramesCount(|ts|), index, s.box.value, Share(ts, index))
  }

  ghost predicate Inv(dev: Device, c: AttestCtx, s: Source) {
    && c.boxIndex == s.boxIndex && |s.txId| == ID_LEN && c.box.value == s.box.value
    && Frames.FullIds(TokensOf(s.box.entries))
    && (forall i :: 0 <= i < |s.box.entries| ==> s.box.entries[i].name.InFull?)
    && if c.state == AttestFinished
       then Attestable(s) && c.tokens == TokensOf(s.box.entries) && c.id == BoxId(dev, s)
       else c.id == s.txId && BS.Invariant(RunOf(c), [], BS.Attesting, s.box) && !Complete(s.box)
  }

  lemma FinishedIsAttestable(dev: Device, c: AttestCtx, s: Source)
    requires Inv(dev, c, s) && c.state == AttestFinished
    ensures Attestable(s)
  {
  }

  function NewSource(data: bytes): Source
    requires |data| >= 55
  {
    Source(NewBox(U64(data[34..42]), U32(data[42..46]), U32(data[46..50]), data[50], U32(data[51..55])),
           data[..32], U16(data[32..34]))
  }

  lemma InitKeeps(dev: Device, data: bytes, hasToken: bool, session: u8)
    ensures var o := Init(data, hasToken, session); o.Fail? || (o.Ok? && Inv(dev, o.s, NewSource(data)))
  {
    var o := Init(data, hasToken, session);
    if o.Ok? {
      var b := NewSource(data).box;
      NewBoxInvariant(b);
      hide BS.Invariant, BS.Init;
      assert BS.Init(b.value, b.treeSize, b.height, b.tokensCount, b.registersSize, []) == Ok((o.s.box, o.s.log));
    }
  }

  lemma NewBoxInvariant(b: Box)
    requires b == NewBox(b.value, b.treeSize, b.height, b.tokensCount, b.registersSize)
    ensures var o := BS.Init(b.value, b.treeSize, b.height, b.tokensCount, b.registersSize, []);
            o.Ok? ==> BS.Invariant(BS.Run(o.s.0, o.s.1, BS.Attester([])), [], BS.Attesting, b)
  {
    BS.InitKeeps(b.value, b.treeSize, b.height, b.tokensCount, b.registersSize, []);
    assert [] + Emitted(b) == Emitted(b);
  }

  /** The user's consent, or a host known already. */
  lemma ApproveKeeps(dev: Device, c: AttestCtx, s: Source)
    requires Inv(dev, c, s) && c.state != AttestFinished
    ensures Inv(dev, c.(state := AttestApproved), s)
  {
    assert RunOf(c.(state := AttestApproved)) == RunOf(c);
  }

  /** The common end of the three messages. */
  lemma EndStepKeeps(dev: Device, c: AttestCtx, s: Source, o: Outcome<BS.Run>, b': Box)
    requires Inv(dev, c, s) && c.state == AttestApproved
    requires BS.StepOk(RunOf(c), o, [], BS.Attesting, b')
    requires Frames.FullIds(TokensOf(b'.entries)) && forall i :: 0 <= i < |b'.entries| ==> b'.entries[i].name.InFull?
    ensures var e := EndStep(dev, c, o); e.Fail? || (e.Ok? && Inv(dev, e.s.0, s.(box := b')))
    ensures var e := EndStep(dev, c, o);
            e.Ok? && e.s.0.state == AttestFinished ==>
              e.s.1 == Count(FramesCount(|b'.entries|)) && Attestable(s.(box := b'))
  {
    if o.Fail? { return; }
    var v := After(c, o.s);
    assert RunOf(v) == o.s;
    if v.box.state == BS.BoxFinished {
      EmittedComplete(b');
      assert [] + BoxBytes(b') == BoxBytes(b');
      assert forall i :: 0 <= i < |b'.entries| ==> TokensOf(b'.entries)[i].id == b'.entries[i].token.id;
    }
  }

  lemma {:induction false} EntriesInFull(data: bytes)
    ensures forall i :: 0 <= i < |BS.Entries(data, BS.FullIds)| ==> NamedInFull(BS.Entries(data, BS.FullIds)[i])
    decreases |data|
  {
    if |data| >= 40 {
      EntriesInFull(data[40..]);
    }
  }

  lemma TreeChunkKeeps(dev: Device, c: AttestCtx, s: Source, data: bytes)
    requires Inv(dev, c, s)
    ensures var o := TreeChunk(dev, c, data); o.Fail? || Inv(dev, o.s.0, s.(box := BS.WithChunk(s.box, data)))
  {
    if c.state == AttestApproved {
      BS.AddTreeKeeps(RunOf(c), data, [], BS.Attesting, s.box);
      EndStepKeeps(dev, c, s, BS.AddTree(RunOf(c), data), BS.WithChunk(s.box, data));
    }
  }

  lemma TokensKeeps(dev: Device, c: AttestCtx, s: Source, data: bytes)
    requires Inv(dev, c, s)
    ensures var o := Tokens(dev, c, data);
            o.Fail? || Inv(dev, o.s.0, s.(box := BS.WithTokens(s.box, data, BS.FullIds)))
  {
    if c.state == AttestApproved {
      var b' := BS.WithTokens(s.box, data, BS.FullIds);
      BS.AddTokensKeeps(RunOf(c), data, BS.FullIds, [], BS.Attesting, s.box);
      EntriesInFull(data);
      AppendedInFull(s.box.entries, BS.Entries(data, BS.FullIds));
      EndStepKeeps(dev, c, s, BS.AddTokens(RunOf(c), data, BS.FullIds), b');
    }
  }

  lemma AppendedInFull(a: seq<Entry>, b: seq<Entry>)
    requires Frames.FullIds(TokensOf(a)) && forall i :: 0 <= i < |a| ==> a[i].name.InFull?
    requires forall i :: 0 <= i < |b| ==> NamedInFull(b[i])
    ensures Frames.FullIds(TokensOf(a + b)) && forall i :: 0 <= i < |a + b| ==> (a + b)[i].name.InFull?
  {
    forall i | 0 <= i < |a + b|
      ensures |TokensOf(a + b)[i].id| == ID_LEN && (a + b)[i].name.InFull?
    {
      if i < |a| {
        assert |TokensOf(a)[i].id| == ID_LEN;
      } else {
        assert NamedInFull(b[i - |a|]);
      }
    }
  }

  lemma RegistersKeeps(dev: Device, c: AttestCtx, s: Source, data: bytes)
    requires Inv(dev, c, s)
    ensures var o := Registers(dev, c, data); o.Fail? || Inv(dev, o.s.0, s.(box := BS.WithRegisters(s.box, data)))
  {
    if c.state == AttestApproved {
      BS.AddRegistersKeeps(RunOf(c), data, [], BS.Attesting, s.box);
      EndStepKeeps(dev, c, s, BS.AddRegisters(RunOf(c), data), BS.WithRegisters(s.box, data));
    }
  }

  /** A frame handed out is a frame of the attested box. */
  lemma GetFrameGenuine(dev: Device, c: AttestCtx, s: Source, data: bytes)
    requires Inv(dev, c, s)
    ensures var o := GetFrame(dev, c, data);
            o.Fail? || (&& o.Ok? && o.s.0 == c && c.state == AttestFinished && Attestable(s)
                        && |data| == 1 && data[0] < FramesCount(|s.box.entries|)
                        && o.s.1 == Attested(FrameOf(dev, s, data[0]), dev.mac(FrameOf(dev, s, data[0]))))
  {
  }
}
