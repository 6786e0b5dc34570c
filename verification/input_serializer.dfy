/**
 The input serializer: the frames of an attested box in order, then its context extension.
 Source: src/ergo/tx_ser_input.c.
 */
module InputSerializer {
  import opened Bytes
  import opened TxTypes
  import opened Accounting
  import opened Reference

  datatype InputState = FramesStarted | ExtensionStarted | InputFinished | InputError

  datatype InputCtx = InputCtx(
    state: InputState, boxId: bytes, framesCount: u8, framesProcessed: u8, extensionSize: u32)

  datatype InputRun = InputRun(input: InputCtx, log: bytes, amounts: Amounts)

  /** ergo_tx_serializer_input_init: an extension of one byte could only be the empty one and is refused. */
  function Init(boxId: bytes, framesCount: u8, extensionSize: u32): Outcome<InputCtx> {
    if extensionSize == 1 || extensionSize > MAX_TX_DATA_PART_LEN then Fail(BadContextExtensionSize)
    else Ok(InputCtx(FramesStarted, boxId, framesCount, 0, extensionSize))
  }

  /** The loop of ergo_tx_serializer_input_add_tokens over (id, amount) pairs, each handed to the callback. */
  function PairLoop(a: Amounts, pairs: bytes): Outcome<Amounts>
    decreases |pairs|
  {
    if pairs == [] then Ok(a)
    else if |pairs| < 32 then Fail(BadTokenId)
    else if |pairs| < 40 then Fail(BadTokenValue)
    else
      var o := AddInputToken(a, pairs[..32], U64(pairs[32..40]));
      if o.Ok? then PairLoop(o.s, pairs[40..]) else o
  }

  /** ergo_tx_serializer_input_add_tokens */
  function AddTokens(r: InputRun, boxId: bytes, index: u8, pairs: bytes): Outcome<InputRun> {
    if r.input.state != FramesStarted then Fail(BadState)
    else if r.input.boxId != boxId then Fail(BadInputId)
    else if index >= r.input.framesCount then Fail(TooManyInputFrames)
    else if index != r.input.framesProcessed then Fail(BadFrameIndex)
    else
      match PairLoop(r.amounts, pairs)
      case Fail(e) => Fail(e)
      case More(a) => Fail(BadState)
      case Ok(a) =>
        var c := r.input.(framesProcessed := r.input.framesProcessed + 1);
        if c.framesProcessed != c.framesCount then More(InputRun(c, r.log, a))
        else if c.extensionSize == 0
        then Ok(InputRun(c.(state := InputFinished), r.log + boxId + [0] + [0], a))
        else Ok(InputRun(c.(state := ExtensionStarted), r.log + boxId + [0], a))
  }

  /** ergo_tx_serializer_input_add_context_extension */
  function AddExtension(r: InputRun, chunk: bytes): Outcome<InputRun> {
    if r.input.state != ExtensionStarted then Fail(BadState)
    else if r.input.extensionSize < |chunk| then Fail(TooMuchData)
    else
      var c := r.input.(extensionSize := r.input.extensionSize - |chunk|);
      if c.extensionSize == 0 then Ok(InputRun(c.(state := InputFinished), r.log + chunk, r.amounts))
      else More(InputRun(c, r.log + chunk, r.amounts))
  }

  // ---------- the reference side ----------

  function WithFrame(i: Input, f: Frame): Input {
    i.(frames := i.frames + [f], tokens := i.tokens + TokenPairs(f.pairs))
  }

  function WithExtension(i: Input, chunk: bytes): Input {
    i.(extension := i.extension + chunk)
  }

  // ---------- the coupling ----------

  /** Frames arrive under one id, in order, starting from zero. */
  ghost predicate InOrder(i: Input) {
    forall k :: 0 <= k < |i.frames| ==> i.frames[k].id == i.id && i.frames[k].index == k
  }

  /** The tokens counted are those of the frames, in order. */
  ghost function FrameTokens(frames: seq<Frame>): seq<Token> {
    if frames == [] then [] else FrameTokens(Front(frames)) + TokenPairs(Last(frames).pairs)
  }

  ghost predicate WellFormed(i: Input) {
    && InOrder(i) && i.tokens == FrameTokens(i.frames) && i.extensionSize != 1
    && (i.frames != [] ==> i.frames[0].value == i.value && i.frames[0].framesCount == i.framesCount)
  }

  ghost predicate Matches(c: InputCtx, i: Input) {
    && c.boxId == i.id && c.framesCount == i.framesCount && WellFormed(i)
    && match c.state
       case FramesStarted =>
         && c.framesProcessed == |i.frames| && (i.framesCount > 0 ==> |i.frames| < i.framesCount)
         && i.extension == [] && c.extensionSize == i.extensionSize
       case ExtensionStarted =>
         && FramesComplete(i) && |i.extension| < i.extensionSize
         && c.extensionSize == i.extensionSize - |i.extension|
       case InputFinished => InputComplete(i)
       case InputError => false
  }

  lemma {:induction false} PairLoopKeeps(a: Amounts, l: Ledger, pairs: bytes)
    requires Balanced(a, l)
    ensures var o := PairLoop(a, pairs);
            o.Fail? || (o.Ok? && Balanced(o.s, l.(inTokens := l.inTokens + TokenPairs(pairs))) && a.table <= o.s.table)
    decreases |pairs|
  {
    hide Balanced, AddInputToken;
    if pairs == [] {
      assert l.inTokens + [] == l.inTokens;
    } else if |pairs| >= 40 {
      var id, v := pairs[..32], U64(pairs[32..40]);
      var o := AddInputToken(a, id, v);
      if o.Ok? {
        AddInputTokenKeeps(a, l, id, v);
        var l1 := l.(inTokens := l.inTokens + [Token(id, v)]);
        PairLoopKeeps(o.s, l1, pairs[40..]);
        assert l1.inTokens + TokenPairs(pairs[40..]) == l.inTokens + TokenPairs(pairs);
      }
    }
  }

  /** A frame taken keeps the coupling; the last one writes id, empty proof and an empty extension if none follows. */
  lemma AddTokensKeeps(r: InputRun, f: Frame, base: bytes, i: Input)
    requires Matches(r.input, i) && r.log == base + InputEmitted(i)
    requires f.index == 0 ==> f.value == i.value && f.framesCount == i.framesCount
    ensures var o := AddTokens(r, f.id, f.index, f.pairs); var i' := WithFrame(i, f);
            o.Fail? || (&& Matches(o.s.input, i') && o.s.log == base + InputEmitted(i')
                        && (o.s.input.state == InputFinished ==> o.Ok?))
  {
    var o := AddTokens(r, f.id, f.index, f.pairs);
    if o.Fail? { return; }
    var i' := WithFrame(i, f);
    assert Front(i'.frames) == i.frames;
    assert base + [] == base;
    assert i.id + [0] + [] == i.id + [0];
    assert base + (i.id + [0] + [0]) == base + i.id + [0] + [0];
    assert base + (i.id + [0]) == base + i.id + [0];
  }

  lemma AddExtensionKeeps(r: InputRun, chunk: bytes, base: bytes, i: Input)
    requires Matches(r.input, i) && r.log == base + InputEmitted(i)
    ensures var o := AddExtension(r, chunk); var i' := WithExtension(i, chunk);
            o.Fail? || (&& Matches(o.s.input, i') && o.s.log == base + InputEmitted(i') && o.s.amounts == r.amounts
                        && (o.s.input.state == InputFinished <==> o.Ok?))
  {
    var o := AddExtension(r, chunk);
    if o.Fail? { return; }
    assert base + (i.id + [0] + i.extension) + chunk == base + (i.id + [0] + (i.extension + chunk));
  }
}
