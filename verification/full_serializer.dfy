/**
 The transaction serializer: announced token ids, inputs, data inputs and outputs, in this
 order, each stage left when its counter reaches zero.
 Source: src/ergo/tx_ser_full.c, src/ergo/tx_ser_full.h, src/ergo/tx_ser_table.c.
 */
module FullSerializer {
  import opened Bytes
  import opened Gve
  import opened TxTypes
  import opened Accounting
  import opened OutputInfo
  import BS = BoxSerializer
  import IS = InputSerializer

  datatype FullState = TokensStarted | InputsStarted | DataInputsStarted | OutputsStarted | FullFinished | FullError

  /** The union of the input and the box context: only the variant last initialised can be read. */
  datatype Slot = InputSlot(input: IS.InputCtx) | BoxSlot(box: BS.BoxCtx)

  type TokenCount = n: int | 0 <= n <= TOKEN_MAX_COUNT

  datatype Tx = Tx(
    state: FullState, inputsCount: u16, dataInputsCount: u16, outputsCount: u16, distinct: TokenCount, slot: Slot)

  /** The context with the hasher, the totals (which own the token table) and the output it reports to. */
  datatype World = World(tx: Tx, log: bytes, amounts: Amounts, output: Output)

  function NoId(): bytes {
    Zeros(ID_LEN)
  }

  function IdleInput(state: IS.InputState): Slot {
    InputSlot(IS.InputCtx(state, NoId(), 0, 0, 0))
  }

  function Decrement(n: u16): u16 {
    if n == 0 then 0xFFFF else n - 1
  }

  // ---------- start, token ids ----------

  /** ergo_tx_serializer_full_init, with the table it is given */
  function Init(inputsCount: u16, dataInputsCount: u16, outputsCount: u16, tokensCount: u8,
                log: bytes, table: seq<bytes>): Outcome<(Tx, bytes)> {
    if inputsCount == 0 then Fail(BadInputCount)
    else if outputsCount == 0 then Fail(BadOutputCount)
    else if |table| != 0 || tokensCount > TOKEN_MAX_COUNT then Fail(TooManyTokens)
    else
      var (state, slot) := if tokensCount != 0 then (TokensStarted, IdleInput(IS.FramesStarted))
                           else (InputsStarted, IdleInput(IS.InputFinished));
      Ok((Tx(state, inputsCount, dataInputsCount, outputsCount, tokensCount, slot), log + Vlq(inputsCount)))
  }

  /** The loop of ergo_tx_serializer_table_add. */
  function TableLoop(table: seq<bytes>, distinct: TokenCount, data: bytes): (o: Outcome<seq<bytes>>)
    ensures o.Ok? ==> o.s == table || |o.s| <= distinct
    decreases |data|
  {
    if data == [] then Ok(table)
    else if |table| >= distinct then Fail(TooManyTokens)
    else if |data| < ID_LEN then Fail(BadTokenId)
    else TableLoop(table + [data[..ID_LEN]], distinct, data[ID_LEN..])
  }

  /** ergo_tx_serializer_full_add_tokens */
  function AddTokens(w: World, data: bytes): Outcome<World> {
    if w.tx.state != TokensStarted then Fail(BadState)
    else
      match TableLoop(w.amounts.table, w.tx.distinct, data)
      case Fail(e) => Fail(e)
      case More(_) => Fail(BadState)
      case Ok(table) =>
        var v := w.(amounts := w.amounts.(table := table));
        if |table| < w.tx.distinct then More(v)
        else Ok(v.(tx := w.tx.(state := InputsStarted, slot := IdleInput(IS.InputFinished))))
  }

  // ---------- inputs ----------

  /** While inputs are taken the union holds an input context. */
  predicate InputSafe(w: World) {
    w.tx.state == InputsStarted ==> w.tx.slot.InputSlot? && w.tx.distinct <= |w.amounts.table|
  }

  /** ergo_tx_serializer_full_add_input */
  function AddInput(w: World, boxId: bytes, framesCount: u8, extensionSize: u32): Outcome<World>
    requires InputSafe(w)
  {
    if w.tx.state != InputsStarted then Fail(BadState)
    else if w.tx.slot.input.state != IS.InputFinished then Fail(BadState)
    else if w.tx.inputsCount == 0 then Fail(TooManyInputs)
    else
      match IS.Init(boxId, framesCount, extensionSize)
      case Fail(e) => Fail(e)
      case More(c) => Fail(BadState)
      case Ok(c) => Ok(w.(tx := w.tx.(slot := InputSlot(c))))
  }

  /** data_inputs_finished: the distinct ids are hashed, then the number of outputs. */
  function DataInputsFinished(w: World): World
    requires w.tx.distinct <= |w.amounts.table|
  {
    w.(tx := w.tx.(state := OutputsStarted),
       log := w.log + Vlq(w.tx.distinct) + Flatten(w.amounts.table[..w.tx.distinct]) + Vlq(w.tx.outputsCount))
  }

  /** input_finished */
  function InputFinished(w: World): World
    requires w.tx.distinct <= |w.amounts.table|
  {
    var n := Decrement(w.tx.inputsCount);
    var v := w.(tx := w.tx.(inputsCount := n));
    if n != 0 then v
    else
      var u := v.(tx := v.tx.(state := DataInputsStarted), log := v.log + Vlq(v.tx.dataInputsCount));
      if u.tx.dataInputsCount == 0 then DataInputsFinished(u) else u
  }

  function InputRunOf(w: World): IS.InputRun
    requires w.tx.slot.InputSlot?
  {
    IS.InputRun(w.tx.slot.input, w.log, w.amounts)
  }

  function AfterInput(w: World, r: IS.InputRun): World {
    w.(tx := w.tx.(slot := InputSlot(r.input)), log := r.log, amounts := r.amounts)
  }

  lemma {:induction false} PairLoopExtends(a: Amounts, pairs: bytes)
    ensures IS.PairLoop(a, pairs).Ok? ==> |a.table| <= |IS.PairLoop(a, pairs).s.table|
    ensures !IS.PairLoop(a, pairs).More?
    decreases |pairs|
  {
    if |pairs| >= 40 {
      var o := AddInputToken(a, pairs[..32], U64(pairs[32..40]));
      if o.Ok? {
        PairLoopExtends(o.s, pairs[40..]);
      }
    }
  }

  /** ergo_tx_serializer_full_add_input_tokens */
  function AddInputTokens(w: World, boxId: bytes, index: u8, pairs: bytes): Outcome<World>
    requires InputSafe(w)
  {
    if w.tx.state != InputsStarted then Fail(BadState)
    else
      PairLoopExtends(w.amounts, pairs);
      match IS.AddTokens(InputRunOf(w), boxId, index, pairs)
      case Fail(e) => Fail(e)
      case More(r) => More(AfterInput(w, r))
      case Ok(r) =>
        var v := AfterInput(w, r);
        Ok(if r.input.state == IS.InputFinished then InputFinished(v) else v)
  }

  /** ergo_tx_serializer_full_add_input_context_extension */
  function AddExtension(w: World, chunk: bytes): Outcome<World>
    requires InputSafe(w)
  {
    if w.tx.state != InputsStarted then Fail(BadState)
    else
      match IS.AddExtension(InputRunOf(w), chunk)
      case Fail(e) => Fail(e)
      case More(r) => More(AfterInput(w, r))
      case Ok(r) => Ok(InputFinished(AfterInput(w, r)))
  }

  // ---------- data inputs ----------

  /** The loop of ergo_tx_serializer_full_add_data_inputs. */
  function DataInputLoop(w: World, data: bytes): Outcome<World>
    decreases |data|
  {
    if data == [] then Ok(w)
    else if w.tx.dataInputsCount == 0 then Fail(TooManyDataInputs)
    else if |data| < ID_LEN then Fail(BadDataInput)
    else DataInputLoop(w.(tx := w.tx.(dataInputsCount := w.tx.dataInputsCount - 1), log := w.log + data[..ID_LEN]),
                       data[ID_LEN..])
  }

  lemma {:induction false} DataInputLoopFrame(w: World, data: bytes)
    ensures var o := DataInputLoop(w, data);
            o.Fail? || (o.Ok? && o.s == w.(tx := w.tx.(dataInputsCount := o.s.tx.dataInputsCount), log := o.s.log))
    decreases |data|
  {
    if data != [] && w.tx.dataInputsCount != 0 && |data| >= ID_LEN {
      DataInputLoopFrame(
        w.(tx := w.tx.(dataInputsCount := w.tx.dataInputsCount - 1), log := w.log + data[..ID_LEN]), data[ID_LEN..]);
    }
  }

  /** ergo_tx_serializer_full_add_data_inputs */
  function AddDataInputs(w: World, data: bytes): Outcome<World>
    requires w.tx.state == DataInputsStarted ==> w.tx.distinct <= |w.amounts.table|
  {
    if w.tx.state != DataInputsStarted then Fail(BadState)
    else
      DataInputLoopFrame(w, data);
      var o := DataInputLoop(w, data);
      if !o.Ok? then o
      else if o.s.tx.dataInputsCount == 0 then Ok(DataInputsFinished(o.s))
      else More(o.s)
  }

  // ---------- outputs ----------

  /** While boxes are continued the union holds a box context. */
  predicate BoxSafe(w: World) {
    w.tx.state == OutputsStarted ==> w.tx.slot.BoxSlot? && w.tx.distinct <= |w.amounts.table|
  }

  /** ergo_tx_serializer_full_add_box; an unfinished previous box is silently abandoned. */
  function AddBox(w: World, value: u64, treeSize: u32, height: u32, tokensCount: u8,
                  registersSize: u32): Outcome<World> {
    if w.tx.state != OutputsStarted then Fail(BadState)
    else if w.tx.outputsCount == 0 then Fail(TooManyOutputs)
    else
      match BS.Init(value, treeSize, height, tokensCount, registersSize, w.log)
      case Fail(e) => Fail(e)
      case More(_) => Fail(BadState)
      case Ok((box, log)) => Ok(w.(tx := w.tx.(slot := BoxSlot(box)), log := log))
  }

  function BoxRunOf(w: World): BS.Run
    requires w.tx.slot.BoxSlot?
  {
    BS.Run(w.tx.slot.box, w.log, BS.Signer(w.amounts, w.output))
  }

  function AfterBox(w: World, r: BS.Run): World {
    World(w.tx.(slot := BoxSlot(r.box)), r.log,
          if r.l.Signer? then r.l.amounts else w.amounts, if r.l.Signer? then r.l.output else w.output)
  }

  /** output_finished */
  function OutputFinished(w: World): World {
    var n := Decrement(w.tx.outputsCount);
    w.(tx := w.tx.(outputsCount := n, state := if n == 0 then FullFinished else w.tx.state))
  }

  /** The common end of the box operations: a finished box counts. */
  function EndBoxStep(w: World, o: Outcome<BS.Run>): Outcome<World> {
    match o
    case Fail(e) => Fail(e)
    case More(r) => More(AfterBox(w, r))
    case Ok(r) => Ok(if r.box.state == BS.BoxFinished then OutputFinished(AfterBox(w, r)) else AfterBox(w, r))
  }

  /** ergo_tx_serializer_full_add_box_ergo_tree */
  function AddBoxTree(w: World, chunk: bytes): Outcome<World>
    requires BoxSafe(w)
  {
    if w.tx.state != OutputsStarted then Fail(BadState) else EndBoxStep(w, BS.AddTree(BoxRunOf(w), chunk))
  }

  /** ergo_tx_serializer_full_add_box_miners_fee_tree and ergo_tx_serializer_full_add_box_change_tree */
  function AddBoxKnownTree(w: World, kind: BoxKind, tree: bytes): Outcome<World>
    requires BoxSafe(w)
  {
    if w.tx.state != OutputsStarted then Fail(BadState) else EndBoxStep(w, BS.AddKnownTree(BoxRunOf(w), kind, tree))
  }

  function NamesOf(w: World): BS.Names {
    BS.TableIndexes(w.tx.distinct, w.amounts.table)
  }

  /** ergo_tx_serializer_full_add_box_tokens */
  function AddBoxTokens(w: World, data: bytes): Outcome<World>
    requires BoxSafe(w)
  {
    if w.tx.state != OutputsStarted then Fail(BadState)
    else EndBoxStep(w, BS.AddTokens(BoxRunOf(w), data, NamesOf(w)))
  }

  /** ergo_tx_serializer_full_add_box_registers */
  function AddBoxRegisters(w: World, chunk: bytes): Outcome<World>
    requires BoxSafe(w)
  {
    if w.tx.state != OutputsStarted then Fail(BadState) else EndBoxStep(w, BS.AddRegisters(BoxRunOf(w), chunk))
  }

  /** ERROR is absorbing: in it every operation refuses. */
  lemma ErrorAbsorbs(w: World, data: bytes, id: bytes, n: u8, size: u32, value: u64, kind: BoxKind)
    requires w.tx.state == FullError
    ensures AddTokens(w, data) == Fail(BadState)
    ensures AddInput(w, id, n, size) == Fail(BadState)
    ensures AddInputTokens(w, id, n, data) == Fail(BadState)
    ensures AddExtension(w, data) == Fail(BadState)
    ensures AddDataInputs(w, data) == Fail(BadState)
    ensures AddBox(w, value, size, size, n, size) == Fail(BadState)
    ensures AddBoxTree(w, data) == Fail(BadState)
    ensures AddBoxKnownTree(w, kind, data) == Fail(BadState)
    ensures AddBoxTokens(w, data) == Fail(BadState)
    ensures AddBoxRegisters(w, data) == Fail(BadState)
  {
  }
}
