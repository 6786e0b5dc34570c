/**
 The transaction serializer and the signing operation as objects.  The operation owns the
 hasher, the totals and the output; the serializer holds the input or the box context, of which
 only the one initialised last may be used.
 Source: src/ergo/tx_ser_full.c, src/ergo/tx_ser_full.h,
 src/commands/signtx/operations/stx_op_p2pk.c.
 */
module SessionContexts {
  import opened Bytes
  import opened Gve
  import opened TxTypes
  import opened Contexts
  import opened SerializerContexts
  import OI = OutputInfo
  import IS = InputSerializer
  import BS = BoxSerializer
  import FS = FullSerializer
  import S = Signing
  import ErgoTree
  import opened Reference

  /** Which member of the union was initialised last. */
  datatype Variant = HoldsInput | HoldsBox

  /** ergo_tx_serializer_full_context_t */
  class FullContext {
    const hash: Hasher
    const amounts: AmountsContext
    const output: OutputContext
    const input: InputContext
    const box: BoxContext
    var holds: Variant
    var state: FS.FullState
    var inputsCount: u16
    var dataInputsCount: u16
    var outputsCount: u16
    var distinct: FS.TokenCount

    ghost predicate Valid()
      reads this, amounts, amounts.table, output
    {
      && amounts.Valid() && output.table == amounts.table && output.Valid()
      && input.hash == hash && input.amounts == amounts
      && box.hash == hash && box.l == ToSigner(amounts, output)
    }

    ghost function Tx(): FS.Tx
      reads this, input, box
    {
      FS.Tx(state, inputsCount, dataInputsCount, outputsCount, distinct,
            if holds == HoldsInput then FS.InputSlot(input.Ctx()) else FS.BoxSlot(box.Ctx()))
    }

    ghost function View(): FS.World
      requires Valid()
      reads this, input, box, hash, amounts, amounts.table, output
    {
      FS.World(Tx(), hash.log, amounts.View(), output.View())
    }

    constructor (h: Hasher, a: AmountsContext, o: OutputContext)
      requires a.Valid() && o.table == a.table && o.Valid()
      ensures Valid() && fresh(input) && fresh(box) && hash == h && amounts == a && output == o
      ensures Tx() == FS.Tx(FS.TokensStarted, 0, 0, 0, 0, FS.IdleInput(IS.FramesStarted))
    {
      hash, amounts, output := h, a, o;
      input := new InputContext(h, a);
      box := new BoxContext(h, ToSigner(a, o));
      holds, state, inputsCount, dataInputsCount, outputsCount, distinct := HoldsInput, FS.TokensStarted, 0, 0, 0, 0;
    }

    /** memset to zero */
    method Clear()
      modifies this, input
      ensures Tx() == FS.Tx(FS.TokensStarted, 0, 0, 0, 0, FS.IdleInput(IS.FramesStarted))
    {
      input.Clear(IS.FramesStarted);
      holds, state, inputsCount, dataInputsCount, outputsCount, distinct := HoldsInput, FS.TokensStarted, 0, 0, 0, 0;
    }

    /** res_error */
    method Fail(e: Error) returns (c: Code)
      modifies this`state
      ensures c == Err(e) && state == FS.FullError
    {
      state := FS.FullError;
      return Err(e);
    }

    method StartInputs()
      modifies this, input
      ensures Tx() == old(Tx()).(state := FS.InputsStarted, slot := FS.IdleInput(IS.InputFinished))
    {
      state, holds := FS.InputsStarted, HoldsInput;
      input.Clear(IS.InputFinished);
    }

    /** ergo_tx_serializer_full_init */
    method Init(inputs: u16, dataInputs: u16, outputs: u16, tokens: u8) returns (c: Code)
      requires Valid()
      modifies this, input, hash
      ensures Valid()
      ensures Agrees(FS.Init(inputs, dataInputs, outputs, tokens, old(hash.log), old(amounts.table.View())), c,
              (Tx(), hash.log))
      ensures c.Err? ==> state == FS.FullError
    {
      Clear();
      if inputs == 0 {
        c := Fail(BadInputCount);
        return;
      }
      if outputs == 0 {
        c := Fail(BadOutputCount);
        return;
      }
      hash.Update(Vlq(inputs));
      inputsCount, dataInputsCount, outputsCount := inputs, dataInputs, outputs;
      if amounts.table.count != 0 || tokens > TOKEN_MAX_COUNT {
        c := Fail(TooManyTokens);
        return;
      }
      distinct := tokens;
      if tokens == 0 {
        StartInputs();
      }
      return Done;
    }

    /** ergo_tx_serializer_full_add_tokens */
    method AddTokens(data: bytes) returns (c: Code)
      requires Valid()
      modifies this, input, amounts.table
      ensures Valid() && Agrees(FS.AddTokens(old(View()), data), c, View())
      ensures c.Err? ==> state == FS.FullError
    {
      if state != FS.TokensStarted {
        c := Fail(BadState);
        return;
      }
      c := amounts.table.AddAll(distinct, data);
      if c.Err? {
        c := Fail(c.e);
        return;
      }
      if c == Done {
        StartInputs();
      }
    }

    /** ergo_tx_serializer_full_add_input */
    method AddInput(id: bytes, frames: u8, size: u32) returns (c: Code)
      requires Valid() && FS.InputSafe(View())
      modifies this, input
      ensures Valid() && Agrees(FS.AddInput(old(View()), id, frames, size), c, View())
      ensures c.Err? ==> state == FS.FullError
    {
      if state != FS.InputsStarted {
        c := Fail(BadState);
        return;
      }
      if input.state != IS.InputFinished {
        c := Fail(BadState);
        return;
      }
      if inputsCount == 0 {
        c := Fail(TooManyInputs);
        return;
      }
      c := input.Init(id, frames, size);
      if c.Err? {
        c := Fail(c.e);
      }
    }

    /** data_inputs_finished */
    method DataInputsFinished()
      requires Valid() && distinct <= amounts.table.count
      modifies this, hash
      ensures Valid() && View() == FS.DataInputsFinished(old(View()))
    {
      amounts.table.HashInto(distinct, hash);
      hash.Update(Vlq(outputsCount));
      state := FS.OutputsStarted;
    }

    /** input_finished */
    method InputFinished()
      requires Valid() && distinct <= amounts.table.count
      modifies this, hash
      ensures Valid() && View() == FS.InputFinished(old(View()))
    {
      hide FS.DataInputsFinished;
      inputsCount := FS.Decrement(inputsCount);
      if inputsCount == 0 {
        hash.Update(Vlq(dataInputsCount));
        state := FS.DataInputsStarted;
        if dataInputsCount == 0 {
          DataInputsFinished();
        }
      }
    }

    /** ergo_tx_serializer_full_add_input_tokens */
    method AddInputTokens(id: bytes, index: u8, pairs: bytes) returns (c: Code)
      requires Valid() && FS.InputSafe(View())
      modifies this, input, hash, amounts, amounts.table
      ensures Valid() && Agrees(FS.AddInputTokens(old(View()), id, index, pairs), c, View())
      ensures c.Err? ==> state == FS.FullError
    {
      hide FS.InputFinished;
      if state != FS.InputsStarted {
        c := Fail(BadState);
        return;
      }
      FS.PairLoopExtends(amounts.View(), pairs);
      c := input.AddTokens(id, index, pairs);
      if c.Err? {
        c := Fail(c.e);
        return;
      }
      if c == Done && input.state == IS.InputFinished {
        InputFinished();
      }
    }

    /** ergo_tx_serializer_full_add_input_context_extension */
    method AddExtension(chunk: bytes) returns (c: Code)
      requires Valid() && FS.InputSafe(View())
      modifies this, input, hash
      ensures Valid() && Agrees(FS.AddExtension(old(View()), chunk), c, View())
      ensures c.Err? ==> state == FS.FullError
    {
      hide FS.InputFinished;
      if state != FS.InputsStarted {
        c := Fail(BadState);
        return;
      }
      c := input.AddExtension(chunk);
      if c.Err? {
        c := Fail(c.e);
        return;
      }
      if c == Done {
        InputFinished();
      }
    }

    /** ergo_tx_serializer_full_add_data_inputs */
    method AddDataInputs(data: bytes) returns (c: Code)
      requires Valid() && (state == FS.DataInputsStarted ==> distinct <= amounts.table.count)
      modifies this, hash
      ensures Valid() && Agrees(FS.AddDataInputs(old(View()), data), c, View())
      ensures c.Err? ==> state == FS.FullError
    {
      hide FS.DataInputsFinished, FS.DataInputLoop;
      if state != FS.DataInputsStarted {
        c := Fail(BadState);
        return;
      }
      FS.DataInputLoopFrame(View(), data);
      c := TakeDataInputs(data);
      if c.Err? {
        c := Fail(c.e);
        return;
      }
      if dataInputsCount == 0 {
        DataInputsFinished();
        return Done;
      }
      return MoreData;
    }

    /** The loop over the ids of a message. */
    method TakeDataInputs(data: bytes) returns (c: Code)
      requires Valid()
      modifies this`dataInputsCount, hash
      ensures Valid() && Agrees(FS.DataInputLoop(old(View()), data), c, View())
    {
      var i := 0;
      ghost var spec := FS.DataInputLoop(View(), data);
      assert data[0..] == data;
      while i < |data|
        invariant i <= |data| && Valid()
        invariant FS.DataInputLoop(View(), data[i..]) == spec
      {
        if dataInputsCount == 0 {
          return Err(TooManyDataInputs);
        }
        if |data| - i < ID_LEN {
          return Err(BadDataInput);
        }
        assert data[i..][..ID_LEN] == data[i..i + ID_LEN] && data[i..][ID_LEN..] == data[i + ID_LEN..];
        hash.Update(data[i..i + ID_LEN]);
        dataInputsCount := dataInputsCount - 1;
        i := i + ID_LEN;
      }
      assert data[i..] == [];
      return Done;
    }

    /** ergo_tx_serializer_full_add_box: the union now holds a box. */
    method AddBox(value: u64, treeSize: u32, height: u32, tokens: u8, registersSize: u32) returns (c: Code)
      requires Valid()
      modifies this, box, hash
      ensures Valid() && Agrees(FS.AddBox(old(View()), value, treeSize, height, tokens, registersSize), c, View())
      ensures c.Err? ==> state == FS.FullError
    {
      if state != FS.OutputsStarted {
        c := Fail(BadState);
        return;
      }
      if outputsCount == 0 {
        c := Fail(TooManyOutputs);
        return;
      }
      holds := HoldsBox;
      c := box.Init(value, treeSize, height, tokens, registersSize);
      if c.Err? {
        c := Fail(c.e);
      }
    }

    /** The end of the box operations: res_error, or output_finished when the box is complete. */
    method EndBoxStep(r: Code, ghost w: FS.World, ghost o: Outcome<BS.Run>) returns (c: Code)
      requires Valid() && holds == HoldsBox && Agrees(o, r, box.View())
               && (!r.Err? ==> View() == FS.AfterBox(w, box.View()))
      modifies this
      ensures Valid() && Agrees(FS.EndBoxStep(w, o), c, View())
      ensures c.Err? ==> state == FS.FullError
    {
      c := r;
      if r.Err? {
        c := Fail(r.e);
      } else if r == Done && box.state == BS.BoxFinished {
        outputsCount := FS.Decrement(outputsCount);
        if outputsCount == 0 {
          state := FS.FullFinished;
        }
      }
    }

    /** ergo_tx_serializer_full_add_box_ergo_tree */
    method AddBoxTree(chunk: bytes) returns (c: Code)
      requires Valid() && FS.BoxSafe(View())
      modifies this, box, hash, amounts, output
      ensures Valid() && Agrees(FS.AddBoxTree(old(View()), chunk), c, View())
      ensures c.Err? ==> state == FS.FullError
    {
      if state != FS.OutputsStarted {
        c := Fail(BadState);
        return;
      }
      hide FS.EndBoxStep, BS.AddTree;
      ghost var w := View();
      c := box.AddTree(chunk);
      c := EndBoxStep(c, w, BS.AddTree(FS.BoxRunOf(w), chunk));
    }

    /** ergo_tx_serializer_full_add_box_miners_fee_tree and ergo_tx_serializer_full_add_box_change_tree */
    method AddBoxKnownTree(kind: BoxKind, tree: bytes) returns (c: Code)
      requires Valid() && FS.BoxSafe(View())
      modifies this, box, hash, amounts, output
      ensures Valid() && Agrees(FS.AddBoxKnownTree(old(View()), kind, tree), c, View())
      ensures c.Err? ==> state == FS.FullError
    {
      if state != FS.OutputsStarted {
        c := Fail(BadState);
        return;
      }
      hide FS.EndBoxStep, BS.AddKnownTree;
      ghost var w := View();
      c := box.AddKnownTree(kind, tree);
      c := EndBoxStep(c, w, BS.AddKnownTree(FS.BoxRunOf(w), kind, tree));
    }

    /** ergo_tx_serializer_full_add_box_tokens */
    method AddBoxTokens(data: bytes) returns (c: Code)
      requires Valid() && FS.BoxSafe(View())
      modifies this, box, hash, amounts, output
      ensures Valid() && Agrees(FS.AddBoxTokens(old(View()), data), c, View())
      ensures c.Err? ==> state == FS.FullError
    {
      if state != FS.OutputsStarted {
        c := Fail(BadState);
        return;
      }
      hide FS.EndBoxStep, BS.AddTokens;
      ghost var w := View();
      c := box.AddTokens(data, amounts.table, distinct);
      c := EndBoxStep(c, w, BS.AddTokens(FS.BoxRunOf(w), data, FS.NamesOf(w)));
    }

    /** ergo_tx_serializer_full_add_box_registers */
    method AddBoxRegisters(chunk: bytes) returns (c: Code)
      requires Valid() && FS.BoxSafe(View())
      modifies this, box, hash, amounts, output
      ensures Valid() && Agrees(FS.AddBoxRegisters(old(View()), chunk), c, View())
      ensures c.Err? ==> state == FS.FullError
    {
      if state != FS.OutputsStarted {
        c := Fail(BadState);
        return;
      }
      hide FS.EndBoxStep, BS.AddRegisters;
      ghost var w := View();
      c := box.AddRegisters(chunk);
      c := EndBoxStep(c, w, BS.AddRegisters(FS.BoxRunOf(w), chunk));
    }
  }

  /** sign_transaction_operation_p2pk_ctx_t */
  class OperationContext {
    const hash: Hasher
    const amounts: AmountsContext
    const output: OutputContext
    const tx: FullContext
    var state: S.OpState

    ghost predicate Valid()
      reads this, tx, amounts, amounts.table, output
    {
      tx.hash == hash && tx.amounts == amounts && tx.output == output && tx.Valid()
    }

    ghost function Owned(): set<object> {
      {this, hash, amounts, amounts.table, output, tx, tx.input, tx.box}
    }

    ghost function View(): S.Operation
      requires Valid()
      reads this, hash, amounts, amounts.table, output, tx, tx.input, tx.box
    {
      S.Operation(state, tx.View())
    }

    constructor ()
      ensures Valid() && fresh(Owned()) && View() == S.Start([])
    {
      var h := new Hasher([]);
      var a := new AmountsContext();
      var o := new OutputContext(a.table);
      hash, amounts, output := h, a, o;
      tx := new FullContext(h, a, o);
      state := S.OpInitialized;
    }

    /** The zeroing of the command's context, then stx_operation_p2pk_init with a commitment hashed. */
    method Restart(base: bytes)
      requires Valid()
      modifies Owned()
      ensures Valid() && View() == S.Start(base)
    {
      tx.Clear();
      amounts.Reset();
      output.Init(0);
      hash.log := base;
      state := S.OpInitialized;
    }

    /** CHECK_TX_FINISHED */
    method CheckFinished()
      requires Valid()
      modifies this`state
      ensures Valid() && View() == S.CheckFinished(old(View()))
    {
      if tx.state == FS.FullFinished {
        state := S.TxFinished;
      }
    }

    /** stx_operation_p2pk_start_tx */
    method StartTx(inputs: u16, dataInputs: u16, tokens: u8, outputs: u16) returns (c: Code)
      requires Valid()
      modifies Owned()
      ensures Valid() && Agrees(S.DoStart(old(View()), S.StartTx(inputs, dataInputs, tokens, outputs)), c, View())
    {
      if state != S.OpInitialized {
        return Err(BadState);
      }
      hide FS.Init;
      c := tx.Init(inputs, dataInputs, outputs, tokens);
      if c == Done {
        amounts.Reset();
        state := S.TxStarted;
      } else if c == MoreData {
        c := Err(BadState);
      }
    }

    /** stx_operation_p2pk_add_tokens */
    method AddTokens(data: bytes) returns (c: Code)
      requires Valid()
      modifies Owned()
      ensures Valid() && Agrees(S.DoTokenIds(old(View()), data), c, View())
    {
      if state != S.TxStarted {
        return Err(BadState);
      }
      hide FS.AddTokens;
      c := tx.AddTokens(data);
      c := if c.Err? then c else Done;
    }

    /** stx_operation_p2pk_add_input */
    method AddInput(f: Frame, size: u32) returns (c: Code)
      requires Valid() && S.Coupled(View())
      modifies Owned()
      ensures Valid() && Agrees(S.DoNewInput(old(View()), f, size), c, View())
    {
      if state != S.TxStarted && state != S.InputsOpen {
        return Err(BadState);
      }
      c := tx.AddInput(f.id, f.framesCount, size);
      if c.Err? {
        return;
      }
      c := amounts.AddInput(f.value);
      if c.Err? {
        return;
      }
      state := S.InputsOpen;
    }

    /** stx_operation_p2pk_add_input_tokens */
    method AddInputTokens(f: Frame) returns (c: Code)
      requires Valid() && S.Coupled(View())
      modifies Owned()
      ensures Valid() && Agrees(S.DoInputTokens(old(View()), f), c, View())
    {
      if state != S.InputsOpen {
        return Err(BadState);
      }
      hide FS.AddInputTokens;
      c := tx.AddInputTokens(f.id, f.index, f.pairs);
      c := if c.Err? then c else Done;
    }

    /** The end of handle_input_frame */
    method AddFrame(f: Frame, size: u32) returns (c: Code)
      requires Valid() && S.Coupled(View())
      modifies Owned()
      ensures Valid() && Agrees(S.DoInputFrame(old(View()), f, size), c, View())
    {
      hide S.DoNewInput, S.DoInputTokens;
      if f.index == 0 {
        c := AddInput(f, size);
        if c.Err? {
          return;
        }
      }
      c := AddInputTokens(f);
    }

    /** stx_operation_p2pk_add_input_context_extension */
    method AddExtension(data: bytes) returns (c: Code)
      requires Valid() && S.Coupled(View())
      modifies Owned()
      ensures Valid() && Agrees(S.DoExtension(old(View()), data), c, View())
    {
      if state != S.InputsOpen {
        return Err(BadState);
      }
      hide FS.AddExtension;
      c := tx.AddExtension(data);
      c := if c.Err? then c else Done;
    }

    /** stx_operation_p2pk_add_data_inputs */
    method AddDataInputs(data: bytes) returns (c: Code)
      requires Valid() && S.Coupled(View())
      modifies Owned()
      ensures Valid() && Agrees(S.DoDataInputs(old(View()), data), c, View())
    {
      if state != S.InputsOpen {
        return Err(BadState);
      }
      hide FS.AddDataInputs;
      c := tx.AddDataInputs(data);
      c := if c.Err? then c else Done;
    }

    /** stx_operation_p2pk_add_output */
    method AddOutput(value: u64, treeSize: u32, height: u32, tokens: u8, registersSize: u32) returns (c: Code)
      requires Valid()
      modifies Owned()
      ensures Valid()
      ensures Agrees(S.DoNewOutput(old(View()), S.NewOutputBox(value, treeSize, height, tokens, registersSize)), c,
              View())
    {
      if state != S.InputsOpen && state != S.OutputsOpen {
        return Err(BadState);
      }
      c := tx.AddBox(value, treeSize, height, tokens, registersSize);
      if c.Err? {
        return;
      }
      output.Init(value);
      state := S.OutputsOpen;
    }

    /** stx_operation_p2pk_add_output_tree_chunk */
    method AddTreeChunk(data: bytes) returns (c: Code)
      requires Valid() && S.Coupled(View())
      modifies Owned()
      ensures Valid() && Agrees(S.DoTreeChunk(old(View()), data), c, View())
    {
      if state != S.OutputsOpen {
        return Err(BadState);
      }
      hide FS.AddBoxTree, OI.AddTreeChunk;
      c := tx.AddBoxTree(data);
      if c.Err? {
        return;
      }
      c := output.AddTreeChunk(data, c == Done);
      if c.Err? {
        return;
      }
      CheckFinished();
    }

    /** stx_operation_p2pk_add_output_tree_fee */
    method AddFeeTree() returns (c: Code)
      requires Valid() && S.Coupled(View())
      modifies Owned()
      ensures Valid() && Agrees(S.DoFeeTree(old(View())), c, View())
    {
      if state != S.OutputsOpen {
        return Err(BadState);
      }
      hide FS.AddBoxKnownTree;
      c := tx.AddBoxKnownTree(FeeBox, ErgoTree.MINERS_FEE_TREE);
      if c.Err? {
        return;
      }
      c := output.SetFee();
      if c.Err? {
        return;
      }
      CheckFinished();
    }

    /** stx_operation_p2pk_add_output_tree_change */
    method AddChangeTree(path: seq<u32>, key: ErgoTree.RawPublicKey) returns (c: Code)
      requires Valid() && S.Coupled(View())
      modifies Owned()
      ensures Valid() && Agrees(S.DoChangeTree(old(View()), path, key), c, View())
    {
      if state != S.OutputsOpen {
        return Err(BadState);
      }
      hide FS.AddBoxKnownTree;
      c := tx.AddBoxKnownTree(ChangeBox, ErgoTree.GenerateP2pk(key));
      if c.Err? {
        return;
      }
      c := output.SetBip32(path);
      if c.Err? {
        return;
      }
      CheckFinished();
    }

    /** stx_operation_p2pk_add_output_tokens */
    method AddOutputTokens(data: bytes) returns (c: Code)
      requires Valid() && S.Coupled(View())
      modifies Owned()
      ensures Valid() && Agrees(S.DoOutputTokens(old(View()), data), c, View())
    {
      if state != S.OutputsOpen {
        return Err(BadState);
      }
      hide FS.AddBoxTokens;
      c := tx.AddBoxTokens(data);
      if c.Err? {
        return;
      }
      CheckFinished();
      c := Done;
    }

    /** stx_operation_p2pk_add_output_registers */
    method AddRegisters(data: bytes) returns (c: Code)
      requires Valid() && S.Coupled(View())
      modifies Owned()
      ensures Valid() && Agrees(S.DoRegisters(old(View()), data), c, View())
    {
      if state != S.OutputsOpen {
        return Err(BadState);
      }
      hide FS.AddBoxRegisters;
      c := tx.AddBoxRegisters(data);
      if c.Err? {
        return;
      }
      CheckFinished();
      c := Done;
    }

    /** ui_stx_operation_p2pk_show_confirm_screen */
    method Confirm() returns (c: Code)
      requires Valid()
      modifies this`state
      ensures Valid() && Agrees(S.DoConfirm(old(View())), c, View())
    {
      if state != S.TxFinished {
        return Err(BadState);
      }
      state := S.Finalized;
      return Done;
    }

    /** One subcommand, as the handler dispatches it. */
    method Execute(cmd: S.Command) returns (c: Code)
      requires Valid() && S.Coupled(View())
      modifies Owned()
      ensures Valid() && Agrees(S.Exec(old(View()), cmd), c, View())
    {
      hide S.DoStart, S.DoTokenIds, S.DoInputFrame, S.DoExtension, S.DoDataInputs, S.DoNewOutput, S.DoTreeChunk,
           S.DoFeeTree, S.DoChangeTree, S.DoOutputTokens, S.DoRegisters, S.DoConfirm;
      match cmd
      case StartTx(i, d, t, o) => c := StartTx(i, d, t, o);
      case TokenIds(data) => c := AddTokens(data);
      case InputFrame(f, size) => c := AddFrame(f, size);
      case Extension(data) => c := AddExtension(data);
      case DataInputs(data) => c := AddDataInputs(data);
      case NewOutputBox(v, ts, h, n, rs) => c := AddOutput(v, ts, h, n, rs);
      case TreeChunk(data) => c := AddTreeChunk(data);
      case FeeTree => c := AddFeeTree();
      case ChangeTree(path, key) => c := AddChangeTree(path, key);
      case OutputTokens(data) => c := AddOutputTokens(data);
      case Registers(data) => c := AddRegisters(data);
      case Confirm => c := Confirm();
    }
  }
}
