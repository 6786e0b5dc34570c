/**
 The P2PK signing operation: the machine that drives the transaction serializer, the totals
 and the output information.  Source: src/commands/signtx/operations/stx_op_p2pk.c.
 */
module Signing {
  import opened Bytes
  import opened TxTypes
  import opened Accounting
  import opened Reference
  import opened OutputInfo
  import opened FullSerializer
  import ErgoTree
  import IS = InputSerializer

  datatype OpState = OpInitialized | TxStarted | InputsOpen | OutputsOpen | TxFinished | Finalized

  datatype Operation = Operation(state: OpState, w: World)

  /** The subcommands of a session, with their parameters read. */
  datatype Command =
    | StartTx(inputsCount: u16, dataInputsCount: u16, tokensCount: u8, outputsCount: u16)
    | TokenIds(data: bytes)
    | InputFrame(frame: Frame, extensionSize: u32)
    | Extension(data: bytes)
    | DataInputs(data: bytes)
    | NewOutputBox(value: u64, treeSize: u32, height: u32, count: u8, registersSize: u32)
    | TreeChunk(data: bytes)
    | FeeTree
    | ChangeTree(path: seq<u32>, key: ErgoTree.RawPublicKey)
    | OutputTokens(data: bytes)
    | Registers(data: bytes)
    | Confirm

  /** stx_operation_p2pk_init: a zeroed context and a hasher that already absorbed the commitment. */
  function Start(base: bytes): Operation {
    Operation(OpInitialized,
              World(Tx(TokensStarted, 0, 0, 0, 0, IdleInput(IS.FramesStarted)), base, Zero(), NewOutput(0)))
  }

  /**
   Which serializer states go with which operation states, and which variant the union then
   holds.  Under it no operation reads the union through the wrong variant.
   */
  predicate Coupled(p: Operation) {
    && (p.w.tx.state == InputsStarted ==> p.w.tx.distinct <= |p.w.amounts.table|)
    && match p.state
       case OpInitialized => true
       case TxStarted =>
         p.w.tx.slot.InputSlot? && (p.w.tx.state == TokensStarted || p.w.tx.state == InputsStarted)
       case InputsOpen =>
         && p.w.tx.slot.InputSlot? && p.w.tx.distinct <= |p.w.amounts.table|
         && (p.w.tx.state == InputsStarted || p.w.tx.state == DataInputsStarted || p.w.tx.state == OutputsStarted)
       case OutputsOpen =>
         p.w.tx.slot.BoxSlot? && p.w.tx.distinct <= |p.w.amounts.table| && p.w.tx.state == OutputsStarted
       case TxFinished => p.w.tx.slot.BoxSlot? && p.w.tx.state == FullFinished
       case Finalized => p.w.tx.slot.BoxSlot? && p.w.tx.state == FullFinished
  }

  /** More data wanted is success towards the host. */
  function Accept(p: Operation, o: Outcome<World>): Outcome<Operation> {
    match o
    case Fail(e) => Fail(e)
    case More(w) => Ok(p.(w := w))
    case Ok(w) => Ok(p.(w := w))
  }

  /** stx_operation_p2pk_start_tx */
  function DoStart(p: Operation, c: Command): Outcome<Operation>
    requires c.StartTx?
  {
    if p.state != OpInitialized then Fail(BadState)
    else
      match FullSerializer.Init(c.inputsCount, c.dataInputsCount, c.outputsCount, c.tokensCount,
                                p.w.log, p.w.amounts.table)
      case Fail(e) => Fail(e)
      case More(_) => Fail(BadState)
      case Ok((tx, log)) => Ok(Operation(TxStarted, World(tx, log, Zero(), p.w.output)))
  }

  /** stx_operation_p2pk_add_tokens */
  function DoTokenIds(p: Operation, data: bytes): Outcome<Operation> {
    if p.state != TxStarted then Fail(BadState) else Accept(p, FullSerializer.AddTokens(p.w, data))
  }

  /** stx_operation_p2pk_add_input */
  function DoNewInput(p: Operation, f: Frame, extensionSize: u32): (o: Outcome<Operation>)
    requires Coupled(p)
    ensures o.Ok? ==> Coupled(o.s) && o.s.state == InputsOpen && o.s.w.tx.state == InputsStarted
    ensures !o.More?
  {
    if p.state != TxStarted && p.state != InputsOpen then Fail(BadState)
    else
      match FullSerializer.AddInput(p.w, f.id, f.framesCount, extensionSize)
      case Fail(e) => Fail(e)
      case More(_) => Fail(BadState)
      case Ok(w) =>
        match Accounting.AddInput(w.amounts, f.value)
        case Fail(e) => Fail(e)
        case More(_) => Fail(BadState)
        case Ok(a) => Ok(Operation(InputsOpen, w.(amounts := a)))
  }

  /** stx_operation_p2pk_add_input_tokens */
  function DoInputTokens(p: Operation, f: Frame): Outcome<Operation>
    requires Coupled(p)
  {
    if p.state != InputsOpen then Fail(BadState)
    else Accept(p, FullSerializer.AddInputTokens(p.w, f.id, f.index, f.pairs))
  }

  /** The end of handle_input_frame: frame 0 opens an input, every frame adds its tokens. */
  function DoInputFrame(p: Operation, f: Frame, extensionSize: u32): Outcome<Operation>
    requires Coupled(p)
  {
    if f.index != 0 then DoInputTokens(p, f)
    else
      match DoNewInput(p, f, extensionSize)
      case Fail(e) => Fail(e)
      case Ok(q) => DoInputTokens(q, f)
  }

  /** stx_operation_p2pk_add_input_context_extension */
  function DoExtension(p: Operation, data: bytes): Outcome<Operation>
    requires Coupled(p)
  {
    if p.state != InputsOpen then Fail(BadState) else Accept(p, FullSerializer.AddExtension(p.w, data))
  }

  /** stx_operation_p2pk_add_data_inputs */
  function DoDataInputs(p: Operation, data: bytes): Outcome<Operation>
    requires Coupled(p)
  {
    if p.state != InputsOpen then Fail(BadState) else Accept(p, FullSerializer.AddDataInputs(p.w, data))
  }

  /** stx_operation_p2pk_add_output */
  function DoNewOutput(p: Operation, c: Command): Outcome<Operation>
    requires c.NewOutputBox?
  {
    if p.state != InputsOpen && p.state != OutputsOpen then Fail(BadState)
    else
      match FullSerializer.AddBox(p.w, c.value, c.treeSize, c.height, c.count, c.registersSize)
      case Fail(e) => Fail(e)
      case More(_) => Fail(BadState)
      case Ok(w) => Ok(Operation(OutputsOpen, w.(output := NewOutput(c.value))))
  }

  /** CHECK_TX_FINISHED */
  function CheckFinished(p: Operation): Operation {
    if p.w.tx.state == FullFinished then p.(state := TxFinished) else p
  }

  /** The output information takes its part after the serializer accepted the tree. */
  function WithOutputInfo(p: Operation, w: World, o: Outcome<Output>): Outcome<Operation> {
    match o
    case Fail(e) => Fail(e)
    case More(_) => Fail(BadState)
    case Ok(out) => Ok(CheckFinished(p.(w := w.(output := out))))
  }

  /** stx_operation_p2pk_add_output_tree_chunk */
  function DoTreeChunk(p: Operation, data: bytes): Outcome<Operation>
    requires Coupled(p)
  {
    if p.state != OutputsOpen then Fail(BadState)
    else
      match FullSerializer.AddBoxTree(p.w, data)
      case Fail(e) => Fail(e)
      case Ok(w) => WithOutputInfo(p, w, AddTreeChunk(w.output, data, true))
      case More(w) => WithOutputInfo(p, w, AddTreeChunk(w.output, data, false))
  }

  /** stx_operation_p2pk_add_output_tree_fee */
  function DoFeeTree(p: Operation): Outcome<Operation>
    requires Coupled(p)
  {
    if p.state != OutputsOpen then Fail(BadState)
    else
      match FullSerializer.AddBoxKnownTree(p.w, FeeBox, ErgoTree.MINERS_FEE_TREE)
      case Fail(e) => Fail(e)
      case Ok(w) => WithOutputInfo(p, w, SetFee(w.output))
      case More(w) => WithOutputInfo(p, w, SetFee(w.output))
  }

  /** stx_operation_p2pk_add_output_tree_change */
  function DoChangeTree(p: Operation, path: seq<u32>, key: ErgoTree.RawPublicKey): Outcome<Operation>
    requires Coupled(p)
  {
    if p.state != OutputsOpen then Fail(BadState)
    else
      match FullSerializer.AddBoxKnownTree(p.w, ChangeBox, ErgoTree.GenerateP2pk(key))
      case Fail(e) => Fail(e)
      case Ok(w) => WithOutputInfo(p, w, SetBip32(w.output, path))
      case More(w) => WithOutputInfo(p, w, SetBip32(w.output, path))
  }

  function AcceptAndCheck(p: Operation, o: Outcome<World>): Outcome<Operation> {
    match Accept(p, o)
    case Fail(e) => Fail(e)
    case Ok(q) => Ok(CheckFinished(q))
    case More(q) => Ok(CheckFinished(q))
  }

  /** stx_operation_p2pk_add_output_tokens */
  function DoOutputTokens(p: Operation, data: bytes): Outcome<Operation>
    requires Coupled(p)
  {
    if p.state != OutputsOpen then Fail(BadState) else AcceptAndCheck(p, FullSerializer.AddBoxTokens(p.w, data))
  }

  /** stx_operation_p2pk_add_output_registers */
  function DoRegisters(p: Operation, data: bytes): Outcome<Operation>
    requires Coupled(p)
  {
    if p.state != OutputsOpen then Fail(BadState) else AcceptAndCheck(p, FullSerializer.AddBoxRegisters(p.w, data))
  }

  /** ui_stx_operation_p2pk_show_confirm_screen */
  function DoConfirm(p: Operation): Outcome<Operation> {
    if p.state != TxFinished then Fail(BadState) else Ok(p.(state := Finalized))
  }

  /** One subcommand. */
  function Exec(p: Operation, c: Command): Outcome<Operation>
    requires Coupled(p)
  {
    match c
    case StartTx(_, _, _, _) => DoStart(p, c)
    case TokenIds(data) => DoTokenIds(p, data)
    case InputFrame(f, size) => DoInputFrame(p, f, size)
    case Extension(data) => DoExtension(p, data)
    case DataInputs(data) => DoDataInputs(p, data)
    case NewOutputBox(_, _, _, _, _) => DoNewOutput(p, c)
    case TreeChunk(data) => DoTreeChunk(p, data)
    case FeeTree => DoFeeTree(p)
    case ChangeTree(path, key) => DoChangeTree(p, path, key)
    case OutputTokens(data) => DoOutputTokens(p, data)
    case Registers(data) => DoRegisters(p, data)
    case Confirm => DoConfirm(p)
  }
}

/**
 Every subcommand keeps the operation in step with the transaction the host described.
 */
module SigningRefinement {
  import opened Bytes
  import opened TxTypes
  import opened Accounting
  import opened Reference
  import opened OutputInfo
  import opened FullSerializer
  import opened Signing
  import FR = FullRefinement
  import ErgoTree
  import BS = BoxSerializer

  // ---------- what the host described ----------

  /** The names output tokens are resolved with: the announced ids and nothing else. */
  function Announced(d: Draft): BS.Names {
    BS.TableIndexes(if d.tokensCount <= |d.ids| then d.tokensCount else 0, d.ids)
  }

  function WithLast(d: Draft, f: Box -> Box): Draft {
    if d.outputs == [] then d else d.(outputs := SetLast(d.outputs, f(Last(d.outputs))))
  }

  /** The transaction after one more accepted subcommand. */
  function Record(d: Draft, c: Command): Draft {
    match c
    case StartTx(i, n, t, o) => Draft(d.base, i, n, t, o, [], [], [], [])
    case TokenIds(data) => FR.WithIds(d, data)
    case InputFrame(f, size) =>
      var e := if f.index == 0 then FR.WithNewInput(d, f.id, f.framesCount, size, f.value) else d;
      if e.inputs == [] then e else FR.WithFrame(e, f)
    case Extension(data) => if d.inputs == [] then d else FR.WithExtension(d, data)
    case DataInputs(data) => FR.WithDataInputs(d, data)
    case NewOutputBox(v, ts, h, n, rs) => FR.WithOutput(d, NewBox(v, ts, h, n, rs))
    case TreeChunk(data) => WithLast(d, b => BS.WithChunk(b, data))
    case FeeTree => WithLast(d, b => BS.WithTree(b, FeeBox, ErgoTree.MINERS_FEE_TREE))
    case ChangeTree(_, key) => WithLast(d, b => BS.WithTree(b, ChangeBox, ErgoTree.GenerateP2pk(key)))
    case OutputTokens(data) => WithLast(d, b => BS.WithTokens(b, data, Announced(d)))
    case Registers(data) => WithLast(d, b => BS.WithRegisters(b, data))
    case Confirm => d
  }

  // ---------- the invariant ----------

  ghost predicate Inv(p: Operation, d: Draft) {
    && Coupled(p)
    && match p.state
       case OpInitialized => p.w.amounts == Zero() && p.w.log == d.base
       case TxStarted => FR.Inv(p.w, d) && d.inputs == []
       case InputsOpen => FR.Inv(p.w, d) && d.inputs != []
       case OutputsOpen => InOutputs(p.w, d)
       case TxFinished => InOutputs(p.w, d)
       case Finalized => InOutputs(p.w, d)
  }

  ghost predicate InOutputs(w: World, d: Draft) {
    && FR.Inv(w, d) && d.outputs != [] && ShowsTree(w.output, Last(d.outputs))
    && forall k :: 0 <= k < |d.outputs| ==> Genuine(d.outputs[k])
  }

  lemma StartInv(base: bytes, d: Draft)
    requires d.base == base
    ensures Inv(Start(base), d)
  {
  }

  ghost predicate StepOk(o: Outcome<Operation>, d: Draft) {
    o.Fail? || (o.Ok? && Inv(o.s, d))
  }

  lemma StartKeeps(p: Operation, d: Draft, c: Command)
    requires Inv(p, d) && c.StartTx?
    ensures StepOk(DoStart(p, c), Record(d, c))
  {
    if p.state == OpInitialized {
      FR.InitKeeps(Record(d, c), Zero(), p.w.output);
    }
  }

  lemma TokenIdsKeeps(p: Operation, d: Draft, data: bytes)
    requires Inv(p, d)
    ensures StepOk(DoTokenIds(p, data), FR.WithIds(d, data))
  {
    if p.state == TxStarted {
      FR.AddTokensKeeps(p.w, d, data);
    }
  }

  lemma NewInputKeeps(p: Operation, d: Draft, f: Frame, size: u32)
    requires Inv(p, d)
    ensures StepOk(DoNewInput(p, f, size), FR.WithNewInput(d, f.id, f.framesCount, size, f.value))
  {
    if p.state == TxStarted || p.state == InputsOpen {
      FR.AddInputKeeps(p.w, d, f.id, f.framesCount, size, f.value);
    }
  }

  lemma InputTokensKeeps(p: Operation, d: Draft, f: Frame)
    requires Inv(p, d)
    requires f.index == 0 ==>
               d.inputs != [] && f.value == Last(d.inputs).value && f.framesCount == Last(d.inputs).framesCount
    ensures d.inputs != [] ==> StepOk(DoInputTokens(p, f), FR.WithFrame(d, f))
    ensures d.inputs == [] ==> DoInputTokens(p, f).Fail?
  {
    if p.state == InputsOpen && p.w.tx.state == InputsStarted {
      FR.AddInputTokensKeeps(p.w, d, f);
      var o := FullSerializer.AddInputTokens(p.w, f.id, f.index, f.pairs);
      if !o.Fail? {
        StillInputs(o.s, FR.WithFrame(d, f));
      }
    } else if p.state == OpInitialized {
      assert DoInputTokens(p, f).Fail?;
    }
  }

  /** The stages an input message can lead to. */
  lemma StillInputs(w: World, d: Draft)
    requires FR.Inv(w, d) && d.inputs != [] && d.outputs == []
    ensures w.tx.state == InputsStarted || w.tx.state == DataInputsStarted || w.tx.state == OutputsStarted
    ensures w.tx.slot.InputSlot? && w.tx.distinct <= |w.amounts.table|
  {
  }

  lemma ExtensionKeeps(p: Operation, d: Draft, data: bytes)
    requires Inv(p, d)
    ensures StepOk(DoExtension(p, data), Record(d, Extension(data)))
  {
    if p.state == InputsOpen && p.w.tx.state == InputsStarted {
      FR.AddExtensionKeeps(p.w, d, data);
      var o := FullSerializer.AddExtension(p.w, data);
      if !o.Fail? {
        StillInputs(o.s, FR.WithExtension(d, data));
      }
    }
  }

  lemma DataInputsKeeps(p: Operation, d: Draft, data: bytes)
    requires Inv(p, d)
    ensures StepOk(DoDataInputs(p, data), FR.WithDataInputs(d, data))
  {
    if p.state == InputsOpen {
      FR.AddDataInputsKeeps(p.w, d, data);
      var o := FullSerializer.AddDataInputs(p.w, data);
      if !o.Fail? {
        StillInputs(o.s, FR.WithDataInputs(d, data));
      }
    }
  }

  /** In the output stage the union tells whether a box was begun. */
  lemma Unfold(w: World, d: Draft)
    requires FR.Inv(w, d) && w.tx.state == OutputsStarted
    ensures w.tx.slot.InputSlot? ==> d.outputs == []
    ensures w.tx.slot.BoxSlot? ==>
              && d.outputs != []
              && BS.Invariant(BoxRunOf(w), FR.BoxBase(d), BS.Signing(d.inputs, Front(d.outputs)), Last(d.outputs))
    ensures w.tx.distinct == d.tokensCount == |d.ids| <= |w.amounts.table| && w.amounts.table[..|d.ids|] == d.ids
  {
  }

  lemma NewOutputKeeps(p: Operation, d: Draft, c: Command)
    requires Inv(p, d) && c.NewOutputBox?
    ensures StepOk(DoNewOutput(p, c), Record(d, c))
  {
    hide FR.Inv, BS.Invariant, FR.BoxBase;
    if p.state == InputsOpen || p.state == OutputsOpen {
      FR.AddBoxKeeps(p.w, d, c.value, c.treeSize, c.height, c.count, c.registersSize);
      var o := FullSerializer.AddBox(p.w, c.value, c.treeSize, c.height, c.count, c.registersSize);
      if o.Ok? {
        Unfold(p.w, d);
        var b := NewBox(c.value, c.treeSize, c.height, c.count, c.registersSize);
        NewOutputShows(p.w.amounts.table, b);
        assert forall k :: 0 <= k < |d.outputs| ==> Genuine(d.outputs[k]);
      }
    }
  }

  /** What a box message does to the output information and the table. */
  lemma BoxStepOutput(r: BS.Run, o: Outcome<BS.Run>, base: bytes, x: BS.Context, b: Box, b': Box)
    requires BS.Invariant(r, base, x, b) && r.l.Signer? && x.Signing?
    requires r.box.state != BS.BoxFinished && !o.Fail? && BS.StepOk(r, o, base, x, b')
    ensures !r.l.output.boxFinished && o.s.l.Signer? && o.s.l.amounts.table == r.l.amounts.table
    ensures o.s.l.output.(tokens := r.l.output.tokens)
         == (if o.s.box.state == BS.BoxFinished then SetBoxFinished(r.l.output) else r.l.output)
    ensures o.s.box.state == BS.BoxFinished <==> Complete(b')
  {
  }

  /** The messages after the tree: only the finishing of the box shows on the tree side. */
  lemma AfterTreeKeeps(p: Operation, d: Draft, o: Outcome<BS.Run>, b': Box)
    requires Inv(p, d) && p.state == OutputsOpen && p.w.tx.slot.box.state != BS.BoxFinished
    requires BS.StepOk(BoxRunOf(p.w), o, FR.BoxBase(d), BS.Signing(d.inputs, Front(d.outputs)), b')
    requires var b := Last(d.outputs); b'.tree == b.tree && b'.kind == b.kind && b'.treeDone == b.treeDone
    ensures StepOk(AcceptAndCheck(p, EndBoxStep(p.w, o)), FR.WithLastOutput(d, b'))
  {
    hide FR.Inv, BS.StepOk, BS.Invariant, FR.BoxBase;
    if o.Fail? { return; }
    var d' := FR.WithLastOutput(d, b');
    FR.EndBoxStepKeeps(p.w, d, o, b');
    Unfold(p.w, d);
    BoxStepOutput(BoxRunOf(p.w), o, FR.BoxBase(d), BS.Signing(d.inputs, Front(d.outputs)), Last(d.outputs), b');
    FinishShows(p.w.output, Last(d.outputs), b');
    LastGenuine(d, d', b');
  }

  lemma LastGenuine(d: Draft, d': Draft, b': Box)
    requires d.outputs != [] && d' == FR.WithLastOutput(d, b') && Genuine(b')
    requires forall k :: 0 <= k < |d.outputs| ==> Genuine(d.outputs[k])
    ensures forall k :: 0 <= k < |d'.outputs| ==> Genuine(d'.outputs[k])
  {
    assert forall k :: 0 <= k < |d.outputs| - 1 ==>
             d'.outputs[k] == Front(d'.outputs)[k] == Front(d.outputs)[k] == d.outputs[k];
  }

  lemma {:induction false} EntriesAgree(data: bytes, n: u8, ids: seq<bytes>, table: seq<bytes>)
    requires n <= |ids| <= |table| && table[..|ids|] == ids
    ensures BS.Entries(data, BS.TableIndexes(n, ids)) == BS.Entries(data, BS.TableIndexes(n, table))
    decreases |data|
  {
    assert BS.ReadEntry(data, BS.TableIndexes(n, ids)) == BS.ReadEntry(data, BS.TableIndexes(n, table)) by {
      assert forall i :: 0 <= i < |ids| ==> ids[i] == table[..|ids|][i];
    }
    if BS.ReadEntry(data, BS.TableIndexes(n, ids)).Ok? {
      EntriesAgree(data[12..], n, ids, table);
    }
  }

  lemma OutputTokensKeeps(p: Operation, d: Draft, data: bytes)
    requires Inv(p, d)
    ensures StepOk(DoOutputTokens(p, data), Record(d, OutputTokens(data)))
  {
    hide FR.Inv, BS.StepOk, BS.Invariant, FR.BoxBase;
    if p.state == OutputsOpen && p.w.tx.slot.box.state == BS.TreeAdded {
      var b := Last(d.outputs);
      Unfold(p.w, d);
      EntriesAgree(data, d.tokensCount, d.ids, p.w.amounts.table);
      BS.AddTokensKeeps(BoxRunOf(p.w), data, NamesOf(p.w), FR.BoxBase(d), BS.Signing(d.inputs, Front(d.outputs)), b);
      AfterTreeKeeps(p, d, BS.AddTokens(BoxRunOf(p.w), data, NamesOf(p.w)), BS.WithTokens(b, data, NamesOf(p.w)));
    }
  }

  lemma RegistersKeeps(p: Operation, d: Draft, data: bytes)
    requires Inv(p, d)
    ensures StepOk(DoRegisters(p, data), Record(d, Registers(data)))
  {
    hide FR.Inv, BS.StepOk, BS.Invariant, FR.BoxBase;
    if p.state == OutputsOpen && p.w.tx.slot.box.state == BS.TokensAdded {
      var b := Last(d.outputs);
      Unfold(p.w, d);
      BS.AddRegistersKeeps(BoxRunOf(p.w), data, FR.BoxBase(d), BS.Signing(d.inputs, Front(d.outputs)), b);
      AfterTreeKeeps(p, d, BS.AddRegisters(BoxRunOf(p.w), data), BS.WithRegisters(b, data));
    }
  }

  /** The tree side of the output information may change by itself. */
  lemma WithOutputKeeps(p: Operation, w: World, d: Draft, d': Draft, out: Output)
    requires InOutputs(p.w, d) && p.state == OutputsOpen
    requires FR.Inv(w, d') && d'.outputs != [] && d' == FR.WithLastOutput(d, Last(d'.outputs))
    requires (w.tx.state == OutputsStarted || w.tx.state == FullFinished) && w.tx.slot.BoxSlot?
    requires w.tx.distinct <= |w.amounts.table|
    requires out.value == w.output.value && out.tokens == w.output.tokens && out.boxFinished == w.output.boxFinished
    requires ShowsTree(out, Last(d'.outputs)) && Genuine(Last(d'.outputs))
    ensures StepOk(WithOutputInfo(p, w, Ok(out)), d')
  {
    hide FR.Inv;
    OutputIsFree(w, d', out);
    LastGenuine(d, d', Last(d'.outputs));
  }

  lemma OutputIsFree(w: World, d: Draft, out: Output)
    requires FR.Inv(w, d) && (w.tx.state == OutputsStarted || w.tx.state == FullFinished) && w.tx.slot.BoxSlot?
    requires out.value == w.output.value && out.tokens == w.output.tokens && out.boxFinished == w.output.boxFinished
    ensures FR.Inv(w.(output := out), d)
  {
    hide Balanced, BS.Matches, Emitted, FR.BoxBase, FR.Head3, FR.Head2, FR.Head1, FR.InputsWell;
    var b := Last(d.outputs);
    assert ShowsTokens(out, w.amounts.table, b);
  }

  lemma TreeNotDone(r: BS.Run, base: bytes, x: BS.Context, b: Box)
    requires BS.Invariant(r, base, x, b) && r.box.state == BS.Initialized
    ensures !b.treeDone && b.kind == TreeBox && (b.tree != [] ==> |b.tree| >= MAX_DATA_CHUNK_LEN)
  {
  }

  lemma TreeChunkKeeps(p: Operation, d: Draft, data: bytes)
    requires Inv(p, d)
    ensures StepOk(DoTreeChunk(p, data), Record(d, TreeChunk(data)))
  {
    hide FR.Inv, BS.StepOk, FR.BoxBase, BS.Invariant, ShowsTree, AddTreeChunk;
    if p.state == OutputsOpen && p.w.tx.slot.box.state == BS.Initialized {
      var b := Last(d.outputs);
      var b' := BS.WithChunk(b, data);
      var x := BS.Signing(d.inputs, Front(d.outputs));
      Unfold(p.w, d);
      TreeNotDone(BoxRunOf(p.w), FR.BoxBase(d), x, b);
      BS.AddTreeKeeps(BoxRunOf(p.w), data, FR.BoxBase(d), x, b);
      hide BS.AddTree;
      var o := BS.AddTree(BoxRunOf(p.w), data);
      if o.Fail? { return; }
      FR.EndBoxStepKeeps(p.w, d, o, b');
      BoxStepOutput(BoxRunOf(p.w), o, FR.BoxBase(d), x, b, b');
      var w' := EndBoxStep(p.w, o).s;
      TreeStillUnset(p.w.output, w'.output, b);
      AddTreeChunkShows(p.w.output, w'.output, b, data, b');
      WithOutputKeeps(p, w', d, FR.WithLastOutput(d, b'), AddTreeChunk(w'.output, data, b'.treeDone).s);
    }
  }

  lemma TreeStillUnset(o: Output, o': Output, b: Box)
    requires ShowsTree(o, b) && !b.treeDone
    requires o'.(tokens := o.tokens) == SetBoxFinished(o) || o'.(tokens := o.tokens) == o
    ensures o'.kind == o.kind && o'.treeSet == o.treeSet && o'.payload == o.payload
  {
  }

  /** The output information accepts a known tree only for a box without one, and shows it. */
  lemma KnownTreeShows(o: Output, o': Output, b: Box, kind: BoxKind, tree: bytes, path: seq<u32>)
    requires ShowsTree(o, b) && !b.treeDone
    requires o'.(tokens := o.tokens) == SetBoxFinished(o) || o'.(tokens := o.tokens) == o
    requires (kind == FeeBox && tree == ErgoTree.MINERS_FEE_TREE)
             || (kind == ChangeBox && ErgoTree.ParseP2pk(tree).Some?)
    ensures var r := if kind == FeeBox then SetFee(o') else SetBip32(o', path);
            r.Fail? ||
            (&& r.Ok? && ShowsTree(r.s, BS.WithTree(b, kind, tree)) && Genuine(BS.WithTree(b, kind, tree))
             && r.s.value == o'.value && r.s.tokens == o'.tokens && r.s.boxFinished == o'.boxFinished)
  {
    assert b.tree == [] ==> b.tree + tree == tree;
  }

  /** A fee or change tree is accepted only as the whole tree of its box. */
  lemma KnownTreeKeeps(p: Operation, d: Draft, kind: BoxKind, tree: bytes, path: seq<u32>)
    requires Inv(p, d) && p.state == OutputsOpen
    requires (kind == FeeBox && tree == ErgoTree.MINERS_FEE_TREE)
             || (kind == ChangeBox && ErgoTree.ParseP2pk(tree).Some?)
    ensures var e := FullSerializer.AddBoxKnownTree(p.w, kind, tree);
            e.Fail? ||
            (var i := if kind == FeeBox then SetFee(e.s.output) else SetBip32(e.s.output, path);
             StepOk(WithOutputInfo(p, e.s, i), WithLast(d, b => BS.WithTree(b, kind, tree))))
  {
    hide FR.Inv, BS.StepOk, FR.BoxBase, BS.Invariant;
    var e := FullSerializer.AddBoxKnownTree(p.w, kind, tree);
    if e.Fail? { return; }
    var o := if kind == FeeBox then SetFee(e.s.output) else SetBip32(e.s.output, path);
    if o.Fail? { return; }
    var b := Last(d.outputs);
    var b' := BS.WithTree(b, kind, tree);
    var x := BS.Signing(d.inputs, Front(d.outputs));
    Unfold(p.w, d);
    TreeNotDone(BoxRunOf(p.w), FR.BoxBase(d), x, b);
    BS.AddKnownTreeKeeps(BoxRunOf(p.w), kind, tree, FR.BoxBase(d), x, b);
    hide BS.AddKnownTree;
    var k := BS.AddKnownTree(BoxRunOf(p.w), kind, tree);
    FR.EndBoxStepKeeps(p.w, d, k, b');
    BoxStepOutput(BoxRunOf(p.w), k, FR.BoxBase(d), x, b, b');
    KnownTreeShows(p.w.output, e.s.output, b, kind, tree, path);
    hide ShowsTree, SetFee, SetBip32, EndBoxStep, Genuine;
    WithOutputKeeps(p, e.s, d, FR.WithLastOutput(d, b'), o.s);
  }

  lemma FeeTreeKeeps(p: Operation, d: Draft)
    requires Inv(p, d)
    ensures StepOk(DoFeeTree(p), Record(d, FeeTree))
  {
    hide InOutputs, FR.Inv;
    if p.state == OutputsOpen {
      KnownTreeKeeps(p, d, FeeBox, ErgoTree.MINERS_FEE_TREE, []);
    }
  }

  lemma ChangeTreeKeeps(p: Operation, d: Draft, path: seq<u32>, key: ErgoTree.RawPublicKey)
    requires Inv(p, d)
    ensures StepOk(DoChangeTree(p, path, key), Record(d, ChangeTree(path, key)))
  {
    hide InOutputs, FR.Inv;
    if p.state == OutputsOpen {
      ErgoTree.GenerateParse(key);
      KnownTreeKeeps(p, d, ChangeBox, ErgoTree.GenerateP2pk(key), path);
    }
  }

  lemma InputFrameKeeps(p: Operation, d: Draft, f: Frame, size: u32)
    requires Inv(p, d)
    ensures StepOk(DoInputFrame(p, f, size), Record(d, InputFrame(f, size)))
  {
    hide FR.Inv, DoNewInput, DoInputTokens, InOutputs;
    if f.index == 0 {
      NewInputKeeps(p, d, f, size);
      var o := DoNewInput(p, f, size);
      if o.Ok? {
        InputTokensKeeps(o.s, FR.WithNewInput(d, f.id, f.framesCount, size, f.value), f);
      }
    } else {
      InputTokensKeeps(p, d, f);
    }
  }

  lemma ConfirmKeeps(p: Operation, d: Draft)
    requires Inv(p, d)
    ensures StepOk(DoConfirm(p), d)
  {
    hide FR.Inv;
  }

  /** Every subcommand either fails or keeps the operation in step with the described transaction. */
  lemma ExecKeeps(p: Operation, d: Draft, c: Command)
    requires Inv(p, d)
    ensures StepOk(Exec(p, c), Record(d, c))
  {
    hide StepOk, FR.Inv;
    match c
    case StartTx(_, _, _, _) => StartKeeps(p, d, c);
    case TokenIds(data) => TokenIdsKeeps(p, d, data);
    case InputFrame(f, size) => InputFrameKeeps(p, d, f, size);
    case Extension(data) => ExtensionKeeps(p, d, data);
    case DataInputs(data) => DataInputsKeeps(p, d, data);
    case NewOutputBox(_, _, _, _, _) => NewOutputKeeps(p, d, c);
    case TreeChunk(data) => TreeChunkKeeps(p, d, data);
    case FeeTree => FeeTreeKeeps(p, d);
    case ChangeTree(path, key) => ChangeTreeKeeps(p, d, path, key);
    case OutputTokens(data) => OutputTokensKeeps(p, d, data);
    case Registers(data) => RegistersKeeps(p, d, data);
    case Confirm => ConfirmKeeps(p, d);
  }
}
