/**
 The transaction serializer by itself, from start to finish, called in any order its own states
 let through.  The signing operation adds nothing to what is hashed; it only makes sure that no
 box call comes before the first box.
 */
module SerializerRuns {
  import opened Bytes
  import opened TxTypes
  import opened Reference
  import opened OutputInfo
  import opened FullSerializer
  import opened Totals
  import Accounting
  import ErgoTree
  import FR = FullRefinement
  import BS = BoxSerializer
  import IS = InputSerializer
  import S = Signing
  import SR = SigningRefinement
  import T = Theorems

  predicate IsBoxCall(c: S.Command) {
    c.TreeChunk? || c.FeeTree? || c.ChangeTree? || c.OutputTokens? || c.Registers?
  }

  /** The call reads the union through the variant it holds; starting and confirming are not serializer calls. */
  predicate Callable(w: World, c: S.Command) {
    && !c.StartTx? && !c.Confirm? && InputSafe(w)
    && (w.tx.state == DataInputsStarted ==> w.tx.distinct <= |w.amounts.table|)
    && (IsBoxCall(c) ==> BoxSafe(w))
  }

  /** A frame: the first one opens an input, and its value is counted. */
  function ApplyFrame(w: World, f: Frame, size: u32): Outcome<World>
    requires InputSafe(w)
  {
    if f.index != 0 then AddInputTokens(w, f.id, f.index, f.pairs)
    else
      var o := AddInput(w, f.id, f.framesCount, size);
      if o.Fail? then o
      else
        var a := Accounting.AddInput(o.s.amounts, f.value);
        if a.Fail? then Fail(a.e) else AddInputTokens(o.s.(amounts := a.s), f.id, f.index, f.pairs)
  }

  /** One call, with what the listener does beside it. */
  function Apply(w: World, c: S.Command): Outcome<World>
    requires Callable(w, c)
  {
    match c
    case TokenIds(data) => AddTokens(w, data)
    case InputFrame(f, size) => ApplyFrame(w, f, size)
    case Extension(data) => AddExtension(w, data)
    case DataInputs(data) => AddDataInputs(w, data)
    case NewOutputBox(v, ts, h, n, rs) =>
      var o := AddBox(w, v, ts, h, n, rs);
      if o.Fail? then o else Ok(o.s.(output := NewOutput(v)))
    case TreeChunk(data) => AddBoxTree(w, data)
    case FeeTree => AddBoxKnownTree(w, FeeBox, ErgoTree.MINERS_FEE_TREE)
    case ChangeTree(_, key) => AddBoxKnownTree(w, ChangeBox, ErgoTree.GenerateP2pk(key))
    case OutputTokens(data) => AddBoxTokens(w, data)
    case Registers(data) => AddBoxRegisters(w, data)
  }

  /** The calls are all accepted and lead from `w` to `v`. */
  ghost predicate Reaches(w: World, calls: seq<S.Command>, v: World)
    decreases |calls|
  {
    if calls == [] then v == w
    else Callable(w, calls[0]) && !Apply(w, calls[0]).Fail? && Reaches(Apply(w, calls[0]).s, calls[1..], v)
  }

  /** In step with the described transaction, the only call that must not be made is a box call before the first box. */
  lemma OnlyBoxOrder(w: World, d: Draft, c: S.Command)
    requires FR.Inv(w, d) && !c.StartTx? && !c.Confirm?
    ensures Callable(w, c) <==> !(IsBoxCall(c) && w.tx.state == OutputsStarted && w.tx.slot.InputSlot?)
  {
    hide Accounting.Balanced, BS.Invariant, FR.BoxBase, FR.Head3, FR.Head2, FR.Head1, IS.Matches, FR.InputsWell;
  }

  lemma NoInputYet(w: World, d: Draft)
    requires FR.Inv(w, d) && w.tx.state == InputsStarted && d.inputs == []
    ensures w.tx.slot.InputSlot? && w.tx.slot.input.state == IS.InputFinished
  {
    hide Accounting.Balanced;
  }

  lemma InputTokensStep(w: World, d: Draft, f: Frame)
    requires FR.Inv(w, d) && InputSafe(w)
    requires f.index == 0 ==>
               d.inputs != [] && f.value == Last(d.inputs).value && f.framesCount == Last(d.inputs).framesCount
    ensures var o := AddInputTokens(w, f.id, f.index, f.pairs);
            o.Fail? || (d.inputs != [] && FR.Inv(o.s, FR.WithFrame(d, f)))
  {
    hide FR.Inv;
    if w.tx.state == InputsStarted {
      if d.inputs == [] {
        NoInputYet(w, d);
      } else {
        FR.AddInputTokensKeeps(w, d, f);
      }
    }
  }

  lemma FrameStep(w: World, d: Draft, f: Frame, size: u32)
    requires FR.Inv(w, d) && InputSafe(w)
    ensures var o := ApplyFrame(w, f, size); o.Fail? || FR.Inv(o.s, SR.Record(d, S.InputFrame(f, size)))
  {
    hide FR.Inv, AddInputTokens;
    if f.index != 0 {
      InputTokensStep(w, d, f);
    } else {
      FR.AddInputKeeps(w, d, f.id, f.framesCount, size, f.value);
      var o := AddInput(w, f.id, f.framesCount, size);
      if !o.Fail? {
        var a := Accounting.AddInput(o.s.amounts, f.value);
        if !a.Fail? {
          InputTokensStep(o.s.(amounts := a.s), FR.WithNewInput(d, f.id, f.framesCount, size, f.value), f);
        }
      }
    }
  }

  lemma ExtensionStep(w: World, d: Draft, data: bytes)
    requires FR.Inv(w, d) && InputSafe(w)
    ensures var o := AddExtension(w, data); o.Fail? || FR.Inv(o.s, SR.Record(d, S.Extension(data)))
  {
    hide FR.Inv;
    if w.tx.state == InputsStarted {
      if d.inputs == [] {
        NoInputYet(w, d);
      } else {
        FR.AddExtensionKeeps(w, d, data);
      }
    }
  }

  /** The box calls, once a box was begun. */
  lemma BoxStep(w: World, d: Draft, c: S.Command)
    requires FR.Inv(w, d) && Callable(w, c) && IsBoxCall(c)
    ensures var o := Apply(w, c); o.Fail? || FR.Inv(o.s, SR.Record(d, c))
  {
    hide FR.Inv, AddBoxTree, AddBoxKnownTree, AddBoxTokens, AddBoxRegisters;
    if w.tx.state != OutputsStarted {
      NotOpen(w, c);
      return;
    }
    SR.Unfold(w, d);
    match c
    case TreeChunk(data) => FR.AddBoxTreeKeeps(w, d, data);
    case FeeTree => FR.AddBoxKnownTreeKeeps(w, d, FeeBox, ErgoTree.MINERS_FEE_TREE);
    case ChangeTree(_, key) => FR.AddBoxKnownTreeKeeps(w, d, ChangeBox, ErgoTree.GenerateP2pk(key));
    case OutputTokens(data) =>
      SR.EntriesAgree(data, d.tokensCount, d.ids, w.amounts.table);
      FR.AddBoxTokensKeeps(w, d, data);
    case Registers(data) => FR.AddBoxRegistersKeeps(w, d, data);
  }

  lemma NotOpen(w: World, c: S.Command)
    requires Callable(w, c) && IsBoxCall(c) && w.tx.state != OutputsStarted
    ensures Apply(w, c) == Fail(BadState)
  {
  }

  /** Every accepted call keeps the serializer in step with the described transaction. */
  lemma ApplyKeeps(w: World, d: Draft, c: S.Command)
    requires FR.Inv(w, d) && Callable(w, c)
    ensures var o := Apply(w, c); o.Fail? || FR.Inv(o.s, SR.Record(d, c))
  {
    if IsBoxCall(c) {
      hide FR.Inv, Apply, Callable, SR.Record;
      BoxStep(w, d, c);
      return;
    }
    hide FR.Inv, AddTokens, ApplyFrame, AddExtension, AddDataInputs, AddBox;
    match c
    case TokenIds(data) => FR.AddTokensKeeps(w, d, data);
    case InputFrame(f, size) => FrameStep(w, d, f, size);
    case Extension(data) => ExtensionStep(w, d, data);
    case DataInputs(data) => FR.AddDataInputsKeeps(w, d, data);
    case NewOutputBox(v, ts, h, n, rs) => FR.AddBoxKeeps(w, d, v, ts, h, n, rs);
    case _ =>
  }

  lemma {:induction false} ReachesKeeps(w: World, d: Draft, calls: seq<S.Command>, v: World)
    requires FR.Inv(w, d) && Reaches(w, calls, v)
    ensures FR.Inv(v, T.RecordAll(d, calls))
    decreases |calls|
  {
    hide FR.Inv, Apply, Callable, SR.Record;
    if calls != [] {
      ApplyKeeps(w, d, calls[0]);
      ReachesKeeps(Apply(w, calls[0]).s, SR.Record(d, calls[0]), calls[1..], v);
    }
  }

  /**
   Every run of the serializer from its start to FINISHED has hashed exactly the serialization
   of the transaction described by its calls if and only if no box was opened before the one
   before it was complete; all counters are then zero and the totals are exact.
   */
  lemma FromStartToFinish(
      base: bytes, inputs: u16, dataInputs: u16, outputs: u16, tokens: u8, out: Output, calls: seq<S.Command>, v: World)
    requires var o := Init(inputs, dataInputs, outputs, tokens, base, []);
             o.Ok? && Reaches(World(o.s.0, o.s.1, Accounting.Zero(), out), calls, v) && v.tx.state == FullFinished
    ensures var d := T.RecordAll(Draft(base, inputs, dataInputs, tokens, outputs, [], [], [], []), calls);
            && v.tx.inputsCount == 0 && v.tx.dataInputsCount == 0 && v.tx.outputsCount == 0 && T.AllArrived(d)
            && (v.log == d.base + TxBytes(Final(d)) <==> |d.outputs| == d.outputsCount)
            && Accounting.Balanced(v.amounts, Counted(d))
  {
    var d0 := Draft(base, inputs, dataInputs, tokens, outputs, [], [], [], []);
    FR.InitKeeps(d0, Accounting.Zero(), out);
    var o := Init(inputs, dataInputs, outputs, tokens, base, []);
    hide Init, Reaches, T.RecordAll, TxBytes, Accounting.Zero, T.AllArrived;
    ReachesKeeps(World(o.s.0, o.s.1, Accounting.Zero(), out), d0, calls, v);
    T.IdsStay(v, T.RecordAll(d0, calls));
    T.FinishedBytes(v, T.RecordAll(d0, calls));
  }
}
