/**
 The transaction serializer refines the reference: at every moment the hasher holds exactly
 the bytes that the part of the transaction received so far determines, the counters say
 what is missing, and the totals are the exact sums.
 */
module FullRefinement {
  import opened Bytes
  import opened Gve
  import opened TxTypes
  import opened Accounting
  import opened Reference
  import opened OutputInfo
  import opened FullSerializer
  import BS = BoxSerializer
  import IS = InputSerializer

  // ---------- what is hashed up to each stage ----------

  function Head0(d: Draft): bytes {
    d.base + Vlq(d.inputsCount)
  }

  function Head1(d: Draft): bytes {
    Head0(d) + InputsEmitted(d.inputs)
  }

  function Head2(d: Draft): bytes {
    Head1(d) + Vlq(d.dataInputsCount) + Flatten(d.dataInputs)
  }

  function Head3(d: Draft): bytes {
    Head2(d) + Vlq(d.tokensCount) + Flatten(d.ids) + Vlq(d.outputsCount)
  }

  /** The bytes before the last output. */
  function BoxBase(d: Draft): bytes
    requires d.outputs != []
  {
    Head3(d) + BoxesEmitted(Front(d.outputs))
  }

  // ---------- the coupling, stage by stage ----------

  /** The announced ids are frozen at the front of the table. */
  ghost predicate IdsKnown(w: World, d: Draft) {
    |d.ids| == d.tokensCount <= |w.amounts.table| && w.amounts.table[..d.tokensCount] == d.ids
  }

  ghost predicate InputsWell(inputs: seq<Input>) {
    CompleteInputs(inputs) == |inputs| && forall k :: 0 <= k < |inputs| ==> IS.WellFormed(inputs[k])
  }

  ghost predicate AtTokens(w: World, d: Draft) {
    && w.log == Head0(d) && w.amounts.table == d.ids && |d.ids| < d.tokensCount
    && d.inputs == [] && d.dataInputs == [] && d.outputs == []
    && w.tx.inputsCount == d.inputsCount && w.tx.dataInputsCount == d.dataInputsCount
    && w.tx.outputsCount == d.outputsCount && w.tx.slot.InputSlot?
  }

  ghost predicate AtInputs(w: World, d: Draft) {
    && w.log == Head1(d) && IdsKnown(w, d)
    && d.dataInputs == [] && d.outputs == []
    && w.tx.dataInputsCount == d.dataInputsCount && w.tx.outputsCount == d.outputsCount
    && w.tx.slot.InputSlot?
    && w.tx.inputsCount == d.inputsCount - CompleteInputs(d.inputs) > 0
    && (d.inputs == [] ==> w.tx.slot.input.state == IS.InputFinished)
    && (d.inputs != [] ==> IS.Matches(w.tx.slot.input, Last(d.inputs)) && InputsWell(Front(d.inputs)))
  }

  ghost predicate AllInputs(w: World, d: Draft) {
    |d.inputs| == d.inputsCount && InputsWell(d.inputs) && w.tx.inputsCount == 0
  }

  ghost predicate AtDataInputs(w: World, d: Draft) {
    && w.log == Head2(d) && IdsKnown(w, d) && AllInputs(w, d)
    && w.tx.dataInputsCount == d.dataInputsCount - |d.dataInputs| > 0
    && d.outputs == [] && w.tx.outputsCount == d.outputsCount && w.tx.slot.InputSlot?
  }

  ghost predicate BeforeOutputs(w: World, d: Draft) {
    IdsKnown(w, d) && AllInputs(w, d) && |d.dataInputs| == d.dataInputsCount && w.tx.dataInputsCount == 0
  }

  /** The box in the union is the last output, received as far as its context says. */
  ghost predicate InBox(w: World, d: Draft) {
    && d.outputs != [] && w.tx.slot.BoxSlot?
    && BS.Invariant(BoxRunOf(w), BoxBase(d), BS.Signing(d.inputs, Front(d.outputs)), Last(d.outputs))
  }

  ghost predicate AtOutputs(w: World, d: Draft) {
    && BeforeOutputs(w, d)
    && w.tx.outputsCount == d.outputsCount - CompleteBoxes(d.outputs) > 0
    && if w.tx.slot.InputSlot? then w.log == Head3(d) && d.outputs == [] else InBox(w, d)
  }

  ghost predicate AtEnd(w: World, d: Draft) {
    && BeforeOutputs(w, d) && InBox(w, d)
    && w.tx.outputsCount == 0 == d.outputsCount - CompleteBoxes(d.outputs)
    && w.tx.slot.box.state == BS.BoxFinished
  }

  ghost predicate Inv(w: World, d: Draft) {
    && d.inputsCount > 0 && d.outputsCount > 0 && w.tx.distinct == d.tokensCount
    && Balanced(w.amounts, Counted(d))
    && match w.tx.state
       case TokensStarted => AtTokens(w, d)
       case InputsStarted => AtInputs(w, d)
       case DataInputsStarted => AtDataInputs(w, d)
       case OutputsStarted => AtOutputs(w, d)
       case FullFinished => AtEnd(w, d)
       case FullError => false
  }

  // ---------- the reference side of each message ----------

  function WithIds(d: Draft, data: bytes): Draft {
    d.(ids := d.ids + Pieces(data, ID_LEN))
  }

  function WithNewInput(d: Draft, id: bytes, framesCount: u8, extensionSize: u32, value: u64): Draft {
    d.(inputs := d.inputs + [NewInput(id, framesCount, extensionSize, value)])
  }

  function WithFrame(d: Draft, f: Frame): Draft
    requires d.inputs != []
  {
    d.(inputs := SetLast(d.inputs, IS.WithFrame(Last(d.inputs), f)))
  }

  function WithExtension(d: Draft, chunk: bytes): Draft
    requires d.inputs != []
  {
    d.(inputs := SetLast(d.inputs, IS.WithExtension(Last(d.inputs), chunk)))
  }

  function WithDataInputs(d: Draft, data: bytes): Draft {
    d.(dataInputs := d.dataInputs + Pieces(data, ID_LEN))
  }

  function WithOutput(d: Draft, b: Box): Draft {
    d.(outputs := d.outputs + [b])
  }

  function WithLastOutput(d: Draft, b: Box): Draft
    requires d.outputs != []
  {
    d.(outputs := SetLast(d.outputs, b))
  }

  // ---------- start and token ids ----------

  lemma InitKeeps(d: Draft, a: Amounts, out: Output)
    requires a == Zero()
    requires d.ids == [] && d.inputs == [] && d.dataInputs == [] && d.outputs == []
    ensures var o := Init(d.inputsCount, d.dataInputsCount, d.outputsCount, d.tokensCount, d.base, a.table);
            o.Fail? || (o.Ok? && Inv(World(o.s.0, o.s.1, a, out), d))
  {
    ZeroBalanced(a);
    assert Counted(d) == EMPTY;
    assert Head0(d) + [] == Head0(d);
  }

  lemma {:induction false} TableLoopAppends(table: seq<bytes>, distinct: TokenCount, data: bytes)
    ensures var o := TableLoop(table, distinct, data); o.Fail? || (o.Ok? && o.s == table + Pieces(data, ID_LEN))
    decreases |data|
  {
    if data == [] {
      assert table + [] == table;
    } else if |table| < distinct && |data| >= ID_LEN {
      TableLoopAppends(table + [data[..ID_LEN]], distinct, data[ID_LEN..]);
      assert table + [data[..ID_LEN]] + Pieces(data[ID_LEN..], ID_LEN) == table + Pieces(data, ID_LEN);
    }
  }

  lemma NoTokensBalanced(a: Amounts, table: seq<bytes>)
    requires |table| <= TOKEN_MAX_COUNT && Balanced(a, EMPTY)
    ensures Balanced(a.(table := table), EMPTY)
  {
    var b := a.(table := table);
    forall i | 0 <= i < TOKEN_MAX_COUNT
      ensures b.tokens[i] == BalanceAt(table, EMPTY, i)
    {
      assert a.tokens[i] == BalanceAt(a.table, EMPTY, i) == 0;
    }
  }

  lemma AddTokensKeeps(w: World, d: Draft, data: bytes)
    requires Inv(w, d)
    ensures var o := AddTokens(w, data); o.Fail? || Inv(o.s, WithIds(d, data))
  {
    if w.tx.state != TokensStarted { return; }
    TableLoopAppends(w.amounts.table, w.tx.distinct, data);
    var t := TableLoop(w.amounts.table, w.tx.distinct, data);
    if t.Ok? {
      NoTokensBalanced(w.amounts, t.s);
      assert t.s[..|t.s|] == t.s;
      assert Head0(d) + [] == Head0(d);
    }
  }

  // ---------- inputs ----------

  lemma AddInputKeeps(w: World, d: Draft, id: bytes, framesCount: u8, extensionSize: u32, value: u64)
    requires Inv(w, d) && InputSafe(w)
    ensures var o := FullSerializer.AddInput(w, id, framesCount, extensionSize);
            o.Fail? ||
            (var a := Accounting.AddInput(o.s.amounts, value);
             a.Fail? || Inv(o.s.(amounts := a.s), WithNewInput(d, id, framesCount, extensionSize, value)))
  {
    var o := FullSerializer.AddInput(w, id, framesCount, extensionSize);
    if o.Fail? { return; }
    var d' := WithNewInput(d, id, framesCount, extensionSize, value);
    Accounting.AddInputKeeps(w.amounts, Counted(d), value);
    NewInputChanges(d, d', Last(d'.inputs));
    BetweenInputs(w, d);
    assert IS.Matches(o.s.tx.slot.input, Last(d'.inputs));
  }

  lemma BetweenInputs(w: World, d: Draft)
    requires AtInputs(w, d) && w.tx.slot.input.state == IS.InputFinished
    ensures InputsWell(d.inputs)
  {
    if d.inputs != [] {
      CompletePrefix(d.inputs);
    }
  }

  lemma NewInputChanges(d: Draft, d': Draft, i: Input)
    requires d' == d.(inputs := d.inputs + [i]) && i.frames == [] && i.tokens == []
    ensures Counted(d') == Counted(d).(inValues := Counted(d).inValues + [i.value])
    ensures Head1(d') == Head1(d) && Front(d'.inputs) == d.inputs
    ensures CompleteInputs(d'.inputs) == CompleteInputs(d.inputs)
  {
    assert Front(d'.inputs) == d.inputs;
    assert InputTokens(d.inputs) + [] == InputTokens(d.inputs);
    assert InputsEmitted(d.inputs) + [] == InputsEmitted(d.inputs);
  }

  lemma CompletePrefix(inputs: seq<Input>)
    requires inputs != [] && InputsWell(Front(inputs)) && IS.WellFormed(Last(inputs))
    ensures InputComplete(Last(inputs)) ==> InputsWell(inputs)
    ensures CompleteInputs(inputs) == |inputs| - (if InputComplete(Last(inputs)) then 0 else 1)
  {
    assert forall k :: 0 <= k < |inputs| - 1 ==> inputs[k] == Front(inputs)[k];
  }

  /** Everything at the end of an input, before it is counted. */
  ghost predicate InputDone(w: World, d: Draft) {
    && d.inputsCount > 0 && d.outputsCount > 0 && w.tx.distinct == d.tokensCount
    && w.tx.state == InputsStarted && Balanced(w.amounts, Counted(d)) && w.log == Head1(d) && IdsKnown(w, d)
    && d.dataInputs == [] && d.outputs == []
    && w.tx.dataInputsCount == d.dataInputsCount && w.tx.outputsCount == d.outputsCount
    && w.tx.slot.InputSlot? && d.inputs != [] && InputsWell(d.inputs)
    && w.tx.inputsCount == d.inputsCount - |d.inputs| + 1 > 0
    && IS.Matches(w.tx.slot.input, Last(d.inputs))
  }

  lemma InputFinishedKeeps(w: World, d: Draft)
    requires InputDone(w, d)
    ensures Inv(InputFinished(w), d)
  {
    assert InputsWell(Front(d.inputs)) by {
      assert forall k :: 0 <= k < |d.inputs| - 1 ==> d.inputs[k] == Front(d.inputs)[k];
    }
    assert Head1(d) + Vlq(d.dataInputsCount) + [] == Head1(d) + Vlq(d.dataInputsCount);
    if w.tx.inputsCount == 1 && w.tx.dataInputsCount == 0 {
      var v := w.(tx := w.tx.(inputsCount := 0, state := DataInputsStarted), log := w.log + Vlq(w.tx.dataInputsCount));
      DataInputsFinishedKeeps(v, d);
    }
  }

  /** The table is hashed as announced, whatever input tokens were appended behind it. */
  lemma DataInputsFinishedKeeps(w: World, d: Draft)
    requires d.inputsCount > 0 && d.outputsCount > 0 && w.tx.distinct == d.tokensCount
    requires Balanced(w.amounts, Counted(d)) && w.log == Head2(d) && BeforeOutputs(w, d)
    requires d.outputs == [] && w.tx.outputsCount == d.outputsCount && w.tx.slot.InputSlot?
    ensures Inv(DataInputsFinished(w), d)
  {
  }

  /** The inputs change in the last place only. */
  lemma LastInputChanges(d: Draft, d': Draft, i': Input)
    requires d.inputs != [] && d' == d.(inputs := SetLast(d.inputs, i'))
    ensures InputsEmitted(d'.inputs) == InputsEmitted(Front(d.inputs)) + InputEmitted(i')
    ensures InputTokens(d'.inputs) == InputTokens(Front(d.inputs)) + i'.tokens
    ensures InputValues(d'.inputs) == InputValues(Front(d.inputs)) + [i'.value]
  {
  }

  lemma AddInputTokensKeeps(w: World, d: Draft, f: Frame)
    requires Inv(w, d) && InputSafe(w) && w.tx.state == InputsStarted && d.inputs != []
    requires f.index == 0 ==> f.value == Last(d.inputs).value && f.framesCount == Last(d.inputs).framesCount
    ensures var o := AddInputTokens(w, f.id, f.index, f.pairs); o.Fail? || Inv(o.s, WithFrame(d, f))
  {
    var o := AddInputTokens(w, f.id, f.index, f.pairs);
    if o.Fail? { return; }
    var i := Last(d.inputs);
    var d' := WithFrame(d, f);
    var i' := Last(d'.inputs);
    var base := Head0(d) + InputsEmitted(Front(d.inputs));
    LastInputChanges(d, d', i');
    assert w.log == base + InputEmitted(i);
    IS.AddTokensKeeps(InputRunOf(w), f, base, i);
    IS.PairLoopKeeps(w.amounts, Counted(d), f.pairs);
    var r := IS.AddTokens(InputRunOf(w), f.id, f.index, f.pairs).s;
    FrameBooks(d, f);
    AfterInputKeeps(w, d, d', r);
  }

  lemma FrameBooks(d: Draft, f: Frame)
    requires d.inputs != []
    ensures Counted(WithFrame(d, f)) == Counted(d).(inTokens := Counted(d).inTokens + TokenPairs(f.pairs))
  {
    var i := Last(d.inputs);
    LastInputChanges(d, WithFrame(d, f), IS.WithFrame(i, f));
    assert InputTokens(Front(d.inputs)) + (i.tokens + TokenPairs(f.pairs))
        == InputTokens(Front(d.inputs)) + i.tokens + TokenPairs(f.pairs);
  }

  /** An input message accepted by the input serializer. */
  ghost predicate InputStep(w: World, d: Draft, d': Draft, r: IS.InputRun) {
    && Inv(w, d) && w.tx.state == InputsStarted && d.inputs != []
    && d'.inputs != [] && d' == d.(inputs := SetLast(d.inputs, Last(d'.inputs)))
    && w.tx.slot.input.state != IS.InputFinished
    && IS.Matches(r.input, Last(d'.inputs))
    && r.log == Head0(d) + InputsEmitted(Front(d.inputs)) + InputEmitted(Last(d'.inputs))
    && Balanced(r.amounts, Counted(d')) && w.amounts.table <= r.amounts.table
  }

  lemma InputStepFacts(w: World, d: Draft, d': Draft, r: IS.InputRun)
    requires InputStep(w, d, d', r)
    ensures Front(d'.inputs) == Front(d.inputs) && AfterInput(w, r).log == Head1(d')
    ensures IdsKnown(AfterInput(w, r), d')
    ensures w.tx.inputsCount == d.inputsCount - |d.inputs| + 1
    ensures InputsWell(Front(d'.inputs))
    ensures InputComplete(Last(d'.inputs)) <==> r.input.state == IS.InputFinished
    ensures r.input.state == IS.InputFinished ==> InputsWell(d'.inputs)
    ensures CompleteInputs(d'.inputs) == |d.inputs| - (if r.input.state == IS.InputFinished then 0 else 1)
  {
    LastInputChanges(d, d', Last(d'.inputs));
    CompletePrefix(d.inputs);
    CompletePrefix(d'.inputs);
    Assoc(Head0(d), InputsEmitted(Front(d.inputs)), InputEmitted(Last(d'.inputs)));
    assert r.amounts.table[..d.tokensCount] == w.amounts.table[..d.tokensCount];
  }

  /** The common end of the two input messages. */
  lemma AfterInputKeeps(w: World, d: Draft, d': Draft, r: IS.InputRun)
    requires InputStep(w, d, d', r)
    ensures var v := AfterInput(w, r);
            Inv(if r.input.state == IS.InputFinished then InputFinished(v) else v, d')
  {
    InputStepFacts(w, d, d', r);
    if r.input.state == IS.InputFinished {
      InputFinishedKeeps(AfterInput(w, r), d');
    }
  }

  lemma AddExtensionKeeps(w: World, d: Draft, chunk: bytes)
    requires Inv(w, d) && InputSafe(w) && w.tx.state == InputsStarted && d.inputs != []
    ensures var o := AddExtension(w, chunk); o.Fail? || Inv(o.s, WithExtension(d, chunk))
  {
    var o := AddExtension(w, chunk);
    if o.Fail? { return; }
    var i := Last(d.inputs);
    var d' := WithExtension(d, chunk);
    LastInputChanges(d, d', Last(d'.inputs));
    var base := Head0(d) + InputsEmitted(Front(d.inputs));
    assert w.log == base + InputEmitted(i);
    IS.AddExtensionKeeps(InputRunOf(w), chunk, base, i);
    assert Counted(d') == Counted(d);
    AfterInputKeeps(w, d, d', IS.AddExtension(InputRunOf(w), chunk).s);
  }

  // ---------- data inputs ----------

  lemma {:induction false} DataInputLoopWrites(w: World, data: bytes)
    ensures var o := DataInputLoop(w, data);
            o.Fail? || (&& o.Ok? && o.s.log == w.log + Flatten(Pieces(data, ID_LEN))
                        && o.s.tx.dataInputsCount == w.tx.dataInputsCount - |Pieces(data, ID_LEN)|)
    decreases |data|
  {
    if data == [] {
      assert w.log + [] == w.log;
    } else if w.tx.dataInputsCount != 0 && |data| >= ID_LEN {
      var w1 := w.(tx := w.tx.(dataInputsCount := w.tx.dataInputsCount - 1), log := w.log + data[..ID_LEN]);
      DataInputLoopWrites(w1, data[ID_LEN..]);
      FlattenCons(data[..ID_LEN], Pieces(data[ID_LEN..], ID_LEN));
      var rest := Flatten(Pieces(data[ID_LEN..], ID_LEN));
      assert w.log + data[..ID_LEN] + rest == w.log + (data[..ID_LEN] + rest);
    }
  }

  lemma {:induction false} FlattenCons(x: bytes, parts: seq<bytes>)
    ensures Flatten([x] + parts) == x + Flatten(parts)
  {
    if parts == [] {
      assert [x] + parts == [x] && Front([x]) == [];
      assert Flatten([x]) == [] + x == x + [];
    } else {
      FlattenCons(x, Front(parts));
      assert Front([x] + parts) == [x] + Front(parts);
      assert x + Flatten(Front(parts)) + Last(parts) == x + (Flatten(Front(parts)) + Last(parts));
    }
  }

  lemma {:induction false} FlattenAppend(a: seq<bytes>, b: seq<bytes>)
    ensures Flatten(a + b) == Flatten(a) + Flatten(b)
  {
    if b == [] {
      assert a + b == a && Flatten(a) + [] == Flatten(a);
    } else {
      FlattenAppend(a, Front(b));
      assert Front(a + b) == a + Front(b);
      assert Flatten(a) + Flatten(Front(b)) + Last(b) == Flatten(a) + (Flatten(Front(b)) + Last(b));
    }
  }

  lemma DataInputsLog(d: Draft, data: bytes)
    ensures Head2(WithDataInputs(d, data)) == Head2(d) + Flatten(Pieces(data, ID_LEN))
  {
    FlattenAppend(d.dataInputs, Pieces(data, ID_LEN));
    Assoc(Head1(d) + Vlq(d.dataInputsCount), Flatten(d.dataInputs), Flatten(Pieces(data, ID_LEN)));
  }

  lemma AddDataInputsKeeps(w: World, d: Draft, data: bytes)
    requires Inv(w, d)
    ensures w.tx.state == DataInputsStarted ==> w.tx.distinct <= |w.amounts.table|
    ensures var o := AddDataInputs(w, data); o.Fail? || Inv(o.s, WithDataInputs(d, data))
  {
    if w.tx.state != DataInputsStarted { return; }
    hide Balanced, InputsWell, Head2, DataInputLoop, DataInputsFinished, Flatten, Pieces;
    DataInputLoopFrame(w, data);
    DataInputLoopWrites(w, data);
    var o := DataInputLoop(w, data);
    if o.Fail? { return; }
    var d' := WithDataInputs(d, data);
    DataInputsLog(d, data);
    if o.s.tx.dataInputsCount == 0 {
      DataInputsFinishedKeeps(o.s, d');
    }
  }

  // ---------- outputs ----------

  lemma BooksOf(d: Draft)
    requires d.outputs != []
    ensures BS.Books(d.inputs, Front(d.outputs) + [Last(d.outputs)]) == Counted(d)
  {
    assert Front(d.outputs) + [Last(d.outputs)] == d.outputs;
  }

  lemma NewBoxChanges(d: Draft, d': Draft, b: Box)
    requires d' == d.(outputs := d.outputs + [b]) && !b.treeDone && b.entries == []
    ensures Counted(d') == Counted(d) && CompleteBoxes(d'.outputs) == CompleteBoxes(d.outputs)
    ensures BoxBase(d') == Head3(d) + BoxesEmitted(d.outputs)
  {
    assert Front(d'.outputs) == d.outputs;
    assert BoxTokens(d.outputs) + TokensOf(b.entries) == BoxTokens(d.outputs);
    assert BoxValues(d.outputs) + [] == BoxValues(d.outputs);
  }

  lemma AllBoxBytes(w: World, d: Draft)
    requires AtOutputs(w, d)
    ensures w.log == Head3(d) + BoxesEmitted(d.outputs)
  {
    if w.tx.slot.InputSlot? {
      assert Head3(d) + [] == Head3(d);
    } else {
      Assoc(Head3(d), BoxesEmitted(Front(d.outputs)), Emitted(Last(d.outputs)));
    }
  }

  /** A new box; the output information is started over for it. */
  lemma AddBoxKeeps(w: World, d: Draft, value: u64, treeSize: u32, height: u32, tokensCount: u8, registersSize: u32)
    requires Inv(w, d)
    ensures var o := AddBox(w, value, treeSize, height, tokensCount, registersSize);
            o.Fail? || Inv(o.s.(output := NewOutput(value)),
                           WithOutput(d, NewBox(value, treeSize, height, tokensCount, registersSize)))
  {
    var o := AddBox(w, value, treeSize, height, tokensCount, registersSize);
    if o.Fail? { return; }
    var b := NewBox(value, treeSize, height, tokensCount, registersSize);
    var d' := WithOutput(d, b);
    var v := o.s.(output := NewOutput(value));
    NewBoxChanges(d, d', b);
    NewInBox(w, d, v, d', b);
    StillOutputs(w, d, v, d');
  }

  lemma StillOutputs(w: World, d: Draft, v: World, d': Draft)
    requires Inv(w, d) && w.tx.state == OutputsStarted
    requires v.tx == w.tx.(slot := v.tx.slot) && v.amounts == w.amounts && InBox(v, d')
    requires d' == d.(outputs := d'.outputs)
    requires Counted(d') == Counted(d) && CompleteBoxes(d'.outputs) == CompleteBoxes(d.outputs)
    ensures Inv(v, d')
  {
  }

  lemma NewInBox(w: World, d: Draft, v: World, d': Draft, b: Box)
    requires AtOutputs(w, d) && Balanced(w.amounts, Counted(d)) && d' == d.(outputs := d.outputs + [b])
    requires b == NewBox(b.value, b.treeSize, b.height, b.tokensCount, b.registersSize)
    requires var i := BS.Init(b.value, b.treeSize, b.height, b.tokensCount, b.registersSize, w.log);
             i.Ok? && v == World(w.tx.(slot := BoxSlot(i.s.0)), i.s.1, w.amounts, NewOutput(b.value))
    ensures InBox(v, d')
  {
    AllBoxBytes(w, d);
    NewBoxChanges(d, d', b);
    BS.InitKeeps(b.value, b.treeSize, b.height, b.tokensCount, b.registersSize, w.log);
    NewBoxCounted(w, d, d', b);
  }

  lemma NewBoxCounted(w: World, d: Draft, d': Draft, b: Box)
    requires Balanced(w.amounts, Counted(d)) && d' == d.(outputs := d.outputs + [b])
    requires !b.treeDone && b.entries == [] && b.tree == []
    ensures Front(d'.outputs) == d.outputs && Last(d'.outputs) == b
    ensures BS.Counted(BS.Signer(w.amounts, NewOutput(b.value)), BS.Signing(d.inputs, d.outputs), b, false)
  {
    NewBoxChanges(d, d', b);
    BooksOf(d');
    NewOutputShows(w.amounts.table, b);
  }

  lemma LastBoxChanges(d: Draft, d': Draft, b': Box)
    requires d.outputs != [] && d' == d.(outputs := SetLast(d.outputs, b'))
    ensures BoxBase(d') == BoxBase(d)
    ensures CompleteBoxes(d'.outputs) == CompleteBoxes(Front(d.outputs)) + (if Complete(b') then 1 else 0)
  {
  }

  /** The common end of the box messages. */
  lemma EndBoxStepKeeps(w: World, d: Draft, o: Outcome<BS.Run>, b': Box)
    requires Inv(w, d) && w.tx.state == OutputsStarted && w.tx.slot.BoxSlot?
    requires w.tx.slot.box.state != BS.BoxFinished
    requires BS.StepOk(BoxRunOf(w), o, BoxBase(d), BS.Signing(d.inputs, Front(d.outputs)), b')
    ensures var e := EndBoxStep(w, o); e.Fail? || Inv(e.s, WithLastOutput(d, b'))
  {
    if o.Fail? { return; }
    var d' := WithLastOutput(d, b');
    var v := AfterBox(w, o.s);
    LastBoxChanges(d, d', b');
    assert InBox(v, d') && Balanced(v.amounts, Counted(d')) && v.amounts.table == w.amounts.table by {
      assert BoxRunOf(v) == o.s;
      BooksOf(d');
    }
    NotComplete(w.tx.slot.box, Last(d.outputs));
    NotComplete(o.s.box, b');
    CountBox(v, d', w, d);
  }

  /** Counting a box that was just completed. */
  lemma CountBox(v: World, d': Draft, w: World, d: Draft)
    requires AtOutputs(w, d) && w.tx.slot.BoxSlot? && d.outputsCount > 0 && w.tx.state == OutputsStarted
    requires d'.outputs != [] && d' == d.(outputs := SetLast(d.outputs, Last(d'.outputs)))
    requires !Complete(Last(d.outputs)) && d.inputsCount > 0
    requires InBox(v, d') && v.tx == w.tx.(slot := v.tx.slot) && v.amounts.table == w.amounts.table
    requires v.tx.slot.box.state == BS.BoxFinished <==> Complete(Last(d'.outputs))
    requires Balanced(v.amounts, Counted(d')) && w.tx.distinct == d.tokensCount
    ensures Inv(if v.tx.slot.box.state == BS.BoxFinished then OutputFinished(v) else v, d')
  {
    LastBoxChanges(d, d', Last(d'.outputs));
    assert BoxRunOf(OutputFinished(v)) == BoxRunOf(v);
  }

  lemma NotComplete(c: BS.BoxCtx, b: Box)
    requires BS.Matches(c, b)
    ensures c.state == BS.BoxFinished <==> Complete(b)
  {
  }

  lemma AddBoxTreeKeeps(w: World, d: Draft, chunk: bytes)
    requires Inv(w, d) && BoxSafe(w) && w.tx.state == OutputsStarted
    ensures var o := AddBoxTree(w, chunk);
            o.Fail? || Inv(o.s, WithLastOutput(d, BS.WithChunk(Last(d.outputs), chunk)))
  {
    var b := Last(d.outputs);
    BS.AddTreeKeeps(BoxRunOf(w), chunk, BoxBase(d), BS.Signing(d.inputs, Front(d.outputs)), b);
    var o := BS.AddTree(BoxRunOf(w), chunk);
    if !o.Fail? {
      EndBoxStepKeeps(w, d, o, BS.WithChunk(b, chunk));
    }
  }

  lemma AddBoxKnownTreeKeeps(w: World, d: Draft, kind: BoxKind, tree: bytes)
    requires Inv(w, d) && BoxSafe(w) && w.tx.state == OutputsStarted
    ensures var o := AddBoxKnownTree(w, kind, tree);
            o.Fail? || Inv(o.s, WithLastOutput(d, BS.WithTree(Last(d.outputs), kind, tree)))
  {
    var b := Last(d.outputs);
    BS.AddKnownTreeKeeps(BoxRunOf(w), kind, tree, BoxBase(d), BS.Signing(d.inputs, Front(d.outputs)), b);
    var o := BS.AddKnownTree(BoxRunOf(w), kind, tree);
    if !o.Fail? {
      EndBoxStepKeeps(w, d, o, BS.WithTree(b, kind, tree));
    }
  }

  lemma AddBoxTokensKeeps(w: World, d: Draft, data: bytes)
    requires Inv(w, d) && BoxSafe(w) && w.tx.state == OutputsStarted
    ensures var o := AddBoxTokens(w, data);
            o.Fail? || Inv(o.s, WithLastOutput(d, BS.WithTokens(Last(d.outputs), data, NamesOf(w))))
  {
    var b := Last(d.outputs);
    BS.AddTokensKeeps(BoxRunOf(w), data, NamesOf(w), BoxBase(d), BS.Signing(d.inputs, Front(d.outputs)), b);
    var o := BS.AddTokens(BoxRunOf(w), data, NamesOf(w));
    if !o.Fail? {
      EndBoxStepKeeps(w, d, o, BS.WithTokens(b, data, NamesOf(w)));
    }
  }

  lemma AddBoxRegistersKeeps(w: World, d: Draft, chunk: bytes)
    requires Inv(w, d) && BoxSafe(w) && w.tx.state == OutputsStarted
    ensures var o := AddBoxRegisters(w, chunk);
            o.Fail? || Inv(o.s, WithLastOutput(d, BS.WithRegisters(Last(d.outputs), chunk)))
  {
    var b := Last(d.outputs);
    BS.AddRegistersKeeps(BoxRunOf(w), chunk, BoxBase(d), BS.Signing(d.inputs, Front(d.outputs)), b);
    var o := BS.AddRegisters(BoxRunOf(w), chunk);
    if !o.Fail? {
      EndBoxStepKeeps(w, d, o, BS.WithRegisters(b, chunk));
    }
  }
}
