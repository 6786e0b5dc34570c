/**
 What a running session accepts, told by the transaction described so far: the device's state is
 known from the description, so each small message on the way to a transaction within the limits
 is accepted.
 */
module Acceptance {
  import opened Bytes
  import opened TxTypes
  import opened Accounting
  import opened Reference
  import opened Frames
  import opened Message
  import opened Limits
  import opened Messages
  import opened Witness
  import FS = FullSerializer
  import FR = FullRefinement
  import IS = InputSerializer
  import BS = BoxSerializer
  import OI = OutputInfo
  import S = Signing
  import SR = SigningRefinement

  // ---------- sums of a part ----------

  lemma {:induction false} SumGrows(a: seq<u64>, b: seq<u64>)
    requires a <= b
    ensures Sum(a) <= Sum(b)
  {
    if a == b {
      return;
    }
    assert a <= Front(b);
    SumGrows(a, Front(b));
  }

  lemma {:induction false} SumOfGrows(a: seq<(BoxKind, u64)>, b: seq<(BoxKind, u64)>, kind: BoxKind)
    requires a <= b
    ensures SumOf(a, kind) <= SumOf(b, kind)
  {
    if a == b {
      return;
    }
    assert a <= Front(b);
    SumOfGrows(a, Front(b), kind);
  }

  lemma {:induction false} TokenSumGrows(a: seq<Token>, b: seq<Token>, id: bytes)
    requires a <= b
    ensures TokenSum(a, id) <= TokenSum(b, id)
  {
    if a == b {
      return;
    }
    assert a <= Front(b);
    TokenSumGrows(a, Front(b), id);
  }

  lemma {:induction false} TableGrows(ids: seq<bytes>, a: seq<Token>, b: seq<Token>)
    requires a <= b
    ensures |TableOf(ids, a)| <= |TableOf(ids, b)|
  {
    if a == b {
      return;
    }
    assert a <= Front(b);
    TableGrows(ids, a, Front(b));
  }

  /** The description `e` is on the way to `t`: inputs first, outputs when all inputs are there. */
  ghost predicate Before(e: Draft, t: Draft) {
    && e.ids == t.ids && InputValues(e.inputs) <= InputValues(t.inputs)
    && InputTokens(e.inputs) <= InputTokens(t.inputs)
    && (e.outputs == [] || e.inputs == t.inputs)
    && BoxValues(e.outputs) <= BoxValues(t.outputs) && BoxTokens(e.outputs) <= BoxTokens(t.outputs)
  }

  /** What the counters and the table of the device can hold. */
  ghost predicate Room(d: Draft) {
    InRange(Counted(d)) && |TableOf(d.ids, InputTokens(d.inputs))| <= TOKEN_MAX_COUNT
  }

  lemma RoomBefore(e: Draft, t: Draft)
    requires Before(e, t) && Room(t)
    ensures Room(e)
  {
    var m, l := Counted(e), Counted(t);
    SumGrows(m.inValues, l.inValues);
    TableGrows(t.ids, m.inTokens, l.inTokens);
    SumOfGrows(m.outValues, l.outValues, ChangeBox);
    SumOfGrows(m.outValues, l.outValues, FeeBox);
    hide Sum, SumOf, TokenSum, TableOf, InputValues, InputTokens;
    forall id
      ensures TokenInRange(m, id)
    {
      assert TokenInRange(l, id);
      TokenSumGrows(m.inTokens, l.inTokens, id);
      TokenSumGrows(m.outTokens, l.outTokens, id);
      if e.outputs == [] {
        NoTokens(m.outTokens, id);
      }
    }
    if e.outputs == [] {
      NoValues(m.outValues, ChangeBox);
      NoValues(m.outValues, FeeBox);
    }
  }

  lemma NoTokens(ts: seq<Token>, id: bytes)
    ensures ts == [] ==> TokenSum(ts, id) == 0
  {
  }

  lemma NoValues(vs: seq<(BoxKind, u64)>, kind: BoxKind)
    ensures vs == [] ==> SumOf(vs, kind) == 0
  {
  }

  // ---------- parts of inputs and outputs ----------

  lemma {:induction false} InputsGrow(a: seq<Input>, s: seq<Input>)
    requires a <= s
    ensures InputValues(a) <= InputValues(s) && InputTokens(a) <= InputTokens(s)
  {
    if a != s {
      assert a <= Front(s);
      InputsGrow(a, Front(s));
    }
  }

  lemma {:induction false} BoxesGrow(a: seq<Box>, s: seq<Box>)
    requires a <= s
    ensures BoxValues(a) <= BoxValues(s) && BoxTokens(a) <= BoxTokens(s)
  {
    if a != s {
      assert a <= Front(s);
      BoxesGrow(a, Front(s));
    }
  }

  lemma {:induction false} FramesGrow(fs: seq<Frame>, n: nat)
    requires n <= |fs|
    ensures IS.FrameTokens(fs[..n]) <= IS.FrameTokens(fs)
  {
    if n == |fs| {
      assert fs[..n] == fs;
    } else {
      FramesGrow(Front(fs), n);
      assert Front(fs)[..n] == fs[..n];
    }
  }

  lemma InputSnoc(s: seq<Input>, i: Input)
    ensures InputValues(s + [i]) == InputValues(s) + [i.value] && InputTokens(s + [i]) == InputTokens(s) + i.tokens
  {
    assert Front(s + [i]) == s;
  }

  lemma BoxSnoc(s: seq<Box>, b: Box)
    ensures BoxValues(s + [b]) == BoxValues(s) + Counts(b)
    ensures BoxTokens(s + [b]) == BoxTokens(s) + TokensOf(b.entries)
  {
    assert Front(s + [b]) == s;
  }

  lemma PrefixStep<T>(base: seq<T>, x: seq<T>, y: seq<T>, whole: seq<T>)
    requires x <= y && base + y <= whole
    ensures base + x <= whole
  {
    assert y == x + y[|x|..];
    assert base + y == base + x + y[|x|..];
  }

  /** Some inputs and a part of the next one. */
  lemma InputPartGrows(a: seq<Input>, next: Input, s: seq<Input>, i: Input)
    requires a + [next] <= s && i.value == next.value && i.tokens <= next.tokens
    ensures InputValues(a + [i]) <= InputValues(s) && InputTokens(a + [i]) <= InputTokens(s)
  {
    hide InputValues, InputTokens;
    InputsGrow(a + [next], s);
    InputSnoc(a, i);
    InputSnoc(a, next);
    PrefixStep(InputTokens(a), i.tokens, next.tokens, InputTokens(s));
  }

  /** A box as far as it was given. */
  predicate PartOf(b: Box, c: Box) {
    b.value == c.value && (b.treeDone ==> c.treeDone && b.kind == c.kind) && b.entries <= c.entries
  }

  lemma BoxPartGrows(a: seq<Box>, next: Box, s: seq<Box>, b: Box)
    requires a + [next] <= s && PartOf(b, next)
    ensures BoxValues(a + [b]) <= BoxValues(s) && BoxTokens(a + [b]) <= BoxTokens(s)
  {
    hide BoxValues, BoxTokens, TokensOf;
    BoxesGrow(a + [next], s);
    BoxSnoc(a, b);
    BoxSnoc(a, next);
    TokensPrefix(b.entries, next.entries);
    PrefixStep(BoxTokens(a), TokensOf(b.entries), TokensOf(next.entries), BoxTokens(s));
    PrefixStep(BoxValues(a), Counts(b), Counts(next), BoxValues(s));
  }

  lemma TokensPrefix(a: seq<Entry>, b: seq<Entry>)
    requires a <= b
    ensures TokensOf(a) <= TokensOf(b)
  {
    assert TokensOf(a) == TokensOf(b)[..|a|];
  }

  /** What a box adds to the values counted. */
  function Counts(b: Box): seq<(BoxKind, u64)> {
    if b.treeDone then [(b.kind, b.value)] else []
  }

  // ---------- what is accepted: start, ids, inputs ----------

  lemma StartAccepted(base: bytes, inputs: u16, dataInputs: u16, tokens: u8, outputs: u16)
    requires inputs > 0 && outputs > 0 && tokens <= TOKEN_MAX_COUNT
    ensures Takes(S.Start(base), S.StartTx(inputs, dataInputs, tokens, outputs))
  {
  }

  lemma IdAccepted(p: S.Operation, d: Draft, id: bytes)
    requires SR.Inv(p, d) && Running(p) && |d.ids| < d.tokensCount && |id| == ID_LEN
    ensures Takes(p, S.TokenIds(id))
  {
    AtIds(p, d);
    hide SR.Inv;
    assert id[..ID_LEN] == id && id[ID_LEN..] == [];
    assert FS.TableLoop(p.w.amounts.table, p.w.tx.distinct, id) == Ok(p.w.amounts.table + [id]);
  }

  lemma AtIds(p: S.Operation, d: Draft)
    requires SR.Inv(p, d) && Running(p) && |d.ids| < d.tokensCount
    ensures p.state == S.TxStarted && p.w.tx.state == FS.TokensStarted && p.w.amounts.table == d.ids
    ensures p.w.tx.distinct == d.tokensCount && S.Coupled(p)
  {
    hide Balanced, BS.Invariant, OI.ShowsTree, FR.AllInputs;
  }

  /** In the input stage: the counters, the books, and the input that is being received. */
  lemma AtInputStage(p: S.Operation, d: Draft)
    requires SR.Inv(p, d) && Running(p) && |d.ids| == d.tokensCount && CompleteInputs(d.inputs) < d.inputsCount
    requires d.outputs == []
    ensures p.state == S.TxStarted || p.state == S.InputsOpen
    ensures p.w.tx.state == FS.InputsStarted && p.w.tx.slot.InputSlot? && p.w.tx.inputsCount > 0
    ensures Balanced(p.w.amounts, Counted(d)) && S.Coupled(p)
    ensures d.inputs == [] ==> p.w.tx.slot.input.state == IS.InputFinished
    ensures d.inputs != [] ==> p.state == S.InputsOpen && IS.Matches(p.w.tx.slot.input, Last(d.inputs))
  {
    hide Balanced, BS.Invariant, OI.ShowsTree, FR.AtEnd, IS.Matches;
  }

  /** Pairs are taken while the sums and the table have room. */
  lemma {:induction false} PairsAccepted(a: Amounts, l: Ledger, pairs: bytes)
    requires Balanced(a, l) && l.outTokens == [] && |pairs| % PAIR_SIZE == 0
    requires forall id :: TokenSum(l.inTokens + TokenPairs(pairs), id) <= I64_MAX
    requires |TableOf(a.table, TokenPairs(pairs))| <= TOKEN_MAX_COUNT
    ensures IS.PairLoop(a, pairs).Ok?
    decreases |pairs|
  {
    if pairs != [] {
      var t, rest := Token(pairs[..32], U64(pairs[32..40])), TokenPairs(pairs[40..]);
      var all := l.inTokens + TokenPairs(pairs);
      assert all == l.inTokens + [t] + rest;
      TokenSumGrows(l.inTokens + [t], all, t.id);
      TableAppend(a.table, [t], rest);
      TableGrows(Listed(a.table, t.id), [], rest);
      PairAccepted(a, l, t);
      AddInputTokenKeeps(a, l, t.id, t.amount);
      var b := AddInputToken(a, t.id, t.amount).s;
      hide Balanced, TokenSum, AddInputToken;
      PairsAccepted(b, l.(inTokens := l.inTokens + [t]), pairs[40..]);
    }
  }

  lemma PairAccepted(a: Amounts, l: Ledger, t: Token)
    requires Balanced(a, l) && l.outTokens == [] && TokenSum(l.inTokens + [t], t.id) <= I64_MAX
    requires |Listed(a.table, t.id)| <= TOKEN_MAX_COUNT
    ensures AddInputToken(a, t.id, t.amount).Ok? && AddInputToken(a, t.id, t.amount).s.table == Listed(a.table, t.id)
    ensures TableOf(a.table, [t]) == Listed(a.table, t.id)
  {
    TokenSumSnoc(l.inTokens, t, t.id);
    assert Front([t]) == [];
    var i := Find(a.table, t.id);
    if i < |a.table| {
      assert a.tokens[i] == BalanceAt(a.table, l, i);
    }
  }

  /** A frame that continues the last input. */
  lemma TokensAccepted(p: S.Operation, d: Draft, f: Frame)
    requires SR.Inv(p, d) && p.state == S.InputsOpen && d.inputs != [] && |d.ids| == d.tokensCount
    requires p.w.amounts.table == TableOf(d.ids, InputTokens(d.inputs)) && CompleteInputs(d.inputs) < d.inputsCount
    requires var i := Last(d.inputs); f.id == i.id && f.index == |i.frames| < i.framesCount
    requires |f.pairs| % PAIR_SIZE == 0 && Room(FR.WithFrame(d, f))
    ensures S.Coupled(p) && S.DoInputTokens(p, f).Ok? && S.DoInputTokens(p, f).s.state == S.InputsOpen
  {
    hide SR.Inv, Balanced, TableOf, TokenSum, InputTokens, InputValues, IS.PairLoop;
    NothingOut(p, d);
    AtInputStage(p, d);
    FR.FrameBooks(d, f);
    TableAppend(d.ids, InputTokens(d.inputs), TokenPairs(f.pairs));
    forall id
      ensures TokenSum(Counted(d).inTokens + TokenPairs(f.pairs), id) <= I64_MAX
    {
      assert TokenInRange(Counted(FR.WithFrame(d, f)), id);
    }
    PairsAccepted(p.w.amounts, Counted(d), f.pairs);
    FrameFollows(p.w.tx.slot.input, Last(d.inputs), f);
  }

  lemma FrameFollows(c: IS.InputCtx, i: Input, f: Frame)
    requires IS.Matches(c, i) && f.id == i.id && f.index == |i.frames| < i.framesCount
    ensures c.state == IS.FramesStarted && c.boxId == f.id && f.index == c.framesProcessed < c.framesCount
  {
  }

  /** The first frame opens the next input. */
  lemma FirstFrameAccepted(p: S.Operation, d: Draft, f: Frame, size: u32)
    requires SR.Inv(p, d) && Exact(p, d) && Running(p) && |d.ids| == d.tokensCount && d.outputs == []
    requires CompleteInputs(d.inputs) == |d.inputs| < d.inputsCount && f.index == 0 < f.framesCount
    requires size != 1 && size <= MAX_TX_DATA_PART_LEN && |f.pairs| % PAIR_SIZE == 0
    requires Room(SR.Record(d, S.InputFrame(f, size)))
    ensures Takes(p, S.InputFrame(f, size))
  {
    hide SR.Inv, Balanced, TableOf, TokenSum, InputTokens, InputValues, S.DoInputTokens, S.DoNewInput, InRange,
         OutputFits;
    AtInputStage(p, d);
    var e := FR.WithNewInput(d, f.id, f.framesCount, size, f.value);
    FR.NewInputChanges(d, e, Last(e.inputs));
    FR.FrameBooks(e, f);
    InputOver(p, d);
    ValueFits(p.w.amounts, Counted(d), Counted(SR.Record(d, S.InputFrame(f, size))), f.value);
    NewInputAccepted(p, f, size);
    SR.NewInputKeeps(p, d, f, size);
    TokensAccepted(S.DoNewInput(p, f, size).s, e, f);
  }

  /** Between two inputs the context says so. */
  lemma InputOver(p: S.Operation, d: Draft)
    requires p.w.tx.slot.InputSlot? && CompleteInputs(d.inputs) == |d.inputs|
    requires d.inputs == [] ==> p.w.tx.slot.input.state == IS.InputFinished
    requires d.inputs != [] ==> IS.Matches(p.w.tx.slot.input, Last(d.inputs))
    ensures p.w.tx.slot.input.state == IS.InputFinished
  {
  }

  lemma ValueFits(a: Amounts, l: Ledger, m: Ledger, value: u64)
    requires Balanced(a, l) && InRange(m) && l.outValues == [] && m.inValues == l.inValues + [value]
    ensures a.value + value <= U64_MAX
  {
    assert Front(m.inValues) == l.inValues;
  }

  lemma NewInputAccepted(p: S.Operation, f: Frame, size: u32)
    requires S.Coupled(p) && (p.state == S.TxStarted || p.state == S.InputsOpen)
    requires p.w.tx.state == FS.InputsStarted && p.w.tx.inputsCount > 0 && p.w.tx.slot.input.state == IS.InputFinished
    requires size != 1 && size <= MAX_TX_DATA_PART_LEN && p.w.amounts.value + f.value <= U64_MAX
    ensures S.DoNewInput(p, f, size).Ok? && S.DoNewInput(p, f, size).s.w.amounts.table == p.w.amounts.table
  {
  }

  /** A later frame continues it. */
  lemma NextFrameAccepted(p: S.Operation, d: Draft, f: Frame)
    requires SR.Inv(p, d) && Exact(p, d) && Running(p) && d.inputs != [] && |d.ids| == d.tokensCount && d.outputs == []
    requires |d.inputs| <= d.inputsCount && f.index != 0 && |f.pairs| % PAIR_SIZE == 0
    requires var i := Last(d.inputs); f.id == i.id && f.index == |i.frames| < i.framesCount
    requires Room(SR.Record(d, S.InputFrame(f, 0)))
    ensures Takes(p, S.InputFrame(f, 0))
  {
    hide SR.Inv, Room, TableOf, InputTokens, S.DoInputTokens, OutputFits, TokenSum;
    LastOpen(d.inputs);
    AtInputStage(p, d);
    TokensAccepted(p, d, f);
  }

  lemma LastOpen(s: seq<Input>)
    requires s != [] && !InputComplete(Last(s))
    ensures CompleteInputs(s) < |s|
  {
  }

  lemma ExtensionAccepted(p: S.Operation, d: Draft, chunk: bytes)
    requires SR.Inv(p, d) && Running(p) && d.inputs != [] && |d.ids| == d.tokensCount && d.outputs == []
    requires |d.inputs| <= d.inputsCount && chunk != []
    requires var i := Last(d.inputs); FramesComplete(i) && |i.extension| + |chunk| <= i.extensionSize
    ensures Takes(p, S.Extension(chunk))
  {
    hide SR.Inv, Balanced;
    LastOpen(d.inputs);
    AtInputStage(p, d);
    AtExtension(p.w.tx.slot.input, Last(d.inputs));
    hide IS.Matches;
  }

  lemma AtExtension(c: IS.InputCtx, i: Input)
    requires IS.Matches(c, i) && FramesComplete(i) && |i.extension| < i.extensionSize
    ensures c.state == IS.ExtensionStarted && c.extensionSize == i.extensionSize - |i.extension|
  {
  }

  lemma DataInputAccepted(p: S.Operation, d: Draft, id: bytes)
    requires SR.Inv(p, d) && Running(p) && d.outputs == [] && |id| == ID_LEN && |d.ids| == d.tokensCount
    requires CompleteInputs(d.inputs) == |d.inputs| == d.inputsCount && |d.dataInputs| < d.dataInputsCount
    ensures Takes(p, S.DataInputs(id))
  {
    AtDataStage(p, d);
    hide SR.Inv;
    assert id[ID_LEN..] == [];
    FS.DataInputLoopFrame(p.w, id);
    assert FS.DataInputLoop(p.w, id).Ok?;
  }

  lemma AtDataStage(p: S.Operation, d: Draft)
    requires SR.Inv(p, d) && Running(p) && d.outputs == [] && |d.ids| == d.tokensCount
    requires CompleteInputs(d.inputs) == |d.inputs| == d.inputsCount && |d.dataInputs| < d.dataInputsCount
    ensures p.state == S.InputsOpen && p.w.tx.state == FS.DataInputsStarted && S.Coupled(p)
            && p.w.tx.dataInputsCount > 0
  {
    hide Balanced, BS.Invariant, OI.ShowsTree, IS.Matches, FR.AtEnd;
  }

  // ---------- what is accepted: outputs ----------

  /** All inputs and data inputs are there, and not all outputs. */
  ghost predicate OutputStage(d: Draft) {
    && |d.ids| == d.tokensCount && CompleteInputs(d.inputs) == |d.inputs| == d.inputsCount
    && |d.dataInputs| == d.dataInputsCount && CompleteBoxes(d.outputs) < d.outputsCount
  }

  lemma AtOutputStage(p: S.Operation, d: Draft)
    requires SR.Inv(p, d) && Running(p) && OutputStage(d)
    ensures p.state == (if d.outputs == [] then S.InputsOpen else S.OutputsOpen)
    ensures p.w.tx.state == FS.OutputsStarted && p.w.tx.outputsCount > 0 && S.Coupled(p)
    ensures d.outputs != [] ==>
              && p.w.tx.slot.BoxSlot? && BS.Matches(p.w.tx.slot.box, Last(d.outputs))
              && OI.ShowsTree(p.w.output, Last(d.outputs))
              && OI.ShowsTokens(p.w.output, p.w.amounts.table, Last(d.outputs))
              && Balanced(p.w.amounts, Counted(d)) && FR.IdsKnown(p.w, d) && p.w.tx.distinct == d.tokensCount
  {
    hide Balanced, OI.ShowsTree, OI.ShowsTokens, IS.Matches, FR.BoxBase, Emitted, BS.Matches;
    if d.outputs != [] {
      BooksOf(d);
    }
  }

  lemma BooksOf(d: Draft)
    requires d.outputs != []
    ensures BS.Books(d.inputs, Front(d.outputs) + [Last(d.outputs)]) == Counted(d)
  {
    assert Front(d.outputs) + [Last(d.outputs)] == d.outputs;
  }

  lemma NewOutputAccepted(p: S.Operation, d: Draft, b: Box)
    requires SR.Inv(p, d) && Running(p) && OutputStage(d) && Sized(b)
    ensures Takes(p, S.NewOutputBox(b.value, b.treeSize, b.height, b.tokensCount, b.registersSize))
  {
    hide SR.Inv, OutputStage, BS.Matches, Balanced, OI.ShowsTree;
    AtOutputStage(p, d);
  }

  lemma ChunkTaken(p: S.Operation, d: Draft, chunk: bytes)
    requires SR.Inv(p, d) && Running(p) && OutputStage(d) && d.outputs != []
    requires var b := Last(d.outputs);
             && !b.treeDone && |b.tree| + |chunk| <= b.treeSize
             && (|b.tree| + |chunk| < b.treeSize ==> |chunk| == MAX_DATA_CHUNK_LEN)
    ensures Takes(p, S.TreeChunk(chunk))
  {
    hide SR.Inv, OutputStage, Balanced;
    AtOutputStage(p, d);
    OpenTree(p.w.tx.slot.box, Last(d.outputs));
    hide BS.Matches;
  }

  lemma OpenTree(c: BS.BoxCtx, b: Box)
    requires BS.Matches(c, b) && !b.treeDone
    ensures c.state == BS.Initialized && c.treeSize == b.treeSize - |b.tree| && c.value == b.value
  {
  }

  /** The command that gives a known tree. */
  predicate Gives(c: S.Command, kind: BoxKind) {
    (c.FeeTree? && kind == FeeBox) || (c.ChangeTree? && kind == ChangeBox)
  }

  lemma KnownTreeTaken(p: S.Operation, d: Draft, c: S.Command, kind: BoxKind)
    requires SR.Inv(p, d) && Running(p) && OutputStage(d) && d.outputs != [] && Gives(c, kind)
    requires !Last(d.outputs).treeDone && Last(d.outputs).tree == [] && InRange(Counted(SR.Record(d, c)))
    ensures Takes(p, c)
  {
    hide SR.Inv, OutputStage, Balanced, InRange, BS.Matches, OI.ShowsTree, OI.ShowsTokens, SR.Record, Takes, S.Coupled;
    AtOutputStage(p, d);
    var b := Last(d.outputs);
    OpenTree(p.w.tx.slot.box, b);
    KnownBooks(d, c, kind);
    Affordable(p.w.amounts, Counted(d), Counted(SR.Record(d, c)), kind, b.value);
    NoTreeYet(p.w.output, b);
    KnownTreeStep(p, c, kind);
  }

  lemma NoTreeYet(o: OI.Output, b: Box)
    requires OI.ShowsTree(o, b) && !b.treeDone && b.tree == []
    ensures o.kind == OI.Unknown
  {
  }

  lemma KnownTreeStep(p: S.Operation, c: S.Command, kind: BoxKind)
    requires S.Coupled(p) && p.state == S.OutputsOpen && p.w.tx.state == FS.OutputsStarted && Gives(c, kind)
    requires p.w.tx.slot.box.state == BS.Initialized && p.w.output.kind == OI.Unknown
    requires AddOutput(p.w.amounts, kind, p.w.tx.slot.box.value).Ok?
    ensures Takes(p, c)
  {
  }

  lemma KnownBooks(d: Draft, c: S.Command, kind: BoxKind)
    requires d.outputs != [] && Gives(c, kind) && !Last(d.outputs).treeDone
    ensures var e := SR.Record(d, c);
            && e.inputs == d.inputs
            && Counted(e).outValues == Counted(d).outValues + [(kind, Last(d.outputs).value)]
  {
    var e := SR.Record(d, c);
    assert e.outputs == Front(d.outputs) + [Last(e.outputs)] && d.outputs == Front(d.outputs) + [Last(d.outputs)];
    BoxSnoc(Front(d.outputs), Last(d.outputs));
    BoxSnoc(Front(d.outputs), Last(e.outputs));
  }

  lemma Affordable(a: Amounts, l: Ledger, m: Ledger, kind: BoxKind, value: u64)
    requires Balanced(a, l) && InRange(m) && kind != TreeBox && m.inValues == l.inValues
    requires m.outValues == l.outValues + [(kind, value)]
    ensures AddOutput(a, kind, value).Ok?
  {
    assert Front(m.outValues) == l.outValues;
  }

  lemma EntryRead(e: Entry, distinct: u8, ids: seq<bytes>)
    requires e.name.ByIndex? && e.name.index < distinct <= |ids| && ids[e.name.index] == e.token.id
    ensures var data, names := EntryMessage(e), BS.TableIndexes(distinct, ids);
            && |data| == 12 && data[12..] == [] && BS.ReadEntry(data, names) == Ok(e) && BS.Entries(data, names) == [e]
  {
    var data, names := EntryMessage(e), BS.TableIndexes(distinct, ids);
    assert data[..4] == ToBE(e.name.index, 4) && data[4..12] == ToBE(e.token.amount, 8);
    ReadBack(0, e.name.index);
    ReadBack64(e.token.amount);
    assert BS.Entries([], names) == [];
    assert BS.Entries(data, names) == [e] + BS.Entries(data[12..], names);
  }

  lemma TokenTaken(p: S.Operation, d: Draft, e: Entry)
    requires SR.Inv(p, d) && Running(p) && OutputStage(d) && d.outputs != [] && Resolved(e, d.ids)
    requires var b := Last(d.outputs);
             && b.treeDone && b.registers == [] && |b.entries| < b.tokensCount
             && TokenSum(TokensOf(b.entries), e.token.id) == 0
             && InRange(Counted(FR.WithLastOutput(d, b.(entries := b.entries + [e]))))
    ensures Takes(p, S.OutputTokens(EntryMessage(e)))
  {
    hide SR.Inv, OutputStage, Balanced, InRange, EntryMessage, OI.ShowsTree, OI.ShowsTokens;
    AtOutputStage(p, d);
    var b := Last(d.outputs);
    OpenTokens(p.w.tx.slot.box, b);
    hide BS.Matches;
    var table := p.w.amounts.table;
    assert table[..d.tokensCount][e.name.index] == table[e.name.index];
    EntryRead(e, d.tokensCount, table);
    TokenBooks(d, e);
    NotShown(p.w.output, table, b, e.token.id);
    TokenFits(p.w.amounts, Counted(d), Counted(FR.WithLastOutput(d, b.(entries := b.entries + [e]))), e.token);
    var r, data, names := FS.BoxRunOf(p.w), EntryMessage(e), FS.NamesOf(p.w);
    assert BS.OnToken(r.l, e.token).Ok?;
    assert BS.OneToken(r, data, names).Ok?;
    assert BS.TokenLoop(r, data, names).Ok?;
  }

  lemma OpenTokens(c: BS.BoxCtx, b: Box)
    requires BS.Matches(c, b) && b.treeDone && b.registers == [] && |b.entries| < b.tokensCount
    ensures c.state == BS.TreeAdded && c.tokensCount != 0
  {
  }

  lemma TokenBooks(d: Draft, e: Entry)
    requires d.outputs != []
    ensures var b := Last(d.outputs); var m := Counted(FR.WithLastOutput(d, b.(entries := b.entries + [e])));
            m.inTokens == Counted(d).inTokens && m.outTokens == Counted(d).outTokens + [e.token]
  {
    var b := Last(d.outputs);
    var f := FR.WithLastOutput(d, b.(entries := b.entries + [e]));
    assert f.outputs == Front(d.outputs) + [Last(f.outputs)] && d.outputs == Front(d.outputs) + [b];
    BoxSnoc(Front(d.outputs), b);
    BoxSnoc(Front(d.outputs), Last(f.outputs));
    assert TokensOf(b.entries + [e]) == TokensOf(b.entries) + [e.token];
  }

  lemma NotShown(o: OI.Output, table: seq<bytes>, b: Box, id: bytes)
    requires OI.ShowsTokens(o, table, b) && id in table && |table| <= TOKEN_MAX_COUNT
    requires TokenSum(TokensOf(b.entries), id) == 0
    ensures Find(table, id) < |table| && o.tokens[Find(table, id)] == 0
  {
  }

  lemma TokenFits(a: Amounts, l: Ledger, m: Ledger, t: Token)
    requires Balanced(a, l) && InRange(m) && m.inTokens == l.inTokens && m.outTokens == l.outTokens + [t]
             && t.id in a.table
    ensures AddOutputToken(a, t.id, t.amount).Ok?
  {
    assert TokenInRange(m, t.id);
    TokenSumSnoc(l.outTokens, t, t.id);
    var i := Find(a.table, t.id);
    assert a.tokens[i] == BalanceAt(a.table, l, i);
  }

  lemma RegistersTaken(p: S.Operation, d: Draft, chunk: bytes)
    requires SR.Inv(p, d) && Running(p) && OutputStage(d) && d.outputs != [] && chunk != []
    requires var b := Last(d.outputs);
             b.treeDone && |b.entries| == b.tokensCount && |b.registers| + |chunk| <= b.registersSize
    ensures Takes(p, S.Registers(chunk))
  {
    hide SR.Inv, OutputStage, Balanced, OI.ShowsTree, OI.ShowsTokens;
    AtOutputStage(p, d);
    OpenRegisters(p.w.tx.slot.box, Last(d.outputs));
    hide BS.Matches;
  }

  lemma OpenRegisters(c: BS.BoxCtx, b: Box)
    requires BS.Matches(c, b) && b.treeDone && |b.entries| == b.tokensCount && |b.registers| < b.registersSize
    ensures c.state == BS.TokensAdded && c.registersSize == b.registersSize - |b.registers|
  {
  }
}
