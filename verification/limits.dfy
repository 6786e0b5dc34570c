/**
 Which transactions the device can be made to sign: the limits that every signed transaction
 keeps.  completeness.dfy shows that a transaction within them is signed by some run.
 */
module Limits {
  import opened Bytes
  import opened TxTypes
  import opened Accounting
  import opened Reference
  import opened Application
  import opened Runs
  import opened Message
  import ErgoTree
  import FS = FullSerializer
  import FR = FullRefinement
  import IS = InputSerializer
  import BS = BoxSerializer
  import OI = OutputInfo
  import S = Signing
  import SR = SigningRefinement
  import A = Attestation
  import T = Theorems

  // ---------- the limits ----------

  /** The table of the device: the ids given, and behind them new ids in the order of their appearance. */
  function TableOf(ids: seq<bytes>, ts: seq<Token>): seq<bytes> {
    if ts == [] then ids else Listed(TableOf(ids, Front(ts)), Last(ts).id)
  }

  function Listed(table: seq<bytes>, id: bytes): seq<bytes> {
    if id in table then table else table + [id]
  }

  /** A box within the sizes the device takes, whose tree came in chunks or as a known script. */
  predicate Sized(b: Box) {
    && b.treeSize <= 32768 && b.registersSize <= 32768 && b.tokensCount <= 100
    && if !b.treeDone
       then b.kind == TreeBox && |b.tree| % 255 == 0 && (b.tree == [] || |b.tree| < b.treeSize)
       else match b.kind
         case TreeBox => |b.tree| == b.treeSize
         case FeeBox => b.tree == ErgoTree.MINERS_FEE_TREE
         case ChangeBox => ErgoTree.ParseP2pk(b.tree).Some?
  }

  /** Tokens come behind the tree, registers behind all tokens, and nothing exceeds what was announced. */
  predicate Ordered(b: Box) {
    && |b.entries| <= b.tokensCount && |b.registers| <= b.registersSize
    && (!b.treeDone ==> b.entries == [] && b.registers == [])
    && (b.registers != [] ==> |b.entries| == b.tokensCount)
  }

  /** No token follows an amount of the same token other than zero. */
  ghost predicate NoRepeat(es: seq<Entry>) {
    forall j :: 0 <= j < |es| ==> TokenSum(TokensOf(es[..j]), es[j].token.id) == 0
  }

  /** An output as far as it was received. */
  ghost predicate OutputFits(b: Box) {
    Sized(b) && Ordered(b) && NoRepeat(b.entries)
  }

  /** A box the device attests when it is sent. */
  ghost predicate Fits(s: A.Source) {
    A.Attestable(s) && s.box.kind == TreeBox && Sized(s.box)
  }

  /** A frame of some box the device attests. */
  ghost predicate Obtainable(dev: A.Device, f: Frame) {
    exists s :: Fits(s) && FrameFrom(dev, s, f)
  }

  /** An input assembled in order from frames that can be had, with an extension the device takes. */
  ghost predicate InputFits(dev: A.Device, i: Input) {
    && IS.WellFormed(i) && InputComplete(i) && i.extensionSize <= 32768
    && forall j :: 0 <= j < |i.frames| ==> Obtainable(dev, i.frames[j])
  }

  /** Sums that the device's counters hold, and change and fees that the inputs pay. */
  ghost predicate InRange(l: Ledger) {
    && Sum(l.inValues) <= U64_MAX
    && SumOf(l.outValues, ChangeBox) + SumOf(l.outValues, FeeBox) <= Sum(l.inValues)
    && forall id :: TokenInRange(l, id)
  }

  ghost predicate TokenInRange(l: Ledger, id: bytes) {
    TokenSum(l.inTokens, id) <= I64_MAX && TokenSum(l.outTokens, id) - TokenSum(l.inTokens, id) <= I64_MAX + 1
  }

  /** Everything announced is there; outputs left incomplete do not count, and the last one is not such. */
  ghost predicate AllThere(d: Draft) {
    && |d.inputs| == d.inputsCount > 0 && |d.dataInputs| == d.dataInputsCount && |d.ids| == d.tokensCount
    && CompleteBoxes(d.outputs) == d.outputsCount > 0 && d.outputs != [] && Complete(Last(d.outputs))
  }

  ghost predicate Within(dev: A.Device, d: Draft) {
    && AllThere(d) && Shape(d) && InRange(Counted(d))
    && (forall k :: 0 <= k < |d.inputs| ==> InputFits(dev, d.inputs[k]))
    && (forall k :: 0 <= k < |d.outputs| ==> OutputFits(d.outputs[k]))
    && |TableOf(d.ids, InputTokens(d.inputs))| <= 100
  }

  // ---------- the table ----------

  lemma {:induction false} TableAppend(ids: seq<bytes>, a: seq<Token>, b: seq<Token>)
    ensures TableOf(ids, a + b) == TableOf(TableOf(ids, a), b)
  {
    if b == [] {
      assert a + b == a;
    } else {
      assert Front(a + b) == a + Front(b);
      TableAppend(ids, a, Front(b));
    }
  }

  lemma {:induction false} PairLoopTable(a: Amounts, pairs: bytes)
    ensures var o := IS.PairLoop(a, pairs); o.Ok? ==> o.s.table == TableOf(a.table, TokenPairs(pairs))
    decreases |pairs|
  {
    if |pairs| >= 40 {
      var t := Token(pairs[..32], U64(pairs[32..40]));
      var o := AddInputToken(a, t.id, t.amount);
      if o.Ok? {
        PairLoopTable(o.s, pairs[40..]);
        TableAppend(a.table, [t], TokenPairs(pairs[40..]));
        assert Front([t]) == [];
        assert TableOf(a.table, [t]) == o.s.table;
      }
    }
  }

  // ---------- what every accepted subcommand keeps ----------

  /** The table is that of the tokens seen, and everything received so far is within the limits. */
  ghost predicate Exact(p: S.Operation, d: Draft) {
    p.state != S.OpInitialized ==>
      && p.w.amounts.table == TableOf(d.ids, InputTokens(d.inputs))
      && (forall id :: TokenSum(InputTokens(d.inputs), id) <= I64_MAX)
      && (forall k :: 0 <= k < |d.inputs| ==> d.inputs[k].extensionSize <= MAX_TX_DATA_PART_LEN)
      && (forall k :: 0 <= k < |d.outputs| ==> OutputFits(d.outputs[k]))
  }

  /** Commands as APDUs carry them. */
  predicate Short(c: S.Command) {
    c.TreeChunk? ==> |c.data| <= MAX_DATA_CHUNK_LEN
  }

  /** While there are no outputs, the balance of a token is what came in. */
  lemma InSums(a: Amounts, l: Ledger, id: bytes)
    requires Balanced(a, l) && l.outTokens == []
    ensures TokenSum(l.inTokens, id) <= I64_MAX
  {
    if id in a.table {
      assert a.tokens[Find(a.table, id)] == BalanceAt(a.table, l, Find(a.table, id));
    } else {
      TokenSumAbsent(l.inTokens, id);
    }
  }

  lemma StartExact(p: S.Operation, d: Draft, c: S.Command)
    requires c.StartTx? && S.DoStart(p, c).Ok?
    ensures Exact(S.DoStart(p, c).s, SR.Record(d, c))
  {
  }

  lemma IdsExact(p: S.Operation, d: Draft, data: bytes)
    requires SR.Inv(p, d) && Exact(p, d) && S.DoTokenIds(p, data).Ok?
    ensures Exact(S.DoTokenIds(p, data).s, SR.Record(d, S.TokenIds(data)))
  {
    hide SR.Inv, OutputFits, FS.TableLoop;
    FR.TableLoopAppends(p.w.amounts.table, p.w.tx.distinct, data);
    AtTokenIds(p, d);
  }

  lemma AtTokenIds(p: S.Operation, d: Draft)
    requires SR.Inv(p, d) && p.state == S.TxStarted && p.w.tx.state == FS.TokensStarted
    ensures p.w.amounts.table == d.ids && d.inputs == [] && d.outputs == []
  {
  }

  /** What an accepted frame changes. */
  lemma FrameChanges(p: S.Operation, f: Frame, size: u32)
    requires S.Coupled(p) && S.DoInputFrame(p, f, size).Ok?
    ensures p.state == S.TxStarted || p.state == S.InputsOpen
    ensures if f.index == 0 then size <= MAX_TX_DATA_PART_LEN else p.state == S.InputsOpen
    ensures S.DoInputFrame(p, f, size).s.state == S.InputsOpen
    ensures S.DoInputFrame(p, f, size).s.w.amounts.table == TableOf(p.w.amounts.table, TokenPairs(f.pairs))
  {
    var q := if f.index == 0 then S.DoNewInput(p, f, size).s else p;
    assert q.w.amounts.table == p.w.amounts.table;
    PairLoopTable(q.w.amounts, f.pairs);
    hide IS.PairLoop, TableOf;
  }

  /** The inputs after a frame. */
  lemma FrameRecorded(d: Draft, f: Frame, size: u32)
    requires f.index == 0 || d.inputs != []
    ensures var e := SR.Record(d, S.InputFrame(f, size));
            && e == d.(inputs := e.inputs) && e.inputs != []
            && InputTokens(e.inputs) == InputTokens(d.inputs) + TokenPairs(f.pairs)
            && Front(e.inputs) == (if f.index == 0 then d.inputs else Front(d.inputs))
            && Last(e.inputs).extensionSize == if f.index == 0 then size else Last(d.inputs).extensionSize
  {
    var e := if f.index == 0 then FR.WithNewInput(d, f.id, f.framesCount, size, f.value) else d;
    if f.index == 0 {
      FR.NewInputChanges(d, e, Last(e.inputs));
    }
    FR.FrameBooks(e, f);
  }

  /** Before the first output nothing was counted out. */
  lemma NothingOut(p: S.Operation, d: Draft)
    requires SR.Inv(p, d) && p.state == S.InputsOpen
    ensures d.outputs == [] && Balanced(p.w.amounts, Counted(d)) && Counted(d).outTokens == []
  {
    hide Balanced;
  }

  lemma FrameExact(p: S.Operation, d: Draft, f: Frame, size: u32)
    requires SR.Inv(p, d) && Exact(p, d) && S.Coupled(p) && S.DoInputFrame(p, f, size).Ok?
    ensures Exact(S.DoInputFrame(p, f, size).s, SR.Record(d, S.InputFrame(f, size)))
  {
    hide SR.Inv, S.DoInputFrame, S.Coupled, OutputFits, SR.Record, TableOf, Balanced;
    SR.InputFrameKeeps(p, d, f, size);
    FrameChanges(p, f, size);
    InputsSoFar(p, d);
    var q, e := S.DoInputFrame(p, f, size).s, SR.Record(d, S.InputFrame(f, size));
    FrameRecorded(d, f, size);
    NothingOut(q, e);
    TableAppend(d.ids, InputTokens(d.inputs), TokenPairs(f.pairs));
    forall id
      ensures TokenSum(InputTokens(e.inputs), id) <= I64_MAX
    {
      InSums(q.w.amounts, Counted(e), id);
    }
    SizesKept(d.inputs, e.inputs);
  }

  lemma InputsSoFar(p: S.Operation, d: Draft)
    requires SR.Inv(p, d)
    ensures p.state == S.InputsOpen ==> d.inputs != []
  {
    hide FR.Inv;
  }

  lemma SizesKept(a: seq<Input>, b: seq<Input>)
    requires b != []
    requires Front(b) == a || (a != [] && Front(b) == Front(a) && Last(b).extensionSize == Last(a).extensionSize)
    requires forall k :: 0 <= k < |a| ==> a[k].extensionSize <= MAX_TX_DATA_PART_LEN
    requires Last(b).extensionSize <= MAX_TX_DATA_PART_LEN
    ensures forall k :: 0 <= k < |b| ==> b[k].extensionSize <= MAX_TX_DATA_PART_LEN
  {
    assert forall k :: 0 <= k < |b| - 1 ==> b[k] == Front(b)[k];
    if a != [] {
      assert forall k :: 0 <= k < |a| - 1 ==> a[k] == Front(a)[k];
    }
  }

  /** Extensions and data inputs change neither table nor tokens nor sizes. */
  lemma ExtensionExact(p: S.Operation, d: Draft, data: bytes)
    requires SR.Inv(p, d) && Exact(p, d) && S.Coupled(p) && S.DoExtension(p, data).Ok?
    ensures Exact(S.DoExtension(p, data).s, SR.Record(d, S.Extension(data)))
  {
    hide SR.Inv, S.DoExtension, S.Coupled, OutputFits, TableOf;
    var e := SR.Record(d, S.Extension(data));
    ExtensionFacts(p, data);
    InputsSoFar(p, d);
    FR.LastInputChanges(d, e, Last(e.inputs));
    SizesKept(d.inputs, e.inputs);
  }

  lemma ExtensionFacts(p: S.Operation, data: bytes)
    requires S.Coupled(p) && S.DoExtension(p, data).Ok?
    ensures p.state == S.InputsOpen == S.DoExtension(p, data).s.state
    ensures S.DoExtension(p, data).s.w.amounts == p.w.amounts
  {
  }

  lemma DataInputsExact(p: S.Operation, d: Draft, data: bytes)
    requires Exact(p, d) && S.Coupled(p) && S.DoDataInputs(p, data).Ok?
    ensures Exact(S.DoDataInputs(p, data).s, SR.Record(d, S.DataInputs(data)))
  {
    FS.DataInputLoopFrame(p.w, data);
    hide OutputFits, TableOf, FS.DataInputLoop;
  }

  // ---------- outputs ----------

  /** The last output after an accepted message, in step with the box context. */
  lemma LastMatches(p: S.Operation, d: Draft)
    requires SR.Inv(p, d) && (p.state == S.OutputsOpen || p.state == S.TxFinished)
    ensures d.outputs != [] && p.w.tx.slot.BoxSlot? && BS.Matches(p.w.tx.slot.box, Last(d.outputs))
    ensures OI.Genuine(Last(d.outputs)) && Ordered(Last(d.outputs))
  {
    hide Balanced, FR.BoxBase, BS.Counted, Emitted, FR.BeforeOutputs, OI.ShowsTree;
  }

  /** Table, inputs and earlier outputs as before, and a last output within the limits. */
  lemma LastExact(p: S.Operation, q: S.Operation, d: Draft, e: Draft)
    requires Exact(p, d) && p.state == S.OutputsOpen && q.w.amounts.table == p.w.amounts.table
    requires d.outputs != [] && e.outputs != [] && e == d.(outputs := SetLast(d.outputs, Last(e.outputs)))
    requires OutputFits(Last(e.outputs))
    ensures Exact(q, e)
  {
    hide OutputFits, TableOf;
    assert forall k :: 0 <= k < |e.outputs| - 1 ==> e.outputs[k] == Front(e.outputs)[k] == d.outputs[k];
  }

  lemma NewOutputExact(p: S.Operation, d: Draft, c: S.Command)
    requires Exact(p, d) && c.NewOutputBox? && S.DoNewOutput(p, c).Ok?
    ensures Exact(S.DoNewOutput(p, c).s, SR.Record(d, c))
  {
    hide TableOf;
    assert OutputFits(NewBox(c.value, c.treeSize, c.height, c.count, c.registersSize));
  }

  lemma TreeChunkFacts(p: S.Operation, data: bytes)
    requires S.Coupled(p) && S.DoTreeChunk(p, data).Ok?
    ensures p.state == S.OutputsOpen && S.DoTreeChunk(p, data).s.w.amounts.table == p.w.amounts.table
    ensures var q := S.DoTreeChunk(p, data).s; q.state == S.OutputsOpen || q.state == S.TxFinished
    ensures var c := p.w.tx.slot.box;
            c.state == BS.Initialized && |data| <= c.treeSize && (|data| < c.treeSize ==> |data| >= MAX_DATA_CHUNK_LEN)
  {
    hide OI.AddTreeChunk;
  }

  lemma LastFits(p: S.Operation, d: Draft)
    requires Exact(p, d) && p.state != S.OpInitialized && d.outputs != []
    ensures OutputFits(Last(d.outputs)) && Sized(Last(d.outputs)) && NoRepeat(Last(d.outputs).entries)
  {
    hide TableOf;
  }

  lemma ChunkSized(b: Box, c: BS.BoxCtx, data: bytes)
    requires Sized(b) && BS.Matches(c, b) && c.state == BS.Initialized && |data| <= c.treeSize
    requires |data| <= MAX_DATA_CHUNK_LEN && (|data| < c.treeSize ==> |data| == MAX_DATA_CHUNK_LEN)
    ensures Sized(BS.WithChunk(b, data))
  {
  }

  lemma TreeChunkExact(p: S.Operation, d: Draft, data: bytes)
    requires SR.Inv(p, d) && Exact(p, d) && S.Coupled(p) && |data| <= MAX_DATA_CHUNK_LEN && S.DoTreeChunk(p, data).Ok?
    ensures Exact(S.DoTreeChunk(p, data).s, SR.Record(d, S.TreeChunk(data)))
  {
    hide SR.Inv, Exact, S.DoTreeChunk, S.Coupled, BS.Matches, NoRepeat, Sized, Ordered, OI.Genuine;
    SR.TreeChunkKeeps(p, d, data);
    TreeChunkFacts(p, data);
    var q, e := S.DoTreeChunk(p, data).s, SR.Record(d, S.TreeChunk(data));
    LastMatches(p, d);
    LastMatches(q, e);
    LastFits(p, d);
    ChunkSized(Last(d.outputs), p.w.tx.slot.box, data);
    LastExact(p, q, d, e);
  }

  lemma KnownTreeFacts(p: S.Operation, c: S.Command)
    requires S.Coupled(p) && (c.FeeTree? || c.ChangeTree?) && S.Exec(p, c).Ok?
    ensures p.state == S.OutputsOpen && S.Exec(p, c).s.w.amounts.table == p.w.amounts.table
    ensures var q := S.Exec(p, c).s; q.state == S.OutputsOpen || q.state == S.TxFinished
  {
    hide OI.SetFee, OI.SetBip32, BS.TreeIsAdded;
    var tree := if c.FeeTree? then ErgoTree.MINERS_FEE_TREE else ErgoTree.GenerateP2pk(c.key);
    var r := FS.BoxRunOf(p.w);
    TableKept(BS.Run(r.box, r.log + tree, r.l), if c.FeeTree? then FeeBox else ChangeBox);
  }

  lemma TableKept(r: BS.Run, kind: BoxKind)
    requires r.l.Signer? && !BS.TreeIsAdded(r, kind).Fail?
    ensures BS.TreeIsAdded(r, kind).s.l.Signer? && BS.TreeIsAdded(r, kind).s.l.amounts.table == r.l.amounts.table
  {
  }

  lemma KnownTreeExact(p: S.Operation, d: Draft, c: S.Command)
    requires SR.Inv(p, d) && Exact(p, d) && S.Coupled(p) && (c.FeeTree? || c.ChangeTree?) && S.Exec(p, c).Ok?
    ensures Exact(S.Exec(p, c).s, SR.Record(d, c))
  {
    hide SR.Inv, Exact, S.Exec, S.Coupled, BS.Matches, NoRepeat, Sized, Ordered, OI.Genuine;
    SR.ExecKeeps(p, d, c);
    KnownTreeFacts(p, c);
    var q, e := S.Exec(p, c).s, SR.Record(d, c);
    LastMatches(p, d);
    LastMatches(q, e);
    LastFits(p, d);
    KnownSized(Last(d.outputs), Last(e.outputs));
    LastExact(p, q, d, e);
  }

  lemma KnownSized(b: Box, b': Box)
    requires Sized(b) && OI.Genuine(b') && b' == b.(tree := b'.tree, treeDone := true, kind := b'.kind)
             && b'.kind != TreeBox
    ensures Sized(b')
  {
  }

  lemma RegistersFacts(p: S.Operation, data: bytes)
    requires S.Coupled(p) && S.DoRegisters(p, data).Ok?
    ensures p.state == S.OutputsOpen && S.DoRegisters(p, data).s.w.amounts.table == p.w.amounts.table
    ensures var q := S.DoRegisters(p, data).s; q.state == S.OutputsOpen || q.state == S.TxFinished
  {
  }

  lemma RegistersExact(p: S.Operation, d: Draft, data: bytes)
    requires SR.Inv(p, d) && Exact(p, d) && S.Coupled(p) && S.DoRegisters(p, data).Ok?
    ensures Exact(S.DoRegisters(p, data).s, SR.Record(d, S.Registers(data)))
  {
    hide SR.Inv, Exact, S.DoRegisters, S.Coupled, BS.Matches, NoRepeat, Sized, Ordered, OI.Genuine;
    SR.RegistersKeeps(p, d, data);
    RegistersFacts(p, data);
    var q, e := S.DoRegisters(p, data).s, SR.Record(d, S.Registers(data));
    LastMatches(p, d);
    LastMatches(q, e);
    LastFits(p, d);
    SameTree(Last(d.outputs), Last(e.outputs));
    LastExact(p, q, d, e);
  }

  lemma SameTree(b: Box, b': Box)
    requires Sized(b) && b' == b.(entries := b'.entries, registers := b'.registers)
    ensures Sized(b')
  {
  }

  lemma NoRepeatSnoc(es: seq<Entry>, e: Entry)
    requires NoRepeat(es) && TokenSum(TokensOf(es), e.token.id) == 0
    ensures NoRepeat(es + [e])
  {
    var fs := es + [e];
    forall j | 0 <= j < |fs|
      ensures TokenSum(TokensOf(fs[..j]), fs[j].token.id) == 0
    {
      assert fs[..j] == if j < |es| then es[..j] else es;
    }
  }

  /** An amount is accepted only where none was shown yet. */
  lemma {:induction false} LoopNoRepeat(r: BS.Run, data: bytes, names: BS.Names, x: BS.Context, b: Box)
    requires names.TableIndexes? && names.distinct <= |names.ids| && x.Signing?
    requires BS.Counted(r.l, x, b, false) && NoRepeat(b.entries) && BS.TokenLoop(r, data, names).Ok?
    ensures NoRepeat(BS.WithTokens(b, data, names).entries)
    ensures var l := BS.TokenLoop(r, data, names).s.l; l.Signer? && l.amounts.table == r.l.amounts.table
    decreases |data|
  {
    if data == [] {
      assert BS.WithTokens(b, data, names) == b;
    } else {
      var o := BS.OneToken(r, data, names);
      var e := BS.ReadEntry(data, names).s;
      var b' := b.(entries := b.entries + [e]);
      BS.TokenCounted(r.l, x, b, e, b');
      NothingShown(r.l, b, e.token);
      NoRepeatSnoc(b.entries, e);
      hide BS.Counted, NoRepeat, BS.OnToken, BS.ReadEntry;
      LoopNoRepeat(o.s, data[12..], names, x, b');
      assert BS.WithTokens(b, data, names) == BS.WithTokens(b', data[12..], names) by {
        BS.EntriesStep(b, data, names);
      }
    }
  }

  lemma NothingShown(l: BS.Listener, b: Box, t: Token)
    requires l.Signer? && OI.ShowsTokens(l.output, l.amounts.table, b) && BS.OnToken(l, t).Ok?
    ensures TokenSum(TokensOf(b.entries), t.id) == 0
    ensures BS.OnToken(l, t).s.amounts.table == l.amounts.table
  {
  }

  lemma TokensFacts(p: S.Operation, data: bytes)
    requires S.Coupled(p) && S.DoOutputTokens(p, data).Ok?
    ensures p.state == S.OutputsOpen && FS.BoxSafe(p.w) && p.w.tx.state == FS.OutputsStarted && p.w.tx.slot.BoxSlot?
    ensures var q := S.DoOutputTokens(p, data).s; q.state == S.OutputsOpen || q.state == S.TxFinished
    ensures var l := BS.TokenLoop(FS.BoxRunOf(p.w), data, FS.NamesOf(p.w));
            l.Ok? && (l.s.l.Signer? ==> S.DoOutputTokens(p, data).s.w.amounts.table == l.s.l.amounts.table)
    ensures p.w.tx.slot.box.state == BS.TreeAdded
  {
    hide BS.TokenLoop;
  }

  /** The box that tokens are added to, and the tokens as both sides read them. */
  lemma TokensBox(p: S.Operation, d: Draft, data: bytes)
    requires SR.Inv(p, d) && p.state == S.OutputsOpen && p.w.tx.slot.box.state == BS.TreeAdded
    ensures d.outputs != [] && FS.NamesOf(p.w).distinct <= |FS.NamesOf(p.w).ids|
    ensures BS.Counted(FS.BoxRunOf(p.w).l, BS.Signing(d.inputs, Front(d.outputs)), Last(d.outputs), false)
    ensures SR.Record(d, S.OutputTokens(data))
         == FR.WithLastOutput(d, BS.WithTokens(Last(d.outputs), data, FS.NamesOf(p.w)))
  {
    hide FR.BoxBase, Emitted, BS.Counted, BS.Entries, FR.Inv, OI.ShowsTree, OI.Genuine;
    SR.Unfold(p.w, d);
    SR.EntriesAgree(data, d.tokensCount, d.ids, p.w.amounts.table);
  }

  lemma TokensExact(p: S.Operation, d: Draft, data: bytes)
    requires SR.Inv(p, d) && Exact(p, d) && S.Coupled(p) && S.DoOutputTokens(p, data).Ok?
    ensures Exact(S.DoOutputTokens(p, data).s, SR.Record(d, S.OutputTokens(data)))
  {
    hide SR.Inv, Exact, S.DoOutputTokens, S.Coupled, BS.Matches, NoRepeat, Sized, Ordered, OI.Genuine, BS.Counted,
         BS.TokenLoop;
    SR.OutputTokensKeeps(p, d, data);
    TokensFacts(p, data);
    TokensBox(p, d, data);
    var q, e := S.DoOutputTokens(p, data).s, SR.Record(d, S.OutputTokens(data));
    LastMatches(q, e);
    LastFits(p, d);
    LoopNoRepeat(FS.BoxRunOf(p.w), data, FS.NamesOf(p.w), BS.Signing(d.inputs, Front(d.outputs)), Last(d.outputs));
    SameTree(Last(d.outputs), Last(e.outputs));
    LastExact(p, q, d, e);
  }

  /** Every accepted subcommand keeps the description within the limits. */
  lemma ExactKept(p: S.Operation, d: Draft, c: S.Command)
    requires SR.Inv(p, d) && Exact(p, d) && Short(c) && S.Coupled(p) && S.Exec(p, c).Ok?
    ensures Exact(S.Exec(p, c).s, SR.Record(d, c))
  {
    hide SR.Inv, Exact, S.Coupled, SR.Record, S.DoStart, S.DoTokenIds, S.DoInputFrame, S.DoExtension, S.DoDataInputs,
         S.DoNewOutput, S.DoTreeChunk, S.DoFeeTree, S.DoChangeTree, S.DoOutputTokens, S.DoRegisters;
    match c
    case StartTx(_, _, _, _) => StartExact(p, d, c);
    case TokenIds(data) => IdsExact(p, d, data);
    case InputFrame(f, size) => FrameExact(p, d, f, size);
    case Extension(data) => ExtensionExact(p, d, data);
    case DataInputs(data) => DataInputsExact(p, d, data);
    case NewOutputBox(_, _, _, _, _) => NewOutputExact(p, d, c);
    case TreeChunk(data) => TreeChunkExact(p, d, data);
    case FeeTree => KnownTreeExact(p, d, c);
    case ChangeTree(_, _) => KnownTreeExact(p, d, c);
    case OutputTokens(data) => TokensExact(p, d, data);
    case Registers(data) => RegistersExact(p, d, data);
    case Confirm => ConfirmExact(p, d);
  }

  lemma ConfirmExact(p: S.Operation, d: Draft)
    requires Exact(p, d) && S.DoConfirm(p).Ok?
    ensures Exact(S.DoConfirm(p).s, SR.Record(d, S.Confirm))
  {
    hide TableOf, OutputFits;
  }

  // ---------- every run ----------

  /** The session is within the limits, and so is every box attested or being attested. */
  ghost predicate Modest(r: Reached) {
    && (r.app.ctx.Signing? ==> Exact(r.app.ctx.op, r.h.draft))
    && (r.app.ctx.Attesting? ==> r.h.source.box.kind == TreeBox && Sized(r.h.source.box))
    && forall s :: s in r.h.attested ==> Fits(s)
  }

  lemma ReadShort(issued: set<(bytes, bytes)>, sub: u8, data: ApduData, env: Surroundings)
    ensures ReadCommand(issued, sub, data, env).Ok? ==> Short(ReadCommand(issued, sub, data, env).s)
  {
  }

  lemma SignModest(dev: A.Device, r: Reached, e: Event)
    requires A.Proper(dev) && Inv(dev, r.app, r.h) && Safe(r.app) && Modest(r) && e.SignApdu?
    ensures var s := Next(dev, r.app, e); Modest(Reached(s.app, Remember(r.app, r.h, e, s)))
  {
    hide SR.Inv, Fits, Exact, RunSubcommand, S.Coupled, SR.Record, ReadCommand, S.Exec, InitParameters, S.Start;
    NothingExact(e.env.commitment);
    if r.app.ctx.Signing? {
      SubcommandShape(r.app, e.sub, e.data, e.env);
      ReadShort(r.app.issued, e.sub, e.data, e.env);
      T.SessionInv(dev, r);
      var c := ReadCommand(r.app.issued, e.sub, e.data, e.env);
      if c.Ok? && S.Exec(r.app.ctx.op, c.s).Ok? {
        ExactKept(r.app.ctx.op, r.h.draft, c.s);
      }
    }
  }

  lemma NothingExact(base: bytes)
    ensures Exact(S.Start(base), NewDraft(base))
  {
  }

  /** What an accepted attestation message says about the box context. */
  lemma AttestFacts(dev: A.Device, app: App, h: History, sub: u8, data: ApduData)
    requires Inv(dev, app, h) && app.ctx.Attesting? && 0x02 <= sub <= 0x04 && Sized(h.source.box)
             && h.source.box.kind == TreeBox
    requires !RunAttest(dev, app, sub, data).response.Error?
    ensures Sized(Attend(h.source, sub, data).box) && Attend(h.source, sub, data).box.kind == TreeBox
  {
    var a, b := app.ctx.a, h.source.box;
    if sub == 0x02 {
      AttestMatches(dev, a, h.source);
      ChunkAccepted(dev, app, data);
      hide BS.Matches, Sized, Inv;
      ChunkSized(b, a.box, data);
    } else {
      hide Sized, Inv;
      SameTree(b, Attend(h.source, sub, data).box);
    }
  }

  lemma AttestMatches(dev: A.Device, a: A.AttestCtx, s: A.Source)
    requires A.Inv(dev, a, s) && a.state == A.AttestApproved
    ensures BS.Matches(a.box, s.box)
  {
  }

  lemma ChunkAccepted(dev: A.Device, app: App, data: bytes)
    requires app.ctx.Attesting? && !RunAttest(dev, app, 0x02, data).response.Error?
    ensures var c := app.ctx.a.box;
            && app.ctx.a.state == A.AttestApproved && c.state == BS.Initialized && |data| <= c.treeSize
            && (|data| < c.treeSize ==> |data| >= MAX_DATA_CHUNK_LEN)
  {
    hide A.CheckFinished, BS.TreeIsAdded;
  }

  lemma AttestModest(dev: A.Device, r: Reached, e: Event)
    requires A.Proper(dev) && Inv(dev, r.app, r.h) && Safe(r.app) && Modest(r) && e.AttestApdu?
    ensures var s := Next(dev, r.app, e); Modest(Reached(s.app, Remember(r.app, r.h, e, s)))
  {
    hide Exact, Sized, S.Coupled, Inv, A.Attestable, A.Init, RunAttest, Attend;
    if e.sub == 0x01 {
      NewSourceSized(e.data, e.p2 == 0x02, e.env.session);
    } else if r.app.ctx.Attesting? && 0x02 <= e.sub <= 0x04 {
      AttestStep(dev, r.app, r.h, e.sub, e.data);
      if !RunAttest(dev, r.app, e.sub, e.data).response.Error? {
        AttestFacts(dev, r.app, r.h, e.sub, e.data);
      }
    } else if r.app.ctx.Attesting? && e.sub == 0x05 {
      GetFrameStep(dev, r.app, r.h, e.data);
      AttendFrame(r.h.source, e.data);
    }
  }

  lemma NewSourceSized(data: bytes, hasToken: bool, session: u8)
    ensures A.Init(data, hasToken, session).Ok? ==>
              |data| >= 55 && Sized(A.NewSource(data).box) && A.NewSource(data).box.kind == TreeBox
  {
  }

  /** In every run, what was described and what was attested is within the limits. */
  lemma {:induction false} ModestAlways(dev: A.Device, events: seq<Event>)
    requires A.Proper(dev)
    ensures Modest(After(dev, events))
  {
    hide Next, Inv, A.Proper, Safe, Remember, Modest;
    if events == [] {
      BootModest();
    } else {
      ModestAlways(dev, Front(events));
      ModestNext(dev, After(dev, Front(events)), Last(events));
    }
  }

  lemma BootModest()
    ensures Modest(Reached(Booted(), EmptyHistory()))
  {
  }

  lemma ModestNext(dev: A.Device, r: Reached, e: Event)
    requires A.Proper(dev) && Inv(dev, r.app, r.h) && Safe(r.app) && Modest(r)
    ensures var s := Next(dev, r.app, e); Modest(Reached(s.app, Remember(r.app, r.h, e, s)))
  {
    hide Modest, Inv, Safe, A.Proper, Next, Remember;
    match e
    case SignApdu(_, _, _, _) => SignModest(dev, r, e);
    case AttestApdu(_, _, _, _) => AttestModest(dev, r, e);
    case _ => QuietModest(dev, r, e);
  }

  lemma QuietModest(dev: A.Device, r: Reached, e: Event)
    requires Safe(r.app) && Modest(r) && (e.OtherApdu? || e.UserAnswer?)
    ensures var s := Next(dev, r.app, e); Modest(Reached(s.app, Remember(r.app, r.h, e, s)))
  {
    hide Exact, Fits, Sized, S.Coupled;
  }

  // ---------- every signed transaction ----------

  lemma FramesObtainable(dev: A.Device, attested: set<A.Source>, inputs: seq<Input>)
    requires InputsVouched(dev, attested, inputs) && forall s :: s in attested ==> Fits(s)
    ensures forall k, j :: 0 <= k < |inputs| && 0 <= j < |inputs[k].frames| ==> Obtainable(dev, inputs[k].frames[j])
  {
    hide Fits, FrameFrom;
    forall k, j | 0 <= k < |inputs| && 0 <= j < |inputs[k].frames|
      ensures Obtainable(dev, inputs[k].frames[j])
    {
      assert Vouched(dev, attested, inputs[k].frames[j]);
    }
  }

  lemma BalancedInRange(a: Amounts, l: Ledger)
    requires Balanced(a, l) && forall id :: TokenSum(l.inTokens, id) <= I64_MAX
    ensures InRange(l)
  {
    forall id
      ensures TokenInRange(l, id)
    {
      if id in a.table {
        assert a.tokens[Find(a.table, id)] == BalanceAt(a.table, l, Find(a.table, id));
      } else {
        TokenSumAbsent(l.inTokens, id);
        TokenSumAbsent(l.outTokens, id);
      }
    }
  }

  lemma EndThere(op: S.Operation, d: Draft)
    requires SR.Inv(op, d) && op.state == S.Finalized
    ensures AllThere(d) && FR.InputsWell(d.inputs) && Balanced(op.w.amounts, Counted(d))
  {
    hide Balanced, FR.BoxBase, Emitted, BS.Counted, OI.ShowsTree, FR.InputsWell;
  }

  lemma InputsFit(dev: A.Device, attested: set<A.Source>, p: S.Operation, d: Draft)
    requires InputsVouched(dev, attested, d.inputs) && forall s :: s in attested ==> Fits(s)
    requires FR.InputsWell(d.inputs) && Exact(p, d) && p.state != S.OpInitialized
    ensures forall k :: 0 <= k < |d.inputs| ==> InputFits(dev, d.inputs[k])
  {
    hide Fits, Obtainable, IS.WellFormed, TableOf, InputsVouched;
    FramesObtainable(dev, attested, d.inputs);
    forall k | 0 <= k < |d.inputs|
      ensures InputFits(dev, d.inputs[k])
    {
      InputIsComplete(d.inputs, k);
    }
  }

  /** Every signed transaction is within the limits. */
  lemma SignedWithin(dev: A.Device, events: seq<Event>, e: Event)
    requires A.Proper(dev) && Next(dev, After(dev, events).app, e).response.Signature?
    ensures Within(dev, After(dev, events).h.draft)
  {
    hide Next, Inv, A.Proper, After, Shape, Balanced, InputsVouched, TableOf, Fits, SR.Inv, FR.InputsWell, InputFits,
         OutputFits, S.Coupled, AllThere, InRange, T.AllArrived, TxBytes;
    T.SignatureSound(dev, events, e);
    ShapeAlways(dev, events);
    ModestAlways(dev, events);
    var r := After(dev, events);
    var op, d := r.app.ctx.op, r.h.draft;
    T.SessionInv(dev, r);
    EndThere(op, d);
    InputsFit(dev, r.h.attested, op, d);
    BalancedInRange(op.w.amounts, Counted(d));
  }
}
