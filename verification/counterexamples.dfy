/**
 Runs that show where the theorems end.  A transaction within the limits is signed by some run,
 so each of them is a transaction, except where the order of events matters.
 */
module Counterexamples {
  import opened Bytes
  import opened Gve
  import opened TxTypes
  import opened Accounting
  import opened Reference
  import opened Frames
  import opened Application
  import opened Runs
  import opened Totals
  import opened Message
  import opened Agreement
  import opened Limits
  import opened Witness
  import opened Acceptance
  import opened Completeness
  import ErgoTree
  import IS = InputSerializer
  import OI = OutputInfo
  import S = Signing
  import SR = SigningRefinement
  import A = Attestation
  import T = Theorems

  // ---------- transactions with one input ----------

  /** One input, no data inputs, no announced ids. */
  function Simple(i: Input, outputs: seq<Box>): Draft
    requires CompleteBoxes(outputs) < 0x1_0000
  {
    Draft([], 1, 0, 0, CompleteBoxes(outputs), [], [i], [], outputs)
  }

  /** At most a hundred tokens, at most one of each kind counted at a time. */
  ghost predicate Few(ts: seq<Token>) {
    |ts| <= TOKEN_MAX_COUNT && forall i :: 0 <= i < |ts| ==> ts[i].amount <= 1
  }

  lemma {:induction false} FewSum(ts: seq<Token>, id: bytes)
    requires forall i :: 0 <= i < |ts| ==> ts[i].amount <= 1
    ensures TokenSum(ts, id) <= |ts|
  {
    if ts != [] {
      FewSum(Front(ts), id);
    }
  }

  lemma {:induction false} TableSize(ids: seq<bytes>, ts: seq<Token>)
    ensures |TableOf(ids, ts)| <= |ids| + |ts|
  {
    if ts != [] {
      TableSize(ids, Front(ts));
    }
  }

  lemma {:induction false} NoBoxTokens(s: seq<Box>)
    requires forall k :: 0 <= k < |s| ==> s[k].entries == []
    ensures BoxTokens(s) == []
  {
    if s != [] {
      NoBoxTokens(Front(s));
    }
  }

  lemma OneInput(i: Input)
    ensures InputValues([i]) == [i.value] && InputTokens([i]) == i.tokens
    ensures Sum([i.value]) == i.value
  {
    InputSnoc([], i);
    assert [] + [i] == [i] && [] + i.tokens == i.tokens;
    assert InputValues([]) == [] && InputTokens([]) == [] && Front([i.value]) == [];
  }

  lemma SimpleWithin(dev: A.Device, i: Input, outputs: seq<Box>)
    requires InputFits(dev, i) && |i.id| == ID_LEN && Few(i.tokens)
    requires outputs != [] && Complete(Last(outputs)) && CompleteBoxes(outputs) < 0x1_0000
    requires forall k :: 0 <= k < |outputs| ==> OutputFits(outputs[k]) && outputs[k].entries == []
    requires SumOf(BoxValues(outputs), ChangeBox) + SumOf(BoxValues(outputs), FeeBox) <= i.value
    ensures Within(dev, Simple(i, outputs))
  {
    hide InputFits, OutputFits, BoxValues, SumOf, Complete, TableOf, InputTokens, InputValues, Few, InRange,
         CompleteBoxes, Shape;
    var d := Simple(i, outputs);
    OneInput(i);
    NoBoxTokens(outputs);
    TableSize([], i.tokens);
    SimpleRange(Counted(d), i.value, i.tokens);
    LastCounts(outputs);
    NothingAnnounced(d);
    assert |i.tokens| <= TOKEN_MAX_COUNT by { FewCount(i.tokens); }
  }

  lemma FewCount(ts: seq<Token>)
    requires Few(ts)
    ensures |ts| <= TOKEN_MAX_COUNT
  {
  }

  lemma NothingToResolve(outputs: seq<Box>)
    requires forall k :: 0 <= k < |outputs| ==> outputs[k].entries == []
    ensures forall k :: 0 <= k < |outputs| ==> AllResolved(outputs[k].entries, [])
    ensures forall ids :: ids == [] ==> AllIds(ids)
  {
  }

  lemma NothingAnnounced(d: Draft)
    requires d.ids == [] && d.dataInputs == []
    requires forall k :: 0 <= k < |d.inputs| ==> |d.inputs[k].id| == ID_LEN
    requires forall k :: 0 <= k < |d.outputs| ==> d.outputs[k].entries == []
    ensures Shape(d)
  {
    NothingToResolve(d.outputs);
    hide AllIds, AllResolved;
  }

  lemma LastCounts(outputs: seq<Box>)
    requires outputs != [] && Complete(Last(outputs))
    ensures CompleteBoxes(outputs) > 0
  {
  }

  lemma SimpleRange(l: Ledger, value: u64, ts: seq<Token>)
    requires l.inValues == [value] && Sum([value]) == value && l.inTokens == ts && l.outTokens == [] && Few(ts)
    requires SumOf(l.outValues, ChangeBox) + SumOf(l.outValues, FeeBox) <= value
    ensures InRange(l)
  {
    forall id
      ensures TokenInRange(l, id)
    {
      FewSum(ts, id);
      NoTokens(l.outTokens, id);
    }
  }

  /** A box without tokens and registers. */
  function Plain(value: u64): A.Source {
    A.Source(Box(value, 0, 0, 0, 0, TreeBox, true, [], [], []), Zeros(32), 0)
  }

  lemma PlainFits(value: u64)
    ensures Fits(Plain(value)) && |Plain(value).box.entries| == 0 && FramesCount(0) == 1
  {
  }

  /** The input that spends it. */
  ghost function PlainInput(dev: A.Device, value: u64): Input {
    PlainFits(value);
    Input(A.BoxId(dev, Plain(value)), 1, 0, value, [FrameAt(dev, Plain(value), 0)], [], [])
  }

  lemma PlainInputFits(dev: A.Device, value: u64)
    requires A.Proper(dev)
    ensures InputFits(dev, PlainInput(dev, value)) && |PlainInput(dev, value).id| == ID_LEN
  {
    PlainFits(value);
    var f := FrameAt(dev, Plain(value), 0);
    assert Share(TokensOf(Plain(value).box.entries), 0) == [];
    assert f == Frame(A.BoxId(dev, Plain(value)), 1, 0, value, []);
    assert Front([f]) == [] && IS.FrameTokens([]) == [];
    assert IS.FrameTokens([f]) == [] + TokenPairs([]);
    hide Fits;
    assert FrameFrom(dev, Plain(value), f);
  }

  /** An output with this tree and these registers. */
  function Output1(value: u64, tree: bytes, registers: bytes): Box
    requires |tree| < 100 && |registers| < 100
  {
    Box(value, |tree|, 0, 0, |registers|, TreeBox, true, tree, [], registers)
  }

  lemma OneBox(b: Box)
    ensures BoxesBytes([b]) == BoxBytes(b) && CompleteBoxes([b]) == (if Complete(b) then 1 else 0)
    ensures BoxValues([b]) == Counts(b)
  {
    hide BoxBytes, Complete;
    assert Front([b]) == [];
    assert BoxesBytes([]) == [] && [] + BoxBytes(b) == BoxBytes(b);
    BoxSnoc([], b);
    assert [] + [b] == [b] && BoxValues([]) == [] && [] + Counts(b) == Counts(b);
  }

  lemma OneKind(b: Box, kind: BoxKind)
    requires b.treeDone
    ensures SumOf(BoxValues([b]), kind) == if b.kind == kind then b.value else 0
  {
    OneBox(b);
    assert Front([(b.kind, b.value)]) == [] && SumOf([], kind) == 0;
  }

  /** Spending a plain box into one output. */
  ghost function OneOutput(dev: A.Device, value: u64, tree: bytes, registers: bytes): Draft
    requires |tree| < 100 && |registers| < 100
  {
    OneBox(Output1(value, tree, registers));
    Simple(PlainInput(dev, value), [Output1(value, tree, registers)])
  }

  lemma OneOutputWithin(dev: A.Device, value: u64, tree: bytes, registers: bytes)
    requires A.Proper(dev) && |tree| < 100 && |registers| < 100
    ensures Within(dev, OneOutput(dev, value, tree, registers))
            && OneOutput(dev, value, tree, registers).outputsCount == 1
  {
    hide InputFits, PlainInput, A.Proper;
    var b := Output1(value, tree, registers);
    PlainInputFits(dev, value);
    TokenFree(dev, value);
    OneBox(b);
    OneKind(b, ChangeBox);
    OneKind(b, FeeBox);
    SimpleWithin(dev, PlainInput(dev, value), [b]);
  }

  lemma TokenFree(dev: A.Device, value: u64)
    ensures PlainInput(dev, value).tokens == [] && PlainInput(dev, value).value == value
  {
  }

  /** On every device some run ends in a signature over the serialization of a described transaction. */
  lemma SomethingIsSigned(dev: A.Device) returns (events: seq<Event>, e: Event)
    requires A.Proper(dev)
    ensures Next(dev, After(dev, events).app, e).response.Signature?
    ensures |After(dev, events).h.draft.outputs| == After(dev, events).h.draft.outputsCount == 1
  {
    hide A.Proper, After, Next, Within;
    OneOutputWithin(dev, 5, [], []);
    events, e := SignedSomehow(dev, OneOutput(dev, 5, [], []));
  }

  // ---------- two transactions with one message ----------

  lemma SixZeros()
    ensures BoxBytes(Output1(0, [], [0, 0, 0])) == BoxBytes(Output1(0, [0, 0], []))
  {
    assert Vlq(0) == [0];
    assert BoxBytes(Output1(0, [], [0, 0, 0])) == [0, 0, 0, 0, 0, 0];
    assert BoxBytes(Output1(0, [0, 0], [])) == [0, 0, 0, 0, 0, 0];
  }

  lemma SharedBytes(dev: A.Device)
    ensures var d, e := OneOutput(dev, 0, [], [0, 0, 0]), OneOutput(dev, 0, [0, 0], []);
            TxBytes(d) == TxBytes(e) && !SameTx(d, e) && d.base == e.base && |d.outputs| == |e.outputs| == 1
  {
    var d, e := OneOutput(dev, 0, [], [0, 0, 0]), OneOutput(dev, 0, [0, 0], []);
    OneBox(d.outputs[0]);
    OneBox(e.outputs[0]);
    SixZeros();
    hide BoxBytes, BoxesBytes, InputsBytes, Flatten, Vlq;
    assert d.outputs[0].tree != e.outputs[0].tree;
    assert !SameBox(d.outputs[0], e.outputs[0]);
  }

  /** On every device two runs sign one message, and their transactions differ in a tree and registers. */
  lemma LengthsNeeded(dev: A.Device)
      returns (events: seq<Event>, e: Event, events': seq<Event>, e': Event, message: bytes)
    requires A.Proper(dev)
    ensures SignedAs(dev, events, e, message) && SignedAs(dev, events', e', message)
    ensures |After(dev, events).h.draft.base| == |After(dev, events').h.draft.base|
    ensures !SameTx(After(dev, events).h.draft, After(dev, events').h.draft)
  {
    hide A.Proper, After, Next, Within, OneOutput, SameTx, TxBytes, Shape;
    OneOutputWithin(dev, 0, [], [0, 0, 0]);
    OneOutputWithin(dev, 0, [0, 0], []);
    SharedBytes(dev);
    events, e := SignedSomehow(dev, OneOutput(dev, 0, [], [0, 0, 0]));
    events', e' := SignedSomehow(dev, OneOutput(dev, 0, [0, 0], []));
    message := Next(dev, After(dev, events).app, e).response.message;
    SignedReference(dev, events, e, message);
    SignedReference(dev, events', e', Next(dev, After(dev, events').app, e').response.message);
  }

  // ---------- an output opened too early ----------

  /** A fee box that still waits for a byte of registers, and the box that was finished instead. */
  function LostFee(): Box {
    Box(5, 0, 0, 0, 1, FeeBox, true, ErgoTree.MINERS_FEE_TREE, [], [])
  }

  function Kept(): Box {
    Output1(5, [], [])
  }

  lemma OneOfTwo(a: Box, b: Box)
    requires !Complete(a) && Complete(b)
    ensures Finished([a, b]) == [b] && Abandoned([a, b]) == [a] && CompleteBoxes([a, b]) == 1
  {
    hide Complete;
    assert Front([a, b]) == [a] && Front([a]) == [];
    assert Finished([a]) == [] && Abandoned([a]) == [a] && CompleteBoxes([a]) == 0;
  }

  lemma TwoKinds(a: Box, b: Box, kind: BoxKind)
    requires a.treeDone && b.treeDone
    ensures SumOf(BoxValues([a, b]), kind) == (if a.kind == kind then a.value else 0)
            + (if b.kind == kind then b.value else 0)
  {
    ValuesSnoc([a], b, kind);
    assert [a] + [b] == [a, b];
    OneKind(a, kind);
  }

  /** The transaction with the abandoned fee box. */
  ghost function LosingFee(dev: A.Device): Draft {
    OneOfTwo(LostFee(), Kept());
    Simple(PlainInput(dev, 5), [LostFee(), Kept()])
  }

  lemma LosingFeeWithin(dev: A.Device)
    requires A.Proper(dev)
    ensures Within(dev, LosingFee(dev)) && LosingFee(dev).outputsCount == 1
  {
    var a, b := LostFee(), Kept();
    OneOfTwo(a, b);
    TwoKinds(a, b, ChangeBox);
    TwoKinds(a, b, FeeBox);
    PlainInputFits(dev, 5);
    TokenFree(dev, 5);
    assert OutputFits(a) && OutputFits(b);
    hide InputFits, PlainInput, A.Proper, OutputFits;
    SimpleWithin(dev, PlainInput(dev, 5), [a, b]);
  }

  lemma FeeIsLost(d: Draft)
    requires d.outputs == [LostFee(), Kept()]
    ensures !NothingLost(d) && SumOf(Counted(Final(d)).outValues, FeeBox) == 0
            && SumOf(Counted(d).outValues, FeeBox) == 5
  {
    var a, b := LostFee(), Kept();
    OneOfTwo(a, b);
    OneKind(a, FeeBox);
    OneKind(b, FeeBox);
    TwoKinds(a, b, FeeBox);
    hide Finished, Abandoned, BoxValues, Complete;
  }

  /**
   On every device there is a signed run whose message is not the serialization of the
   transaction and whose totals are not its totals: a box is opened, made a fee box and
   abandoned, the announced output is opened and finished, and a fee of 5 is shown although
   no box pays one.
   */
  lemma OpenedTwice(dev: A.Device) returns (events: seq<Event>, e: Event)
    requires A.Proper(dev)
    ensures Next(dev, After(dev, events).app, e).response.Signature? && After(dev, events).app.ctx.Signing?
    ensures var d, a := After(dev, events).h.draft, After(dev, events).app.ctx.op.w.amounts;
            && Next(dev, After(dev, events).app, e).response.message != d.base + TxBytes(Final(d))
            && a.fee == 5 && SumOf(Counted(Final(d)).outValues, FeeBox) == 0 && !Balanced(a, Counted(Final(d)))
  {
    hide A.Proper, After, Next, Within, NothingLost, TxBytes, TokensBalanced, InputsVouched, T.AllArrived, BoxValues,
         BoxTokens;
    LosingFeeWithin(dev);
    events, e := SignedSomehow(dev, LosingFee(dev));
    FeeIsLost(LosingFee(dev));
    T.SignatureSound(dev, events, e);
  }

  // ---------- frames of two attestations mixed ----------

  lemma TwinsFit(dev: A.Device)
    ensures Fits(Twin(false)) && Fits(Twin(true))
  {
    TwinsAttestable(dev);
    FiveBytes(0);
    FiveBytes(50);
  }

  lemma FiveSizes()
    ensures |Five(0)| == 5 && |Five(50)| == 5 && FramesCount(5) == 2
    ensures |TokensOf(Five(0))| == 5 && |TokensOf(Five(50))| == 5
  {
  }

  /** Both twins are attested; the first frame of the one and the second of the other are taken. */
  lemma AttestTwins(dev: A.Device) returns (x: Desk, events: seq<Event>)
    requires A.Proper(dev)
    ensures |Twin(false).box.entries| == |Twin(true).box.entries| == 5
    ensures x.dev == dev && x.attested == {Twin(false), Twin(true)} && Idle(dev, events, x.issued, x.attested)
    ensures Issue(dev, Twin(false), 0) in x.issued && Issue(dev, Twin(true), 1) in x.issued
  {
    hide Fits, Twin, At, Idle, A.Proper, After, Five, Issue, TokensOf, FramesCount;
    TwinsFit(dev);
    TwinEntries();
    FiveSizes();
    NothingYet(dev);
    var s, t := Twin(false), Twin(true);
    events := AttestBox(dev, [], s, {}, {});
    events := TakeFrame(dev, events, s, {}, {}, 0);
    var i1, k1 := {} + {Issue(dev, s, 0)}, {} + {s};
    events := AttestBox(dev, events, t, i1, k1);
    events := TakeFrame(dev, events, t, i1, k1, 1);
    x := Desk(dev, i1 + {Issue(dev, t, 1)}, k1 + {t});
    assert k1 + {t} == {s, t};
  }

  lemma FrameAtHand(x: Desk, s: A.Source, k: nat)
    requires Fits(s) && |s.box.entries| <= TOKEN_MAX_COUNT && k < FramesCount(|s.box.entries|)
    requires Issue(x.dev, s, k) in x.issued
    ensures Obtainable(x.dev, FrameAt(x.dev, s, k)) && Held(x, FrameAt(x.dev, s, k))
  {
    WholeBox(s);
    hide Fits, A.Attestable, A.BoxId, PairsBytes, Share, Issue;
    assert HeldFrom(x, s, FrameAt(x.dev, s, k));
  }

  lemma MixedFrames(x: Desk)
    requires |Twin(false).box.entries| == |Twin(true).box.entries| == 5 && Fits(Twin(false)) && Fits(Twin(true))
    requires Issue(x.dev, Twin(false), 0) in x.issued && Issue(x.dev, Twin(true), 1) in x.issued
    ensures var fs := Mixed(x.dev).frames; forall j :: 0 <= j < |fs| ==> Obtainable(x.dev, fs[j]) && Held(x, fs[j])
  {
    hide Fits, Twin, FrameAt, Issue, Mix, Obtainable, Held;
    FrameAtHand(x, Twin(false), 0);
    FrameAtHand(x, Twin(true), 1);
  }

  lemma MixedTokensFew()
    ensures Few(Mix())
  {
    assert forall i :: 0 <= i < |Mix()| ==> Mix()[i].amount == 1;
  }

  lemma MixedSize(dev: A.Device)
    requires A.Proper(dev) && |Twin(false).box.entries| == |Twin(true).box.entries| == 5
    ensures var i := Mixed(dev);
            Few(i.tokens) && |i.id| == ID_LEN && i.value == 0 && i.extension == [] && i.extensionSize == 0
  {
    hide Twin, Mix, Few, Five, PairsBytes, Share;
    MixedTokensFew();
  }

  lemma MixedFits(x: Desk)
    requires A.Proper(x.dev) && |Twin(false).box.entries| == |Twin(true).box.entries| == 5
    requires Issue(x.dev, Twin(false), 0) in x.issued && Issue(x.dev, Twin(true), 1) in x.issued
    ensures InputFits(x.dev, Mixed(x.dev)) && HeldUpto(x, Mixed(x.dev).frames)
  {
    hide A.Proper, Fits, Twin, Mixed, A.BoxId, A.Attestable, Obtainable, Held, Issue, IS.WellFormed, Few;
    TwinsFit(x.dev);
    TwinsAttestable(x.dev);
    MixedWell(x.dev);
    MixedSize(x.dev);
    MixedFrames(x);
  }

  lemma MixedReady(x: Desk)
    requires A.Proper(x.dev) && |Twin(false).box.entries| == |Twin(true).box.entries| == 5
    requires Issue(x.dev, Twin(false), 0) in x.issued && Issue(x.dev, Twin(true), 1) in x.issued
    ensures CompleteBoxes([Output1(0, [], [])]) == 1 && Ready(x, Simple(Mixed(x.dev), [Output1(0, [], [])]))
  {
    hide A.Proper, Twin, Mixed, InputFits, HeldUpto, Within, Few, Issue, AllHeld;
    var b := Output1(0, [], []);
    MixedFits(x);
    MixedSize(x.dev);
    OneBox(b);
    OneKind(b, ChangeBox);
    OneKind(b, FeeBox);
    SimpleWithin(x.dev, Mixed(x.dev), [b]);
    HeldAll(x, Simple(Mixed(x.dev), [b]));
  }

  /**
   On every device there is a signed run in which the only input was assembled from frames of
   two attestations of its id and counts what neither of them hashed into the id.
   */
  lemma MixedIsSigned(dev: A.Device) returns (events: seq<Event>, e: Event)
    requires A.Proper(dev)
    ensures Next(dev, After(dev, events).app, e).response.Signature?
    ensures After(dev, events).h.attested == {Twin(false), Twin(true)} && |After(dev, events).h.draft.inputs| == 1
    ensures var i := After(dev, events).h.draft.inputs[0];
            && A.BoxId(dev, Twin(false)) == A.BoxId(dev, Twin(true)) == i.id
            && !AgreesWith(Twin(false), i) && !AgreesWith(Twin(true), i)
  {
    hide A.Proper, After, Next, Ready, Idle, Twin, Mixed, Issue, A.BoxId, A.Attestable, FromFrames, AgreesWith;
    var x;
    x, events := AttestTwins(dev);
    MixedReady(x);
    FramesCanBeMixed(dev);
    events, e := SignReady(x, events, Simple(Mixed(dev), [Output1(0, [], [])]));
  }

  // ---------- a refusal that does not end the session ----------

  /** Up to the message that would complete the only output. */
  lemma OutputOpen(dev: A.Device) returns (x: Desk, events: seq<Event>)
    requires A.Proper(dev)
    ensures x.dev == dev && Ready(x, OneOutput(dev, 5, [], []))
    ensures InSession(x, events, OutputAt(OneOutput(dev, 5, [], []), 0, TreePart(Kept(), 0)))
  {
    hide A.Proper, After, Idle, Within, InSession, OneOutput, OutputAt, InputFits, AllHeld;
    var t := OneOutput(dev, 5, [], []);
    OneOutputWithin(dev, 5, [], []);
    NothingYet(dev);
    FitsAll(dev, t);
    x, events := ObtainInputs(Desk(dev, {}, {}), [], t.inputs);
    HeldAll(x, t);
    OutputsOfOne(dev);
    events := BeginTx(x, events, t);
    events := GiveIds(x, events, t, 0);
    assert t.inputs[..0] == [] && t.outputs[..0] == [];
    events := GiveInputs(x, events, t, 0);
    events := GiveData(x, events, t, 0);
    events := OpenOutput(x, events, t, 0);
  }

  lemma FitsAll(dev: A.Device, t: Draft)
    requires Within(dev, t)
    ensures forall k :: 0 <= k < |t.inputs| ==> InputFits(dev, t.inputs[k])
  {
  }

  lemma HeldAll(x: Desk, t: Draft)
    requires InputsHeld(x, t.inputs)
    ensures AllHeld(x, t)
  {
    hide Held;
    forall k, j | 0 <= k < |t.inputs| && 0 <= j < |t.inputs[k].frames|
      ensures Held(x, t.inputs[k].frames[j])
    {
      assert HeldUpto(x, t.inputs[k].frames);
    }
  }

  lemma OutputsOfOne(dev: A.Device)
    ensures OneOutput(dev, 5, [], []).outputs == [Kept()] && OneOutput(dev, 5, [], []).ids == []
  {
  }

  lemma CompletedThen(p: S.Operation, d: Draft, t: Draft)
    requires SR.Inv(p, d) && Running(p) && Takes(p, S.TreeChunk([])) && SR.Record(d, S.TreeChunk([])) == t
             && AllThere(t)
    ensures var q := S.Exec(p, S.TreeChunk([])).s; SR.Inv(q, t) && q.state == S.TxFinished
  {
    hide SR.Inv, S.Exec, SR.Record, AllThere, S.Coupled;
    SR.ExecKeeps(p, d, S.TreeChunk([]));
    FinishedThen(S.Exec(p, S.TreeChunk([])).s, t);
  }

  /** The last chunk is sent to a device that warns, and the warning is shown. */
  lemma Warned(dev: A.Device) returns (x: Desk, events: seq<Event>)
    requires A.Proper(dev)
    ensures x.dev == dev && After(dev, events).h.draft == OneOutput(dev, 5, [], [])
            && After(dev, events).h.attested == x.attested
    ensures var app := After(dev, events).app;
            && app.ctx.Signing? && app.ctx.session == 7 && app.ctx.op.state == S.TxFinished
            && app.screen == BlindWarning && app.issued == x.issued
  {
    hide A.Proper, After, Ready, InSession, InContext, OneOutput, OutputAt, SR.Inv, Exact, S.Exec, S.Coupled, SR.Record,
         ReadCommand, OutputStage, Room, Shape, InputFits, OutputFits, AllHeld, AllThere, OI.Blind;
    var t, c := OneOutput(dev, 5, [], []), S.TreeChunk([]);
    x, events := OutputOpen(dev);
    OutputsOfOne(dev);
    var d := OutputAt(t, 0, TreePart(Kept(), 0));
    Counts0(x, t);
    LastChunk(x, t, events);
    var env := Willing().(warns := true);
    var p := OpAt(x, events);
    EmptyRead(x.issued, env);
    OpFacts(x, events, d);
    CompletedThen(p, d, t);
    var q := S.Exec(p, c).s;
    T.BlindExact(q, t);
    events := Send(x, events, d, 0x16, [], env, c);
  }

  lemma EmptyRead(issued: set<(bytes, bytes)>, env: Surroundings)
    ensures ReadCommand(issued, 0x16, [], env) == Ok(S.TreeChunk([]))
  {
  }

  lemma LastChunk(x: Desk, t: Draft, events: seq<Event>)
    requires Ready(x, t) && t.outputs == [Kept()] && InSession(x, events, OutputAt(t, 0, TreePart(Kept(), 0)))
    ensures A.Proper(x.dev) && Takes(OpAt(x, events), S.TreeChunk([]))
    ensures SR.Record(OutputAt(t, 0, TreePart(Kept(), 0)), S.TreeChunk([])) == t
  {
    hide Ready, A.Proper, After, InSession, InContext, SR.Inv, Exact, Takes, OutputStage, Room, OutputAt, Sized,
         Ordered, NoRepeat, AllResolved, SR.Record;
    var b := Kept();
    OutputReady(x, t, 0);
    NotYet(TreePart(b, 0));
    StillOutputs(x, t, 0, TreePart(b, 0));
    LastOf(t, 0, TreePart(b, 0));
    ChunkRecords(t, 0, 0);
    OpFacts(x, events, OutputAt(t, 0, TreePart(b, 0)));
    assert b.tree[0..ChunkEnd(b.tree, 0)] == [];
    ChunkTaken(OpAt(x, events), OutputAt(t, 0, TreePart(b, 0)), []);
    WholeAgain(t);
  }

  lemma WholeAgain(t: Draft)
    requires t.outputs == [Kept()]
    ensures OutputAt(t, 0, TokensPart(Kept(), 0)) == t
  {
    assert t.outputs[..0] + [Kept()] == t.outputs;
  }

  /**
   On every device that warns there is a run in which the user rejects the transaction at the
   warning, and which ends in a signature without a new session.
   */
  lemma WarningPassed(dev: A.Device) returns (before: seq<Event>, no: Event, after: seq<Event>, e: Event)
    requires A.Proper(dev)
    ensures After(dev, before).app.screen == BlindWarning && no.UserAnswer? && !no.approved
    ensures Next(dev, After(dev, before).app, no).response == Response.Error(Denied)
    ensures forall k :: 0 <= k < |after| ==> !T.Starts(after[k])
    ensures Next(dev, After(dev, before + [no] + after).app, e).response.Signature?
  {
    hide A.Proper, After, OneOutput, S.Coupled, Inv;
    var x;
    x, before := Warned(dev);
    no := UserAnswer(false, Willing());
    AfterSnoc(dev, before, no);
    var more;
    more, e := Sign(x, before + [no], OneOutput(dev, 5, [], []));
    after := [SignApdu(0x20, 7, [], Willing())];
    assert more == before + [no] + after;
  }
}
