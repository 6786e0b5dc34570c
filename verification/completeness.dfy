/**
 Exactly the transactions within the limits are signed: each of them by a run in which its input
 boxes are attested, their frames taken, and everything is sent in small messages.
 */
module Completeness {
  import opened Bytes
  import opened TxTypes
  import opened Reference
  import opened Frames
  import opened Application
  import opened Runs
  import opened Message
  import opened Limits
  import opened Messages
  import opened Witness
  import opened Acceptance
  import ErgoTree
  import FR = FullRefinement
  import IS = InputSerializer
  import BS = BoxSerializer
  import S = Signing
  import SR = SigningRefinement
  import A = Attestation

  // ---------- messages ----------

  /** Messages that are taken as they are. */
  lemma PlainRead(data: bytes, issued: set<(bytes, bytes)>)
    ensures ReadCommand(issued, 0x11, data, Willing()) == Ok(S.TokenIds(data))
    ensures ReadCommand(issued, 0x13, data, Willing()) == Ok(S.Extension(data))
    ensures ReadCommand(issued, 0x14, data, Willing()) == Ok(S.DataInputs(data))
    ensures ReadCommand(issued, 0x16, data, Willing()) == Ok(S.TreeChunk(data))
    ensures ReadCommand(issued, 0x17, [], Willing()) == Ok(S.FeeTree)
    ensures ReadCommand(issued, 0x19, data, Willing()) == Ok(S.OutputTokens(data))
    ensures ReadCommand(issued, 0x1A, data, Willing()) == Ok(S.Registers(data))
  {
  }

  /** A key whose tree this is. */
  function KeyOf(tree: bytes): (key: ErgoTree.RawPublicKey)
    requires ErgoTree.ParseP2pk(tree).Some?
    ensures ErgoTree.GenerateP2pk(key) == tree
  {
    var key := [4] + tree[4..] + Zeros(31) + [if tree[3] == 0x03 then 1 else 0];
    assert key[1..33] == tree[4..];
    assert tree == tree[..3] + ([tree[3]] + tree[4..]);
    key
  }

  lemma ChangeRead(key: ErgoTree.RawPublicKey, issued: set<(bytes, bytes)>) returns (path: seq<u32>)
    ensures ReadCommand(issued, 0x18, PathMessage(), Willing().(key := key)) == Ok(S.ChangeTree(path, key))
  {
    StartParameters();
    path := ReadPath(PathMessage()).s;
  }

  // ---------- the transaction on its way ----------

  function WithIds(t: Draft, k: nat): Draft
    requires k <= |t.ids|
  {
    t.(ids := t.ids[..k], inputs := [], dataInputs := [], outputs := [])
  }

  function WithInputs(t: Draft, inputs: seq<Input>): Draft {
    t.(inputs := inputs, dataInputs := [], outputs := [])
  }

  function WithData(t: Draft, k: nat): Draft
    requires k <= |t.dataInputs|
  {
    t.(dataInputs := t.dataInputs[..k], outputs := [])
  }

  function WithOutputs(t: Draft, outputs: seq<Box>): Draft {
    t.(outputs := outputs)
  }

  /** A frame the device handed out. */
  ghost predicate Held(x: Desk, f: Frame) {
    exists s :: HeldFrom(x, s, f)
  }

  ghost predicate HeldFrom(x: Desk, s: A.Source, f: Frame) {
    FrameFrom(x.dev, s, f) && Issue(x.dev, s, f.index) in x.issued
  }

  ghost predicate AllHeld(x: Desk, t: Draft) {
    forall k, j :: 0 <= k < |t.inputs| && 0 <= j < |t.inputs[k].frames| ==> Held(x, t.inputs[k].frames[j])
  }

  /** The transaction is within the limits and all its frames are at hand. */
  ghost predicate Ready(x: Desk, t: Draft) {
    A.Proper(x.dev) && Within(x.dev, t) && AllHeld(x, t)
  }

  lemma BeginTx(x: Desk, events: seq<Event>, t: Draft) returns (more: seq<Event>)
    requires Ready(x, t) && Idle(x.dev, events, x.issued, x.attested)
    ensures InSession(x, more, WithIds(t, 0))
  {
    hide Ready, Within, A.Proper, After, Idle, InContext, InSession, S.Start, S.Exec, S.Coupled, ReadCommand,
         StartData, SR.Record, Shape, Room, InputFits, OutputFits, Takes;
    var c := S.StartTx(t.inputsCount, t.dataInputsCount, t.tokensCount, t.outputsCount);
    StartRecords(t);
    Counts0(x, t);
    more := OpenSession(x, events, t.base);
    StartDataExact(t, x.issued, StartData(t), Willing());
    StartAccepted(t.base, t.inputsCount, t.dataInputsCount, t.tokensCount, t.outputsCount);
    more := Say(x, more, NewDraft(t.base), 0x10, StartData(t), Willing(), c);
  }

  lemma StartRecords(t: Draft)
    ensures SR.Record(NewDraft(t.base), S.StartTx(t.inputsCount, t.dataInputsCount, t.tokensCount, t.outputsCount))
         == WithIds(t, 0)
  {
  }

  lemma Counts0(x: Desk, t: Draft)
    requires Ready(x, t)
    ensures A.Proper(x.dev) && AllThere(t) && Shape(t) && Room(t) && t.tokensCount <= TOKEN_MAX_COUNT && AllHeld(x, t)
    ensures forall k :: 0 <= k < |t.inputs| ==> InputFits(x.dev, t.inputs[k])
    ensures forall k :: 0 <= k < |t.outputs| ==> OutputFits(t.outputs[k])
  {
    TableGrows(t.ids, [], InputTokens(t.inputs));
  }

  lemma {:induction false} GiveIds(x: Desk, events: seq<Event>, t: Draft, k: nat) returns (more: seq<Event>)
    requires Ready(x, t) && k <= |t.ids| && InSession(x, events, WithIds(t, k))
    ensures InSession(x, more, WithInputs(t, []))
    decreases |t.ids| - k
  {
    hide Ready, A.Proper, After, InSession, InContext, SR.Inv, Exact, Takes, ReadCommand, InputFits, OutputFits, Room;
    Counts0(x, t);
    if k == |t.ids| {
      assert t.ids[..k] == t.ids;
      return events;
    }
    var id := t.ids[k];
    assert |id| == ID_LEN && id[..ID_LEN] == id && id[ID_LEN..] == [];
    assert Pieces(id, ID_LEN) == [id] + Pieces([], ID_LEN) == [id];
    assert SR.Record(WithIds(t, k), S.TokenIds(id)) == WithIds(t, k + 1);
    hide SR.Record, WithIds;
    OpFacts(x, events, WithIds(t, k));
    PlainRead(id, x.issued);
    IdsAt(t, k);
    IdAccepted(OpAt(x, events), WithIds(t, k), id);
    more := Say(x, events, WithIds(t, k), 0x11, id, Willing(), S.TokenIds(id));
    more := GiveIds(x, more, t, k + 1);
  }

  lemma IdsAt(t: Draft, k: nat)
    requires k <= |t.ids|
    ensures |WithIds(t, k).ids| == k && WithIds(t, k).tokensCount == t.tokensCount
  {
  }

  // ---------- inputs ----------

  /** An input with its first `n` frames. */
  ghost function FramesPart(i: Input, n: nat): Input
    requires n <= |i.frames|
  {
    i.(frames := i.frames[..n], tokens := IS.FrameTokens(i.frames[..n]), extension := [])
  }

  function ExtensionPart(i: Input, n: nat): Input
    requires n <= |i.extension|
  {
    i.(extension := i.extension[..n])
  }

  /** The first `k` inputs and `n` frames of the next one, which begins with its first frame. */
  ghost function InputsAt(t: Draft, k: nat, n: nat): seq<Input>
    requires k < |t.inputs| && n <= |t.inputs[k].frames|
  {
    if n == 0 then t.inputs[..k] else t.inputs[..k] + [FramesPart(t.inputs[k], n)]
  }

  lemma FrameAdded(i: Input, n: nat)
    requires IS.WellFormed(i) && n < |i.frames|
    ensures var f := i.frames[n]; f.id == i.id && f.index == n
    ensures n == 0 ==> i.frames[0].framesCount == i.framesCount && i.frames[0].value == i.value
    ensures n == 0 ==>
              IS.WithFrame(NewInput(i.id, i.framesCount, i.extensionSize, i.value), i.frames[0]) == FramesPart(i, 1)
    ensures IS.WithFrame(FramesPart(i, n), i.frames[n]) == FramesPart(i, n + 1)
  {
    var fs := i.frames[..n + 1];
    assert Front(fs) == i.frames[..n] && fs == i.frames[..n] + [i.frames[n]];
    assert IS.FrameTokens(fs) == IS.FrameTokens(i.frames[..n]) + TokenPairs(i.frames[n].pairs);
    if n == 0 {
      assert i.frames[..0] == [];
    }
  }

  /** The command with the next frame. */
  ghost function FrameCommand0(t: Draft, k: nat, n: nat): S.Command
    requires k < |t.inputs| && n < |t.inputs[k].frames|
  {
    S.InputFrame(t.inputs[k].frames[n], if n == 0 then t.inputs[k].extensionSize else 0)
  }

  lemma FrameRecords(t: Draft, k: nat, n: nat)
    requires k < |t.inputs| && n < |t.inputs[k].frames| && IS.WellFormed(t.inputs[k])
    ensures SR.Record(WithInputs(t, InputsAt(t, k, n)), FrameCommand0(t, k, n)) == WithInputs(t, InputsAt(t, k, n + 1))
  {
    var i, before := t.inputs[k], t.inputs[..k];
    FrameAdded(i, n);
    var first, size := NewInput(i.id, i.framesCount, i.extensionSize, i.value), i.extensionSize;
    var d := WithInputs(t, InputsAt(t, k, n));
    FrameOnLast(t, before, if n == 0 then first else FramesPart(i, n), i.frames[n]);
    RecordFrame(d, i.frames[n], if n == 0 then size else 0);
    hide IS.WithFrame, FramesPart, IS.WellFormed, SR.Record, FR.WithFrame;
  }

  lemma RecordFrame(d: Draft, f: Frame, size: u32)
    ensures var e := if f.index == 0 then FR.WithNewInput(d, f.id, f.framesCount, size, f.value) else d;
            e.inputs != [] ==> SR.Record(d, S.InputFrame(f, size)) == FR.WithFrame(e, f)
  {
    hide FR.WithFrame;
  }

  lemma FrameOnLast(t: Draft, s: seq<Input>, i: Input, f: Frame)
    ensures FR.WithFrame(WithInputs(t, s + [i]), f) == WithInputs(t, s + [IS.WithFrame(i, f)])
  {
    hide IS.WithFrame;
    assert Front(s + [i]) == s;
  }

  /** The part given so far leaves room. */
  lemma InputsRoom(t: Draft, k: nat, i: Input)
    requires Room(t) && k < |t.inputs| && i.value == t.inputs[k].value && i.tokens <= t.inputs[k].tokens
    ensures Room(WithInputs(t, t.inputs[..k] + [i]))
  {
    var e := WithInputs(t, t.inputs[..k] + [i]);
    assert t.inputs[..k] + [t.inputs[k]] <= t.inputs;
    InputPartGrows(t.inputs[..k], t.inputs[k], t.inputs, i);
    hide Room, InputValues, InputTokens;
    assert BoxValues(e.outputs) == [] && BoxTokens(e.outputs) == [];
    RoomBefore(e, t);
  }

  lemma {:induction false} PrefixComplete(s: seq<Input>, k: nat)
    requires k <= |s| && forall j :: 0 <= j < |s| ==> InputComplete(s[j])
    ensures CompleteInputs(s[..k]) == k
  {
    if k > 0 {
      PrefixComplete(s, k - 1);
      assert Front(s[..k]) == s[..k - 1];
    }
  }

  lemma PairsWhole(dev: A.Device, f: Frame)
    requires Obtainable(dev, f)
    ensures |f.pairs| % PAIR_SIZE == 0 && f.framesCount > 0
  {
    hide Fits, FrameFrom;
    var s :| Fits(s) && FrameFrom(dev, s, f);
    SharePairs(dev, s, f);
  }

  lemma SharePairs(dev: A.Device, s: A.Source, f: Frame)
    requires FrameFrom(dev, s, f)
    ensures |f.pairs| % PAIR_SIZE == 0 && f.framesCount > 0
  {
    hide FullBox, PairsBytes, Share, BS.Distinct;
    var ts := TokensOf(s.box.entries);
    ShareIds(ts, f.index);
    PairsSize(Share(ts, f.index));
  }

  /** What the limits say of an input. */
  lemma InputReady(x: Desk, t: Draft, k: nat)
    requires Ready(x, t) && k < |t.inputs|
    ensures var i := t.inputs[k];
            && IS.WellFormed(i) && i.framesCount == |i.frames| > 0 && |i.extension| == i.extensionSize != 1
            && i.extensionSize <= MAX_TX_DATA_PART_LEN && i.tokens == IS.FrameTokens(i.frames) && Room(t)
    ensures CompleteInputs(t.inputs[..k]) == k < t.inputsCount && |t.ids| == t.tokensCount
  {
    hide Ready, Room, Obtainable;
    Counts0(x, t);
    assert InputFits(x.dev, t.inputs[k]);
    forall j | 0 <= j < |t.inputs|
      ensures InputComplete(t.inputs[j])
    {
      assert InputFits(x.dev, t.inputs[j]);
    }
    PrefixComplete(t.inputs, k);
  }

  lemma FrameReady(x: Desk, t: Draft, k: nat, n: nat)
    requires Ready(x, t) && k < |t.inputs| && n < |t.inputs[k].frames|
    ensures Held(x, t.inputs[k].frames[n]) && |t.inputs[k].frames[n].pairs| % PAIR_SIZE == 0
  {
    hide Ready, Room, Obtainable, Held, IS.WellFormed;
    Counts0(x, t);
    assert InputFits(x.dev, t.inputs[k]);
    PairsWhole(x.dev, t.inputs[k].frames[n]);
  }

  lemma FrameRoom(t: Draft, k: nat, n: nat)
    requires Room(t) && k < |t.inputs| && 0 < n <= |t.inputs[k].frames|
             && t.inputs[k].tokens == IS.FrameTokens(t.inputs[k].frames)
    ensures Room(WithInputs(t, InputsAt(t, k, n)))
  {
    hide Room;
    FramesGrow(t.inputs[k].frames, n);
    InputsRoom(t, k, FramesPart(t.inputs[k], n));
  }

  lemma HeldRead(x: Desk, s: A.Source, f: Frame, size: u32, c: S.Command) returns (data: ApduData)
    requires c == S.InputFrame(f, if f.index == 0 then size else 0)
    requires A.Proper(x.dev) && HeldFrom(x, s, f)
    ensures ReadCommand(x.issued, 0x12, data, Willing()) == Ok(c)
  {
    hide ReadCommand, A.Proper;
    FrameRead(x.dev, s, f, size, x.issued);
    data := FrameMessage(x.dev, s, f.index, size);
  }

  lemma FrameTaken(x: Desk, t: Draft, k: nat, n: nat, p: S.Operation)
    requires Ready(x, t) && k < |t.inputs| && n < |t.inputs[k].frames|
    requires var d := WithInputs(t, InputsAt(t, k, n)); SR.Inv(p, d) && Exact(p, d) && Running(p)
    ensures Takes(p, FrameCommand0(t, k, n))
  {
    hide Ready, SR.Inv, Exact, Takes, Room, SR.Record, Held, FramesPart, CompleteInputs, IS.WellFormed;
    InputReady(x, t, k);
    FrameReady(x, t, k, n);
    FrameRoom(t, k, n + 1);
    FrameRecords(t, k, n);
    FrameAdded(t.inputs[k], n);
    var d, i := WithInputs(t, InputsAt(t, k, n)), t.inputs[k];
    if n == 0 {
      FirstFrameAccepted(p, d, i.frames[n], i.extensionSize);
    } else {
      PartFrames(i, n);
      NextFrameAccepted(p, d, i.frames[n]);
    }
  }

  lemma {:induction false} GiveFrames(x: Desk, events: seq<Event>, t: Draft, k: nat, n: nat) returns (more: seq<Event>)
    requires Ready(x, t) && k < |t.inputs| && n <= |t.inputs[k].frames|
    requires InSession(x, events, WithInputs(t, InputsAt(t, k, n)))
    ensures InSession(x, more, WithInputs(t, InputsAt(t, k, |t.inputs[k].frames|)))
    decreases |t.inputs[k].frames| - n
  {
    hide Ready, A.Proper, After, InSession, InContext, SR.Inv, Exact, Takes, ReadCommand, Room, SR.Record,
         IS.WellFormed, HeldFrom, InputsAt, CompleteInputs, InputFits, OutputFits, AllThere, Shape, AllHeld;
    if n < |t.inputs[k].frames| {
      Counts0(x, t);
      InputReady(x, t, k);
      FrameReady(x, t, k, n);
      FrameRecords(t, k, n);
      FrameAdded(t.inputs[k], n);
      var d, f, size := WithInputs(t, InputsAt(t, k, n)), t.inputs[k].frames[n], t.inputs[k].extensionSize;
      OpFacts(x, events, d);
      FrameTaken(x, t, k, n, OpAt(x, events));
      var s :| HeldFrom(x, s, f);
      var data := HeldRead(x, s, f, size, FrameCommand0(t, k, n));
      more := Say(x, events, d, 0x12, data, Willing(), FrameCommand0(t, k, n));
      more := GiveFrames(x, more, t, k, n + 1);
    } else {
      more := events;
    }
  }

  lemma PartFrames(i: Input, n: nat)
    requires n <= |i.frames|
    ensures var p := FramesPart(i, n); p.id == i.id && |p.frames| == n && p.framesCount == i.framesCount
  {
  }

  /** The first `k` inputs and the next one with a part of its extension. */
  function ExtensionAt(t: Draft, k: nat, n: nat): Draft
    requires k < |t.inputs| && n <= |t.inputs[k].extension|
  {
    WithInputs(t, t.inputs[..k] + [ExtensionPart(t.inputs[k], n)])
  }

  lemma ExtensionRecords(t: Draft, k: nat, n: nat)
    requires k < |t.inputs| && n <= |t.inputs[k].extension|
    ensures var m := ChunkEnd(t.inputs[k].extension, n);
            SR.Record(ExtensionAt(t, k, n), S.Extension(t.inputs[k].extension[n..m])) == ExtensionAt(t, k, m)
  {
    var i, d := t.inputs[k], ExtensionAt(t, k, n);
    Next0(i.extension, n, ChunkEnd(i.extension, n));
    assert Front(d.inputs) == t.inputs[..k];
  }

  lemma ExtensionTaken(x: Desk, t: Draft, k: nat, n: nat, p: S.Operation)
    requires Ready(x, t) && k < |t.inputs| && n < |t.inputs[k].extension|
    requires SR.Inv(p, ExtensionAt(t, k, n)) && Running(p)
    ensures Takes(p, S.Extension(t.inputs[k].extension[n..ChunkEnd(t.inputs[k].extension, n)]))
  {
    hide Ready, SR.Inv, Takes, Room, CompleteInputs, IS.WellFormed;
    InputReady(x, t, k);
    ExtensionAccepted(p, ExtensionAt(t, k, n), t.inputs[k].extension[n..ChunkEnd(t.inputs[k].extension, n)]);
  }

  lemma {:induction false} GiveExtension(x: Desk, events: seq<Event>, t: Draft, k: nat, n: nat)
      returns (more: seq<Event>)
    requires Ready(x, t) && k < |t.inputs| && n <= |t.inputs[k].extension| && InSession(x, events, ExtensionAt(t, k, n))
    ensures InSession(x, more, WithInputs(t, t.inputs[..k + 1]))
    decreases |t.inputs[k].extension| - n
  {
    hide Ready, A.Proper, After, InSession, InContext, SR.Inv, Exact, Takes, ReadCommand, Room, SR.Record, InputFits,
         OutputFits, AllThere, Shape, AllHeld;
    var i := t.inputs[k];
    if n == |i.extension| {
      assert i.extension[..n] == i.extension && t.inputs[..k] + [i] == t.inputs[..k + 1];
      return events;
    }
    hide ExtensionAt;
    Counts0(x, t);
    ExtensionRecords(t, k, n);
    var m := ChunkEnd(i.extension, n);
    var chunk := i.extension[n..m];
    OpFacts(x, events, ExtensionAt(t, k, n));
    ExtensionTaken(x, t, k, n, OpAt(x, events));
    PlainRead(chunk, x.issued);
    more := Say(x, events, ExtensionAt(t, k, n), 0x13, chunk, Willing(), S.Extension(chunk));
    more := GiveExtension(x, more, t, k, m);
  }

  lemma FramesAllGiven(t: Draft, k: nat)
    requires k < |t.inputs| && t.inputs[k].tokens == IS.FrameTokens(t.inputs[k].frames) && t.inputs[k].frames != []
    ensures WithInputs(t, InputsAt(t, k, 0)) == WithInputs(t, t.inputs[..k])
    ensures WithInputs(t, InputsAt(t, k, |t.inputs[k].frames|)) == ExtensionAt(t, k, 0)
  {
    var i := t.inputs[k];
    assert i.frames[..|i.frames|] == i.frames && i.extension[..0] == [];
  }

  lemma {:induction false} GiveInputs(x: Desk, events: seq<Event>, t: Draft, k: nat) returns (more: seq<Event>)
    requires Ready(x, t) && k <= |t.inputs| && InSession(x, events, WithInputs(t, t.inputs[..k]))
    ensures InSession(x, more, WithData(t, 0))
    decreases |t.inputs| - k
  {
    hide Ready, A.Proper, After, InSession, InContext, IS.WellFormed, Room, CompleteInputs;
    if k == |t.inputs| {
      assert t.inputs[..k] == t.inputs && t.dataInputs[..0] == [];
      return events;
    }
    hide InputsAt, ExtensionAt;
    InputReady(x, t, k);
    FramesAllGiven(t, k);
    more := GiveFrames(x, events, t, k, 0);
    more := GiveExtension(x, more, t, k, 0);
    more := GiveInputs(x, more, t, k + 1);
  }

  // ---------- data inputs ----------

  lemma DataRecords(t: Draft, k: nat)
    requires k < |t.dataInputs| && |t.dataInputs[k]| == ID_LEN
    ensures SR.Record(WithData(t, k), S.DataInputs(t.dataInputs[k])) == WithData(t, k + 1)
  {
    var id := t.dataInputs[k];
    assert id[..ID_LEN] == id && id[ID_LEN..] == [];
    assert Pieces(id, ID_LEN) == [id] + Pieces([], ID_LEN) == [id];
  }

  /** Once the inputs are given, they are all complete. */
  lemma InputsReady(x: Desk, t: Draft)
    requires Ready(x, t)
    ensures CompleteInputs(t.inputs) == |t.inputs| == t.inputsCount && |t.ids| == t.tokensCount
    ensures |t.dataInputs| == t.dataInputsCount && AllIds(t.dataInputs)
  {
    hide Ready, Room, InputFits;
    Counts0(x, t);
    forall j | 0 <= j < |t.inputs|
      ensures InputComplete(t.inputs[j])
    {
      FitsComplete(x.dev, t.inputs[j]);
    }
    PrefixComplete(t.inputs, |t.inputs|);
    assert t.inputs[..|t.inputs|] == t.inputs;
  }

  lemma FitsComplete(dev: A.Device, i: Input)
    requires InputFits(dev, i)
    ensures InputComplete(i)
  {
  }

  lemma {:induction false} GiveData(x: Desk, events: seq<Event>, t: Draft, k: nat) returns (more: seq<Event>)
    requires Ready(x, t) && k <= |t.dataInputs| && InSession(x, events, WithData(t, k))
    ensures InSession(x, more, WithOutputs(t, []))
    decreases |t.dataInputs| - k
  {
    hide Ready, A.Proper, After, InSession, InContext, SR.Inv, Exact, Takes, ReadCommand, Room, SR.Record, InputFits,
         OutputFits, AllThere, Shape, AllHeld, CompleteInputs;
    if k == |t.dataInputs| {
      assert t.dataInputs[..k] == t.dataInputs;
      return events;
    }
    Counts0(x, t);
    InputsReady(x, t);
    DataRecords(t, k);
    OpFacts(x, events, WithData(t, k));
    PlainRead(t.dataInputs[k], x.issued);
    DataInputAccepted(OpAt(x, events), WithData(t, k), t.dataInputs[k]);
    more := Say(x, events, WithData(t, k), 0x14, t.dataInputs[k], Willing(), S.DataInputs(t.dataInputs[k]));
    more := GiveData(x, more, t, k + 1);
  }

  // ---------- outputs ----------

  /** The first `k` outputs and the next one as far as `b`. */
  function OutputAt(t: Draft, k: nat, b: Box): Draft
    requires k < |t.outputs|
  {
    WithOutputs(t, t.outputs[..k] + [b])
  }

  lemma LastOf(t: Draft, k: nat, b: Box)
    requires k < |t.outputs|
    ensures var d := OutputAt(t, k, b);
            && d.outputs != [] && Last(d.outputs) == b && Front(d.outputs) == t.outputs[..k] && d.ids == t.ids
            && d.tokensCount == t.tokensCount
    ensures forall c: Box :: FR.WithLastOutput(OutputAt(t, k, b), c) == OutputAt(t, k, c)
  {
    assert Front(t.outputs[..k] + [b]) == t.outputs[..k];
  }

  lemma {:induction false} FewerComplete(s: seq<Box>, k: nat)
    requires k < |s| && Complete(Last(s))
    ensures CompleteBoxes(s[..k]) < CompleteBoxes(s)
  {
    hide Complete;
    PrefixBoxes(Front(s), k);
    assert Front(s)[..k] == s[..k];
  }

  lemma {:induction false} PrefixBoxes(s: seq<Box>, k: nat)
    requires k <= |s|
    ensures CompleteBoxes(s[..k]) <= CompleteBoxes(s)
  {
    hide Complete;
    if k == |s| {
      assert s[..k] == s;
    } else {
      PrefixBoxes(Front(s), k);
      assert Front(s)[..k] == s[..k];
    }
  }

  /** While an output is incomplete, not all are there. */
  lemma StillOutputs(x: Desk, t: Draft, k: nat, b: Box)
    requires Ready(x, t) && k < |t.outputs|
    ensures OutputStage(WithOutputs(t, t.outputs[..k]))
    ensures !Complete(b) ==> OutputStage(OutputAt(t, k, b))
  {
    hide Ready, Room, Complete, InputFits, OutputFits, Shape;
    Counts0(x, t);
    InputsReady(x, t);
    FewerComplete(t.outputs, k);
    assert Front(t.outputs[..k] + [b]) == t.outputs[..k];
  }

  /** What the limits say of an output. */
  lemma OutputReady(x: Desk, t: Draft, k: nat)
    requires Ready(x, t) && k < |t.outputs|
    ensures A.Proper(x.dev) && Room(t) && |t.ids| == t.tokensCount
    ensures var b := t.outputs[k]; Sized(b) && Ordered(b) && NoRepeat(b.entries) && AllResolved(b.entries, t.ids)
  {
    hide Ready, Room, InputFits;
    Counts0(x, t);
    assert OutputFits(t.outputs[k]);
  }

  lemma OutputRoom(t: Draft, k: nat, b: Box)
    requires Room(t) && k < |t.outputs| && PartOf(b, t.outputs[k])
    ensures Room(OutputAt(t, k, b))
  {
    var e := OutputAt(t, k, b);
    assert t.outputs[..k] + [t.outputs[k]] <= t.outputs;
    BoxPartGrows(t.outputs[..k], t.outputs[k], t.outputs, b);
    hide Room, BoxValues, BoxTokens;
    RoomBefore(e, t);
  }

  lemma OpenRecords(t: Draft, k: nat)
    requires k < |t.outputs|
    ensures var b := t.outputs[k];
            SR.Record(WithOutputs(t, t.outputs[..k]),
              S.NewOutputBox(b.value, b.treeSize, b.height, b.tokensCount, b.registersSize))
            == OutputAt(t, k, TreePart(b, 0))
  {
  }

  lemma OpenOutput(x: Desk, events: seq<Event>, t: Draft, k: nat) returns (more: seq<Event>)
    requires Ready(x, t) && k < |t.outputs| && InSession(x, events, WithOutputs(t, t.outputs[..k]))
    ensures InSession(x, more, OutputAt(t, k, TreePart(t.outputs[k], 0)))
  {
    hide Ready, A.Proper, After, InSession, InContext, SR.Inv, Exact, Takes, ReadCommand, Room, SR.Record,
         OutputStage, BoxData, Sized, Ordered, NoRepeat, AllResolved, OutputAt, Complete, TreePart;
    var b, d := t.outputs[k], WithOutputs(t, t.outputs[..k]);
    var c := S.NewOutputBox(b.value, b.treeSize, b.height, b.tokensCount, b.registersSize);
    OpenRecords(t, k);
    OutputReady(x, t, k);
    StillOutputs(x, t, k, b);
    OpFacts(x, events, d);
    BoxDataExact(b, x.issued, BoxData(b), Willing());
    NewOutputAccepted(OpAt(x, events), d, b);
    more := Say(x, events, d, 0x15, BoxData(b), Willing(), c);
  }

  /** Where the next chunk of a tree may begin. */
  predicate ChunkStart(b: Box, n: nat) {
    && b.kind == TreeBox && n <= |b.tree| && n % MAX_DATA_CHUNK_LEN == 0 && (b.treeDone ==> n == 0 || n < |b.tree|)
  }

  lemma ChunkRecords(t: Draft, k: nat, n: nat)
    requires k < |t.outputs| && Sized(t.outputs[k]) && Ordered(t.outputs[k]) && ChunkStart(t.outputs[k], n)
    requires t.outputs[k].treeDone || n < |t.outputs[k].tree|
    ensures var b := t.outputs[k]; var m := ChunkEnd(b.tree, n);
            && SR.Record(OutputAt(t, k, TreePart(b, n)), S.TreeChunk(b.tree[n..m]))
               == OutputAt(t, k, if b.treeDone && m == |b.tree| then TokensPart(b, 0) else TreePart(b, m))
            && (m < b.treeSize ==> m - n == MAX_DATA_CHUNK_LEN) && m <= b.treeSize
            && (!(b.treeDone && m == |b.tree|) ==> ChunkStart(b, m) && n < m)
  {
    var b := t.outputs[k];
    TreeGrows(b, n);
    LastOf(t, k, TreePart(b, n));
    hide BS.WithChunk, OutputAt;
  }

  lemma {:induction false} GiveChunks(x: Desk, events: seq<Event>, t: Draft, k: nat, n: nat) returns (more: seq<Event>)
    requires Ready(x, t) && k < |t.outputs| && ChunkStart(t.outputs[k], n)
    requires InSession(x, events, OutputAt(t, k, TreePart(t.outputs[k], n)))
    ensures InSession(x, more, OutputAt(t, k, TokensPart(t.outputs[k], 0)))
    decreases |t.outputs[k].tree| - n
  {
    hide Ready, A.Proper, After, InSession, InContext, SR.Inv, Exact, Takes, ReadCommand, Room, SR.Record, OutputStage,
         Sized, NoRepeat, AllResolved, OutputAt, Complete;
    var b := t.outputs[k];
    OutputReady(x, t, k);
    if !b.treeDone && n == |b.tree| {
      assert b.tree[..n] == b.tree && TreePart(b, n) == TokensPart(b, 0);
      return events;
    }
    var d, m := OutputAt(t, k, TreePart(b, n)), ChunkEnd(b.tree, n);
    var chunk := b.tree[n..m];
    NotYet(TreePart(b, n));
    StillOutputs(x, t, k, TreePart(b, n));
    LastOf(t, k, TreePart(b, n));
    ChunkRecords(t, k, n);
    OpFacts(x, events, d);
    PlainRead(chunk, x.issued);
    ChunkTaken(OpAt(x, events), d, chunk);
    more := Say(x, events, d, 0x16, chunk, Willing(), S.TreeChunk(chunk));
    if !(b.treeDone && m == |b.tree|) {
      more := GiveChunks(x, more, t, k, m);
    }
  }

  lemma KnownRecords(t: Draft, k: nat, c: S.Command)
    requires k < |t.outputs| && t.outputs[k].treeDone && Gives(c, t.outputs[k].kind)
    requires t.outputs[k].tree == if c.FeeTree? then ErgoTree.MINERS_FEE_TREE else ErgoTree.GenerateP2pk(c.key)
    ensures SR.Record(OutputAt(t, k, TreePart(t.outputs[k], 0)), c) == OutputAt(t, k, TokensPart(t.outputs[k], 0))
  {
    var b := t.outputs[k];
    hide OutputAt, TreePart, TokensPart, SR.Record, BS.WithTree, ErgoTree.GenerateP2pk;
    LastOf(t, k, TreePart(b, 0));
    RecordTree(OutputAt(t, k, TreePart(b, 0)), c, b.kind, b.tree);
    TreeGiven(b);
  }

  lemma RecordTree(d: Draft, c: S.Command, kind: BoxKind, tree: bytes)
    requires d.outputs != [] && Gives(c, kind)
    requires tree == if c.FeeTree? then ErgoTree.MINERS_FEE_TREE else ErgoTree.GenerateP2pk(c.key)
    ensures SR.Record(d, c) == FR.WithLastOutput(d, BS.WithTree(Last(d.outputs), kind, tree))
  {
    hide BS.WithTree, ErgoTree.GenerateP2pk;
  }

  lemma TreeGiven(b: Box)
    requires b.treeDone
    ensures BS.WithTree(TreePart(b, 0), b.kind, b.tree) == TokensPart(b, 0)
  {
    assert [] + b.tree == b.tree;
  }

  /** A fee or change box gets its tree in one message. */
  lemma GiveKnown(
      x: Desk, events: seq<Event>, t: Draft, k: nat, sub: u8, data: ApduData, env: Surroundings, c: S.Command)
      returns (more: seq<Event>)
    requires Ready(x, t) && k < |t.outputs| && t.outputs[k].treeDone && Gives(c, t.outputs[k].kind)
    requires t.outputs[k].tree == if c.FeeTree? then ErgoTree.MINERS_FEE_TREE else ErgoTree.GenerateP2pk(c.key)
    requires 0x17 <= sub <= 0x18 && env.screens && !env.warns && ReadCommand(x.issued, sub, data, env) == Ok(c)
    requires InSession(x, events, OutputAt(t, k, TreePart(t.outputs[k], 0)))
    ensures InSession(x, more, OutputAt(t, k, TokensPart(t.outputs[k], 0)))
  {
    hide Ready, A.Proper, After, InSession, InContext, SR.Inv, Exact, Takes, ReadCommand, SR.Record, OutputStage,
         Sized, Ordered, NoRepeat, AllResolved, OutputAt, Complete, InRange;
    var b := t.outputs[k];
    var d := OutputAt(t, k, TreePart(b, 0));
    OutputReady(x, t, k);
    NotYet(TreePart(b, 0));
    StillOutputs(x, t, k, TreePart(b, 0));
    LastOf(t, k, TreePart(b, 0));
    KnownRecords(t, k, c);
    OutputRoom(t, k, TokensPart(b, 0));
    OpFacts(x, events, d);
    KnownTreeTaken(OpAt(x, events), d, c, b.kind);
    more := Say(x, events, d, sub, data, env, c);
  }

  lemma GiveTreeOf(x: Desk, events: seq<Event>, t: Draft, k: nat) returns (more: seq<Event>)
    requires Ready(x, t) && k < |t.outputs| && InSession(x, events, OutputAt(t, k, TreePart(t.outputs[k], 0)))
    ensures InSession(x, more, OutputAt(t, k, TokensPart(t.outputs[k], 0)))
  {
    hide Ready, A.Proper, After, InSession, ReadCommand, Room, Ordered, NoRepeat, AllResolved, OutputAt, PathMessage;
    var b := t.outputs[k];
    OutputReady(x, t, k);
    match b.kind
    case TreeBox => more := GiveChunks(x, events, t, k, 0);
    case FeeBox =>
      PlainRead([], x.issued);
      more := GiveKnown(x, events, t, k, 0x17, [], Willing(), S.FeeTree);
    case ChangeBox =>
      var key := KeyOf(b.tree);
      var path := ChangeRead(key, x.issued);
      more := GiveKnown(x, events, t, k, 0x18, PathMessage(), Willing().(key := key), S.ChangeTree(path, key));
  }

  // ---------- tokens and registers of an output ----------

  lemma TokenRecords(t: Draft, k: nat, n: nat)
    requires k < |t.outputs| && n < |t.outputs[k].entries| && |t.ids| == t.tokensCount
    requires Resolved(t.outputs[k].entries[n], t.ids)
    ensures var b := t.outputs[k];
            && SR.Record(OutputAt(t, k, TokensPart(b, n)), S.OutputTokens(EntryMessage(b.entries[n])))
               == OutputAt(t, k, TokensPart(b, n + 1))
            && |EntryMessage(b.entries[n])| == 12
            && TokensPart(b, n).(entries := TokensPart(b, n).entries + [b.entries[n]]) == TokensPart(b, n + 1)
  {
    var b := t.outputs[k];
    LastOf(t, k, TokensPart(b, n));
    EntryRead(b.entries[n], t.tokensCount, t.ids);
    hide OutputAt, EntryMessage;
    assert b.entries[..n] + [b.entries[n]] == b.entries[..n + 1];
  }

  lemma TokenFacts(b: Box, ids: seq<bytes>, n: nat)
    requires n < |b.entries| && Ordered(b) && NoRepeat(b.entries) && AllResolved(b.entries, ids)
    ensures Resolved(b.entries[n], ids) && TokenSum(TokensOf(TokensPart(b, n).entries), b.entries[n].token.id) == 0
    ensures var p := TokensPart(b, n); p.treeDone && p.registers == [] && |p.entries| < p.tokensCount && !Complete(p)
    ensures PartOf(TokensPart(b, n + 1), b)
  {
  }

  lemma {:induction false} GiveTokensOf(x: Desk, events: seq<Event>, t: Draft, k: nat, n: nat)
      returns (more: seq<Event>)
    requires Ready(x, t) && k < |t.outputs| && n <= |t.outputs[k].entries|
    requires InSession(x, events, OutputAt(t, k, TokensPart(t.outputs[k], n)))
    ensures InSession(x, more, OutputAt(t, k, TokensPart(t.outputs[k], |t.outputs[k].entries|)))
    decreases |t.outputs[k].entries| - n
  {
    hide Ready, A.Proper, After, InSession, InContext, SR.Inv, Exact, Takes, ReadCommand, SR.Record, OutputStage,
         Sized, Ordered, NoRepeat, AllResolved, Resolved, OutputAt, Complete, InRange, EntryMessage, TokenSum;
    var b := t.outputs[k];
    if n == |b.entries| {
      return events;
    }
    var d, e, p := OutputAt(t, k, TokensPart(b, n)), b.entries[n], TokensPart(b, n);
    OutputReady(x, t, k);
    TokenFacts(b, t.ids, n);
    StillOutputs(x, t, k, p);
    LastOf(t, k, p);
    TokenRecords(t, k, n);
    OutputRoom(t, k, TokensPart(b, n + 1));
    OpFacts(x, events, d);
    PlainRead(EntryMessage(e), x.issued);
    TokenTaken(OpAt(x, events), d, e);
    more := Say(x, events, d, 0x19, EntryMessage(e), Willing(), S.OutputTokens(EntryMessage(e)));
    more := GiveTokensOf(x, more, t, k, n + 1);
  }

  lemma RegistersRecord(t: Draft, k: nat, n: nat)
    requires k < |t.outputs| && n <= |t.outputs[k].registers|
    ensures var b := t.outputs[k]; var m := ChunkEnd(b.registers, n);
            SR.Record(OutputAt(t, k, RegistersPart(b, n)), S.Registers(b.registers[n..m]))
              == OutputAt(t, k, RegistersPart(b, m))
  {
    RegistersGrow(t.outputs[k], n);
    LastOf(t, k, RegistersPart(t.outputs[k], n));
    hide OutputAt, BS.WithRegisters;
  }

  lemma {:induction false} GiveRegistersOf(x: Desk, events: seq<Event>, t: Draft, k: nat, n: nat)
      returns (more: seq<Event>)
    requires Ready(x, t) && k < |t.outputs| && n <= |t.outputs[k].registers|
    requires InSession(x, events, OutputAt(t, k, RegistersPart(t.outputs[k], n)))
    ensures InSession(x, more, WithOutputs(t, t.outputs[..k + 1]))
    decreases |t.outputs[k].registers| - n
  {
    hide Ready, A.Proper, After, InSession, InContext, SR.Inv, Exact, Takes, ReadCommand, SR.Record, OutputStage,
         Sized, NoRepeat, AllResolved, Complete, Room;
    var b := t.outputs[k];
    if n == |b.registers| {
      assert b.registers[..n] == b.registers && t.outputs[..k] + [b] == t.outputs[..k + 1];
      return events;
    }
    hide OutputAt;
    var d, m, p := OutputAt(t, k, RegistersPart(b, n)), ChunkEnd(b.registers, n), RegistersPart(b, n);
    var chunk := b.registers[n..m];
    OutputReady(x, t, k);
    NotYet(p);
    StillOutputs(x, t, k, p);
    LastOf(t, k, p);
    RegistersRecord(t, k, n);
    OpFacts(x, events, d);
    PlainRead(chunk, x.issued);
    assert chunk != [];
    RegistersTaken(OpAt(x, events), d, chunk);
    more := Say(x, events, d, 0x1A, chunk, Willing(), S.Registers(chunk));
    more := GiveRegistersOf(x, more, t, k, m);
  }

  lemma {:induction false} GiveOutputs(x: Desk, events: seq<Event>, t: Draft, k: nat) returns (more: seq<Event>)
    requires Ready(x, t) && k <= |t.outputs| && InSession(x, events, WithOutputs(t, t.outputs[..k]))
    ensures InSession(x, more, t)
    decreases |t.outputs| - k
  {
    hide Ready, A.Proper, After, InSession, InContext, OutputAt;
    if k == |t.outputs| {
      assert t.outputs[..k] == t.outputs;
      return events;
    }
    var b := t.outputs[k];
    assert b.entries[..|b.entries|] == b.entries;
    more := OpenOutput(x, events, t, k);
    more := GiveTreeOf(x, more, t, k);
    more := GiveTokensOf(x, more, t, k, 0);
    assert TokensPart(b, |b.entries|) == RegistersPart(b, 0);
    more := GiveRegistersOf(x, more, t, k, 0);
    more := GiveOutputs(x, more, t, k + 1);
  }

  // ---------- the frames ----------

  /** One more frame: its box is attested and the frame taken. */
  lemma Obtain(x: Desk, events: seq<Event>, f: Frame) returns (y: Desk, more: seq<Event>)
    requires A.Proper(x.dev) && Idle(x.dev, events, x.issued, x.attested) && Obtainable(x.dev, f)
    ensures y.dev == x.dev && x.issued <= y.issued && Held(y, f) && Idle(x.dev, more, y.issued, y.attested)
  {
    hide A.Proper, After, Idle, At, Fits;
    var s :| Fits(s) && FrameFrom(x.dev, s, f);
    more := AttestBox(x.dev, events, s, x.issued, x.attested);
    more := TakeFrame(x.dev, more, s, x.issued, x.attested, f.index);
    y := Desk(x.dev, x.issued + {Issue(x.dev, s, f.index)}, x.attested + {s});
    assert HeldFrom(y, s, f);
  }

  ghost predicate HeldUpto(x: Desk, fs: seq<Frame>) {
    forall j :: 0 <= j < |fs| ==> Held(x, fs[j])
  }

  lemma MoreHeld(x: Desk, y: Desk, fs: seq<Frame>)
    requires x.dev == y.dev && x.issued <= y.issued && HeldUpto(x, fs)
    ensures HeldUpto(y, fs)
  {
    hide FrameFrom, Issue;
    forall j | 0 <= j < |fs|
      ensures Held(y, fs[j])
    {
      assert Held(x, fs[j]);
      var s :| HeldFrom(x, s, fs[j]);
      assert HeldFrom(y, s, fs[j]);
    }
  }

  lemma {:induction false} ObtainAll(x: Desk, events: seq<Event>, fs: seq<Frame>) returns (y: Desk, more: seq<Event>)
    requires A.Proper(x.dev) && Idle(x.dev, events, x.issued, x.attested)
    requires forall j :: 0 <= j < |fs| ==> Obtainable(x.dev, fs[j])
    ensures y.dev == x.dev && x.issued <= y.issued && HeldUpto(y, fs) && Idle(x.dev, more, y.issued, y.attested)
  {
    hide A.Proper, After, Idle, Held, Obtainable;
    if fs == [] {
      return x, events;
    }
    var z;
    z, more := ObtainAll(x, events, Front(fs));
    y, more := Obtain(z, more, Last(fs));
    MoreHeld(z, y, Front(fs));
    assert forall j :: 0 <= j < |fs| - 1 ==> fs[j] == Front(fs)[j];
  }

  ghost predicate InputsHeld(x: Desk, inputs: seq<Input>) {
    forall k :: 0 <= k < |inputs| ==> HeldUpto(x, inputs[k].frames)
  }

  lemma {:induction false} ObtainInputs(x: Desk, events: seq<Event>, inputs: seq<Input>)
      returns (y: Desk, more: seq<Event>)
    requires A.Proper(x.dev) && Idle(x.dev, events, x.issued, x.attested)
    requires forall k :: 0 <= k < |inputs| ==> InputFits(x.dev, inputs[k])
    ensures y.dev == x.dev && x.issued <= y.issued && InputsHeld(y, inputs) && Idle(x.dev, more, y.issued, y.attested)
  {
    hide A.Proper, After, Idle, HeldUpto, Obtainable, IS.WellFormed;
    if inputs == [] {
      return x, events;
    }
    var z;
    z, more := ObtainInputs(x, events, Front(inputs));
    assert InputFits(x.dev, Last(inputs));
    y, more := ObtainAll(z, more, Last(inputs).frames);
    forall k | 0 <= k < |inputs|
      ensures HeldUpto(y, inputs[k].frames)
    {
      if k < |inputs| - 1 {
        assert inputs[k] == Front(inputs)[k];
        MoreHeld(z, y, inputs[k].frames);
      }
    }
  }

  // ---------- exactly these ----------

  /** This event of the run returns a signature over this transaction. */
  ghost predicate Signs(dev: A.Device, events: seq<Event>, e: Event, d: Draft)
    requires A.Proper(dev)
  {
    Next(dev, After(dev, events).app, e).response.Signature? && After(dev, events).h.draft == d
  }

  /** With all messages accepted the transaction is finished. */
  lemma FinishedThen(p: S.Operation, t: Draft)
    requires SR.Inv(p, t) && Running(p) && AllThere(t)
    ensures p.state == S.TxFinished
  {
  }

  /** A transaction within the limits whose frames are at hand is signed. */
  lemma SignReady(x: Desk, events: seq<Event>, t: Draft) returns (more: seq<Event>, e: Event)
    requires Ready(x, t) && Idle(x.dev, events, x.issued, x.attested)
    ensures A.Proper(x.dev) && Signs(x.dev, more, e, t) && After(x.dev, more).h.attested == x.attested
  {
    hide Ready, A.Proper, After, Idle, InSession, InContext, SR.Inv, Exact, S.Coupled, Room, Shape, InputFits,
         OutputFits, AllThere, AllHeld, Next;
    Counts0(x, t);
    assert t.inputs[..0] == [] && t.outputs[..0] == [];
    more := BeginTx(x, events, t);
    more := GiveIds(x, more, t, 0);
    more := GiveInputs(x, more, t, 0);
    more := GiveData(x, more, t, 0);
    more := GiveOutputs(x, more, t, 0);
    OpFacts(x, more, t);
    FinishedThen(OpAt(x, more), t);
    more, e := Sign(x, more, t);
  }

  /** Every transaction within the limits is signed by some run from power-on. */
  lemma SignedSomehow(dev: A.Device, t: Draft) returns (events: seq<Event>, e: Event)
    requires A.Proper(dev) && Within(dev, t)
    ensures Signs(dev, events, e, t)
  {
    hide A.Proper, After, Idle, Signs, AllThere, Shape, InRange, InputFits, OutputFits, TableOf;
    NothingYet(dev);
    var x;
    x, events := ObtainInputs(Desk(dev, {}, {}), [], t.inputs);
    events, e := SignReady(x, events, t);
  }

  /**
   A device can be made to sign exactly the transactions within the limits, whatever outputs were
   opened and abandoned on the way.
   */
  lemma SignedExactly(dev: A.Device, t: Draft)
    requires A.Proper(dev)
    ensures (exists events: seq<Event>, e: Event :: Signs(dev, events, e, t)) <==> Within(dev, t)
  {
    hide A.Proper, After, Next, Within;
    if Within(dev, t) {
      var events, e := SignedSomehow(dev, t);
    }
    forall events: seq<Event>, e: Event | Signs(dev, events, e, t)
      ensures Within(dev, t)
    {
      SignedWithin(dev, events, e);
    }
  }

  /** A device attests exactly the boxes within the limits. */
  lemma AttestedExactly(dev: A.Device, s: A.Source)
    requires A.Proper(dev)
    ensures (exists events: seq<Event> :: s in After(dev, events).h.attested) <==> Fits(s)
  {
    hide A.Proper, After, Fits, Idle;
    if Fits(s) {
      NothingYet(dev);
      var events := AttestBox(dev, [], s, {}, {});
      WholeBox(s);
      assert s in After(dev, events).h.attested;
    }
    forall events: seq<Event> | s in After(dev, events).h.attested
      ensures Fits(s)
    {
      ModestAlways(dev, events);
    }
  }
}
