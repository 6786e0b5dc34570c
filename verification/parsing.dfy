/**
 A reader of the bytes that are hashed: numbers by the device's own integer reader, everything
 else by its length.  Given the lengths of trees, registers and extensions, which the bytes do not
 hold, it reads every signed message back as the transaction described, and the bytes under a box
 id back as the box attested.
 */
module Parsing {
  import opened Bytes
  import opened Gve
  import opened TxTypes
  import opened Reference
  import opened Application
  import opened Runs
  import opened Message
  import A = Attestation
  import T = Theorems
  import Z = Zigzag

  /** What was found at the front, and the bytes behind it. */
  datatype Parsed<+V> = Found(value: V, rest: bytes) | Malformed

  function TakeNumber(s: bytes): Parsed<u64> {
    match Z.ReadU64(s)
    case Value(v, used) => Found(v, s[used..])
    case IntTooBig => Malformed
    case DataSize => Malformed
  }

  function TakeBytes(s: bytes, n: nat): Parsed<bytes> {
    if |s| < n then Malformed else Found(s[..n], s[n..])
  }

  function TakeIds(s: bytes, n: nat): Parsed<seq<bytes>> {
    if n == 0 then Found([], s)
    else
      match TakeBytes(s, 32)
      case Malformed => Malformed
      case Found(id, rest) =>
        match TakeIds(rest, n - 1)
        case Malformed => Malformed
        case Found(ids, rest) => Found([id] + ids, rest)
  }

  // ---------- boxes ----------

  /** The token's name, in full or as a place in the table, and then its amount. */
  function TakeEntry(s: bytes, table: Option<seq<bytes>>): Parsed<Entry> {
    match table
    case None =>
      (match TakeBytes(s, 32)
       case Malformed => Malformed
       case Found(id, rest) =>
         match TakeNumber(rest)
         case Malformed => Malformed
         case Found(amount, rest) => Found(Entry(InFull, Token(id, amount)), rest))
    case Some(ids) =>
      match TakeNumber(s)
      case Malformed => Malformed
      case Found(i, rest) =>
        if i >= |ids| || i > 0xFFFF_FFFF then Malformed
        else
          match TakeNumber(rest)
          case Malformed => Malformed
          case Found(amount, rest) => Found(Entry(ByIndex(i), Token(ids[i], amount)), rest)
  }

  function TakeEntries(s: bytes, n: nat, table: Option<seq<bytes>>): Parsed<seq<Entry>> {
    if n == 0 then Found([], s)
    else
      match TakeEntry(s, table)
      case Malformed => Malformed
      case Found(e, rest) =>
        match TakeEntries(rest, n - 1, table)
        case Malformed => Malformed
        case Found(es, rest) => Found([e] + es, rest)
  }

  /** A part of this length, or a single zero in its place if it is empty. */
  function TakePart(s: bytes, n: nat): Parsed<bytes> {
    if n > 0 then TakeBytes(s, n) else if s != [] && s[0] == 0 then Found([], s[1..]) else Malformed
  }

  datatype PlainBox = PlainBox(value: u64, tree: bytes, height: u32, entries: seq<Entry>, registers: bytes)

  function PlainOf(b: Box): PlainBox {
    PlainBox(b.value, b.tree, b.height, b.entries, b.registers)
  }

  /** Value, tree, and what follows it. */
  function TakeBox(s: bytes, tree: nat, registers: nat, table: Option<seq<bytes>>): Parsed<PlainBox> {
    match TakeNumber(s)
    case Malformed => Malformed
    case Found(value, rest) =>
      match TakeBytes(rest, tree)
      case Malformed => Malformed
      case Found(t, rest) =>
        match TakeNumber(rest)
        case Malformed => Malformed
        case Found(height, rest) =>
          if height > 0xFFFF_FFFF then Malformed
          else
            match TakeContents(rest, registers, table)
            case Malformed => Malformed
            case Found(c, rest) => Found(PlainBox(value, t, height, c.0, c.1), rest)
  }

  /** The number of tokens in one byte, the tokens, the registers. */
  function TakeContents(s: bytes, registers: nat, table: Option<seq<bytes>>): Parsed<(seq<Entry>, bytes)> {
    if s == [] then Malformed
    else
      match TakeEntries(s[1..], s[0], table)
      case Malformed => Malformed
      case Found(es, rest) =>
        match TakePart(rest, registers)
        case Malformed => Malformed
        case Found(r, rest) => Found((es, r), rest)
  }

  function TakeBoxes(s: bytes, lengths: seq<(nat, nat)>, table: Option<seq<bytes>>): Parsed<seq<PlainBox>>
    decreases |lengths|
  {
    if lengths == [] then Found([], s)
    else
      match TakeBox(s, lengths[0].0, lengths[0].1, table)
      case Malformed => Malformed
      case Found(b, rest) =>
        match TakeBoxes(rest, lengths[1..], table)
        case Malformed => Malformed
        case Found(bs, rest) => Found([b] + bs, rest)
  }

  lemma NumberRead(v: u64, rest: bytes)
    ensures TakeNumber(Vlq(v) + rest) == Found(v, rest)
  {
    Z.GetPut(v, rest);
  }

  lemma BytesRead(s: bytes, rest: bytes)
    ensures TakeBytes(s + rest, |s|) == Found(s, rest)
  {
  }

  lemma PartRead(s: bytes, rest: bytes)
    ensures TakePart((if s == [] then [0] else s) + rest, |s|) == Found(s, rest)
  {
  }

  /** The entry is named the way the table asks for. */
  ghost predicate Named(e: Entry, table: Option<seq<bytes>>) {
    if table.None? then NamedInFull(e) else Resolved(e, table.value)
  }

  lemma EntryRead(e: Entry, table: Option<seq<bytes>>, rest: bytes)
    requires Named(e, table)
    ensures TakeEntry(EntryBytes(e) + rest, table) == Found(e, rest)
  {
    hide TakeNumber;
    NumberRead(e.token.amount, rest);
    match table
    case None =>
      Assoc(e.token.id, Vlq(e.token.amount), rest);
      BytesRead(e.token.id, Vlq(e.token.amount) + rest);
    case Some(ids) =>
      Assoc(Vlq(e.name.index), Vlq(e.token.amount), rest);
      NumberRead(e.name.index, Vlq(e.token.amount) + rest);
  }

  lemma {:induction false} EntriesRead(es: seq<Entry>, table: Option<seq<bytes>>, rest: bytes)
    requires forall i :: 0 <= i < |es| ==> Named(es[i], table)
    ensures TakeEntries(EntriesBytes(es) + rest, |es|, table) == Found(es, rest)
  {
    hide EntryBytes, TakeEntry, Named;
    if es == [] {
      assert [] + rest == rest;
    } else {
      var e, more := es[0], es[1..];
      assert es == [e] + more;
      EntriesCons(e, more);
      Assoc(EntryBytes(e), EntriesBytes(more), rest);
      EntryRead(e, table, EntriesBytes(more) + rest);
      EntriesRead(more, table, rest);
    }
  }

  lemma ContentsRead(b: Box, table: Option<seq<bytes>>, rest: bytes)
    requires Complete(b) && forall i :: 0 <= i < |b.entries| ==> Named(b.entries[i], table)
    ensures TakeContents(AfterHeight(b, rest), |b.registers|, table) == Found((b.entries, b.registers), rest)
  {
    hide TakeEntries, TakePart, Named, EntriesBytes;
    var r := if b.registers == [] then [0] else b.registers;
    var s := AfterHeight(b, rest);
    assert s[0] == |b.entries| && s[1..] == EntriesBytes(b.entries) + (r + rest);
    EntriesRead(b.entries, table, r + rest);
    PartRead(b.registers, rest);
  }

  /** A complete box is read back from its bytes, whatever follows them. */
  lemma BoxRead(b: Box, table: Option<seq<bytes>>, rest: bytes)
    requires Complete(b) && forall i :: 0 <= i < |b.entries| ==> Named(b.entries[i], table)
    ensures TakeBox(BoxBytes(b) + rest, |b.tree|, |b.registers|, table) == Found(PlainOf(b), rest)
  {
    Reference.Regroup(b, rest);
    hide TakeNumber, TakeContents, TakeBytes, Named, Vlq, BoxBytes, AfterHeight, Complete;
    NumberRead(b.value, b.tree + (Vlq(b.height) + AfterHeight(b, rest)));
    BytesRead(b.tree, Vlq(b.height) + AfterHeight(b, rest));
    NumberRead(b.height, AfterHeight(b, rest));
    ContentsRead(b, table, rest);
  }

  function PlainBoxes(s: seq<Box>): seq<PlainBox> {
    if s == [] then [] else [PlainOf(s[0])] + PlainBoxes(s[1..])
  }

  function BoxLengths(s: seq<Box>): seq<(nat, nat)> {
    if s == [] then [] else [(|s[0].tree|, |s[0].registers|)] + BoxLengths(s[1..])
  }

  lemma {:induction false} BoxesRead(s: seq<Box>, ids: seq<bytes>, rest: bytes)
    requires forall k :: 0 <= k < |s| ==> Complete(s[k]) && AllResolved(s[k].entries, ids)
    ensures TakeBoxes(BoxesBytes(s) + rest, BoxLengths(s), Some(ids)) == Found(PlainBoxes(s), rest)
  {
    hide BoxBytes, TakeBox, Complete, PlainOf;
    if s == [] {
      assert [] + rest == rest;
    } else {
      var b, more := s[0], s[1..];
      assert s == [b] + more;
      BoxesCons(b, more);
      Assoc(BoxBytes(b), BoxesBytes(more), rest);
      AllNamed(b.entries, ids);
      BoxRead(b, Some(ids), BoxesBytes(more) + rest);
      assert forall k :: 0 <= k < |more| ==> more[k] == s[k + 1];
      BoxesRead(more, ids, rest);
      assert BoxLengths(s)[1..] == BoxLengths(more);
    }
  }

  lemma AllNamed(es: seq<Entry>, ids: seq<bytes>)
    requires AllResolved(es, ids)
    ensures forall i :: 0 <= i < |es| ==> Named(es[i], Some(ids))
  {
  }

  // ---------- inputs and ids ----------

  datatype PlainInput = PlainInput(id: bytes, extension: bytes)

  /** Id, an empty proof, extension. */
  function TakeInput(s: bytes, extension: nat): Parsed<PlainInput> {
    match TakeBytes(s, 32)
    case Malformed => Malformed
    case Found(id, rest) =>
      if rest == [] || rest[0] != 0 then Malformed
      else
        match TakePart(rest[1..], extension)
        case Malformed => Malformed
        case Found(e, rest) => Found(PlainInput(id, e), rest)
  }

  function TakeInputs(s: bytes, extensions: seq<nat>): Parsed<seq<PlainInput>>
    decreases |extensions|
  {
    if extensions == [] then Found([], s)
    else
      match TakeInput(s, extensions[0])
      case Malformed => Malformed
      case Found(i, rest) =>
        match TakeInputs(rest, extensions[1..])
        case Malformed => Malformed
        case Found(more, rest) => Found([i] + more, rest)
  }

  function PlainInputs(s: seq<Input>): seq<PlainInput> {
    if s == [] then [] else [PlainInput(s[0].id, s[0].extension)] + PlainInputs(s[1..])
  }

  function ExtensionLengths(s: seq<Input>): (n: seq<nat>)
    ensures |n| == |s|
  {
    if s == [] then [] else [|s[0].extension|] + ExtensionLengths(s[1..])
  }

  lemma InputRead(i: Input, rest: bytes)
    requires |i.id| == ID_LEN
    ensures TakeInput(InputBytes(i) + rest, |i.extension|) == Found(PlainInput(i.id, i.extension), rest)
  {
    var e := if i.extension == [] then [0] else i.extension;
    var s := InputBytes(i) + rest;
    assert s == i.id + ([0] + (e + rest));
    BytesRead(i.id, [0] + (e + rest));
    PartRead(i.extension, rest);
    assert ([0] + (e + rest))[1..] == e + rest;
  }

  lemma {:induction false} InputsCons(i: Input, s: seq<Input>)
    ensures InputsBytes([i] + s) == InputBytes(i) + InputsBytes(s)
  {
    hide InputBytes;
    if s == [] {
      assert [i] + s == [i] && Front([i]) == [];
      assert [] + InputBytes(i) == InputBytes(i) + [];
    } else {
      InputsCons(i, Front(s));
      assert Front([i] + s) == [i] + Front(s);
      Assoc(InputBytes(i), InputsBytes(Front(s)), InputBytes(Last(s)));
    }
  }

  lemma {:induction false} InputsRead(s: seq<Input>, rest: bytes)
    requires forall k :: 0 <= k < |s| ==> |s[k].id| == ID_LEN
    ensures TakeInputs(InputsBytes(s) + rest, ExtensionLengths(s)) == Found(PlainInputs(s), rest)
  {
    hide InputBytes, TakeInput;
    if s == [] {
      assert [] + rest == rest;
    } else {
      var i, more := s[0], s[1..];
      assert s == [i] + more;
      InputsCons(i, more);
      Assoc(InputBytes(i), InputsBytes(more), rest);
      InputRead(i, InputsBytes(more) + rest);
      InputsRead(more, rest);
      assert ExtensionLengths(s)[1..] == ExtensionLengths(more);
    }
  }

  lemma {:induction false} IdsRead(ids: seq<bytes>, rest: bytes)
    requires AllIds(ids)
    ensures TakeIds(Flatten(ids) + rest, |ids|) == Found(ids, rest)
  {
    if ids == [] {
      assert [] + rest == rest;
    } else {
      var id, more := ids[0], ids[1..];
      assert ids == [id] + more;
      FlattenCons(id, more);
      Assoc(id, Flatten(more), rest);
      BytesRead(id, Flatten(more) + rest);
      IdsRead(more, rest);
    }
  }

  // ---------- the transaction ----------

  datatype PlainTx = PlainTx(inputs: seq<PlainInput>, dataInputs: seq<bytes>, ids: seq<bytes>, outputs: seq<PlainBox>)

  /** What the bytes do not hold. */
  datatype Lengths = Lengths(extensions: seq<nat>, boxes: seq<(nat, nat)>)

  function LengthsOf(d: Draft): Lengths {
    Lengths(ExtensionLengths(d.inputs), BoxLengths(d.outputs))
  }

  function PlainTxOf(d: Draft): PlainTx {
    PlainTx(PlainInputs(d.inputs), d.dataInputs, d.ids, PlainBoxes(d.outputs))
  }

  /** A number of ids and so many ids. */
  function TakeIdList(s: bytes): Parsed<seq<bytes>> {
    match TakeNumber(s)
    case Malformed => Malformed
    case Found(n, rest) => TakeIds(rest, n)
  }

  /** Inputs, data inputs, token ids and outputs, each behind their number, and nothing more. */
  function ReadTx(s: bytes, l: Lengths): Option<PlainTx> {
    match TakeNumber(s)
    case Malformed => None
    case Found(n, rest) =>
      if n != |l.extensions| then None
      else
        match TakeInputs(rest, l.extensions)
        case Malformed => None
        case Found(inputs, rest) =>
          match TakeIdList(rest)
          case Malformed => None
          case Found(dataInputs, rest) =>
            match TakeIdList(rest)
            case Malformed => None
            case Found(ids, rest) =>
              match TakeOutputs(rest, l.boxes, ids)
              case Malformed => None
              case Found(outputs, rest) =>
                if rest == [] then Some(PlainTx(inputs, dataInputs, ids, outputs)) else None
  }

  function TakeOutputs(s: bytes, lengths: seq<(nat, nat)>, ids: seq<bytes>): Parsed<seq<PlainBox>> {
    match TakeNumber(s)
    case Malformed => Malformed
    case Found(n, rest) => if n != |lengths| then Malformed else TakeBoxes(rest, lengths, Some(ids))
  }

  lemma IdListRead(ids: seq<bytes>, rest: bytes)
    requires AllIds(ids) && |ids| <= U64_MAX
    ensures TakeIdList(Vlq(|ids|) + (Flatten(ids) + rest)) == Found(ids, rest)
  {
    NumberRead(|ids|, Flatten(ids) + rest);
    IdsRead(ids, rest);
  }

  lemma {:induction false} SameNumber(s: seq<Box>)
    ensures |BoxLengths(s)| == |s|
  {
    if s != [] {
      SameNumber(s[1..]);
    }
  }

  lemma OutputsRead(d: Draft)
    requires Shape(d) && CompleteBoxes(d.outputs) == |d.outputs| <= U64_MAX
    ensures TakeOutputs(Rest(d), BoxLengths(d.outputs), d.ids) == Found(PlainBoxes(d.outputs), [])
  {
    hide Complete, AllResolved;
    forall k | 0 <= k < |d.outputs|
      ensures Complete(d.outputs[k])
    {
      BoxIsComplete(d.outputs, k);
    }
    SameNumber(d.outputs);
    NumberRead(|d.outputs|, BoxesBytes(d.outputs));
    BoxesRead(d.outputs, d.ids, []);
    assert BoxesBytes(d.outputs) + [] == BoxesBytes(d.outputs);
  }

  /** The serialization of a complete transaction is read back as the transaction. */
  lemma TxRead(d: Draft)
    requires Shape(d) && CompleteBoxes(d.outputs) == |d.outputs| <= U64_MAX
    requires |d.inputs| <= U64_MAX && |d.dataInputs| <= U64_MAX && |d.ids| <= U64_MAX
    ensures ReadTx(TxBytes(d), LengthsOf(d)) == Some(PlainTxOf(d))
  {
    Grouped(d);
    OutputsRead(d);
    hide Shape, CompleteBoxes, TxBytes, Rest, TakeNumber, TakeIdList, TakeOutputs, TakeInputs, Vlq;
    var ids := Vlq(|d.ids|) + (Flatten(d.ids) + Rest(d));
    var data := Vlq(|d.dataInputs|) + (Flatten(d.dataInputs) + ids);
    ShapeIds(d);
    NumberRead(|d.inputs|, InputsBytes(d.inputs) + data);
    InputsRead(d.inputs, data);
    IdListRead(d.dataInputs, ids);
    IdListRead(d.ids, Rest(d));
  }

  lemma ShapeIds(d: Draft)
    requires Shape(d)
    ensures AllIds(d.ids) && AllIds(d.dataInputs) && forall k :: 0 <= k < |d.inputs| ==> |d.inputs[k].id| == ID_LEN
  {
  }

  /**
   In every run, whoever knows the lengths reads the signed message, behind what the hasher held
   before, as the transaction described, unless an output was abandoned.
   */
  lemma SignedMessageReads(dev: A.Device, events: seq<Event>, e: Event, message: bytes)
    requires A.Proper(dev) && SignedAs(dev, events, e, message)
    ensures var d := After(dev, events).h.draft;
            d.base <= message && ReadTx(message[|d.base|..], LengthsOf(d)) == Some(PlainTxOf(d))
  {
    SignedReference(dev, events, e, message);
    T.SignatureSound(dev, events, e);
    var d := After(dev, events).h.draft;
    hide Next, Inv, A.Proper, After, TxBytes, Shape, ReadTx, CompleteBoxes;
    assert message[|d.base|..] == TxBytes(d);
    TxRead(d);
  }

  // ---------- box ids ----------

  /** What is hashed into a box id reads as the box, its tokens in full, then transaction id and place. */
  lemma BoxIdReads(s: A.Source)
    requires A.Attestable(s)
    ensures var o := TakeBox(A.Preimage(s), |s.box.tree|, |s.box.registers|, None);
            && o.Found? && o.value == PlainOf(s.box) && |o.rest| >= 32
            && TakeBytes(o.rest, 32) == Found(s.txId, o.rest[32..])
            && TakeNumber(o.rest[32..]) == Found(s.boxIndex, [])
  {
    hide TakeBox, TakeNumber, BoxBytes, Vlq;
    Assoc(BoxBytes(s.box), s.txId, Vlq(s.boxIndex));
    var rest := s.txId + Vlq(s.boxIndex);
    BoxRead(s.box, None, rest);
    BytesRead(s.txId, Vlq(s.boxIndex));
    NumberRead(s.boxIndex, []);
    assert Vlq(s.boxIndex) + [] == Vlq(s.boxIndex);
  }
}
