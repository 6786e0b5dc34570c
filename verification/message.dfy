/**
 What the signed message determines: the lengths of trees, registers and extensions are not
 among its bytes, and with them it determines the whole transaction.
 */
module Message {
  import opened Bytes
  import opened Gve
  import opened TxTypes
  import opened Reference
  import opened Application
  import opened Runs
  import BS = BoxSerializer
  import FR = FullRefinement
  import S = Signing
  import SR = SigningRefinement
  import A = Attestation
  import T = Theorems

  ghost predicate AllIds(s: seq<bytes>) {
    forall k :: 0 <= k < |s| ==> |s[k]| == ID_LEN
  }

  /** An entry of an output names an announced id by its place. */
  ghost predicate Resolved(e: Entry, ids: seq<bytes>) {
    e.name.ByIndex? && e.name.index < |ids| && e.token.id == ids[e.name.index]
  }

  ghost predicate AllResolved(es: seq<Entry>, ids: seq<bytes>) {
    forall j :: 0 <= j < |es| ==> Resolved(es[j], ids)
  }

  /** What every described transaction looks like: ids of 32 bytes, output tokens among the announced ones. */
  ghost predicate Shape(d: Draft) {
    && AllIds(d.ids) && AllIds(d.dataInputs)
    && (forall k :: 0 <= k < |d.inputs| ==> |d.inputs[k].id| == ID_LEN)
    && forall k :: 0 <= k < |d.outputs| ==> AllResolved(d.outputs[k].entries, d.ids)
  }

  /** Trees, registers and extensions have the same lengths, place by place. */
  ghost predicate SameLengths(d: Draft, e: Draft) {
    && (forall k :: 0 <= k < |d.inputs| && k < |e.inputs| ==> |d.inputs[k].extension| == |e.inputs[k].extension|)
    && forall k :: 0 <= k < |d.outputs| && k < |e.outputs| ==>
         |d.outputs[k].tree| == |e.outputs[k].tree| && |d.outputs[k].registers| == |e.outputs[k].registers|
  }

  ghost predicate SameBox(a: Box, b: Box) {
    && a.value == b.value && a.tree == b.tree && a.height == b.height && a.entries == b.entries
    && a.registers == b.registers
  }

  /** The same inputs, data inputs, ids and outputs. */
  ghost predicate SameTx(d: Draft, e: Draft) {
    && |d.inputs| == |e.inputs| && |d.outputs| == |e.outputs|
    && (forall k :: 0 <= k < |d.inputs| ==>
          d.inputs[k].id == e.inputs[k].id && d.inputs[k].extension == e.inputs[k].extension)
    && d.dataInputs == e.dataInputs && d.ids == e.ids
    && forall k :: 0 <= k < |d.outputs| ==> SameBox(d.outputs[k], e.outputs[k])
  }

  // ---------- parts of known length ----------

  lemma {:induction false} FlattenSize(s: seq<bytes>)
    requires AllIds(s)
    ensures |Flatten(s)| == ID_LEN * |s|
  {
    if s != [] {
      FlattenSize(Front(s));
    }
  }

  lemma {:induction false} FlattenInjective(s: seq<bytes>, t: seq<bytes>)
    requires AllIds(s) && AllIds(t) && |s| == |t| && Flatten(s) == Flatten(t)
    ensures s == t
  {
    if s != [] {
      FlattenSize(Front(s));
      FlattenSize(Front(t));
      SplitAt(Flatten(Front(s)), Flatten(Front(t)), Last(s), Last(t));
      FlattenInjective(Front(s), Front(t));
      assert s == Front(s) + [Last(s)] && t == Front(t) + [Last(t)];
    }
  }

  /** A counted list of ids, with anything behind it, can be read in one way only. */
  lemma IdsInjective(s: seq<bytes>, t: seq<bytes>, x: bytes, y: bytes)
    requires AllIds(s) && AllIds(t) && Vlq(|s|) + (Flatten(s) + x) == Vlq(|t|) + (Flatten(t) + y)
    ensures s == t && x == y
  {
    PrefixFree(|s|, |t|, Flatten(s) + x, Flatten(t) + y);
    FlattenSize(s);
    FlattenSize(t);
    SplitAt(Flatten(s), Flatten(t), x, y);
    FlattenInjective(s, t);
  }

  /** Inputs of 32-byte ids whose extensions have pairwise the same lengths. */
  ghost predicate Alike(s: seq<Input>, t: seq<Input>) {
    && |s| == |t|
    && (forall k :: 0 <= k < |s| ==> |s[k].id| == ID_LEN && |t[k].id| == ID_LEN)
    && forall k :: 0 <= k < |s| ==> |s[k].extension| == |t[k].extension|
  }

  lemma AlikeFront(s: seq<Input>, t: seq<Input>)
    requires Alike(s, t) && s != []
    ensures Alike(Front(s), Front(t)) && |InputBytes(Last(s))| == |InputBytes(Last(t))|
  {
    assert forall k :: 0 <= k < |s| - 1 ==> Front(s)[k] == s[k] && Front(t)[k] == t[k];
  }

  lemma {:induction false} InputsSize(s: seq<Input>, t: seq<Input>)
    requires Alike(s, t)
    ensures |InputsBytes(s)| == |InputsBytes(t)|
  {
    if s != [] {
      AlikeFront(s, t);
      InputsSize(Front(s), Front(t));
    }
  }

  lemma {:induction false} InputsInjective(s: seq<Input>, t: seq<Input>)
    requires Alike(s, t) && InputsBytes(s) == InputsBytes(t)
    ensures forall k :: 0 <= k < |s| ==> s[k].id == t[k].id && s[k].extension == t[k].extension
  {
    if s != [] {
      AlikeFront(s, t);
      InputsSize(Front(s), Front(t));
      SplitAt(InputsBytes(Front(s)), InputsBytes(Front(t)), InputBytes(Last(s)), InputBytes(Last(t)));
      InputsInjective(Front(s), Front(t));
      InputInjective(Last(s), Last(t));
      assert forall k :: 0 <= k < |s| - 1 ==> Front(s)[k] == s[k] && Front(t)[k] == t[k];
    }
  }

  lemma InputInjective(i: Input, j: Input)
    requires |i.id| == ID_LEN && |j.id| == ID_LEN && |i.extension| == |j.extension| && InputBytes(i) == InputBytes(j)
    ensures i.id == j.id && i.extension == j.extension
  {
    var p, q := if i.extension == [] then [0] else i.extension, if j.extension == [] then [0] else j.extension;
    SplitAt(i.id + [0], j.id + [0], p, q);
    SplitAt(i.id, j.id, [0], [0]);
  }

  // ---------- boxes ----------

  lemma IndexedInjective(e: Entry, f: Entry, x: bytes, y: bytes)
    requires e.name.ByIndex? && f.name.ByIndex? && EntryBytes(e) + x == EntryBytes(f) + y
    ensures e.name == f.name && e.token.amount == f.token.amount && x == y
  {
    Assoc(Vlq(e.name.index), Vlq(e.token.amount), x);
    Assoc(Vlq(f.name.index), Vlq(f.token.amount), y);
    PrefixFree(e.name.index, f.name.index, Vlq(e.token.amount) + x, Vlq(f.token.amount) + y);
    PrefixFree(e.token.amount, f.token.amount, x, y);
  }

  lemma {:induction false} EntriesCons(e: Entry, es: seq<Entry>)
    ensures EntriesBytes([e] + es) == EntryBytes(e) + EntriesBytes(es)
  {
    hide EntryBytes;
    if es == [] {
      assert [e] + es == [e] && Front([e]) == [];
      assert [] + EntryBytes(e) == EntryBytes(e) + [];
    } else {
      EntriesCons(e, Front(es));
      assert Front([e] + es) == [e] + Front(es);
      Assoc(EntryBytes(e), EntriesBytes(Front(es)), EntryBytes(Last(es)));
    }
  }

  lemma {:induction false} IndexedEntriesInjective(es: seq<Entry>, fs: seq<Entry>, ids: seq<bytes>, x: bytes, y: bytes)
    requires |es| == |fs| && EntriesBytes(es) + x == EntriesBytes(fs) + y
    requires AllResolved(es, ids) && AllResolved(fs, ids)
    ensures es == fs && x == y
  {
    if es == [] {
      assert [] + x == x && [] + y == y;
    } else {
      var e, f, es', fs' := es[0], fs[0], es[1..], fs[1..];
      assert es == [e] + es' && fs == [f] + fs';
      EntriesCons(e, es');
      EntriesCons(f, fs');
      Assoc(EntryBytes(e), EntriesBytes(es'), x);
      Assoc(EntryBytes(f), EntriesBytes(fs'), y);
      IndexedInjective(e, f, EntriesBytes(es') + x, EntriesBytes(fs') + y);
      assert Resolved(e, ids) && Resolved(f, ids);
      IndexedEntriesInjective(es', fs', ids, x, y);
    }
  }

  /** A complete box with indexed tokens can be read in one way once its two lengths are known. */
  lemma BoxInjective(a: Box, b: Box, ids: seq<bytes>, x: bytes, y: bytes)
    requires Complete(a) && Complete(b) && AllResolved(a.entries, ids) && AllResolved(b.entries, ids)
    requires |a.tree| == |b.tree| && |a.registers| == |b.registers| && BoxBytes(a) + x == BoxBytes(b) + y
    ensures SameBox(a, b) && x == y
  {
    SameBytesSameValue(a, b, x, y);
    SplitAt(a.tree, b.tree, Vlq(a.height) + AfterHeight(a, x), Vlq(b.height) + AfterHeight(b, y));
    PrefixFree(a.height, b.height, AfterHeight(a, x), AfterHeight(b, y));
    var ra, rb := if a.registers == [] then [0] else a.registers, if b.registers == [] then [0] else b.registers;
    SplitAt([a.tokensCount], [b.tokensCount], EntriesBytes(a.entries) + (ra + x), EntriesBytes(b.entries) + (rb + y));
    IndexedEntriesInjective(a.entries, b.entries, ids, ra + x, rb + y);
    SplitAt(ra, rb, x, y);
  }

  lemma {:induction false} BoxesCons(b: Box, s: seq<Box>)
    ensures BoxesBytes([b] + s) == BoxBytes(b) + BoxesBytes(s)
  {
    hide BoxBytes;
    if s == [] {
      assert [b] + s == [b] && Front([b]) == [];
      assert [] + BoxBytes(b) == BoxBytes(b) + [];
    } else {
      BoxesCons(b, Front(s));
      assert Front([b] + s) == [b] + Front(s);
      Assoc(BoxBytes(b), BoxesBytes(Front(s)), BoxBytes(Last(s)));
    }
  }

  ghost predicate BoxesAlike(s: seq<Box>, t: seq<Box>, ids: seq<bytes>) {
    && |s| == |t|
    && forall k :: 0 <= k < |s| ==>
         && Complete(s[k]) && Complete(t[k]) && AllResolved(s[k].entries, ids) && AllResolved(t[k].entries, ids)
         && |s[k].tree| == |t[k].tree| && |s[k].registers| == |t[k].registers|
  }

  lemma AlikeTail(s: seq<Box>, t: seq<Box>, ids: seq<bytes>)
    requires BoxesAlike(s, t, ids)
    ensures |s| == |t|
    ensures s != [] ==>
              && BoxesAlike(s[1..], t[1..], ids)
              && Complete(s[0]) && Complete(t[0]) && AllResolved(s[0].entries, ids) && AllResolved(t[0].entries, ids)
              && |s[0].tree| == |t[0].tree| && |s[0].registers| == |t[0].registers|
  {
    hide AllResolved, Complete;
    if s != [] {
      assert forall k :: 0 <= k < |s| - 1 ==> s[1..][k] == s[k + 1] && t[1..][k] == t[k + 1];
    }
  }

  lemma {:induction false} BoxesInjective(s: seq<Box>, t: seq<Box>, ids: seq<bytes>)
    requires BoxesAlike(s, t, ids) && BoxesBytes(s) == BoxesBytes(t)
    ensures forall k :: 0 <= k < |s| ==> SameBox(s[k], t[k])
  {
    hide BoxBytes, SameBox, AllResolved, Complete, BoxesAlike, BoxesBytes;
    AlikeTail(s, t, ids);
    if s != [] {
      assert s == [s[0]] + s[1..] && t == [t[0]] + t[1..];
      BoxesCons(s[0], s[1..]);
      BoxesCons(t[0], t[1..]);
      BoxInjective(s[0], t[0], ids, BoxesBytes(s[1..]), BoxesBytes(t[1..]));
      BoxesInjective(s[1..], t[1..], ids);
      assert forall k :: 1 <= k < |s| ==> s[k] == s[1..][k - 1] && t[k] == t[1..][k - 1];
    }
  }

  // ---------- the transaction ----------

  function Rest(d: Draft): bytes {
    Vlq(|d.outputs|) + BoxesBytes(d.outputs)
  }

  lemma Grouped(d: Draft)
    ensures TxBytes(d) == Vlq(|d.inputs|) + (InputsBytes(d.inputs)
                          + (Vlq(|d.dataInputs|)
                             + (Flatten(d.dataInputs) + (Vlq(|d.ids|) + (Flatten(d.ids) + Rest(d))))))
  {
    var a, b, c, e := Vlq(|d.inputs|), InputsBytes(d.inputs), Vlq(|d.dataInputs|), Flatten(d.dataInputs);
    var f, g, h, i := Vlq(|d.ids|), Flatten(d.ids), Vlq(|d.outputs|), BoxesBytes(d.outputs);
    hide InputsBytes, Flatten, BoxesBytes, Vlq;
    Assoc(a + b + c + e + f + g, h, i);
    Assoc(a + b + c + e + f, g, h + i);
    Assoc(a + b + c + e, f, g + (h + i));
    Assoc(a + b + c, e, f + (g + (h + i)));
    Assoc(a + b, c, e + (f + (g + (h + i))));
    Assoc(a, b, c + (e + (f + (g + (h + i)))));
  }

  /** Transactions with equal messages are equal exactly if their lengths are. */
  lemma SameMessageSameTx(d: Draft, e: Draft)
    requires Shape(d) && Shape(e) && TxBytes(d) == TxBytes(e)
    requires CompleteBoxes(d.outputs) == |d.outputs| && CompleteBoxes(e.outputs) == |e.outputs|
    ensures SameTx(d, e) <==> SameLengths(d, e)
  {
    if SameLengths(d, e) {
      LengthsDecide(d, e);
    }
  }

  lemma LengthsDecide(d: Draft, e: Draft)
    requires Shape(d) && Shape(e) && SameLengths(d, e) && TxBytes(d) == TxBytes(e)
    requires CompleteBoxes(d.outputs) == |d.outputs| && CompleteBoxes(e.outputs) == |e.outputs|
    ensures SameTx(d, e)
  {
    Grouped(d);
    Grouped(e);
    hide TxBytes, BoxBytes, Rest, SameBox;
    var x := Vlq(|d.dataInputs|) + (Flatten(d.dataInputs) + (Vlq(|d.ids|) + (Flatten(d.ids) + Rest(d))));
    var y := Vlq(|e.dataInputs|) + (Flatten(e.dataInputs) + (Vlq(|e.ids|) + (Flatten(e.ids) + Rest(e))));
    PrefixFree(|d.inputs|, |e.inputs|, InputsBytes(d.inputs) + x, InputsBytes(e.inputs) + y);
    InputsSize(d.inputs, e.inputs);
    SplitAt(InputsBytes(d.inputs), InputsBytes(e.inputs), x, y);
    InputsInjective(d.inputs, e.inputs);
    IdsInjective(d.dataInputs, e.dataInputs, Vlq(|d.ids|) + (Flatten(d.ids) + Rest(d)),
                 Vlq(|e.ids|) + (Flatten(e.ids) + Rest(e)));
    IdsInjective(d.ids, e.ids, Rest(d), Rest(e));
    SameOutputs(d, e);
  }

  lemma SameOutputs(d: Draft, e: Draft)
    requires Shape(d) && Shape(e) && SameLengths(d, e) && Rest(d) == Rest(e) && d.ids == e.ids
    requires CompleteBoxes(d.outputs) == |d.outputs| && CompleteBoxes(e.outputs) == |e.outputs|
    ensures |d.outputs| == |e.outputs| && forall k :: 0 <= k < |d.outputs| ==> SameBox(d.outputs[k], e.outputs[k])
  {
    PrefixFree(|d.outputs|, |e.outputs|, BoxesBytes(d.outputs), BoxesBytes(e.outputs));
    forall k | 0 <= k < |d.outputs|
      ensures Complete(d.outputs[k]) && Complete(e.outputs[k])
    {
      BoxIsComplete(d.outputs, k);
      BoxIsComplete(e.outputs, k);
    }
    BoxesInjective(d.outputs, e.outputs, d.ids);
  }

  // ---------- every described transaction has the shape ----------

  lemma {:induction false} PiecesAreIds(data: bytes)
    ensures AllIds(Pieces(data, ID_LEN))
    decreases |data|
  {
    if |data| >= ID_LEN {
      PiecesAreIds(data[ID_LEN..]);
    }
  }

  lemma {:induction false} EntriesResolved(data: bytes, n: u8, ids: seq<bytes>)
    requires n <= |ids|
    ensures AllResolved(BS.Entries(data, BS.TableIndexes(n, ids)), ids)
    decreases |data|
  {
    var names := BS.TableIndexes(n, ids);
    if BS.ReadEntry(data, names).Ok? {
      EntriesResolved(data[12..], n, ids);
      assert BS.Entries(data, names) == [BS.ReadEntry(data, names).s] + BS.Entries(data[12..], names);
    }
  }

  lemma MoreIds(d: Draft, ids: seq<bytes>)
    requires Shape(d) && AllIds(ids)
    ensures Shape(d.(ids := d.ids + ids))
  {
    var e := d.(ids := d.ids + ids);
    forall k | 0 <= k < |e.outputs|
      ensures AllResolved(e.outputs[k].entries, e.ids)
    {
      assert AllResolved(d.outputs[k].entries, d.ids);
    }
  }

  /** Replacing the last output by one with resolved entries keeps the shape. */
  lemma LastOutputShape(d: Draft, b: Box)
    requires Shape(d) && d.outputs != [] && AllResolved(b.entries, d.ids)
    ensures Shape(d.(outputs := SetLast(d.outputs, b)))
  {
    hide AllResolved;
    var s := SetLast(d.outputs, b);
    assert forall k :: 0 <= k < |s| - 1 ==> s[k] == Front(s)[k] == Front(d.outputs)[k] == d.outputs[k];
  }

  lemma LastInputShape(d: Draft, i: Input)
    requires Shape(d) && d.inputs != [] && |i.id| == ID_LEN
    ensures Shape(d.(inputs := SetLast(d.inputs, i)))
  {
    hide AllResolved;
    var s := SetLast(d.inputs, i);
    assert forall k :: 0 <= k < |s| - 1 ==> s[k] == Front(s)[k] == Front(d.inputs)[k] == d.inputs[k];
  }

  lemma RecordShape(d: Draft, c: S.Command)
    requires Shape(d) && (c.InputFrame? ==> |c.frame.id| == ID_LEN)
    ensures Shape(SR.Record(d, c))
  {
    match c
    case TokenIds(data) =>
      PiecesAreIds(data);
      MoreIds(d, Pieces(data, ID_LEN));
    case DataInputs(data) => PiecesAreIds(data);
    case InputFrame(f, size) =>
      var e := if f.index == 0 then FR.WithNewInput(d, f.id, f.framesCount, size, f.value) else d;
      if e.inputs != [] {
        var i := Last(e.inputs);
        LastInputShape(e, i.(frames := i.frames + [f], tokens := i.tokens + TokenPairs(f.pairs)));
      }
    case Extension(data) =>
      if d.inputs != [] {
        LastInputShape(d, Last(d.inputs).(extension := Last(d.inputs).extension + data));
      }
    case OutputTokens(data) =>
      if d.outputs != [] {
        TokensShape(d, data);
      }
    case TreeChunk(data) =>
      if d.outputs != [] {
        LastOutputShape(d, BS.WithChunk(Last(d.outputs), data));
      }
    case Registers(data) =>
      if d.outputs != [] {
        LastOutputShape(d, BS.WithRegisters(Last(d.outputs), data));
      }
    case _ => OtherShape(d, c);
  }

  lemma OtherShape(d: Draft, c: S.Command)
    requires Shape(d) && (c.StartTx? || c.Confirm? || c.NewOutputBox? || c.FeeTree? || c.ChangeTree?)
    ensures Shape(SR.Record(d, c))
  {
    if d.outputs != [] && (c.FeeTree? || c.ChangeTree?) {
      var b := Last(SR.Record(d, c).outputs);
      LastOutputShape(d, b);
    }
  }

  lemma ResolvedAppend(a: seq<Entry>, b: seq<Entry>, ids: seq<bytes>)
    requires AllResolved(a, ids) && AllResolved(b, ids)
    ensures AllResolved(a + b, ids)
  {
  }

  lemma TokensShape(d: Draft, data: bytes)
    requires Shape(d) && d.outputs != []
    ensures Shape(SR.Record(d, S.OutputTokens(data)))
  {
    var b, names := Last(d.outputs), SR.Announced(d);
    EntriesResolved(data, names.distinct, d.ids);
    assert AllResolved(b.entries, d.ids);
    ResolvedAppend(b.entries, BS.Entries(data, names), d.ids);
    LastOutputShape(d, BS.WithTokens(b, data, names));
  }

  lemma ReadIds(issued: set<(bytes, bytes)>, sub: u8, data: bytes, env: Surroundings)
    ensures var c := ReadCommand(issued, sub, data, env); c.Ok? && c.s.InputFrame? ==> |c.s.frame.id| == ID_LEN
  {
  }

  lemma RememberShape(app: App, h: History, e: Event, s: Step)
    requires Shape(h.draft)
    ensures Shape(Remember(app, h, e, s).draft)
  {
    hide ReadCommand, SR.Record;
    if e.SignApdu? {
      ReadIds(app.issued, e.sub, e.data, e.env);
      var c := ReadCommand(app.issued, e.sub, e.data, e.env);
      if c.Ok? {
        RecordShape(h.draft, c.s);
      }
    }
  }

  lemma {:induction false} ShapeAlways(dev: A.Device, events: seq<Event>)
    requires A.Proper(dev)
    ensures Shape(After(dev, events).h.draft)
  {
    hide Next, Inv, A.Proper, Safe, Remember;
    if events != [] {
      ShapeAlways(dev, Front(events));
      var p := After(dev, Front(events));
      RememberShape(p.app, p.h, Last(events), Next(dev, p.app, Last(events)));
    } else {
      assert After(dev, []).h == EmptyHistory();
    }
  }

  /** Signed with this message, every announced output opened once. */
  ghost predicate SignedAs(dev: A.Device, events: seq<Event>, e: Event, message: bytes)
    requires A.Proper(dev)
  {
    && Next(dev, After(dev, events).app, e).response == Signature(message)
    && |After(dev, events).h.draft.outputs| == After(dev, events).h.draft.outputsCount
  }

  lemma SignedReference(dev: A.Device, events: seq<Event>, e: Event, message: bytes)
    requires A.Proper(dev) && SignedAs(dev, events, e, message)
    ensures var d := After(dev, events).h.draft;
            && message == d.base + TxBytes(d) && Shape(d) && CompleteBoxes(d.outputs) == |d.outputs|
  {
    T.SignatureSound(dev, events, e);
    ShapeAlways(dev, events);
    var d := After(dev, events).h.draft;
    hide Next, Inv, A.Proper, After, TxBytes, Shape;
    BoxesEmittedComplete(d.outputs);
  }

  /**
   Two signed runs over the same message, on any two devices and behind commitments of one
   length, have signed the same inputs, data inputs, ids and outputs if and only if their trees,
   registers and extensions have the same lengths.
   */
  lemma SignedMessageDetermines(
      dev: A.Device, events: seq<Event>, e: Event, dev': A.Device, events': seq<Event>, e': Event, message: bytes)
    requires A.Proper(dev) && A.Proper(dev') && SignedAs(dev, events, e, message)
             && SignedAs(dev', events', e', message)
    requires |After(dev, events).h.draft.base| == |After(dev', events').h.draft.base|
    ensures var d, d' := After(dev, events).h.draft, After(dev', events').h.draft; SameTx(d, d') <==> SameLengths(d, d')
  {
    SignedReference(dev, events, e, message);
    SignedReference(dev', events', e', message);
    var d, d' := After(dev, events).h.draft, After(dev', events').h.draft;
    hide Next, Inv, A.Proper, After, SignedAs, TxBytes, Shape, SameLengths, SameTx;
    SplitAt(d.base, d'.base, TxBytes(d), TxBytes(d'));
    SameMessageSameTx(d, d');
  }
}
