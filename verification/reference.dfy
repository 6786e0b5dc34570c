/**
 The transaction as the host describes it, with no regard to how it is cut into messages,
 and its serialization.  This is what the streaming serializers are measured against.
 */
module Reference {
  import opened Bytes
  import opened Gve
  import opened TxTypes
  import opened Accounting

  // ---------- boxes ----------

  /** How a token is named in the bytes of a box: by its place in the transaction's table, or in full. */
  datatype Name = ByIndex(index: u32) | InFull

  datatype Entry = Entry(name: Name, token: Token)

  function EntryBytes(e: Entry): bytes {
    (if e.name.ByIndex? then Vlq(e.name.index) else e.token.id) + Vlq(e.token.amount)
  }

  function EntriesBytes(es: seq<Entry>): bytes {
    if es == [] then [] else EntriesBytes(Front(es)) + EntryBytes(Last(es))
  }

  function TokensOf(es: seq<Entry>): (ts: seq<Token>)
    ensures |ts| == |es|
    ensures forall i :: 0 <= i < |es| ==> ts[i] == es[i].token
  {
    seq(|es|, i requires 0 <= i < |es| => es[i].token)
  }

  /** A box as announced (sizes and counts) and as received so far. */
  datatype Box = Box(
    value: u64, treeSize: u32, height: u32, tokensCount: u8, registersSize: u32,
    kind: BoxKind, treeDone: bool, tree: bytes, entries: seq<Entry>, registers: bytes)

  function NewBox(value: u64, treeSize: u32, height: u32, tokensCount: u8, registersSize: u32): Box {
    Box(value, treeSize, height, tokensCount, registersSize, TreeBox, false, [], [], [])
  }

  /** The serialization of a box. */
  function BoxBytes(b: Box): bytes {
    Vlq(b.value) + b.tree + Vlq(b.height) + [b.tokensCount] + EntriesBytes(b.entries)
    + (if b.registers == [] then [0] else b.registers)
  }

  predicate Complete(b: Box) {
    b.treeDone && |b.entries| == b.tokensCount && |b.registers| == b.registersSize
  }

  /** The part of the serialization that what was received so far determines. */
  function Emitted(b: Box): bytes {
    if !b.treeDone then Vlq(b.value) + b.tree
    else Vlq(b.value) + b.tree + Vlq(b.height) + [b.tokensCount] + EntriesBytes(b.entries)
         + (if |b.entries| == b.tokensCount && b.registersSize == 0 then [0] else b.registers)
  }

  lemma EmittedComplete(b: Box)
    requires Complete(b)
    ensures Emitted(b) == BoxBytes(b)
  {
  }

  lemma EmittedNonempty(b: Box)
    ensures |Emitted(b)| > 0
  {
  }

  // ---------- what the bytes of a box determine ----------

  predicate NamedInFull(e: Entry) {
    e.name.InFull? && |e.token.id| == ID_LEN
  }

  lemma EntryInjective(e: Entry, f: Entry, x: bytes, y: bytes)
    requires NamedInFull(e) && NamedInFull(f) && EntryBytes(e) + x == EntryBytes(f) + y
    ensures e == f && x == y
  {
    var u, v := Vlq(e.token.amount) + x, Vlq(f.token.amount) + y;
    var s := e.token.id + u;
    assert s == EntryBytes(e) + x;
    assert s == f.token.id + v by { assert EntryBytes(f) + y == f.token.id + v; }
    assert e.token.id == s[..32] == f.token.id;
    assert u == s[32..] == v;
    PrefixFree(e.token.amount, f.token.amount, x, y);
  }

  lemma MoveLast(es: seq<Entry>, x: bytes)
    requires es != []
    ensures EntriesBytes(es) + x == EntriesBytes(Front(es)) + (EntryBytes(Last(es)) + x)
  {
  }

  lemma {:induction false} EntriesInjective(es: seq<Entry>, fs: seq<Entry>, x: bytes, y: bytes)
    requires |es| == |fs|
    requires forall i :: 0 <= i < |es| ==> NamedInFull(es[i]) && NamedInFull(fs[i])
    requires EntriesBytes(es) + x == EntriesBytes(fs) + y
    ensures es == fs && x == y
  {
    hide EntryBytes;
    if es == [] {
      assert EntriesBytes(es) + x == x && EntriesBytes(fs) + y == y;
    } else {
      MoveLast(es, x);
      MoveLast(fs, y);
      EntriesInjective(Front(es), Front(fs), EntryBytes(Last(es)) + x, EntryBytes(Last(fs)) + y);
      EntryInjective(Last(es), Last(fs), x, y);
      assert es == Front(es) + [Last(es)] && fs == Front(fs) + [Last(fs)];
    }
  }

  /** A complete box naming its tokens in full, as the attestation hashes it. */
  predicate FullBox(b: Box) {
    Complete(b) && forall i :: 0 <= i < |b.entries| ==> NamedInFull(b.entries[i])
  }

  /** What follows the value, the tree and the height of a box, with `x` behind it. */
  function AfterHeight(b: Box, x: bytes): bytes {
    [b.tokensCount] + (EntriesBytes(b.entries) + ((if b.registers == [] then [0] else b.registers) + x))
  }

  lemma Regroup(b: Box, x: bytes)
    ensures BoxBytes(b) + x == Vlq(b.value) + (b.tree + (Vlq(b.height) + AfterHeight(b, x)))
  {
    var r := if b.registers == [] then [0] else b.registers;
    var e := EntriesBytes(b.entries);
    assert AfterHeight(b, x) == [b.tokensCount] + e + r + x;
  }

  /** The value always stands first and cannot be read in two ways. */
  lemma SameBytesSameValue(a: Box, b: Box, x: bytes, y: bytes)
    requires BoxBytes(a) + x == BoxBytes(b) + y
    ensures a.value == b.value
    ensures a.tree + (Vlq(a.height) + AfterHeight(a, x)) == b.tree + (Vlq(b.height) + AfterHeight(b, y))
  {
    Regroup(a, x);
    Regroup(b, y);
    PrefixFree(a.value, b.value,
               a.tree + (Vlq(a.height) + AfterHeight(a, x)), b.tree + (Vlq(b.height) + AfterHeight(b, y)));
  }

  lemma SplitAt(p: bytes, q: bytes, x: bytes, y: bytes)
    requires |p| == |q| && p + x == q + y
    ensures p == q && x == y
  {
    assert p == (p + x)[..|p|] && x == (p + x)[|p|..];
    assert q == (q + y)[..|q|] && y == (q + y)[|q|..];
  }

  /** Once the length of the tree is known, equal bytes mean equal boxes: same tree, height and tokens. */
  lemma SameBytesSameBox(a: Box, b: Box, x: bytes, y: bytes)
    requires FullBox(a) && FullBox(b) && |a.tree| == |b.tree|
    requires BoxBytes(a) + x == BoxBytes(b) + y
    ensures a.value == b.value && a.tree == b.tree && a.height == b.height && a.entries == b.entries
  {
    SameBytesSameValue(a, b, x, y);
    SplitAt(a.tree, b.tree, Vlq(a.height) + AfterHeight(a, x), Vlq(b.height) + AfterHeight(b, y));
    PrefixFree(a.height, b.height, AfterHeight(a, x), AfterHeight(b, y));
    var ra := (if a.registers == [] then [0] else a.registers) + x;
    var rb := (if b.registers == [] then [0] else b.registers) + y;
    SplitAt([a.tokensCount], [b.tokensCount], EntriesBytes(a.entries) + ra, EntriesBytes(b.entries) + rb);
    EntriesInjective(a.entries, b.entries, ra, rb);
  }

  // ---------- inputs ----------

  /** One attested frame of an input box, as the host passes it on. */
  datatype Frame = Frame(id: bytes, framesCount: u8, index: u8, value: u64, pairs: bytes)

  datatype Input = Input(
    id: bytes, framesCount: u8, extensionSize: u32, value: u64,
    frames: seq<Frame>, tokens: seq<Token>, extension: bytes)

  function NewInput(id: bytes, framesCount: u8, extensionSize: u32, value: u64): Input {
    Input(id, framesCount, extensionSize, value, [], [], [])
  }

  predicate FramesComplete(i: Input) {
    0 < i.framesCount == |i.frames|
  }

  predicate InputComplete(i: Input) {
    FramesComplete(i) && |i.extension| == i.extensionSize
  }

  /** An input in the transaction: id, empty proof, and the context extension or an empty one. */
  function InputBytes(i: Input): bytes {
    i.id + [0] + (if i.extension == [] then [0] else i.extension)
  }

  function InputEmitted(i: Input): bytes {
    if !FramesComplete(i) then []
    else i.id + [0] + (if i.extensionSize == 0 then [0] else i.extension)
  }

  function InputsEmitted(s: seq<Input>): bytes {
    if s == [] then [] else InputsEmitted(Front(s)) + InputEmitted(Last(s))
  }

  function InputsBytes(s: seq<Input>): bytes {
    if s == [] then [] else InputsBytes(Front(s)) + InputBytes(Last(s))
  }

  function CompleteInputs(s: seq<Input>): (n: nat)
    ensures n <= |s|
  {
    if s == [] then 0 else CompleteInputs(Front(s)) + (if InputComplete(Last(s)) then 1 else 0)
  }

  function InputTokens(s: seq<Input>): seq<Token> {
    if s == [] then [] else InputTokens(Front(s)) + Last(s).tokens
  }

  function InputValues(s: seq<Input>): seq<u64> {
    if s == [] then [] else InputValues(Front(s)) + [Last(s).value]
  }

  // ---------- outputs ----------

  function BoxesEmitted(s: seq<Box>): bytes {
    if s == [] then [] else BoxesEmitted(Front(s)) + Emitted(Last(s))
  }

  function BoxesBytes(s: seq<Box>): bytes {
    if s == [] then [] else BoxesBytes(Front(s)) + BoxBytes(Last(s))
  }

  function CompleteBoxes(s: seq<Box>): (n: nat)
    ensures n <= |s|
  {
    if s == [] then 0 else CompleteBoxes(Front(s)) + (if Complete(Last(s)) then 1 else 0)
  }

  /** The boxes that were received in full. */
  function Finished(s: seq<Box>): (r: seq<Box>)
    ensures |r| == CompleteBoxes(s)
  {
    if s == [] then [] else Finished(Front(s)) + (if Complete(Last(s)) then [Last(s)] else [])
  }

  /** A box is counted once its tree is known. */
  function BoxValues(s: seq<Box>): seq<(BoxKind, u64)> {
    if s == [] then []
    else BoxValues(Front(s)) + (if Last(s).treeDone then [(Last(s).kind, Last(s).value)] else [])
  }

  function BoxTokens(s: seq<Box>): seq<Token> {
    if s == [] then [] else BoxTokens(Front(s)) + TokensOf(Last(s).entries)
  }

  // ---------- the transaction ----------

  /** Everything announced and received in one signing session; `base` is what the hasher held before. */
  datatype Draft = Draft(
    base: bytes,
    inputsCount: u16, dataInputsCount: u16, tokensCount: u8, outputsCount: u16,
    ids: seq<bytes>, inputs: seq<Input>, dataInputs: seq<bytes>, outputs: seq<Box>)

  function Counted(d: Draft): Ledger {
    Ledger(InputValues(d.inputs), InputTokens(d.inputs), BoxValues(d.outputs), BoxTokens(d.outputs))
  }

  /** The serialization of the transaction, without proofs: the message that is signed. */
  function TxBytes(d: Draft): bytes {
    Vlq(|d.inputs|) + InputsBytes(d.inputs)
    + Vlq(|d.dataInputs|) + Flatten(d.dataInputs)
    + Vlq(|d.ids|) + Flatten(d.ids)
    + Vlq(|d.outputs|) + BoxesBytes(d.outputs)
  }

  // ---------- complete parts ----------

  lemma {:induction false} InputIsComplete(s: seq<Input>, k: nat)
    requires CompleteInputs(s) == |s| && k < |s|
    ensures InputComplete(s[k])
  {
    if k < |s| - 1 {
      InputIsComplete(Front(s), k);
    }
  }

  lemma {:induction false} BoxIsComplete(s: seq<Box>, k: nat)
    requires CompleteBoxes(s) == |s| && k < |s|
    ensures Complete(s[k])
  {
    if k < |s| - 1 {
      BoxIsComplete(Front(s), k);
    }
  }

  lemma {:induction false} InputsEmittedComplete(s: seq<Input>)
    requires CompleteInputs(s) == |s|
    requires forall i :: 0 <= i < |s| ==> s[i].extensionSize != 1
    ensures InputsEmitted(s) == InputsBytes(s)
  {
    if s != [] {
      InputsEmittedComplete(Front(s));
    }
  }

  lemma {:induction false} BoxesEmittedComplete(s: seq<Box>)
    requires CompleteBoxes(s) == |s|
    ensures BoxesEmitted(s) == BoxesBytes(s) && Finished(s) == s
  {
    hide Emitted, BoxBytes;
    if s != [] {
      BoxesEmittedComplete(Front(s));
      EmittedComplete(Last(s));
      assert s == Front(s) + [Last(s)];
    }
  }

  /** A box left incomplete adds bytes that belong to no finished box. */
  lemma {:induction false} BoxesEmittedIncomplete(s: seq<Box>)
    ensures |BoxesEmitted(s)| >= |BoxesBytes(Finished(s))|
    ensures CompleteBoxes(s) < |s| ==> |BoxesEmitted(s)| > |BoxesBytes(Finished(s))|
  {
    if s != [] {
      BoxesEmittedIncomplete(Front(s));
      var f, last := Finished(Front(s)), Last(s);
      if Complete(last) {
        assert BoxesEmitted(s) == BoxesEmitted(Front(s)) + BoxBytes(last) by { EmittedComplete(last); }
        assert Front(f + [last]) == f && Finished(s) == f + [last];
      } else {
        EmittedNonempty(last);
        assert Finished(s) == f;
      }
    }
  }
}
