/**
 Attested and signed: an input assembled from frames the device issued counts what the device
 hashed into the box id, exactly when all attestations of that id agree.
 */
module Agreement {
  import opened Bytes
  import opened Gve
  import opened TxTypes
  import opened Reference
  import opened Frames
  import opened Application
  import opened Runs
  import opened Theorems
  import IS = InputSerializer
  import BS = BoxSerializer
  import S = Signing
  import A = Attestation

  /** The input counts the value and the tokens of this attested box, each token once, in order. */
  ghost predicate AgreesWith(s: A.Source, i: Input) {
    i.value == s.box.value && i.tokens == TokensOf(s.box.entries)
  }

  /** An input whose frames have all arrived, each of them issued by the device. */
  ghost predicate FromFrames(dev: A.Device, attested: set<A.Source>, i: Input) {
    && IS.WellFormed(i) && FramesComplete(i)
    && forall j :: 0 <= j < |i.frames| ==> Vouched(dev, attested, i.frames[j])
  }

  /** All attestations of this id agree on value and tokens. */
  ghost predicate Unambiguous(dev: A.Device, attested: set<A.Source>, id: bytes) {
    forall s, t :: s in attested && t in attested && A.BoxId(dev, s) == id && A.BoxId(dev, t) == id ==>
      s.box.value == t.box.value && TokensOf(s.box.entries) == TokensOf(t.box.entries)
  }

  /** Whatever input of this id is assembled, it agrees with every attestation of the id. */
  ghost predicate AlwaysAgrees(dev: A.Device, attested: set<A.Source>, id: bytes) {
    forall i, s :: FromFrames(dev, attested, i) && i.id == id && s in attested && A.BoxId(dev, s) == id ==>
      AgreesWith(s, i)
  }

  // ---------- agreement ----------

  lemma FrameOfSource(dev: A.Device, attested: set<A.Source>, i: Input, s: A.Source, k: nat)
    requires IS.InOrder(i) && k < |i.frames| && Vouched(dev, attested, i.frames[k])
    requires Unambiguous(dev, attested, i.id) && s in attested && A.BoxId(dev, s) == i.id
    ensures var ts := TokensOf(s.box.entries); 4 * k <= |ts| && i.frames[k].pairs == PairsBytes(Share(ts, k))
  {
    var t :| t in attested && FrameFrom(dev, t, i.frames[k]);
    assert i.frames[k].id == i.id && i.frames[k].index == k;
    assert A.BoxId(dev, t) == i.id;
    assert TokensOf(s.box.entries) == TokensOf(t.box.entries);
  }

  /** An input completed from attested frames counts exactly what was hashed into its id. */
  lemma InputAgrees(dev: A.Device, attested: set<A.Source>, i: Input)
    requires FromFrames(dev, attested, i) && Unambiguous(dev, attested, i.id)
    ensures exists s :: s in attested && A.Attestable(s) && A.BoxId(dev, s) == i.id && AgreesWith(s, i)
    ensures forall s :: s in attested && A.BoxId(dev, s) == i.id ==> AgreesWith(s, i)
  {
    assert Vouched(dev, attested, i.frames[0]);
    var s :| s in attested && FrameFrom(dev, s, i.frames[0]);
    var ts := TokensOf(s.box.entries);
    assert A.BoxId(dev, s) == i.id && i.framesCount == FramesCount(|ts|);
    forall k | 0 <= k < |i.frames|
      ensures 4 * k <= |ts| && i.frames[k].pairs == PairsBytes(Share(ts, k))
    {
      FrameOfSource(dev, attested, i, s, k);
    }
    SharesPartition(ts, i.frames);
    assert AgreesWith(s, i);
  }

  // ---------- the condition is exact ----------

  function FrameAt(dev: A.Device, s: A.Source, k: nat): (f: Frame)
    requires |s.box.entries| <= TOKEN_MAX_COUNT && k < FramesCount(|s.box.entries|)
    ensures f.id == A.BoxId(dev, s) && f.index == k && f.value == s.box.value
            && f.framesCount == FramesCount(|s.box.entries|)
  {
    var ts := TokensOf(s.box.entries);
    Frame(A.BoxId(dev, s), FramesCount(|ts|), k, s.box.value, PairsBytes(Share(ts, k)))
  }

  /** The input the host gets by passing on all frames of one attestation. */
  function Honest(dev: A.Device, s: A.Source): Input
    requires |s.box.entries| <= TOKEN_MAX_COUNT
  {
    var n := FramesCount(|s.box.entries|);
    Input(A.BoxId(dev, s), n, 0, s.box.value, seq(n, k requires 0 <= k < n => FrameAt(dev, s, k)),
          TokensOf(s.box.entries), [])
  }

  lemma AttestableFacts(s: A.Source)
    requires A.Attestable(s)
    ensures |s.box.entries| <= TOKEN_MAX_COUNT && FullIds(TokensOf(s.box.entries))
  {
  }

  lemma FrameAtVouched(dev: A.Device, attested: set<A.Source>, s: A.Source, k: nat)
    requires s in attested && A.Attestable(s) && k < FramesCount(|s.box.entries|)
    ensures Vouched(dev, attested, FrameAt(dev, s, k))
  {
    AttestableFacts(s);
    hide A.BoxId, PairsBytes, Share, A.Attestable, FullIds;
    assert FrameFrom(dev, s, FrameAt(dev, s, k));
  }

  lemma HonestFrames(dev: A.Device, attested: set<A.Source>, s: A.Source)
    requires s in attested && A.Attestable(s)
    ensures forall k :: 0 <= k < |Honest(dev, s).frames| ==> Vouched(dev, attested, Honest(dev, s).frames[k])
  {
    AttestableFacts(s);
    hide A.BoxId, A.Attestable, FullIds, Vouched, FrameAt, FramesCount;
    var i := Honest(dev, s);
    forall k | 0 <= k < |i.frames|
      ensures Vouched(dev, attested, i.frames[k])
    {
      FrameAtVouched(dev, attested, s, k);
    }
  }

  lemma HonestTokens(dev: A.Device, s: A.Source)
    requires |s.box.entries| <= TOKEN_MAX_COUNT && FullIds(TokensOf(s.box.entries))
    ensures IS.FrameTokens(Honest(dev, s).frames) == Honest(dev, s).tokens
  {
    hide A.BoxId, PairsBytes, Share, IS.FrameTokens, FullIds;
    SharesPartition(TokensOf(s.box.entries), Honest(dev, s).frames);
  }

  lemma HonestWell(dev: A.Device, s: A.Source)
    requires |s.box.entries| <= TOKEN_MAX_COUNT && FullIds(TokensOf(s.box.entries))
    ensures IS.WellFormed(Honest(dev, s)) && FramesComplete(Honest(dev, s))
  {
    hide A.BoxId, FrameAt, IS.FrameTokens, FullIds, FramesCount, TokensOf;
    HonestTokens(dev, s);
  }

  lemma HonestInput(dev: A.Device, attested: set<A.Source>, s: A.Source)
    requires s in attested && A.Attestable(s)
    ensures |s.box.entries| <= TOKEN_MAX_COUNT
    ensures FromFrames(dev, attested, Honest(dev, s)) && Honest(dev, s).id == A.BoxId(dev, s)
    ensures AgreesWith(s, Honest(dev, s))
  {
    AttestableFacts(s);
    HonestWell(dev, s);
    HonestFrames(dev, attested, s);
    hide A.BoxId, A.Attestable, FrameAt, Vouched, IS.WellFormed, FramesComplete, FullIds, FramesCount, TokensOf;
  }

  /** Inputs of an id always count what was hashed into it if and only if its attestations agree. */
  lemma AgreementExact(dev: A.Device, attested: set<A.Source>, id: bytes)
    requires forall s :: s in attested ==> A.Attestable(s)
    ensures AlwaysAgrees(dev, attested, id) <==> Unambiguous(dev, attested, id)
  {
    hide FromFrames, A.Attestable, A.BoxId, Honest;
    if AlwaysAgrees(dev, attested, id) {
      forall s, t | s in attested && t in attested && A.BoxId(dev, s) == id && A.BoxId(dev, t) == id
        ensures s.box.value == t.box.value && TokensOf(s.box.entries) == TokensOf(t.box.entries)
      {
        HonestInput(dev, attested, s);
        assert AgreesWith(t, Honest(dev, s));
      }
    }
    if Unambiguous(dev, attested, id) {
      forall i, s | FromFrames(dev, attested, i) && i.id == id && s in attested && A.BoxId(dev, s) == id
        ensures AgreesWith(s, i)
      {
        InputAgrees(dev, attested, i);
      }
    }
  }

  /** The hash has no collision among the attestations of this id. */
  ghost predicate NoCollision(dev: A.Device, attested: set<A.Source>, id: bytes) {
    forall s, t :: s in attested && t in attested && A.BoxId(dev, s) == id && A.BoxId(dev, t) == id ==>
      A.Preimage(s) == A.Preimage(t)
  }

  ghost predicate SameTreeLengths(dev: A.Device, attested: set<A.Source>, id: bytes) {
    forall s, t :: s in attested && t in attested && A.BoxId(dev, s) == id && A.BoxId(dev, t) == id ==>
      |s.box.tree| == |t.box.tree|
  }

  /** Without a collision, equal tree lengths make the attestations of an id unambiguous. */
  lemma TreeLengthsDecide(dev: A.Device, attested: set<A.Source>, id: bytes)
    requires forall s :: s in attested ==> A.Attestable(s)
    requires NoCollision(dev, attested, id) && SameTreeLengths(dev, attested, id)
    ensures Unambiguous(dev, attested, id)
  {
    forall s, t | s in attested && t in attested && A.BoxId(dev, s) == id && A.BoxId(dev, t) == id
      ensures s.box.value == t.box.value && TokensOf(s.box.entries) == TokensOf(t.box.entries)
    {
      var x, y := s.txId + Vlq(s.boxIndex), t.txId + Vlq(t.boxIndex);
      assert A.Preimage(s) == A.Preimage(t) && |s.box.tree| == |t.box.tree|;
      Assoc(BoxBytes(s.box), s.txId, Vlq(s.boxIndex));
      Assoc(BoxBytes(t.box), t.txId, Vlq(t.boxIndex));
      SameBytesSameBox(s.box, t.box, x, y);
    }
  }

  /** Behind a signature, every input whose id was attested in one way only agrees with that attestation. */
  lemma SignedInputsAgree(dev: A.Device, events: seq<Event>, e: Event, k: nat)
    requires A.Proper(dev)
    requires Next(dev, After(dev, events).app, e).response.Signature?
    requires k < |After(dev, events).h.draft.inputs|
    requires Unambiguous(dev, After(dev, events).h.attested, After(dev, events).h.draft.inputs[k].id)
    ensures var i := After(dev, events).h.draft.inputs[k];
            exists s :: s in After(dev, events).h.attested && A.Attestable(s) && A.BoxId(dev, s) == i.id
              && AgreesWith(s, i)
  {
    SignatureSound(dev, events, e);
    hide Inv, Next, S.Coupled, A.Proper, Unambiguous, Vouched;
    var r := After(dev, events);
    InputIsComplete(r.h.draft.inputs, k);
    InputAgrees(dev, r.h.attested, r.h.draft.inputs[k]);
  }

  /** In every signed run, an input whose id has no collision and one tree length counts what was hashed into the id. */
  lemma SignedInputsAgreeByLength(dev: A.Device, events: seq<Event>, e: Event, k: nat)
    requires A.Proper(dev)
    requires Next(dev, After(dev, events).app, e).response.Signature?
    requires k < |After(dev, events).h.draft.inputs|
    requires NoCollision(dev, After(dev, events).h.attested, After(dev, events).h.draft.inputs[k].id)
    requires SameTreeLengths(dev, After(dev, events).h.attested, After(dev, events).h.draft.inputs[k].id)
    ensures var i := After(dev, events).h.draft.inputs[k];
            exists s :: s in After(dev, events).h.attested && A.Attestable(s) && A.BoxId(dev, s) == i.id
              && AgreesWith(s, i)
  {
    var r := After(dev, events);
    assert forall s :: s in r.h.attested ==> A.Attestable(s);
    hide Inv, Next, S.Coupled, A.Proper, Unambiguous, NoCollision, SameTreeLengths;
    TreeLengthsDecide(dev, r.h.attested, r.h.draft.inputs[k].id);
    SignedInputsAgree(dev, events, e, k);
  }

  // ---------- frames of two attestations mixed ----------

  /** Five tokens with ids made of one byte each, counting from `first`. */
  function Five(first: byte): seq<Entry>
    requires first <= 100
  {
    seq(5, k requires 0 <= k < 5 => Entry(InFull, Token(seq(32, _ => first + k), 1)))
  }

  lemma FiveBytes(first: byte)
    requires first <= 100
    ensures |EntriesBytes(Five(first))| == 165
  {
    EntriesSize(Five(first));
  }

  lemma {:induction false} EntriesSize(es: seq<Entry>)
    requires forall k :: 0 <= k < |es| ==> es[k].name.InFull? && |es[k].token.id| == 32 && es[k].token.amount == 1
    ensures |EntriesBytes(es)| == 33 * |es|
  {
    if es != [] {
      EntriesSize(Front(es));
      assert Vlq(1) == [1];
    }
  }

  /** The tokens of the second box hide in the registers of the first, those of the first in the tree of the second. */
  function Shadowed(): (Box, Box) {
    FiveBytes(0);
    FiveBytes(50);
    var registers := [0, 5] + EntriesBytes(Five(50)) + [0];
    var tree := [0, 5] + EntriesBytes(Five(0));
    (Box(0, 0, 0, 5, |registers|, TreeBox, true, [], Five(0), registers),
     Box(0, |tree|, 0, 5, 0, TreeBox, true, tree, Five(50), []))
  }

  lemma SameBytes()
    ensures BoxBytes(Shadowed().0) == BoxBytes(Shadowed().1)
  {
    hide Five, EntriesBytes;
    assert Vlq(0) == [0];
    Regrouped(EntriesBytes(Five(0)), EntriesBytes(Five(50)));
  }

  lemma Regrouped(a: bytes, b: bytes)
    ensures [0] + [] + [0] + [5] + a + ([0, 5] + b + [0]) == [0] + ([0, 5] + a) + [0] + [5] + b + [0]
  {
  }

  /** Two attestations of one id, whatever the hash. */
  function Twin(second: bool): A.Source {
    A.Source(if second then Shadowed().1 else Shadowed().0, Zeros(32), 0)
  }

  lemma TwinsAttestable(dev: A.Device)
    ensures A.Attestable(Twin(false)) && A.Attestable(Twin(true))
            && A.BoxId(dev, Twin(false)) == A.BoxId(dev, Twin(true))
  {
    SameBytes();
    DistinctFive(0);
    DistinctFive(50);
  }

  lemma DistinctFive(first: byte)
    requires first <= 100
    ensures BS.Distinct(TokensOf(Five(first)))
  {
    var ts := TokensOf(Five(first));
    forall i, j | 0 <= i < j < |ts|
      ensures ts[i].id != ts[j].id
    {
      assert ts[i].id[0] == first + i && ts[j].id[0] == first + j;
    }
  }

  /** The first four tokens of the one and the fifth of the other. */
  function Mix(): seq<Token> {
    Share(TokensOf(Five(0)), 0) + Share(TokensOf(Five(50)), 1)
  }

  lemma MixIsNeither()
    ensures Mix() != TokensOf(Five(0)) && Mix() != TokensOf(Five(50))
  {
    assert Mix()[0].id[0] == 0 && TokensOf(Five(50))[0].id[0] == 50;
    assert Mix()[4].id[0] == 54 && TokensOf(Five(0))[4].id[0] == 4;
  }

  lemma SharesFull()
    ensures |TokensOf(Five(0))| == |TokensOf(Five(50))| == 5
    ensures FullIds(Share(TokensOf(Five(0)), 0)) && FullIds(Share(TokensOf(Five(50)), 1))
  {
  }

  lemma MixedTokens(f: Frame, g: Frame)
    requires f.pairs == PairsBytes(Share(TokensOf(Five(0)), 0)) && g.pairs == PairsBytes(Share(TokensOf(Five(50)), 1))
    ensures IS.FrameTokens([f, g]) == Mix()
  {
    hide Five, Share, PairsBytes, TokenPairs, FullIds, TokensOf;
    SharesFull();
    var p, q := Share(TokensOf(Five(0)), 0), Share(TokensOf(Five(50)), 1);
    PairsReadBack(p);
    PairsReadBack(q);
    assert Front([f, g]) == [f] && Front([f]) == [];
    assert IS.FrameTokens([]) == [];
    assert IS.FrameTokens([f]) == [] + p;
  }

  lemma TwinEntries()
    ensures Twin(false).box.entries == Five(0) && Twin(true).box.entries == Five(50)
    ensures Twin(false).box.value == 0 && Twin(true).box.value == 0
  {
  }

  /** The input made of the first frame of one twin and the second of the other. */
  function Mixed(dev: A.Device): Input
    requires |Twin(false).box.entries| == |Twin(true).box.entries| == 5
  {
    var f, g := FrameAt(dev, Twin(false), 0), FrameAt(dev, Twin(true), 1);
    Input(f.id, 2, 0, 0, [f, g], Mix(), [])
  }

  lemma MixedWell(dev: A.Device)
    requires A.BoxId(dev, Twin(false)) == A.BoxId(dev, Twin(true))
    ensures |Twin(false).box.entries| == |Twin(true).box.entries| == 5
    ensures IS.WellFormed(Mixed(dev)) && FramesComplete(Mixed(dev))
  {
    TwinEntries();
    hide A.BoxId, Twin, Share, PairsBytes, Mix, IS.FrameTokens, TokensOf;
    MixedTokens(Mixed(dev).frames[0], Mixed(dev).frames[1]);
  }

  /** Without the condition it fails: the mixed input is built from issued frames and agrees with neither
      attestation. */
  lemma FramesCanBeMixed(dev: A.Device)
    ensures A.Attestable(Twin(false)) && A.Attestable(Twin(true))
    ensures |Twin(false).box.entries| == |Twin(true).box.entries| == 5
    ensures A.BoxId(dev, Twin(false)) == A.BoxId(dev, Twin(true)) == Mixed(dev).id
    ensures FromFrames(dev, {Twin(false), Twin(true)}, Mixed(dev))
    ensures !AgreesWith(Twin(false), Mixed(dev)) && !AgreesWith(Twin(true), Mixed(dev))
  {
    hide A.BoxId, A.Attestable, Twin, Vouched, Five, Mix, IS.WellFormed, FrameAt, TokensOf, FramesComplete;
    TwinsAttestable(dev);
    TwinEntries();
    MixedWell(dev);
    MixIsNeither();
    FrameAtVouched(dev, {Twin(false), Twin(true)}, Twin(false), 0);
    FrameAtVouched(dev, {Twin(false), Twin(true)}, Twin(true), 1);
  }
}
