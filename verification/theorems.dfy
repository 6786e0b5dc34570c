/**
 What follows for the host and the user, over whole runs.
 */
module Theorems {
  import opened Bytes
  import opened Gve
  import opened TxTypes
  import opened Accounting
  import opened Reference
  import opened Application
  import opened Runs
  import opened Totals
  import ErgoTree
  import FS = FullSerializer
  import FR = FullRefinement
  import IS = InputSerializer
  import BS = BoxSerializer
  import OI = OutputInfo
  import S = Signing
  import SR = SigningRefinement
  import A = Attestation
  import SC = Screens

  // ---------- the message that is signed ----------

  /** Everything announced has arrived. */
  ghost predicate AllArrived(d: Draft) {
    && |d.inputs| == d.inputsCount && FR.InputsWell(d.inputs)
    && |d.dataInputs| == d.dataInputsCount && |d.ids| == d.tokensCount
    && CompleteBoxes(d.outputs) == d.outputsCount
  }

  lemma HeadIsReference(d: Draft)
    requires AllArrived(d)
    ensures FR.Head3(d) + BoxesBytes(Finished(d.outputs)) == d.base + TxBytes(Final(d))
  {
    InputsEmittedComplete(d.inputs);
    Regroup(d.base, Vlq(d.inputsCount), InputsBytes(d.inputs), Vlq(d.dataInputsCount), Flatten(d.dataInputs),
            Vlq(d.tokensCount), Flatten(d.ids), Vlq(d.outputsCount), BoxesBytes(Finished(d.outputs)));
  }

  lemma Regroup(z: bytes, a: bytes, b: bytes, c: bytes, d: bytes, e: bytes, f: bytes, g: bytes, h: bytes)
    ensures z + a + b + c + d + e + f + g + h == z + (a + b + c + d + e + f + g + h)
  {
    Assoc(z + a + b + c + d, e, f);
    Assoc(z + a + b + c + d, e + f, g);
    Assoc(z + a + b + c + d, e + f + g, h);
    assert z + a + b + c + d == z + (a + b + c + d);
    Assoc(z, a + b + c + d, e + f + g + h);
    assert a + b + c + d + e + f + g + h == a + b + c + d + (e + f + g + h);
  }

  /**
   A finished serializer has hashed exactly the serialization of the described transaction,
   however it was cut into messages, if and only if no output was opened before the one
   before it was complete, that is, if exactly as many outputs were opened as announced.
   */
  lemma FinishedBytes(w: FS.World, d: Draft)
    requires FR.Inv(w, d) && w.tx.state == FS.FullFinished
    ensures w.tx.inputsCount == 0 && w.tx.dataInputsCount == 0 && w.tx.outputsCount == 0
    ensures AllArrived(d)
    ensures w.log == d.base + TxBytes(Final(d)) <==> |d.outputs| == d.outputsCount
    ensures |d.outputs| == d.outputsCount ==> Final(d) == d
  {
    EndFacts(w, d);
    hide FR.Inv, FR.Head3, FR.InputsWell, BoxBytes, TxBytes;
    HeadIsReference(d);
    BoxesEmittedIncomplete(d.outputs);
    if CompleteBoxes(d.outputs) == |d.outputs| {
      BoxesEmittedComplete(d.outputs);
    }
  }

  lemma EndFacts(w: FS.World, d: Draft)
    requires FR.Inv(w, d) && w.tx.state == FS.FullFinished
    ensures w.tx.inputsCount == 0 && w.tx.dataInputsCount == 0 && w.tx.outputsCount == 0
    ensures AllArrived(d)
    ensures w.log == FR.Head3(d) + BoxesEmitted(d.outputs)
  {
    hide Balanced, FR.Head3, BS.Counted, Emitted;
    Assoc(FR.Head3(d), BoxesEmitted(Front(d.outputs)), Emitted(Last(d.outputs)));
  }

  /** What stands behind every signature. */
  ghost predicate Justified(dev: A.Device, r: Reached, message: bytes) {
    && r.app.ctx.Signing? && r.app.screen == Review
    && var op, d := r.app.ctx.op, r.h.draft;
       && op.state == S.Finalized && op.w.tx.state == FS.FullFinished
       && op.w.tx.inputsCount == 0 && op.w.tx.dataInputsCount == 0 && op.w.tx.outputsCount == 0
       && AllArrived(d)
       && message == op.w.log
       && (message == d.base + TxBytes(Final(d)) <==> |d.outputs| == d.outputsCount)
       && Balanced(op.w.amounts, Counted(d))
       && (Balanced(op.w.amounts, Counted(Final(d))) <==> NothingLost(d))
       && (|d.outputs| == d.outputsCount ==> NothingLost(d))
       && InputsVouched(dev, r.h.attested, d.inputs)
       && (forall k :: 0 <= k < |d.outputs| ==> OI.Genuine(d.outputs[k]))
  }

  /**
   In every run, a signature is returned only when the user approves the review, and only for a
   transaction that arrived completely, with inputs this device attested.  The message is the
   transaction's serialization exactly if no output was abandoned; the totals are the
   transaction's exactly if nothing was lost in abandoned outputs, and always those of all outputs
   that were opened.
   */
  lemma SignatureSound(dev: A.Device, events: seq<Event>, e: Event)
    requires A.Proper(dev)
    requires Next(dev, After(dev, events).app, e).response.Signature?
    ensures Justified(dev, After(dev, events), Next(dev, After(dev, events).app, e).response.message)
    ensures e.UserAnswer? && e.approved && e.env.signed
  {
    var r := After(dev, events);
    AnswerSigns(dev, events, e);
    SessionInv(dev, r);
    hide Next, S.Coupled, SR.Inv;
    var op, d := r.app.ctx.op, r.h.draft;
    FinalFacts(op, d);
    hide FR.Inv, Balanced, InputsVouched, NothingLost;
    FinishedBytes(op.w, d);
    TotalsExact(op.w.amounts, d);
  }

  /** Behind a signature, every frame of an input is of a box that was attested for a known host or with the user's
      consent. */
  lemma SignedInputsConsented(dev: A.Device, events: seq<Event>, e: Event, k: nat, j: nat)
      returns (s: A.Source, run: seq<Event>, first: nat)
    requires A.Proper(dev) && Next(dev, After(dev, events).app, e).response.Signature?
    requires var i := After(dev, events).h.draft.inputs; k < |i| && j < |i[k].frames|
    ensures FrameFrom(dev, s, After(dev, events).h.draft.inputs[k].frames[j])
    ensures run <= events && SC.AttestsWithConsent(dev, run, first, s)
  {
    SignatureSound(dev, events, e);
    hide Next, After, A.Proper, Inv, Safe, FrameFrom, NothingLost, Balanced;
    var r := After(dev, events);
    assert Vouched(dev, r.h.attested, r.h.draft.inputs[k].frames[j]);
    s :| s in r.h.attested && FrameFrom(dev, s, r.h.draft.inputs[k].frames[j]);
    run, first := SC.AttestedConsented(dev, events, s);
  }

  /** Behind a signature with nothing lost, the review list is exactly the tokens the transaction mints or burns,
      each once. */
  lemma SignedReviewExact(dev: A.Device, events: seq<Event>, e: Event, id: bytes)
    requires A.Proper(dev)
    requires Next(dev, After(dev, events).app, e).response.Signature?
    requires NothingLost(After(dev, events).h.draft)
    ensures Reviewed(After(dev, events), id)
  {
    SignatureSound(dev, events, e);
    hide Inv, Next, S.Coupled, A.Proper, NothingLost, Balanced, NonZero;
    var r := After(dev, events);
    ReviewListExact(r.app.ctx.op.w.amounts, Counted(Final(r.h.draft)), id);
  }

  ghost predicate Reviewed(r: Reached, id: bytes) {
    r.app.ctx.Signing? &&
    var a, l := r.app.ctx.op.w.amounts, Counted(Final(r.h.draft));
    && ((exists k: nat :: k < NonZero(a.tokens, TOKEN_MAX_COUNT) && Shows(a, k, id))
        <==> TokenSum(l.inTokens, id) != TokenSum(l.outTokens, id))
    && forall k: nat, k': nat :: Shows(a, k, id) && Shows(a, k', id) ==> k == k'
  }

  lemma AnswerSigns(dev: A.Device, events: seq<Event>, e: Event)
    requires A.Proper(dev) && Next(dev, After(dev, events).app, e).response.Signature?
    ensures var r := After(dev, events);
            && r.app.ctx.Signing? && r.app.ctx.op.state == S.Finalized && r.app.screen == Review
            && Next(dev, r.app, e).response.message == r.app.ctx.op.w.log
    ensures e.UserAnswer? && e.approved && e.env.signed
  {
    hide Next, After, A.Proper, Inv, Safe;
    SC.ScreenAlways(dev, events);
    SC.AnswerStep(dev, After(dev, events).app, e);
  }

  lemma FinalFacts(op: S.Operation, d: Draft)
    requires SR.Inv(op, d) && op.state == S.Finalized
    ensures op.w.tx.state == FS.FullFinished && FR.Inv(op.w, d) && Balanced(op.w.amounts, Counted(d))
    ensures forall k :: 0 <= k < |d.outputs| ==> OI.Genuine(d.outputs[k])
  {
    hide Balanced, FR.AtEnd;
  }

  // ---------- every moment of a session ----------

  /** The announced ids stand unchanged at the front of a table of at most a hundred. */
  ghost predicate IdsFrozen(w: FS.World, d: Draft) {
    && w.tx.distinct == d.tokensCount && |d.ids| <= d.tokensCount
    && |d.ids| <= |w.amounts.table| <= TOKEN_MAX_COUNT && w.amounts.table[..|d.ids|] == d.ids
    && (w.tx.state != FS.TokensStarted ==> |d.ids| == d.tokensCount)
  }

  /** The output information is that of the last output: classified by its whole tree, with its value and tokens. */
  ghost predicate ShowsLast(w: FS.World, d: Draft) {
    && d.outputs != [] && OI.ShowsTree(w.output, Last(d.outputs))
    && OI.ShowsBox(w.output, w.amounts.table, Last(d.outputs), Complete(Last(d.outputs)))
  }

  lemma IdsStay(w: FS.World, d: Draft)
    requires FR.Inv(w, d)
    ensures IdsFrozen(w, d) && Balanced(w.amounts, Counted(d))
  {
    hide Balanced, BS.Invariant, FR.BoxBase, FR.Head3, FR.Head2, FR.Head1, IS.Matches, FR.InputsWell;
    assert w.amounts.table[..|w.amounts.table|] == w.amounts.table;
  }

  lemma LastShown(w: FS.World, d: Draft)
    requires SR.InOutputs(w, d) && w.tx.slot.BoxSlot?
             && (w.tx.state == FS.OutputsStarted || w.tx.state == FS.FullFinished)
    ensures ShowsLast(w, d)
  {
    hide Balanced, FR.BoxBase, OI.ShowsTree, OI.ShowsTokens;
  }

  ghost predicate SessionSound(op: S.Operation, d: Draft) {
    && Balanced(op.w.amounts, Counted(d)) && IdsFrozen(op.w, d)
    && (forall v: u64 :: AddOutput(op.w.amounts, FeeBox, v).Fail? <==> v > op.w.amounts.value)
    && (op.state != S.TxStarted && op.state != S.InputsOpen ==> ShowsLast(op.w, d))
  }

  /**
   In every reachable state of a session the books balance exactly, the announced ids are
   frozen, a fee is refused exactly if it exceeds what is left, and the output shown is the last
   one, classified by its whole tree.
   */
  lemma EverySession(dev: A.Device, events: seq<Event>)
    requires A.Proper(dev) && After(dev, events).app.ctx.Signing?
    requires After(dev, events).app.ctx.op.state != S.OpInitialized
    ensures SessionSound(After(dev, events).app.ctx.op, After(dev, events).h.draft)
  {
    var r := After(dev, events);
    SessionInv(dev, r);
    hide Inv, After, SR.Inv, FR.Inv, SR.InOutputs, IdsFrozen, ShowsLast, Balanced, S.Coupled;
    var op, d := r.app.ctx.op, r.h.draft;
    Unpack(op, d);
    IdsStay(op.w, d);
    if op.state != S.TxStarted && op.state != S.InputsOpen {
      LastShown(op.w, d);
    }
    forall v: u64
      ensures AddOutput(op.w.amounts, FeeBox, v).Fail? <==> v > op.w.amounts.value
    {
      FeeNeverOverflows(op.w.amounts, Counted(d), v);
    }
  }

  lemma SessionInv(dev: A.Device, r: Reached)
    requires Inv(dev, r.app, r.h) && r.app.ctx.Signing?
    ensures SR.Inv(r.app.ctx.op, r.h.draft)
  {
    hide SR.Inv, InputsVouched, Issued;
  }

  lemma Unpack(op: S.Operation, d: Draft)
    requires SR.Inv(op, d) && op.state != S.OpInitialized
    ensures FR.Inv(op.w, d)
    ensures op.state != S.TxStarted && op.state != S.InputsOpen ==>
              && SR.InOutputs(op.w, d) && op.w.tx.slot.BoxSlot?
              && (op.w.tx.state == FS.OutputsStarted || op.w.tx.state == FS.FullFinished)
  {
    hide FR.Inv;
  }

  // ---------- lists of subcommands ----------

  /** The operation after a list of subcommands, the first failure ending it. */
  ghost function ExecAll(p: S.Operation, d: Draft, cs: seq<S.Command>): (o: Outcome<S.Operation>)
    requires SR.Inv(p, d)
    ensures SR.StepOk(o, RecordAll(d, cs))
    decreases |cs|
  {
    if cs == [] then Ok(p)
    else
      CoupledNow(p, d);
      var o := S.Exec(p, cs[0]);
      SR.ExecKeeps(p, d, cs[0]);
      if o.Fail? then Fail(o.e) else ExecAll(o.s, SR.Record(d, cs[0]), cs[1..])
  }

  function RecordAll(d: Draft, cs: seq<S.Command>): Draft
    decreases |cs|
  {
    if cs == [] then d else RecordAll(SR.Record(d, cs[0]), cs[1..])
  }

  lemma OneMore(p: S.Operation, d: Draft, cs: seq<S.Command>) returns (q: S.Operation, e: Draft)
    requires SR.Inv(p, d) && cs != [] && S.Coupled(p) && S.Exec(p, cs[0]).Ok?
    ensures q == S.Exec(p, cs[0]).s && e == SR.Record(d, cs[0]) && SR.Inv(q, e) && S.Coupled(q)
    ensures ExecAll(p, d, cs) == ExecAll(q, e, cs[1..]) && RecordAll(d, cs) == RecordAll(e, cs[1..])
  {
    hide S.Exec, SR.Record, FR.Inv;
    q, e := S.Exec(p, cs[0]).s, SR.Record(d, cs[0]);
    SR.ExecKeeps(p, d, cs[0]);
  }

  // ---------- errors end the session ----------

  /** An error from the signing handler leaves no session, except when it was never entered. */
  lemma ErrorEndsSession(dev: A.Device, app: App, e: Event)
    requires Safe(app) && e.SignApdu? && Next(dev, app, e).response.Error?
    requires !IsBusy(app) && !(e.sub == 0x01 && e.p2 != 0x01 && e.p2 != 0x02)
    ensures Next(dev, app, e).app.ctx == NoCommand && !IsBusy(Next(dev, app, e).app)
  {
    if app.ctx.Signing? {
      SubcommandShape(app, e.sub, e.data, e.env);
    }
    hide RunSubcommand, S.Coupled;
  }

  // ---------- the warning about an output ----------

  /** An output that cannot be clear-signed: complete, neither fee nor change, and its tree is no address. */
  predicate Unclear(b: Box) {
    Complete(b) && b.kind == TreeBox && ErgoTree.ParseP2pk(b.tree).None?
  }

  /** The output information calls an output blind exactly if it cannot be clear-signed. */
  lemma BlindExact(op: S.Operation, d: Draft)
    requires SR.Inv(op, d) && (op.state == S.OutputsOpen || op.state == S.TxFinished)
    ensures d.outputs != [] && (OI.Blind(op.w.output) <==> Unclear(Last(d.outputs)))
  {
    hide Balanced, FR.BoxBase, Emitted, OI.ShowsTokens, FR.BeforeOutputs;
  }

  /** After an accepted output message the warning is shown exactly if the device warns and the output cannot be
      clear-signed. */
  lemma WarningExact(dev: A.Device, events: seq<Event>, e: Event)
    requires A.Proper(dev) && e.SignApdu? && 0x16 <= e.sub <= 0x1A && After(dev, events).app.ctx.Signing?
    requires !Next(dev, After(dev, events).app, e).response.Error?
    ensures var r := After(dev, events); var s := Next(dev, r.app, e); var d := Remember(r.app, r.h, e, s).draft;
            d.outputs != [] && (s.app.screen == BlindWarning <==> e.env.warns && Unclear(Last(d.outputs)))
  {
    var r := After(dev, events);
    NextKeeps(dev, r.app, r.h, e);
    hide S.Coupled, S.Exec, ReadCommand, SR.Record, SR.Inv, OI.Blind, RunSubcommand, Unclear, After, Inv;
    SubcommandShape(r.app, e.sub, e.data, e.env);
    SC.ScreenAlways(dev, events);
    SC.StateAfter(r.app.ctx.op, r.app.issued, e.sub, e.data, e.env);
    var s := Next(dev, r.app, e);
    var h := Remember(r.app, r.h, e, s);
    SessionInv(dev, Reached(s.app, h));
    BlindExact(s.app.ctx.op, h.draft);
  }

  /**
   In every run, a refusal is answered "denied", and an answer that is no success ends the session
   if and only if the screen was not the warning; the warning leaves operation and description as
   they are, and it concerns an output that cannot be clear-signed.
   */
  lemma RefusalEndsSession(dev: A.Device, events: seq<Event>, e: Event)
    requires A.Proper(dev) && e.UserAnswer? && After(dev, events).app.ctx.Signing?
    ensures var r := After(dev, events); var s := Next(dev, r.app, e);
            && (IsBusy(r.app) && !e.approved ==> s.response == Response.Error(Denied))
            && (s.response.Error? ==>
                  && !IsBusy(s.app) && (s.app.ctx == NoCommand <==> r.app.screen != BlindWarning)
                  && (r.app.screen == BlindWarning ==>
                        && s.app.ctx == r.app.ctx && Remember(r.app, r.h, e, s) == r.h
                        && r.h.draft.outputs != [] && Unclear(Last(r.h.draft.outputs))))
  {
    hide A.Proper, Inv, Next, S.Coupled, Unclear, OI.Blind, After;
    var r := After(dev, events);
    SC.AnswerExact(dev, events, e);
    SC.ScreenAlways(dev, events);
    if r.app.screen == BlindWarning {
      SessionInv(dev, r);
      BlindExact(r.app.ctx.op, r.h.draft);
    }
  }

  /** The events of a run that start a signing session. */
  predicate Starts(e: Event) {
    e.SignApdu? && e.sub == 0x01
  }

  ghost function Replay(dev: A.Device, app: App, events: seq<Event>): (r: App)
    requires Safe(app) && !app.ctx.Signing? && forall k :: 0 <= k < |events| ==> !Starts(events[k])
    ensures Safe(r) && !r.ctx.Signing?
  {
    if events == [] then app
    else
      var p := Replay(dev, app, Front(events));
      OutsideSession(dev, p, Last(events));
      Next(dev, p, Last(events)).app
  }

  lemma OutsideSession(dev: A.Device, app: App, e: Event)
    requires !app.ctx.Signing? && !Starts(e)
    ensures var s := Next(dev, app, e); !s.app.ctx.Signing? && !s.response.Signature?
  {
  }

  /**
   Without a session, whatever command is current and whatever happened since, every signing
   subcommand but 0x01 is refused: the device is busy, or it answers that the state or the
   subcommand is wrong and has no current command any more.
   */
  lemma NoSessionRefuses(dev: A.Device, app: App, events: seq<Event>, e: Event)
    requires Safe(app) && !app.ctx.Signing? && forall k :: 0 <= k < |events| ==> !Starts(events[k])
    requires e.SignApdu? && !Starts(e)
    ensures var p, s := Replay(dev, app, events), Next(dev, Replay(dev, app, events), e);
            if IsBusy(p) then s == Step(p, Response.Error(Busy))
            else s == Abort(p, if IsSubcommand(e.sub) then BadState else BadSubcommand)
  {
    hide Replay, S.Coupled;
  }

  /** After an error no sequence of events yields a signature until a new session is started. */
  lemma NoSignatureWithoutStart(dev: A.Device, app: App, events: seq<Event>, e: Event)
    requires Safe(app) && !app.ctx.Signing? && !Starts(e)
    requires forall k :: 0 <= k < |events| ==> !Starts(events[k])
    ensures !Next(dev, Replay(dev, app, events), e).response.Signature?
  {
    OutsideSession(dev, Replay(dev, app, events), e);
  }
}
