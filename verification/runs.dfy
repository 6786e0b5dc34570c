/**
 Whole runs of the application: whatever the host and the user do, the device's state agrees
 with what the host described and with what was attested.
 */
module Runs {
  import opened Bytes
  import opened TxTypes
  import opened Reference
  import opened Frames
  import opened Application
  import FR = FullRefinement
  import BS = BoxSerializer
  import S = Signing
  import SR = SigningRefinement
  import A = Attestation

  /** What the host described in the current session, the box being attested, and all boxes attested. */
  datatype History = History(draft: Draft, source: A.Source, attested: set<A.Source>)

  function NewDraft(base: bytes): Draft {
    Draft(base, 0, 0, 0, 0, [], [], [], [])
  }

  function EmptyHistory(): History {
    History(NewDraft([]), A.Source(NewBox(0, 0, 0, 0, 0), [], 0), {})
  }

  /** The box after an accepted attestation message. */
  function Attend(s: A.Source, sub: u8, data: bytes): A.Source {
    match sub
    case 0x02 => s.(box := BS.WithChunk(s.box, data))
    case 0x03 => s.(box := BS.WithTokens(s.box, data, BS.FullIds))
    case 0x04 => s.(box := BS.WithRegisters(s.box, data))
    case _ => s
  }

  /** What is announced of a box before anything of it is sent. */
  function Announced(s: A.Source): A.Source {
    s.(box := NewBox(s.box.value, s.box.treeSize, s.box.height, s.box.tokensCount, s.box.registersSize))
  }

  /** The history after an event, from the event and the fact that it was accepted. */
  function Remember(app: App, h: History, e: Event, s: Step): History {
    match e
    case SignApdu(sub, _, data, env) =>
      if s.response.Error? then h
      else if sub == 0x01 then h.(draft := NewDraft(env.commitment))
      else
        var c := ReadCommand(app.issued, sub, data, env);
        if c.Ok? then h.(draft := SR.Record(h.draft, c.s)) else h
    case AttestApdu(sub, _, data, _) =>
      if s.response.Error? then h
      else if sub == 0x01 then if |data| < 55 then h else h.(source := A.NewSource(data))
      else
        var source := Attend(h.source, sub, data);
        h.(source := source, attested := h.attested + (if s.response.FrameCount? then {source} else {}))
    case OtherApdu => h
    case UserAnswer(_, _) => h
  }

  // ---------- the invariant of every run ----------

  /** A frame of an attested box, with its code. */
  ghost predicate IsIssue(dev: A.Device, s: A.Source, x: (bytes, bytes)) {
    A.Attestable(s) &&
    exists i: nat :: i < FramesCount(|s.box.entries|)
                     && x == (A.FrameOf(dev, s, i), dev.mac(A.FrameOf(dev, s, i)))
  }

  ghost predicate Issued(dev: A.Device, attested: set<A.Source>, x: (bytes, bytes)) {
    exists s :: s in attested && IsIssue(dev, s, x)
  }

  /** A frame, as the signing session read it, of this attested box. */
  ghost predicate FrameFrom(dev: A.Device, s: A.Source, f: Frame) {
    var ts := TokensOf(s.box.entries);
    && A.Attestable(s) && f.index < FramesCount(|ts|)
    && f == Frame(A.BoxId(dev, s), FramesCount(|ts|), f.index, s.box.value, PairsBytes(Share(ts, f.index)))
  }

  ghost predicate Vouched(dev: A.Device, attested: set<A.Source>, f: Frame) {
    exists s :: s in attested && FrameFrom(dev, s, f)
  }

  /** Every frame of every input was attested by this device. */
  ghost predicate InputsVouched(dev: A.Device, attested: set<A.Source>, inputs: seq<Input>) {
    forall k, j :: 0 <= k < |inputs| && 0 <= j < |inputs[k].frames| ==> Vouched(dev, attested, inputs[k].frames[j])
  }

  ghost predicate ContextInv(dev: A.Device, app: App, h: History) {
    match app.ctx
    case NoCommand => true
    case OtherCommand => true
    case Signing(_, op) => SR.Inv(op, h.draft) && InputsVouched(dev, h.attested, h.draft.inputs)
    case Attesting(a) =>
      && A.Inv(dev, a, h.source)
      && (a.state == A.AttestFinished ==> h.source in h.attested && !IsBusy(app))
  }

  ghost predicate Inv(dev: A.Device, app: App, h: History) {
    && ContextInv(dev, app, h)
    && (forall x :: x in app.issued ==> Issued(dev, h.attested, x))
    && (forall s :: s in h.attested ==> A.Attestable(s))
  }

  // ---------- signing steps ----------

  /** An accepted frame message carries a frame the device attested. */
  lemma AcceptedFrame(dev: A.Device, app: App, h: History, data: bytes)
    requires A.Proper(dev) && Inv(dev, app, h)
    ensures var o := ReadSignedFrame(app.issued, data); o.Ok? ==> Vouched(dev, h.attested, o.s.0)
  {
    hide SR.Inv, A.Inv, ReadFrame, A.FrameOf, FrameFrom;
    var o := ReadSignedFrame(app.issued, data);
    if o.Ok? {
      var n := DataLength(data);
      var x := (data[..n], data[n..n + SIGNATURE_LEN]);
      assert Issued(dev, h.attested, x);
      var s :| s in h.attested && IsIssue(dev, s, x);
      var i: nat :| i < FramesCount(|s.box.entries|) && x == (A.FrameOf(dev, s, i), dev.mac(A.FrameOf(dev, s, i)));
      FrameOfReadBack(dev, s, i, data);
    }
  }

  lemma FrameOfReadBack(dev: A.Device, s: A.Source, i: nat, data: bytes)
    requires A.Proper(dev) && A.Attestable(s) && i < FramesCount(|s.box.entries|)
    requires DataLength(data) != 0 && data[..DataLength(data)] == A.FrameOf(dev, s, i)
    ensures var o := ReadFrame(data); o.Ok? ==> FrameFrom(dev, s, o.s.0)
  {
    hide FrameData, ReadFrame, FullBox, BS.Distinct;
    var ts := TokensOf(s.box.entries);
    assert FullIds(Share(ts, i)) by {
      assert forall k :: 0 <= k < |Share(ts, i)| ==> Share(ts, i)[k] == ts[4 * i + k];
    }
    FrameReadBack(data, A.BoxId(dev, s), FramesCount(|ts|), i, s.box.value, Share(ts, i));
  }

  /** Recording a subcommand adds at most the frame it carries. */
  lemma RecordVouched(dev: A.Device, attested: set<A.Source>, d: Draft, c: S.Command)
    requires InputsVouched(dev, attested, d.inputs)
    requires c.InputFrame? ==> Vouched(dev, attested, c.frame)
    ensures InputsVouched(dev, attested, SR.Record(d, c).inputs)
  {
    hide Vouched, InputsVouched;
    if c.InputFrame? {
      var f := c.frame;
      var e := if f.index == 0 then FR.WithNewInput(d, f.id, f.framesCount, c.extensionSize, f.value) else d;
      if f.index == 0 {
        NewVouched(dev, attested, d.inputs, Last(e.inputs));
      }
      if e.inputs != [] {
        LastVouched(dev, attested, e.inputs, Last(FR.WithFrame(e, f).inputs), [f]);
      }
    } else if c.Extension? && d.inputs != [] {
      LastVouched(dev, attested, d.inputs, Last(FR.WithExtension(d, c.data).inputs), []);
    } else {
      InputsSame(d, c);
      NoInputsVouched(dev, attested);
    }
  }

  lemma NewVouched(dev: A.Device, attested: set<A.Source>, inputs: seq<Input>, i: Input)
    requires InputsVouched(dev, attested, inputs) && i.frames == []
    ensures InputsVouched(dev, attested, inputs + [i])
  {
    hide Vouched;
  }

  /** The last input may get more vouched frames. */
  lemma LastVouched(dev: A.Device, attested: set<A.Source>, inputs: seq<Input>, i: Input, more: seq<Frame>)
    requires InputsVouched(dev, attested, inputs) && inputs != [] && i.frames == Last(inputs).frames + more
    requires forall j :: 0 <= j < |more| ==> Vouched(dev, attested, more[j])
    ensures InputsVouched(dev, attested, SetLast(inputs, i))
  {
    hide Vouched;
    var r, n := SetLast(inputs, i), |inputs| - 1;
    forall k, j | 0 <= k < |r| && 0 <= j < |r[k].frames|
      ensures Vouched(dev, attested, r[k].frames[j])
    {
      if k < n {
        assert r[k] == Front(r)[k] == Front(inputs)[k] == inputs[k];
      } else if j < |inputs[n].frames| {
        assert r[k].frames[j] == inputs[n].frames[j];
      } else {
        assert r[k].frames[j] == more[j - |inputs[n].frames|];
      }
    }
  }

  lemma InputsSame(d: Draft, c: S.Command)
    requires !c.InputFrame? && !(c.Extension? && d.inputs != [])
    ensures SR.Record(d, c).inputs == d.inputs || SR.Record(d, c).inputs == []
  {
  }

  lemma FrameCommand(app: App, sub: u8, data: bytes, env: Surroundings)
    ensures var r := ReadCommand(app.issued, sub, data, env);
            r.Ok? && r.s.InputFrame? ==>
              ReadSignedFrame(app.issued, data).Ok? && r.s.frame == ReadSignedFrame(app.issued, data).s.0
  {
  }

  /** A subcommand either ends the session or takes the operation one step. */
  lemma SubcommandShape(app: App, sub: u8, data: bytes, env: Surroundings)
    requires Safe(app) && app.ctx.Signing?
    ensures var s := RunSubcommand(app, sub, data, env); var r := ReadCommand(app.issued, sub, data, env);
            if s.response.Error? then s.app == app.(ctx := NoCommand, screen := NoScreen)
            else && r.Ok? && S.Exec(app.ctx.op, r.s).Ok?
                 && s.app == app.(ctx := Signing(app.ctx.session, S.Exec(app.ctx.op, r.s).s),
                    screen := ScreenAfter(sub, S.Exec(app.ctx.op, r.s).s, env))
                 && !s.response.Signature?
  {
    hide S.Exec, ReadCommand, S.Coupled;
  }

  lemma CommandKeeps(dev: A.Device, app: App, h: History, sub: u8, data: bytes, env: Surroundings)
    requires A.Proper(dev) && Inv(dev, app, h) && app.ctx.Signing? && Safe(app)
    requires ReadCommand(app.issued, sub, data, env).Ok?
    ensures var c := ReadCommand(app.issued, sub, data, env).s; var o := S.Exec(app.ctx.op, c);
            o.Ok? ==> SR.Inv(o.s, SR.Record(h.draft, c)) && InputsVouched(dev, h.attested, SR.Record(h.draft, c).inputs)
  {
    hide SR.Inv, InputsVouched, Issued, S.Exec, SR.Record, S.Coupled, ReadCommand;
    var c := ReadCommand(app.issued, sub, data, env).s;
    SR.ExecKeeps(app.ctx.op, h.draft, c);
    FrameCommand(app, sub, data, env);
    if c.InputFrame? {
      AcceptedFrame(dev, app, h, data);
    }
    RecordVouched(dev, h.attested, h.draft, c);
  }

  lemma CoupledNow(op: S.Operation, d: Draft)
    requires SR.Inv(op, d)
    ensures S.Coupled(op)
  {
  }

  lemma SafeNow(dev: A.Device, app: App, h: History)
    requires Inv(dev, app, h)
    ensures Safe(app)
  {
    if app.ctx.Signing? {
      CoupledNow(app.ctx.op, h.draft);
    }
  }

  lemma SignKeeps(dev: A.Device, app: App, h: History, e: Event)
    requires A.Proper(dev) && Inv(dev, app, h) && e.SignApdu? && Safe(app)
    ensures var s := Next(dev, app, e); Inv(dev, s.app, Remember(app, h, e, s)) && !s.response.Signature?
  {
    hide SR.Inv, InputsVouched, Issued, RunSubcommand, S.Coupled, SR.Record, ReadCommand, S.Exec, InitParameters;
    SR.StartInv(e.env.commitment, NewDraft(e.env.commitment));
    NoInputsVouched(dev, h.attested);
    if app.ctx.Signing? {
      SubcommandShape(app, e.sub, e.data, e.env);
      if ReadCommand(app.issued, e.sub, e.data, e.env).Ok? {
        CommandKeeps(dev, app, h, e.sub, e.data, e.env);
      }
    }
  }

  lemma NoInputsVouched(dev: A.Device, attested: set<A.Source>)
    ensures InputsVouched(dev, attested, [])
  {
  }

  // ---------- attestation steps ----------

  lemma VouchedGrows(dev: A.Device, attested: set<A.Source>, more: set<A.Source>, app: App)
    requires attested <= more && forall x :: x in app.issued ==> Issued(dev, attested, x)
    ensures forall x :: x in app.issued ==> Issued(dev, more, x)
  {
    hide IsIssue;
    forall x | x in app.issued
      ensures Issued(dev, more, x)
    {
      var s :| s in attested && IsIssue(dev, s, x);
    }
  }

  /** The three messages that add to a box. */
  lemma AttestStep(dev: A.Device, app: App, h: History, sub: u8, data: bytes)
    requires Inv(dev, app, h) && app.ctx.Attesting? && 0x02 <= sub <= 0x04
    ensures var s := RunAttest(dev, app, sub, data);
            if s.response.Error? then s.app == app.(ctx := NoCommand, screen := NoScreen)
            else && s.app.ctx.Attesting? && s.app.issued == app.issued
                 && A.Inv(dev, s.app.ctx.a, Attend(h.source, sub, data))
                 && (s.app.ctx.a.state == A.AttestFinished <==> s.response.FrameCount?)
                 && (s.response.FrameCount? ==> A.Attestable(Attend(h.source, sub, data)))
                 && !s.response.Signature? && s.app.screen == app.screen
  {
    hide A.Inv, A.Attestable, Issued, BS.AddTree, BS.AddTokens, BS.AddRegisters;
    A.TreeChunkKeeps(dev, app.ctx.a, h.source, data);
    A.TokensKeeps(dev, app.ctx.a, h.source, data);
    A.RegistersKeeps(dev, app.ctx.a, h.source, data);
    var s := RunAttest(dev, app, sub, data);
    if s.response.FrameCount? {
      A.FinishedIsAttestable(dev, s.app.ctx.a, Attend(h.source, sub, data));
    }
  }

  lemma GetFrameStep(dev: A.Device, app: App, h: History, data: bytes)
    requires Inv(dev, app, h) && app.ctx.Attesting?
    ensures var s := RunAttest(dev, app, 0x05, data);
            if s.response.Error? then s.app == app.(ctx := NoCommand, screen := NoScreen)
            else s.app.ctx == app.ctx && Inv(dev, s.app, h) && s.response.AttestedFrame?
  {
    hide A.Inv, A.FrameOf, A.GetFrame, BS.Distinct, FullBox, FullIds;
    A.GetFrameGenuine(dev, app.ctx.a, h.source, data);
    var o := A.GetFrame(dev, app.ctx.a, data);
    if o.Ok? {
      var x, i: nat := (o.s.1.frame, o.s.1.code), data[0];
      assert x == (A.FrameOf(dev, h.source, i), dev.mac(A.FrameOf(dev, h.source, i)));
      assert IsIssue(dev, h.source, x);
      assert Issued(dev, h.attested, x);
    }
  }

  /** A first message that is taken permits the attestation to a known host only; anyone else has to ask the user. */
  predicate AsksFirst(e: Event, s: Step) {
    e.AttestApdu? && e.sub == 0x01 && !s.response.Error? ==>
      && s.app.ctx.Attesting?
      && if e.env.known then s.app.ctx.a.state == A.AttestApproved && s.response == SessionId(s.app.ctx.a.session)
         else s.app.ctx.a.state == A.AttestInitialized && s.app.screen == Consent && s.response == Response.Nothing
  }

  lemma AttestInitStep(dev: A.Device, app: App, h: History, e: Event)
    requires Inv(dev, app, h) && e.AttestApdu? && e.sub == 0x01 && Safe(app)
    ensures var s := Next(dev, app, e); Inv(dev, s.app, Remember(app, h, e, s)) && !s.response.Signature?
    ensures AsksFirst(e, Next(dev, app, e))
  {
    hide A.Inv, Issued, S.Coupled;
    A.InitKeeps(dev, e.data, e.p2 == 0x02, e.env.session);
    var o := A.Init(e.data, e.p2 == 0x02, e.env.session);
    if o.Ok? {
      A.ApproveKeeps(dev, o.s, A.NewSource(e.data));
    }
  }

  lemma AttestKeeps(dev: A.Device, app: App, h: History, e: Event)
    requires Inv(dev, app, h) && e.AttestApdu? && Safe(app)
    ensures var s := Next(dev, app, e); Inv(dev, s.app, Remember(app, h, e, s)) && !s.response.Signature?
    ensures AsksFirst(e, Next(dev, app, e))
  {
    hide Inv, S.Coupled, Next, Remember;
    if e.sub == 0x01 {
      AttestInitStep(dev, app, h, e);
    } else if app.ctx.Attesting? && 0x02 <= e.sub <= 0x04 {
      AttestMessageStep(dev, app, h, e);
    } else {
      AttestOtherStep(dev, app, h, e);
    }
  }

  lemma AttestMessageStep(dev: A.Device, app: App, h: History, e: Event)
    requires Inv(dev, app, h) && e.AttestApdu? && Safe(app) && app.ctx.Attesting? && 0x02 <= e.sub <= 0x04
    ensures var s := Next(dev, app, e); Inv(dev, s.app, Remember(app, h, e, s)) && !s.response.Signature?
  {
    hide A.Inv, A.Attestable, RunAttest, S.Coupled, A.Init, Attend;
    AttestStep(dev, app, h, e.sub, e.data);
    VouchedGrows(dev, h.attested, h.attested + {Attend(h.source, e.sub, e.data)}, app);
  }

  lemma AttestOtherStep(dev: A.Device, app: App, h: History, e: Event)
    requires Inv(dev, app, h) && e.AttestApdu? && Safe(app) && e.sub != 0x01
    requires !(app.ctx.Attesting? && 0x02 <= e.sub <= 0x04)
    ensures var s := Next(dev, app, e); Inv(dev, s.app, Remember(app, h, e, s)) && !s.response.Signature?
  {
    hide A.Inv, A.Attestable, RunAttest, S.Coupled, A.Init, Attend;
    if app.ctx.Attesting? && e.sub == 0x05 {
      GetFrameStep(dev, app, h, e.data);
      AttendFrame(h.source, e.data);
    }
  }

  lemma AttendFrame(s: A.Source, data: bytes)
    ensures Attend(s, 0x05, data) == s
  {
  }

  // ---------- every run ----------

  lemma AnswerKeeps(dev: A.Device, app: App, h: History, e: Event)
    requires Inv(dev, app, h) && e.UserAnswer? && Safe(app)
    ensures var s := Next(dev, app, e); Inv(dev, s.app, Remember(app, h, e, s))
  {
    hide SR.Inv, A.Inv, Issued, S.Coupled, InputsVouched;
    if app.ctx.Attesting? && app.ctx.a.state != A.AttestFinished {
      A.ApproveKeeps(dev, app.ctx.a, h.source);
    }
  }

  /** Every event keeps the device in step with what was described and attested. */
  lemma NextKeeps(dev: A.Device, app: App, h: History, e: Event)
    requires A.Proper(dev) && Inv(dev, app, h) && Safe(app)
    ensures var s := Next(dev, app, e); Inv(dev, s.app, Remember(app, h, e, s))
  {
    match e
    case SignApdu(_, _, _, _) => SignKeeps(dev, app, h, e);
    case AttestApdu(_, _, _, _) => AttestKeeps(dev, app, h, e);
    case OtherApdu => hide SR.Inv, A.Inv, Issued, S.Coupled, InputsVouched;
    case UserAnswer(_, _) => AnswerKeeps(dev, app, h, e);
  }

  datatype Reached = Reached(app: App, h: History)

  /** The state after a run from power-on; the invariant holds of every one. */
  ghost function After(dev: A.Device, events: seq<Event>): (r: Reached)
    requires A.Proper(dev)
    ensures Inv(dev, r.app, r.h) && Safe(r.app)
  {
    if events == [] then Reached(Booted(), EmptyHistory())
    else
      var p := After(dev, Front(events));
      var s := Next(dev, p.app, Last(events));
      NextKeeps(dev, p.app, p.h, Last(events));
      SafeNow(dev, s.app, Remember(p.app, p.h, Last(events), s));
      Reached(s.app, Remember(p.app, p.h, Last(events), s))
  }
}
