/**
 What the user is asked and what an answer does, over whole runs: a signature is the answer to a
 review screen, an attestation is permitted before it hashes anything, and a session takes
 messages under its own number only.
 Source: src/commands/signtx/stx_handler.c, src/commands/attestinput/ainpt_handler.c and the
 callbacks of their screens.
 */
module Screens {
  import opened Bytes
  import opened TxTypes
  import opened Reference
  import opened Application
  import opened Runs
  import FS = FullSerializer
  import BS = BoxSerializer
  import OI = OutputInfo
  import S = Signing
  import SR = SigningRefinement
  import A = Attestation

  // ---------- the screen and what waits behind it ----------

  /** A finalized operation waits for its review, a fresh attestation for consent, and nothing else waits. */
  predicate ScreenFits(app: App) {
    match app.screen
    case NoScreen =>
      && (app.ctx.Signing? ==> app.ctx.op.state != S.Finalized)
      && (app.ctx.Attesting? ==> app.ctx.a.state != A.AttestInitialized)
    case Consent => app.ctx.Attesting? && app.ctx.a.state == A.AttestInitialized
    case BlindWarning =>
      && app.ctx.Signing? && (app.ctx.op.state == S.OutputsOpen || app.ctx.op.state == S.TxFinished)
      && OI.Blind(app.ctx.op.w.output)
    case Review => app.ctx.Signing? && app.ctx.op.state == S.Finalized
  }

  /** Only the confirmation finalizes, and output messages leave the output stage only at the end. */
  lemma StateAfter(op: S.Operation, issued: set<(bytes, bytes)>, sub: u8, data: bytes, env: Surroundings)
    requires S.Coupled(op) && op.state != S.Finalized && IsSubcommand(sub)
    ensures var c := ReadCommand(issued, sub, data, env);
            c.Ok? && S.Exec(op, c.s).Ok? ==>
              && (S.Exec(op, c.s).s.state == S.Finalized <==> sub == 0x20)
              && (0x16 <= sub <= 0x1A ==>
                    S.Exec(op, c.s).s.state == S.OutputsOpen || S.Exec(op, c.s).s.state == S.TxFinished)
  {
    hide FS.Init, FS.AddTokens, FS.AddInput, FS.AddInputTokens, FS.AddExtension, FS.AddDataInputs, FS.AddBox,
         FS.AddBoxTree, FS.AddBoxKnownTree, FS.AddBoxTokens, FS.AddBoxRegisters, OI.AddTreeChunk, OI.SetFee,
         OI.SetBip32, ReadPath, ReadSignedFrame;
  }

  /** The attestation's messages neither open a screen nor permit anything. */
  lemma AttestAfter(dev: A.Device, app: App, sub: u8, data: bytes)
    requires app.ctx.Attesting?
    ensures var s := RunAttest(dev, app, sub, data);
            if s.response.Error? then s.app == app.(ctx := NoCommand, screen := NoScreen)
            else && s.app.ctx.Attesting? && s.app.screen == app.screen
                 && s.app.ctx.a.session == app.ctx.a.session
                 && app.ctx.a.state != A.AttestInitialized && s.app.ctx.a.state != A.AttestInitialized
    ensures !RunAttest(dev, app, sub, data).response.Signature?
            && !RunAttest(dev, app, sub, data).response.SessionId?
  {
    hide BS.AddTree, BS.AddTokens, BS.AddRegisters;
  }

  lemma ScreenNext(dev: A.Device, app: App, e: Event)
    requires Safe(app) && ScreenFits(app)
    ensures ScreenFits(Next(dev, app, e).app)
  {
    hide S.Coupled, S.Exec, ReadCommand, RunSubcommand, InitParameters, A.Init, OI.Blind;
    if e.SignApdu? && app.ctx.Signing? && IsSubcommand(e.sub) {
      SubcommandShape(app, e.sub, e.data, e.env);
      if app.screen == NoScreen {
        StateAfter(app.ctx.op, app.issued, e.sub, e.data, e.env);
      }
    } else if e.AttestApdu? && e.sub != 0x01 && app.ctx.Attesting? {
      AttestAfter(dev, app, e.sub, e.data);
      hide RunAttest;
    } else if e.AttestApdu? && e.sub == 0x01 {
      InitWaits(e.data, e.p2 == 0x02, e.env.session);
    }
  }

  lemma InitWaits(data: bytes, hasToken: bool, session: u8)
    ensures var o := A.Init(data, hasToken, session);
            !o.Fail? ==> o.Ok? && o.s.state == A.AttestInitialized && o.s.session == session
  {
  }

  lemma BootedFits()
    ensures ScreenFits(Booted())
  {
  }

  lemma {:induction false} ScreenAlways(dev: A.Device, events: seq<Event>)
    requires A.Proper(dev)
    ensures ScreenFits(After(dev, events).app)
  {
    hide Next, Inv, A.Proper, Safe, Remember, ScreenFits;
    if events == [] {
      BootedFits();
    } else {
      ScreenAlways(dev, Front(events));
      ScreenNext(dev, After(dev, Front(events)).app, Last(events));
    }
  }

  // ---------- what an answer does ----------

  /** The signature is the approval of the review, and nothing else is one. */
  lemma AnswerStep(dev: A.Device, app: App, e: Event)
    requires Safe(app) && ScreenFits(app)
    ensures Next(dev, app, e).response.Signature?
            <==> app.screen == Review && e.UserAnswer? && e.approved && e.env.signed
    ensures Next(dev, app, e).response.Signature? ==>
              app.ctx.Signing? && Next(dev, app, e).response.message == app.ctx.op.w.log
  {
    hide S.Coupled, S.Exec, ReadCommand, RunSubcommand, InitParameters, A.Init, OI.Blind;
    if e.SignApdu? && app.ctx.Signing? && IsSubcommand(e.sub) {
      SubcommandShape(app, e.sub, e.data, e.env);
    } else if e.AttestApdu? && app.ctx.Attesting? {
      AttestAfter(dev, app, e.sub, e.data);
      hide RunAttest;
    }
  }

  /** In every run a signature is returned if and only if the user approves a review screen and signing succeeds. */
  lemma SignedIfApproved(dev: A.Device, events: seq<Event>, e: Event)
    requires A.Proper(dev)
    ensures Next(dev, After(dev, events).app, e).response.Signature?
            <==> After(dev, events).app.screen == Review && e.UserAnswer? && e.approved && e.env.signed
  {
    hide After, Next, ScreenFits, A.Proper;
    ScreenAlways(dev, events);
    AnswerStep(dev, After(dev, events).app, e);
  }

  /** What the answer to a screen leads to. */
  ghost predicate Answered(app: App, approved: bool, signed: bool, s: Step) {
    match app.screen
    case NoScreen => s == Step(app, Response.Nothing)
    case BlindWarning => s == Step(app.(screen := NoScreen), Response.Error(Denied))
    case Consent =>
      app.ctx.Attesting? &&
      if approved then s == Step(app.(ctx := Attesting(app.ctx.a.(state := A.AttestApproved)), screen := NoScreen),
                                 SessionId(app.ctx.a.session))
      else s == Abort(app, Denied)
    case Review =>
      app.ctx.Signing? &&
      if !approved then s == Abort(app, Denied)
      else s == Step(app.(ctx := NoCommand, screen := NoScreen),
                     if signed then Signature(app.ctx.op.w.log) else Response.Error(BadState))
  }

  /**
   In every run: a refused review or consent ends the command, an approved consent permits the
   attestation, an approved review ends in a signature if signing succeeds, and the warning only
   goes away.  An APDU while a screen is shown is answered "busy" and changes nothing.
   */
  lemma AnswerExact(dev: A.Device, events: seq<Event>, e: Event)
    requires A.Proper(dev)
    ensures var app := After(dev, events).app;
            && (e.UserAnswer? ==> Answered(app, e.approved, e.env.signed, Next(dev, app, e)))
            && (!e.UserAnswer? && IsBusy(app) ==> Next(dev, app, e) == Step(app, Response.Error(Busy)))
  {
    ScreenAlways(dev, events);
    hide After, A.Proper, OI.Blind, S.Coupled;
  }

  // ---------- why a screen is shown ----------

  ghost function ResponseTo(dev: A.Device, events: seq<Event>, k: nat): Response
    requires A.Proper(dev) && k < |events|
  {
    Next(dev, After(dev, events[..k]).app, events[k]).response
  }

  /** The event asks for this screen. */
  predicate Asks(e: Event, screen: Screen) {
    match screen
    case NoScreen => false
    case Consent => e.AttestApdu? && e.sub == 0x01 && !e.env.known
    case BlindWarning => e.SignApdu? && 0x16 <= e.sub <= 0x1A && e.env.warns && e.env.screens
    case Review => e.SignApdu? && e.sub == 0x20 && e.env.screens
  }

  /** The screen was opened by the `k`-th event, and nothing has changed since. */
  ghost predicate ShownSince(dev: A.Device, events: seq<Event>, k: nat)
    requires A.Proper(dev)
  {
    && k < |events| && Asks(events[k], After(dev, events).app.screen)
    && !IsBusy(After(dev, events[..k]).app) && After(dev, events[..k + 1]) == After(dev, events)
    && forall j :: k < j < |events| ==> !events[j].UserAnswer?
  }

  lemma AskStep(dev: A.Device, app: App, h: History, e: Event)
    requires Safe(app) && ScreenFits(app)
    ensures var s := Next(dev, app, e);
            IsBusy(s.app) ==>
              if IsBusy(app) then !e.UserAnswer? && s.app == app && Remember(app, h, e, s) == h
              else Asks(e, s.app.screen)
  {
    hide S.Coupled, S.Exec, ReadCommand, InitParameters, A.Init, OI.Blind, SR.Record, Attend;
    if e.AttestApdu? && app.ctx.Attesting? {
      AttestAfter(dev, app, e.sub, e.data);
      hide RunAttest;
    } else if e.SignApdu? && app.ctx.Signing? {
      SubcommandAsks(app, e.sub, e.data, e.env);
      hide RunSubcommand;
    }
  }

  lemma SubcommandAsks(app: App, sub: u8, data: bytes, env: Surroundings)
    requires Safe(app) && app.ctx.Signing?
    ensures !RunSubcommand(app, sub, data, env).response.Error? ==> Supplied(sub, data, env)
    ensures var s := RunSubcommand(app, sub, data, env).app.screen;
            s == NoScreen || (s == Review && sub == 0x20 && env.screens)
            || (s == BlindWarning && 0x16 <= sub <= 0x1A && env.warns && env.screens)
  {
    hide S.Coupled, S.Exec, OI.Blind, ReadSignedFrame;
  }

  /** What a subcommand needs from outside: screens for outputs and confirmation, the key for a change output. */
  predicate Supplied(sub: u8, data: bytes, env: Surroundings) {
    && (0x16 <= sub <= 0x1A || sub == 0x20 ==> env.screens)
    && (sub == 0x18 ==> env.keyFound && ReadPath(data).Ok?)
  }

  /** Every screen has an event that asked for it, and everything has stood still since. */
  lemma {:induction false} ScreenHasCause(dev: A.Device, events: seq<Event>) returns (k: nat)
    requires A.Proper(dev) && IsBusy(After(dev, events).app)
    ensures ShownSince(dev, events, k)
  {
    hide Next, Inv, A.Proper, Safe, Remember, ScreenFits;
    var p, e := Front(events), Last(events);
    var r := After(dev, p);
    ScreenAlways(dev, p);
    AskStep(dev, r.app, r.h, e);
    assert events[..|p|] == p && events[..|p| + 1] == events;
    k := |p|;
    if IsBusy(r.app) {
      k := ScreenHasCause(dev, p);
      assert events[..k] == p[..k] && events[..k + 1] == p[..k + 1];
    }
  }

  /** What is signed is what was there when the review screen was asked for by subcommand 0x20. */
  lemma SignedAsReviewed(dev: A.Device, events: seq<Event>, e: Event) returns (k: nat)
    requires A.Proper(dev) && Next(dev, After(dev, events).app, e).response.Signature?
    ensures ShownSince(dev, events, k) && events[k].SignApdu? && events[k].sub == 0x20
    ensures e.UserAnswer? && e.approved
  {
    hide Next, After, A.Proper, ScreenFits, Inv, Safe;
    SignedIfApproved(dev, events, e);
    k := ScreenHasCause(dev, events);
  }

  // ---------- how an attestation began ----------

  /** The `j`-th event began the attestation that is current now, and none began later. */
  ghost predicate AttestBegan(dev: A.Device, events: seq<Event>, j: nat)
    requires A.Proper(dev)
  {
    && j < |events| && BeginsAttest(dev, events, j)
    && forall k :: j < k < |events| ==> After(dev, events[..k]).app.ctx.Attesting? && !BeginsAttest(dev, events, k)
  }

  ghost predicate BeginsAttest(dev: A.Device, events: seq<Event>, k: nat)
    requires A.Proper(dev) && k < |events|
  {
    events[k].AttestApdu? && events[k].sub == 0x01 && !ResponseTo(dev, events, k).Error?
  }

  /** The host was known when the attestation began, or the user has approved the question about it since. */
  ghost predicate Permitted(dev: A.Device, events: seq<Event>, j: nat)
    requires A.Proper(dev) && j < |events| && events[j].AttestApdu?
  {
    events[j].env.known || exists m :: j < m < |events| && Consents(dev, events, m)
  }

  ghost predicate Consents(dev: A.Device, events: seq<Event>, m: nat)
    requires A.Proper(dev) && m < |events|
  {
    events[m].UserAnswer? && events[m].approved && After(dev, events[..m]).app.screen == Consent
  }

  /** An attestation begins, goes on, or is none; only a known host or the user permits it. */
  lemma AttestNext(dev: A.Device, app: App, h: History, e: Event)
    requires Safe(app) && ScreenFits(app) && Next(dev, app, e).app.ctx.Attesting?
    ensures var s := Next(dev, app, e); var source := Remember(app, h, e, s).source;
            if e.AttestApdu? && e.sub == 0x01 && !s.response.Error?
            then && s.app.ctx.a.session == e.env.session && |e.data| >= 55 && source == A.NewSource(e.data)
                 && (s.app.ctx.a.state != A.AttestInitialized <==> e.env.known)
            else && app.ctx.Attesting? && s.app.ctx.a.session == app.ctx.a.session
                 && Announced(source) == Announced(h.source)
                 && (s.app.ctx.a.state != A.AttestInitialized <==>
                       app.ctx.a.state != A.AttestInitialized
                       || (e.UserAnswer? && e.approved && app.screen == Consent))
  {
    hide S.Coupled, S.Exec, ReadCommand, RunSubcommand, InitParameters, OI.Blind, SR.Record, Attend;
    if e.AttestApdu? && e.sub != 0x01 && app.ctx.Attesting? {
      AttestAfter(dev, app, e.sub, e.data);
      AttendAnnounced(h.source, e.sub, e.data);
      hide RunAttest;
    } else if e.SignApdu? && app.ctx.Signing? {
      SubcommandShape(app, e.sub, e.data, e.env);
    } else if e.AttestApdu? && e.sub == 0x01 {
      InitWaits(e.data, e.p2 == 0x02, e.env.session);
    }
  }

  lemma AttendAnnounced(s: A.Source, sub: u8, data: bytes)
    ensures Announced(Attend(s, sub, data)) == Announced(s)
  {
  }

  /**
   In every run, the current attestation has its first message: it is for the box announced there,
   and it takes data if and only if the host was known then or the user has consented since.
   */
  lemma {:induction false} AttestPermitted(dev: A.Device, events: seq<Event>) returns (j: nat)
    requires A.Proper(dev) && After(dev, events).app.ctx.Attesting?
    ensures AttestBegan(dev, events, j) && |events[j].data| >= 55
    ensures var r := After(dev, events);
            && r.app.ctx.a.session == events[j].env.session && Announced(r.h.source) == A.NewSource(events[j].data)
            && (r.app.ctx.a.state != A.AttestInitialized <==> Permitted(dev, events, j))
  {
    hide Next, Inv, A.Proper, Safe, Remember, ScreenFits, A.NewSource;
    var p, e := Front(events), Last(events);
    var r := After(dev, p);
    ScreenAlways(dev, p);
    AttestNext(dev, r.app, r.h, e);
    assert events[..|p|] == p;
    if e.AttestApdu? && e.sub == 0x01 && !Next(dev, r.app, e).response.Error? {
      j := |p|;
      NewAnnounced(e.data);
    } else {
      j := AttestPermitted(dev, p);
      BeganStill(dev, events, j);
    }
  }

  lemma NewAnnounced(data: bytes)
    requires |data| >= 55
    ensures Announced(A.NewSource(data)) == A.NewSource(data)
  {
  }

  /** One more event does not change what happened before. */
  lemma EarlierSame(dev: A.Device, events: seq<Event>, k: nat)
    requires A.Proper(dev) && k < |events| - 1
    ensures var p := Front(events);
            && events[k] == p[k] && After(dev, events[..k]) == After(dev, p[..k])
            && ResponseTo(dev, events, k) == ResponseTo(dev, p, k)
            && Consents(dev, events, k) == Consents(dev, p, k)
            && BeginsAttest(dev, events, k) == BeginsAttest(dev, p, k)
  {
    hide Next, After, A.Proper, Inv, Safe;
    assert events[..k] == Front(events)[..k];
  }

  lemma BeganStill(dev: A.Device, events: seq<Event>, j: nat)
    requires A.Proper(dev) && events != [] && AttestBegan(dev, Front(events), j)
    requires After(dev, Front(events)).app.ctx.Attesting? && !BeginsAttest(dev, events, |events| - 1)
    ensures AttestBegan(dev, events, j) && events[j] == Front(events)[j]
    ensures Permitted(dev, events, j) <==> Permitted(dev, Front(events), j) || Consents(dev, events, |events| - 1)
  {
    hide Next, After, A.Proper, BeginsAttest, Consents, Inv, Safe;
    var p := Front(events);
    assert events[..|p|] == p;
    forall k | 0 <= k < |p|
      ensures events[k] == p[k] && After(dev, events[..k]) == After(dev, p[..k])
      ensures Consents(dev, events, k) == Consents(dev, p, k) && BeginsAttest(dev, events, k) == BeginsAttest(dev, p, k)
    {
      EarlierSame(dev, events, k);
    }
  }

  /** A box joins the attested ones at the end of its attestation. */
  lemma AttestedNext(dev: A.Device, app: App, h: History, e: Event, s: A.Source)
    requires Inv(dev, app, h) && Safe(app)
    requires s in Remember(app, h, e, Next(dev, app, e)).attested && s !in h.attested
    ensures var t := Next(dev, app, e);
            t.app.ctx.Attesting? && t.app.ctx.a.state == A.AttestFinished && Remember(app, h, e, t).source == s
  {
    hide A.Inv, Issued, S.Coupled, Attend, SR.Inv, SR.Record, InputsVouched, A.Init, A.Attestable;
    if e.AttestApdu? && app.ctx.Attesting? && 0x02 <= e.sub <= 0x04 {
      AttestStep(dev, app, h, e.sub, e.data);
      hide RunAttest;
    } else if e.AttestApdu? && app.ctx.Attesting? && e.sub == 0x05 {
      GetFrameStep(dev, app, h, e.data);
      hide RunAttest;
    }
  }

  /** A run in which this box was announced, permitted to be attested, and attested in the end. */
  ghost predicate AttestsWithConsent(dev: A.Device, events: seq<Event>, j: nat, s: A.Source)
    requires A.Proper(dev)
  {
    var r := After(dev, events);
    && r.app.ctx.Attesting? && r.app.ctx.a.state == A.AttestFinished && r.h.source == s
    && AttestBegan(dev, events, j) && Permitted(dev, events, j)
    && |events[j].data| >= 55 && Announced(s) == A.NewSource(events[j].data)
  }

  /** No box is attested that a known host or the user's consent did not permit. */
  lemma {:induction false} AttestedConsented(dev: A.Device, events: seq<Event>, s: A.Source)
      returns (run: seq<Event>, j: nat)
    requires A.Proper(dev) && s in After(dev, events).h.attested
    ensures run <= events && AttestsWithConsent(dev, run, j, s)
  {
    hide Next, Inv, A.Proper, Safe, Remember, Permitted, AttestBegan;
    if events == [] {
      NothingAttested();
      assert false;
    } else {
      var p, e := Front(events), Last(events);
      var r := After(dev, p);
      if s in r.h.attested {
        run, j := AttestedConsented(dev, p, s);
      } else {
        AttestedNext(dev, r.app, r.h, e, s);
        run := events;
        j := AttestPermitted(dev, events);
      }
    }
  }

  lemma NothingAttested()
    ensures EmptyHistory().attested == {}
  {
  }

  // ---------- how a signing session began ----------

  /** The `j`-th event started the session that runs now, and none was started later. */
  ghost predicate SessionBegan(dev: A.Device, events: seq<Event>, j: nat)
    requires A.Proper(dev)
  {
    && j < |events| && BeginsSession(dev, events, j)
    && forall k :: j < k < |events| ==>
         After(dev, events[..k]).app.ctx.Signing? && !BeginsSession(dev, events, k) && InSession(dev, events, j, k)
  }

  ghost predicate BeginsSession(dev: A.Device, events: seq<Event>, k: nat)
    requires A.Proper(dev) && k < |events|
  {
    events[k].SignApdu? && events[k].sub == 0x01 && !ResponseTo(dev, events, k).Error?
  }

  /** A subcommand taken by the session that event `j` started bears its number and had what it needs. */
  ghost predicate InSession(dev: A.Device, events: seq<Event>, j: nat, k: nat)
    requires A.Proper(dev) && j < |events| && k < |events| && events[j].SignApdu?
  {
    events[k].SignApdu? && !ResponseTo(dev, events, k).Error? ==>
      events[k].p2 == events[j].env.session && Supplied(events[k].sub, events[k].data, events[k].env)
  }

  lemma SessionNext(dev: A.Device, app: App, h: History, e: Event)
    requires Safe(app) && Next(dev, app, e).app.ctx.Signing?
    ensures var s := Next(dev, app, e);
            if e.SignApdu? && e.sub == 0x01 && !s.response.Error?
            then && e.env.accepted && (e.p2 == 0x01 || e.p2 == 0x02) && InitParameters(e.data, e.p2 == 0x02).Ok?
                 && s.app.ctx.session == e.env.session && s.app.ctx.op == S.Start(e.env.commitment)
            else && app.ctx.Signing? && s.app.ctx.session == app.ctx.session
                 && (e.SignApdu? && !s.response.Error? ==>
                       IsSubcommand(e.sub) && e.p2 == app.ctx.session && Supplied(e.sub, e.data, e.env))
                 && (!e.SignApdu? ==> s.app.ctx == app.ctx)
  {
    hide S.Coupled, S.Exec, ReadCommand, InitParameters, A.Init, OI.Blind, SR.Record, Attend, Supplied, S.Start;
    if e.SignApdu? && app.ctx.Signing? && IsSubcommand(e.sub) {
      SubcommandShape(app, e.sub, e.data, e.env);
      SubcommandAsks(app, e.sub, e.data, e.env);
    } else if e.SignApdu? && e.sub == 0x01 {
      ParametersAreOk(e.data, e.p2 == 0x02);
    } else if e.AttestApdu? && app.ctx.Attesting? {
      AttestAfter(dev, app, e.sub, e.data);
    }
    hide RunSubcommand, RunAttest;
  }

  lemma ParametersAreOk(data: bytes, hasToken: bool)
    ensures !InitParameters(data, hasToken).More?
  {
  }

  /**
   In every run, the current signing session was started by an accepted 0x01, whose number it has,
   and every subcommand it took since bears that number and had the screens and keys it needs.
   */
  lemma {:induction false} SessionStarted(dev: A.Device, events: seq<Event>) returns (j: nat)
    requires A.Proper(dev) && After(dev, events).app.ctx.Signing?
    ensures SessionBegan(dev, events, j) && After(dev, events).app.ctx.session == events[j].env.session
    ensures events[j].env.accepted && (events[j].p2 == 0x01 || events[j].p2 == 0x02)
            && InitParameters(events[j].data, events[j].p2 == 0x02).Ok?
  {
    hide Next, Inv, A.Proper, Safe, Remember, InitParameters, S.Start, Supplied;
    var p, e := Front(events), Last(events);
    var r := After(dev, p);
    SessionNext(dev, r.app, r.h, e);
    assert events[..|p|] == p;
    if e.SignApdu? && e.sub == 0x01 && !Next(dev, r.app, e).response.Error? {
      j := |p|;
    } else {
      j := SessionStarted(dev, p);
      SessionStill(dev, events, j);
    }
  }

  lemma SessionStill(dev: A.Device, events: seq<Event>, j: nat)
    requires A.Proper(dev) && events != [] && SessionBegan(dev, Front(events), j)
    requires After(dev, Front(events)).app.ctx.Signing? && !BeginsSession(dev, events, |events| - 1)
    requires InSession(dev, events, j, |events| - 1)
    ensures SessionBegan(dev, events, j) && events[j] == Front(events)[j]
  {
    hide Next, After, A.Proper, ResponseTo, Inv, Safe, Supplied;
    var p := Front(events);
    assert events[..|p|] == p;
    forall k | 0 <= k < |p|
      ensures events[k] == p[k] && After(dev, events[..k]) == After(dev, p[..k])
      ensures ResponseTo(dev, events, k) == ResponseTo(dev, p, k)
    {
      EarlierSame(dev, events, k);
    }
  }

  /**
   A message to a session under another number ends it, in signing and in attestation alike.
   */
  lemma OtherNumberEnds(dev: A.Device, events: seq<Event>, e: Event)
    requires A.Proper(dev) && (e.SignApdu? || e.AttestApdu?) && !IsBusy(After(dev, events).app)
    ensures var app := After(dev, events).app;
            && (e.SignApdu? && app.ctx.Signing? && IsSubcommand(e.sub) && e.p2 != app.ctx.session ==>
                  Next(dev, app, e) == Step(App(NoCommand, NoScreen, app.issued), Response.Error(BadSession)))
            && (e.AttestApdu? && app.ctx.Attesting? && 0x02 <= e.sub <= 0x05 && e.p2 != app.ctx.a.session ==>
                  Next(dev, app, e) == Step(App(NoCommand, NoScreen, app.issued), Response.Error(BadSession)))
  {
    hide After, A.Proper, S.Coupled, RunSubcommand, RunAttest;
  }
}
