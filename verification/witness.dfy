/**
 Runs from power-on, built event by event: any box within the limits is attested and its frames
 are taken, a session is opened, and subcommands that can be read and are accepted are sent.
 */
module Witness {
  import opened Bytes
  import opened TxTypes
  import opened Reference
  import opened Frames
  import opened Application
  import opened Runs
  import opened Limits
  import opened Messages
  import BS = BoxSerializer
  import S = Signing
  import SR = SigningRefinement
  import A = Attestation
  import T = Theorems

  /** Everything outside the device cooperates. */
  function Willing(): Surroundings {
    Surroundings(7, [], true, true, seq(65, _ => 0), true, true, false, true)
  }

  lemma AfterSnoc(dev: A.Device, events: seq<Event>, e: Event)
    requires A.Proper(dev)
    ensures Safe(After(dev, events).app) && Inv(dev, After(dev, events).app, After(dev, events).h)
    ensures var r, s := After(dev, events), Next(dev, After(dev, events).app, e);
            After(dev, events + [e]) == Reached(s.app, Remember(r.app, r.h, e, s))
  {
    hide Next, Safe, Inv, Remember, A.Proper;
    assert Front(events + [e]) == events;
  }

  // ---------- messages ----------

  lemma AttestRead(s: A.Source)
    requires |s.txId| == ID_LEN
    ensures |AttestMessage(s)| == 55 && A.NewSource(AttestMessage(s)) == Announced(s)
  {
    assert AttestMessage(s)[..55] == AttestMessage(s);
    AttestExact(s, AttestMessage(s));
  }

  // ---------- parts of a box ----------

  /** The first `n` bytes of the tree, and nothing behind it. */
  function TreePart(b: Box, n: nat): Box
    requires n <= |b.tree|
  {
    b.(kind := TreeBox, treeDone := false, tree := b.tree[..n], entries := [], registers := [])
  }

  /** The tree and the first `n` tokens. */
  function TokensPart(b: Box, n: nat): Box
    requires n <= |b.entries|
  {
    b.(entries := b.entries[..n], registers := [])
  }

  /** The tree, the tokens and the first `n` bytes of the registers. */
  function RegistersPart(b: Box, n: nat): Box
    requires n <= |b.registers|
  {
    b.(registers := b.registers[..n])
  }

  /** The end of the next chunk. */
  function ChunkEnd(s: bytes, n: nat): (m: nat)
    requires n <= |s|
    ensures n <= m <= |s| && m - n <= MAX_DATA_CHUNK_LEN && (m < |s| ==> m - n == MAX_DATA_CHUNK_LEN)
            && (n < |s| ==> n < m)
  {
    if n + MAX_DATA_CHUNK_LEN <= |s| then n + MAX_DATA_CHUNK_LEN else |s|
  }

  lemma Next0(s: bytes, n: nat, m: nat)
    requires n <= m <= |s|
    ensures s[..n] + s[n..m] == s[..m]
  {
  }

  /** The next chunk of the tree, the last one completing it. */
  lemma TreeGrows(b: Box, n: nat)
    requires n <= |b.tree| && b.kind == TreeBox && (b.treeDone ==> |b.tree| == b.treeSize)
             && (!b.treeDone ==> |b.tree| < b.treeSize)
    requires !b.treeDone ==> b.entries == [] && b.registers == []
    ensures var m := ChunkEnd(b.tree, n);
            BS.WithChunk(TreePart(b, n), b.tree[n..m])
            == if b.treeDone && m == |b.tree| then TokensPart(b, 0) else TreePart(b, m)
  {
    Next0(b.tree, n, ChunkEnd(b.tree, n));
  }

  lemma RegistersGrow(b: Box, n: nat)
    requires n <= |b.registers|
    ensures var m := ChunkEnd(b.registers, n);
            BS.WithRegisters(RegistersPart(b, n), b.registers[n..m]) == RegistersPart(b, m)
  {
    Next0(b.registers, n, ChunkEnd(b.registers, n));
  }

  // ---------- attesting a box ----------

  /** The session attests this box, received so far; issued frames and other attested boxes are as given. */
  ghost predicate At(dev: A.Device, events: seq<Event>, s: A.Source, issued: set<(bytes, bytes)>, others: set<A.Source>)
    requires A.Proper(dev)
  {
    var r := After(dev, events);
    && r.app.ctx.Attesting? && r.app.ctx.a.session == 7 && !IsBusy(r.app) && r.app.issued == issued && r.h.source == s
    && r.app.ctx.a.state == (if Complete(s.box) then A.AttestFinished else A.AttestApproved)
    && r.h.attested == if Complete(s.box) then others + {s} else others
  }

  /** Nothing is on the screen. */
  ghost predicate Idle(dev: A.Device, events: seq<Event>, issued: set<(bytes, bytes)>, attested: set<A.Source>)
    requires A.Proper(dev)
  {
    var r := After(dev, events);
    !IsBusy(r.app) && r.app.issued == issued && r.h.attested == attested
  }

  lemma NothingYet(dev: A.Device)
    requires A.Proper(dev)
    ensures Idle(dev, [], {}, {})
  {
    hide Inv, A.Proper;
  }

  lemma InitAccepted(s: A.Source)
    requires Fits(s)
    ensures |AttestMessage(s)| == 55 && A.Init(AttestMessage(s), false, 7).Ok?
  {
    AttestRead(s);
    assert A.NewSource(AttestMessage(s)).box == Announced(s).box;
  }

  lemma BeginAttest(dev: A.Device, events: seq<Event>, s: A.Source, issued: set<(bytes, bytes)>, others: set<A.Source>)
      returns (more: seq<Event>)
    requires A.Proper(dev) && Idle(dev, events, issued, others) && Fits(s)
    ensures At(dev, more, Announced(s), issued, others)
  {
    hide Fits, AttestMessage, Inv, Safe, A.Proper, After, A.Init;
    InitAccepted(s);
    SourceRead(s);
    var e := AttestApdu(0x01, 0x01, AttestMessage(s), Willing());
    AfterSnoc(dev, events, e);
    InitApproved(AttestMessage(s), 7);
    more := events + [e];
  }

  lemma SourceRead(s: A.Source)
    requires Fits(s)
    ensures |AttestMessage(s)| == 55 && A.NewSource(AttestMessage(s)) == Announced(s)
  {
    AttestRead(s);
  }

  lemma InitApproved(data: bytes, session: u8)
    ensures A.Init(data, false, session).Ok? ==> A.Init(data, false, session).s.session == session
  {
  }

  /** A message of the three kinds that the session accepts. */
  lemma Attend1(dev: A.Device, events: seq<Event>, s: A.Source, issued: set<(bytes, bytes)>, others: set<A.Source>,
                sub: u8, data: ApduData) returns (more: seq<Event>)
    requires A.Proper(dev) && At(dev, events, s, issued, others) && 0x02 <= sub <= 0x04 && !Complete(s.box)
    requires !RunAttest(dev, After(dev, events).app, sub, data).response.Error?
    ensures At(dev, more, Attend(s, sub, data), issued, others)
  {
    hide A.Inv, Issued, S.Coupled, A.Proper, After, Attend, RunAttest, Complete;
    var e := AttestApdu(sub, 7, data, Willing());
    AfterSnoc(dev, events, e);
    var r := After(dev, events);
    AttestStep(dev, r.app, r.h, sub, data);
    var t := RunAttest(dev, r.app, sub, data).app;
    CompleteWhenFinished(dev, t.ctx.a, Attend(s, sub, data));
    SessionStays(dev, r.app, sub, data);
    more := events + [e];
  }

  lemma CompleteWhenFinished(dev: A.Device, a: A.AttestCtx, s: A.Source)
    requires A.Inv(dev, a, s)
    ensures a.state == A.AttestFinished <==> Complete(s.box)
  {
  }

  lemma SessionStays(dev: A.Device, app: App, sub: u8, data: bytes)
    requires app.ctx.Attesting? && 0x02 <= sub <= 0x04 && !RunAttest(dev, app, sub, data).response.Error?
    ensures var t := RunAttest(dev, app, sub, data).app;
            && t.ctx.a.session == app.ctx.a.session
            && (t.ctx.a.state == app.ctx.a.state || t.ctx.a.state == A.AttestFinished)
  {
    hide BS.AddTree, BS.AddTokens, BS.AddRegisters;
  }

  lemma TreeAccepted(dev: A.Device, a: A.AttestCtx, s: A.Source, chunk: bytes)
    requires A.Inv(dev, a, s) && a.state == A.AttestApproved && !s.box.treeDone
             && |s.box.tree| + |chunk| <= s.box.treeSize
    requires |s.box.tree| + |chunk| < s.box.treeSize ==> |chunk| == MAX_DATA_CHUNK_LEN
    ensures A.TreeChunk(dev, a, chunk).Ok?
  {
  }

  /** One token, written in full, is read back. */
  lemma OnePair(t: Token)
    requires |t.id| == ID_LEN
    ensures var data := PairsBytes([t]);
            |data| == 40 && data[40..] == [] && BS.ReadEntry(data, BS.FullIds) == Ok(Entry(InFull, t))
  {
    var ts := [t];
    var data := PairsBytes(ts);
    assert ts[1..] == [] && PairsBytes([]) == [];
    assert data == t.id + ToBE(t.amount, 8) + PairsBytes(ts[1..]);
    assert data[..32] == t.id && data[32..40] == ToBE(t.amount, 8);
    ReadBack64(t.amount);
  }

  lemma TokenAccepted(dev: A.Device, a: A.AttestCtx, s: A.Source, t: Token)
    requires A.Inv(dev, a, s) && a.state == A.AttestApproved && |t.id| == ID_LEN
    requires s.box.treeDone && s.box.registers == [] && |s.box.entries| < s.box.tokensCount <= TOKEN_MAX_COUNT
    requires forall i :: 0 <= i < |s.box.entries| ==> s.box.entries[i].token.id != t.id
    ensures A.Tokens(dev, a, PairsBytes([t])).Ok?
  {
    hide A.Inv, PairsBytes;
    AtTokens(dev, a, s);
    OnePair(t);
    var r, data := A.RunOf(a), PairsBytes([t]);
    assert BS.OneToken(r, data, BS.FullIds).Ok?;
    assert BS.TokenLoop(r, data, BS.FullIds).Ok?;
  }

  lemma AtTokens(dev: A.Device, a: A.AttestCtx, s: A.Source)
    requires A.Inv(dev, a, s) && a.state == A.AttestApproved
    requires s.box.treeDone && s.box.registers == [] && |s.box.entries| < s.box.tokensCount
    ensures a.box.state == BS.TreeAdded && a.box.tokensCount != 0 && a.tokens == TokensOf(s.box.entries)
  {
  }

  lemma RegistersAccepted(dev: A.Device, a: A.AttestCtx, s: A.Source, chunk: bytes)
    requires A.Inv(dev, a, s) && a.state == A.AttestApproved
    requires s.box.treeDone && |s.box.entries| == s.box.tokensCount && chunk != []
    requires |s.box.registers| + |chunk| <= s.box.registersSize
    ensures A.Registers(dev, a, chunk).Ok?
  {
  }

  /** What is known of a session that has not received the whole box. */
  lemma Facts(dev: A.Device, events: seq<Event>, s: A.Source, issued: set<(bytes, bytes)>, others: set<A.Source>)
    requires A.Proper(dev) && At(dev, events, s, issued, others) && !Complete(s.box)
    ensures var app := After(dev, events).app;
            app.ctx.Attesting? && app.ctx.a.state == A.AttestApproved && A.Inv(dev, app.ctx.a, s)
  {
    hide A.Inv, Issued, S.Coupled, A.Proper;
  }

  lemma AcceptedAnswers(dev: A.Device, app: App, data: bytes)
    requires app.ctx.Attesting?
    ensures A.TreeChunk(dev, app.ctx.a, data).Ok? ==> !RunAttest(dev, app, 0x02, data).response.Error?
    ensures A.Tokens(dev, app.ctx.a, data).Ok? ==> !RunAttest(dev, app, 0x03, data).response.Error?
    ensures A.Registers(dev, app.ctx.a, data).Ok? ==> !RunAttest(dev, app, 0x04, data).response.Error?
  {
    hide A.TreeChunk, A.Tokens, A.Registers;
  }

  lemma NotYet(b: Box)
    requires !b.treeDone || |b.registers| < b.registersSize
    ensures !Complete(b)
  {
  }

  /** The same source with another box. */
  function Of(s: A.Source, b: Box): A.Source {
    s.(box := b)
  }

  /** What the limits say of a box to be attested. */
  lemma SourceFacts(s: A.Source)
    requires Fits(s)
    ensures var b := s.box;
            && b.kind == TreeBox && b.treeDone && |b.tree| == b.treeSize
            && |b.entries| == b.tokensCount <= TOKEN_MAX_COUNT
            && |b.registers| == b.registersSize
            && (forall i :: 0 <= i < |b.entries| ==> NamedInFull(b.entries[i]))
            && (forall i, j :: 0 <= i < j < |b.entries| ==> b.entries[i].token.id != b.entries[j].token.id)
  {
    var ts := TokensOf(s.box.entries);
    assert forall i, j :: 0 <= i < j < |ts| ==> ts[i].id != ts[j].id;
  }

  lemma {:induction false} GiveTree(
      dev: A.Device, events: seq<Event>, s: A.Source, issued: set<(bytes, bytes)>, others: set<A.Source>, n: nat)
      returns (more: seq<Event>)
    requires A.Proper(dev) && Fits(s) && n <= |s.box.tree| && (n == 0 || n < |s.box.tree|)
    requires At(dev, events, Of(s, TreePart(s.box, n)), issued, others)
    ensures At(dev, more, Of(s, TokensPart(s.box, 0)), issued, others)
    decreases |s.box.tree| - n
  {
    hide Fits, A.Inv, At, A.Proper, After, RunAttest, A.TreeChunk, Complete, NamedInFull, BS.WithChunk;
    SourceFacts(s);
    var b := s.box;
    var t, m := Of(s, TreePart(b, n)), ChunkEnd(b.tree, n);
    var chunk := b.tree[n..m];
    TreeGrows(b, n);
    NotYet(t.box);
    Facts(dev, events, t, issued, others);
    TreeAccepted(dev, After(dev, events).app.ctx.a, t, chunk);
    AcceptedAnswers(dev, After(dev, events).app, chunk);
    more := Attend1(dev, events, t, issued, others, 0x02, chunk);
    if m < |b.tree| {
      more := GiveTree(dev, more, s, issued, others, m);
    }
  }

  /** The next token of a box. */
  lemma TokensGrow(s: A.Source, n: nat)
    requires Fits(s) && n < |s.box.entries|
    ensures var t, e := Of(s, TokensPart(s.box, n)), s.box.entries[n];
            && |e.token.id| == ID_LEN && |PairsBytes([e.token])| == 40
            && Attend(t, 0x03, PairsBytes([e.token])) == Of(s, TokensPart(s.box, n + 1))
            && !Complete(t.box) && t.box.treeDone && t.box.registers == []
            && |t.box.entries| < t.box.tokensCount <= TOKEN_MAX_COUNT
            && forall i :: 0 <= i < |t.box.entries| ==> t.box.entries[i].token.id != e.token.id
  {
    SourceFacts(s);
    hide Fits, PairsBytes;
    var b := s.box;
    var e := b.entries[n];
    assert NamedInFull(e);
    OnePair(e.token);
    assert BS.Entries([], BS.FullIds) == [];
    assert BS.Entries(PairsBytes([e.token]), BS.FullIds) == [e];
    assert b.entries[..n] + [e] == b.entries[..n + 1];
  }

  lemma {:induction false} GiveTokens(
      dev: A.Device, events: seq<Event>, s: A.Source, issued: set<(bytes, bytes)>, others: set<A.Source>, n: nat)
      returns (more: seq<Event>)
    requires A.Proper(dev) && Fits(s) && n <= |s.box.entries|
    requires At(dev, events, Of(s, TokensPart(s.box, n)), issued, others)
    ensures At(dev, more, Of(s, TokensPart(s.box, |s.box.entries|)), issued, others)
    decreases |s.box.entries| - n
  {
    if n == |s.box.entries| {
      return events;
    }
    hide Fits, A.Inv, At, A.Proper, After, RunAttest, A.Tokens, Complete, PairsBytes, Attend;
    var t, e := Of(s, TokensPart(s.box, n)), s.box.entries[n];
    TokensGrow(s, n);
    Facts(dev, events, t, issued, others);
    TokenAccepted(dev, After(dev, events).app.ctx.a, t, e.token);
    AcceptedAnswers(dev, After(dev, events).app, PairsBytes([e.token]));
    more := Attend1(dev, events, t, issued, others, 0x03, PairsBytes([e.token]));
    more := GiveTokens(dev, more, s, issued, others, n + 1);
  }

  lemma {:induction false} GiveRegisters(
      dev: A.Device, events: seq<Event>, s: A.Source, issued: set<(bytes, bytes)>, others: set<A.Source>, n: nat)
      returns (more: seq<Event>)
    requires A.Proper(dev) && Fits(s) && n <= |s.box.registers|
    requires At(dev, events, Of(s, RegistersPart(s.box, n)), issued, others)
    ensures At(dev, more, s, issued, others)
    decreases |s.box.registers| - n
  {
    hide Fits, A.Inv, At, A.Proper, After, RunAttest, A.Registers, Complete, NamedInFull, BS.WithRegisters;
    var b := s.box;
    if n == |b.registers| {
      assert b.registers[..n] == b.registers && Of(s, RegistersPart(b, n)) == s;
      return events;
    }
    SourceFacts(s);
    var t, m := Of(s, RegistersPart(b, n)), ChunkEnd(b.registers, n);
    var chunk := b.registers[n..m];
    RegistersGrow(b, n);
    NotYet(t.box);
    assert chunk != [];
    Facts(dev, events, t, issued, others);
    RegistersAccepted(dev, After(dev, events).app.ctx.a, t, chunk);
    AcceptedAnswers(dev, After(dev, events).app, chunk);
    more := Attend1(dev, events, t, issued, others, 0x04, chunk);
    more := GiveRegisters(dev, more, s, issued, others, m);
  }

  /** Every box within the limits is attested when it is sent, from any idle state. */
  lemma AttestBox(dev: A.Device, events: seq<Event>, s: A.Source, issued: set<(bytes, bytes)>, others: set<A.Source>)
      returns (more: seq<Event>)
    requires A.Proper(dev) && Idle(dev, events, issued, others) && Fits(s)
    ensures At(dev, more, s, issued, others)
  {
    PartsMeet(s);
    hide Fits, At, A.Proper, After, Idle;
    more := BeginAttest(dev, events, s, issued, others);
    more := GiveTree(dev, more, s, issued, others, 0);
    more := GiveTokens(dev, more, s, issued, others, 0);
    more := GiveRegisters(dev, more, s, issued, others, 0);
  }

  lemma PartsMeet(s: A.Source)
    requires Fits(s)
    ensures Announced(s) == Of(s, TreePart(s.box, 0))
    ensures Of(s, TokensPart(s.box, |s.box.entries|)) == Of(s, RegistersPart(s.box, 0))
  {
    assert s.box.entries[..|s.box.entries|] == s.box.entries;
  }

  /** The frame of an attested box with its code. */
  ghost function Issue(dev: A.Device, s: A.Source, i: nat): (bytes, bytes)
    requires |s.box.entries| <= TOKEN_MAX_COUNT && i < FramesCount(|s.box.entries|)
  {
    (A.FrameOf(dev, s, i), dev.mac(A.FrameOf(dev, s, i)))
  }

  /** A frame of the attested box is handed out when it is asked for. */
  lemma TakeFrame(
      dev: A.Device, events: seq<Event>, s: A.Source, issued: set<(bytes, bytes)>, others: set<A.Source>, i: byte)
      returns (more: seq<Event>)
    requires A.Proper(dev) && At(dev, events, s, issued, others) && Fits(s)
    requires |s.box.entries| <= TOKEN_MAX_COUNT && i < FramesCount(|s.box.entries|)
    ensures Idle(dev, more, issued + {Issue(dev, s, i)}, others + {s})
  {
    hide Fits, A.Inv, A.Proper, After, A.FrameOf, Inv, S.Coupled, Complete, Next, A.Attestable;
    WholeBox(s);
    FinishedFacts(dev, events, s, issued, others);
    var e, r := AttestApdu(0x05, 7, [i], Willing()), After(dev, events);
    AfterSnoc(dev, events, e);
    A.GetFrameGenuine(dev, r.app.ctx.a, s, [i]);
    FrameGiven(dev, r.app.ctx.a, s, i);
    FrameEvent(dev, r.app, i);
    AttendFrame(s, [i]);
    more := events + [e];
  }

  lemma WholeBox(s: A.Source)
    requires Fits(s)
    ensures Complete(s.box) && A.Attestable(s)
  {
  }

  lemma FrameEvent(dev: A.Device, app: App, i: byte)
    requires Safe(app) && app.ctx.Attesting? && app.ctx.a.session == 7 && !IsBusy(app)
    requires var o := A.GetFrame(dev, app.ctx.a, [i]); o.Ok? && o.s.0 == app.ctx.a && o.s.1.Attested?
    ensures var x := A.GetFrame(dev, app.ctx.a, [i]).s.1;
            Next(dev, app, AttestApdu(0x05, 7, [i], Willing()))
            == Step(app.(issued := app.issued + {(x.frame, x.code)}), AttestedFrame(x.frame, x.code))
  {
    hide A.GetFrame;
  }

  lemma FinishedFacts(
      dev: A.Device, events: seq<Event>, s: A.Source, issued: set<(bytes, bytes)>, others: set<A.Source>)
    requires A.Proper(dev) && At(dev, events, s, issued, others) && Complete(s.box)
    ensures var app := After(dev, events).app;
            app.ctx.Attesting? && app.ctx.a.state == A.AttestFinished && A.Inv(dev, app.ctx.a, s)
  {
    hide A.Inv, Issued, S.Coupled, A.Proper;
  }

  lemma FrameGiven(dev: A.Device, a: A.AttestCtx, s: A.Source, i: byte)
    requires A.Inv(dev, a, s) && a.state == A.AttestFinished
    requires |s.box.entries| <= TOKEN_MAX_COUNT && i < FramesCount(|s.box.entries|)
    ensures A.GetFrame(dev, a, [i]).Ok?
  {
  }

  // ---------- signing ----------

  /** Where a session takes place: the device, the frames it issued and the boxes it attested. */
  datatype Desk = Desk(dev: A.Device, issued: set<(bytes, bytes)>, attested: set<A.Source>)

  /** Started and not confirmed yet. */
  predicate Running(p: S.Operation) {
    p.state != S.OpInitialized && p.state != S.Finalized
  }

  ghost predicate InContext(x: Desk, events: seq<Event>, d: Draft)
    requires A.Proper(x.dev)
  {
    var r := After(x.dev, events);
    r.app.ctx.Signing? && r.app.ctx.session == 7 && r.h.draft == d && Idle(x.dev, events, x.issued, x.attested)
  }

  /** The operation of the session. */
  ghost function OpAt(x: Desk, events: seq<Event>): S.Operation
    requires A.Proper(x.dev)
  {
    var r := After(x.dev, events);
    if r.app.ctx.Signing? then r.app.ctx.op else S.Start([])
  }

  /** A session is running, and this was described. */
  ghost predicate InSession(x: Desk, events: seq<Event>, d: Draft)
    requires A.Proper(x.dev)
  {
    InContext(x, events, d) && Running(OpAt(x, events))
  }

  /** What is known of the operation of a session. */
  lemma OpFacts(x: Desk, events: seq<Event>, d: Draft)
    requires A.Proper(x.dev) && InSession(x, events, d)
    ensures InContext(x, events, d)
    ensures var p := OpAt(x, events); SR.Inv(p, d) && Exact(p, d) && Running(p) && S.Coupled(p)
  {
    hide Inv, A.Proper, SR.Inv, Exact, S.Coupled, After;
    ModestAlways(x.dev, events);
    T.SessionInv(x.dev, After(x.dev, events));
    CoupledNow(OpAt(x, events), d);
  }

  /** The subcommand is accepted, and it is not the confirmation. */
  ghost predicate Takes(p: S.Operation, c: S.Command) {
    S.Coupled(p) && S.Exec(p, c).Ok? && Running(S.Exec(p, c).s)
  }

  /** The path 44'/429'/0'/0/0. */
  function PathMessage(): ApduData {
    [5, 0x80, 0, 0, 44, 0x80, 0, 1, 0xAD, 0x80, 0, 0, 0, 0, 0, 0, 0, 0, 0, 0, 0]
  }

  /** Main network and the path. */
  function StartMessage(): ApduData {
    [0] + PathMessage()
  }

  lemma StartParameters()
    ensures ReadPath(PathMessage()).Ok? && InitParameters(StartMessage(), false).Ok?
  {
    assert StartMessage()[1..] == PathMessage();
    assert |ReadPath(PathMessage()).s| == 5;
  }

  lemma OpenSession(x: Desk, events: seq<Event>, base: bytes) returns (more: seq<Event>)
    requires A.Proper(x.dev) && Idle(x.dev, events, x.issued, x.attested)
    ensures InContext(x, more, NewDraft(base)) && OpAt(x, more) == S.Start(base)
  {
    hide Inv, A.Proper, After, InitParameters, Safe, StartMessage, S.Start;
    StartParameters();
    var e := SignApdu(0x01, 0x01, StartMessage(), Willing().(commitment := base));
    AfterSnoc(x.dev, events, e);
    more := events + [e];
  }

  /** A subcommand that can be read and is accepted takes operation and description one step further. */
  lemma Send(x: Desk, events: seq<Event>, d: Draft, sub: u8, data: ApduData, env: Surroundings, c: S.Command)
      returns (more: seq<Event>)
    requires A.Proper(x.dev) && InContext(x, events, d) && IsSubcommand(sub) && env.screens
    requires ReadCommand(x.issued, sub, data, env) == Ok(c) && S.Coupled(OpAt(x, events))
             && S.Exec(OpAt(x, events), c).Ok?
    ensures var q := S.Exec(OpAt(x, events), c).s; var r := After(x.dev, more);
            && r.app == App(Signing(7, q), ScreenAfter(sub, q, env), x.issued)
            && r.h.draft == SR.Record(d, c) && r.h.attested == x.attested
  {
    hide Inv, A.Proper, After, S.Exec, S.Coupled, ReadCommand, SR.Record;
    var e := SignApdu(sub, 7, data, env);
    AfterSnoc(x.dev, events, e);
    more := events + [e];
  }

  /** The same when no screen is shown. */
  lemma Say(x: Desk, events: seq<Event>, d: Draft, sub: u8, data: ApduData, env: Surroundings, c: S.Command)
      returns (more: seq<Event>)
    requires A.Proper(x.dev) && InContext(x, events, d) && IsSubcommand(sub) && sub != 0x20 && env.screens && !env.warns
    requires ReadCommand(x.issued, sub, data, env) == Ok(c) && Takes(OpAt(x, events), c)
    ensures InSession(x, more, SR.Record(d, c))
  {
    hide Inv, A.Proper, After, S.Exec, S.Coupled, ReadCommand, SR.Record;
    more := Send(x, events, d, sub, data, env, c);
  }

  /** Confirmed and approved, a finished transaction is signed. */
  lemma Sign(x: Desk, events: seq<Event>, d: Draft) returns (more: seq<Event>, e: Event)
    requires A.Proper(x.dev) && InContext(x, events, d) && OpAt(x, events).state == S.TxFinished
    ensures Next(x.dev, After(x.dev, more).app, e).response.Signature?
    ensures After(x.dev, more).h.draft == d && After(x.dev, more).h.attested == x.attested
    ensures more == events + [SignApdu(0x20, 7, [], Willing())]
  {
    hide Inv, A.Proper, After, S.Coupled;
    var c := SignApdu(0x20, 7, [], Willing());
    AfterSnoc(x.dev, events, c);
    more, e := events + [c], UserAnswer(true, Willing());
    AfterSnoc(x.dev, more, e);
  }

  /** The frame with its code; the first one carries the length of the extension. */
  ghost function FrameMessage(dev: A.Device, s: A.Source, i: nat, size: u32): bytes
    requires |s.box.entries| <= TOKEN_MAX_COUNT && i < FramesCount(|s.box.entries|)
  {
    Issue(dev, s, i).0 + Issue(dev, s, i).1 + (if i == 0 then ToBE(size, 4) else [])
  }

  /** An issued frame, sent back with its code, is read as the frame of its box. */
  lemma FrameRead(dev: A.Device, s: A.Source, f: Frame, size: u32, issued: set<(bytes, bytes)>)
    requires A.Proper(dev) && FrameFrom(dev, s, f) && Issue(dev, s, f.index) in issued
    ensures |FrameMessage(dev, s, f.index, size)| <= 255
    ensures ReadCommand(issued, 0x12, FrameMessage(dev, s, f.index, size), Willing())
         == Ok(S.InputFrame(f, if f.index == 0 then size else 0))
  {
    var ts, i := TokensOf(s.box.entries), f.index;
    ShareIds(ts, i);
    FrameDataLayout(A.BoxId(dev, s), FramesCount(|ts|), i, s.box.value, Share(ts, i));
    FrameMessageRead(A.FrameOf(dev, s, i), dev.mac(A.FrameOf(dev, s, i)), f, Share(ts, i), size, issued);
  }

  lemma ShareIds(ts: seq<Token>, i: nat)
    requires FullIds(ts) && 4 * i <= |ts|
    ensures FullIds(Share(ts, i))
  {
    assert forall k :: 0 <= k < |Share(ts, i)| ==> Share(ts, i)[k] == ts[4 * i + k];
  }

  lemma FrameMessageRead(frame: bytes, code: bytes, f: Frame, ts: seq<Token>, size: u32, issued: set<(bytes, bytes)>)
    requires |f.id| == ID_LEN && |ts| <= FRAME_MAX_TOKENS_COUNT && FullIds(ts) && |code| == SIGNATURE_LEN
    requires frame == FrameData(f.id, f.framesCount, f.index, f.value, ts) && f.pairs == PairsBytes(ts)
    requires (frame, code) in issued
    ensures var msg := frame + code + (if f.index == 0 then ToBE(size, 4) else []);
            |msg| <= 255
            && ReadCommand(issued, 0x12, msg, Willing()) == Ok(S.InputFrame(f, if f.index == 0 then size else 0))
  {
    var tail: bytes := if f.index == 0 then ToBE(size, 4) else [];
    FrameDataLayout(f.id, f.framesCount, f.index, f.value, ts);
    MessageLayout(frame, code, tail, |ts|);
    hide FrameData, PairsBytes, FullIds, DataLength, ReadFrame, ReadCommand, ToBE;
    var msg := frame + code + tail;
    FrameReadBack(msg, f.id, f.framesCount, f.index, f.value, ts);
    ExtensionRead(frame, code, tail, |ts|, size);
    CommandRead(issued, msg);
  }

  lemma CommandRead(issued: set<(bytes, bytes)>, msg: bytes)
    requires var n := DataLength(msg); n != 0 && (msg[..n], msg[n..n + SIGNATURE_LEN]) in issued
    requires ReadFrame(msg).Ok?
    ensures ReadCommand(issued, 0x12, msg, Willing()) == Ok(S.InputFrame(ReadFrame(msg).s.0, ReadFrame(msg).s.1))
  {
    hide ReadFrame;
  }

  lemma MessageLayout(frame: bytes, code: bytes, tail: bytes, k: nat)
    requires k <= FRAME_MAX_TOKENS_COUNT && |frame| == PREFIX_LEN + PAIR_SIZE * k && frame[42] == k
    requires |code| == SIGNATURE_LEN
    ensures var msg := frame + code + tail;
            DataLength(msg) == |frame| && msg[..|frame|] == frame && msg[|frame|..|frame| + SIGNATURE_LEN] == code
  {
    var msg := frame + code + tail;
    assert msg[42] == frame[42];
  }

  /** The extension length behind a first frame is the one that was put there. */
  lemma ExtensionRead(frame: bytes, code: bytes, tail: bytes, k: nat, size: u32)
    requires k <= FRAME_MAX_TOKENS_COUNT && |frame| == PREFIX_LEN + PAIR_SIZE * k && frame[42] == k
    requires |code| == SIGNATURE_LEN && tail == if frame[33] == 0 then ToBE(size, 4) else []
    ensures var r := ReadFrame(frame + code + tail); r.Ok? && r.s.1 == if frame[33] == 0 then size else 0
  {
    var msg := frame + code + tail;
    assert msg[42] == frame[42] && msg[33] == frame[33];
    if frame[33] == 0 {
      assert msg[|frame| + SIGNATURE_LEN..|frame| + SIGNATURE_LEN + 4] == tail;
      ReadBack(0, size);
    }
  }
}
