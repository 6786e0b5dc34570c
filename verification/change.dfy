/**
 Change outputs over whole runs: the tree of each pays to the key that came with its own
 subcommand 0x18, and the path kept for the screen is the path of that subcommand.
 Source: src/commands/signtx/operations/stx_op_p2pk.c, src/ergo/ergo_tree.c,
 src/commands/signtx/stx_output.c.
 */
module Change {
  import opened Bytes
  import opened TxTypes
  import opened Reference
  import opened Application
  import opened Runs
  import ErgoTree
  import FS = FullSerializer
  import FR = FullRefinement
  import IS = InputSerializer
  import BS = BoxSerializer
  import OI = OutputInfo
  import S = Signing
  import SR = SigningRefinement
  import A = Attestation
  import SC = Screens

  predicate IsChange(b: Box) {
    b.treeDone && b.kind == ChangeBox
  }

  // ---------- one subcommand ----------

  lemma LastOpen(p: S.Operation, d: Draft)
    requires SR.Inv(p, d) && p.state == S.OutputsOpen && p.w.tx.slot.box.state == BS.Initialized
    ensures d.outputs != [] && !Last(d.outputs).treeDone && Last(d.outputs).kind == TreeBox
  {
    SR.Unfold(p.w, d);
    var x := BS.Signing(d.inputs, Front(d.outputs));
    SR.TreeNotDone(FS.BoxRunOf(p.w), FR.BoxBase(d), x, Last(d.outputs));
  }

  /** A tree is only taken by a box that has none. */
  lemma TreeNeedsRoom(p: S.Operation, d: Draft, c: S.Command)
    requires SR.Inv(p, d) && S.Coupled(p) && S.Exec(p, c).Ok? && (c.TreeChunk? || c.FeeTree? || c.ChangeTree?)
    ensures d.outputs != [] && !Last(d.outputs).treeDone && Last(d.outputs).kind == TreeBox
  {
    hide SR.Inv, BS.TreeIsAdded, OI.AddTreeChunk, OI.SetFee, OI.SetBip32;
    LastOpen(p, d);
  }

  /** A whole tree behind anything else would be too long to be a change tree. */
  lemma WholeTree(p: S.Operation, d: Draft, c: S.Command)
    requires SR.Inv(p, d) && S.Coupled(p) && S.Exec(p, c).Ok? && c.ChangeTree? && d.outputs != []
    ensures var e := SR.Record(d, c); e.outputs != [] && ErgoTree.PaysTo(Last(e.outputs).tree, c.key)
  {
    hide S.Exec, S.Coupled, SR.Inv, ErgoTree.PaysTo;
    SR.ExecKeeps(p, d, c);
    ChangeEnds(p, c);
    LastGenuine(S.Exec(p, c).s, SR.Record(d, c));
    PrefixEmpty(Last(d.outputs).tree, c.key);
  }

  lemma PrefixEmpty(prefix: bytes, key: ErgoTree.RawPublicKey)
    ensures var tree := prefix + ErgoTree.GenerateP2pk(key);
            ErgoTree.ParseP2pk(tree).Some? ==> ErgoTree.PaysTo(tree, key)
  {
    ErgoTree.GenerateParse(key);
    var tree := ErgoTree.GenerateP2pk(key);
    assert prefix == [] ==> prefix + tree == tree;
  }

  lemma ChangeEnds(p: S.Operation, c: S.Command)
    requires S.Coupled(p) && S.Exec(p, c).Ok? && c.ChangeTree?
    ensures S.Exec(p, c).s.state == S.OutputsOpen || S.Exec(p, c).s.state == S.TxFinished
  {
    hide FS.AddBoxKnownTree, OI.SetBip32;
  }

  lemma LastGenuine(p: S.Operation, d: Draft)
    requires SR.Inv(p, d) && (p.state == S.OutputsOpen || p.state == S.TxFinished)
    ensures d.outputs != [] && OI.Genuine(Last(d.outputs))
  {
    hide FR.Inv, OI.ShowsTree, S.Coupled;
  }

  /** Which outputs are change outputs after a subcommand. */
  lemma RecordChange(d: Draft, c: S.Command, k: nat)
    requires k < |SR.Record(d, c).outputs| && IsChange(SR.Record(d, c).outputs[k])
    requires (c.TreeChunk? || c.FeeTree? || c.ChangeTree?) && d.outputs != [] ==>
               !Last(d.outputs).treeDone && Last(d.outputs).kind == TreeBox
    ensures (c.ChangeTree? && k == |d.outputs| - 1)
            || (k < |d.outputs| && IsChange(d.outputs[k]) && d.outputs[k].tree == SR.Record(d, c).outputs[k].tree)
  {
    hide BS.Entries, IS.WithFrame, Pieces;
    var e := SR.Record(d, c);
    if |e.outputs| == |d.outputs| && d.outputs != [] && k < |d.outputs| - 1 {
      assert e.outputs[k] == Front(e.outputs)[k] == Front(d.outputs)[k] == d.outputs[k];
    }
  }

  /** A change output is one from before, with the same tree, or the last one made by this very subcommand. */
  lemma ChangeStep(p: S.Operation, d: Draft, c: S.Command, k: nat)
    requires SR.Inv(p, d) && S.Coupled(p) && S.Exec(p, c).Ok?
    requires k < |SR.Record(d, c).outputs| && IsChange(SR.Record(d, c).outputs[k])
    ensures var tree := SR.Record(d, c).outputs[k].tree;
            if c.ChangeTree? && k == |d.outputs| - 1
            then |SR.Record(d, c).outputs| == k + 1 && !d.outputs[k].treeDone && ErgoTree.PaysTo(tree, c.key)
            else k < |d.outputs| && IsChange(d.outputs[k]) && d.outputs[k].tree == tree
  {
    hide S.Exec, S.Coupled, SR.Inv, SR.Record, ErgoTree.PaysTo;
    if c.TreeChunk? || c.FeeTree? || c.ChangeTree? {
      TreeNeedsRoom(p, d, c);
    }
    RecordChange(d, c, k);
    if c.ChangeTree? {
      WholeTree(p, d, c);
      SameCount(d, c);
    }
  }

  lemma SameCount(d: Draft, c: S.Command)
    requires c.ChangeTree?
    ensures |SR.Record(d, c).outputs| == |d.outputs|
  {
  }

  // ---------- the path on the screen ----------

  lemma StepKeepsPath(p: S.Operation, d: Draft, o: Outcome<BS.Run>, b': Box)
    requires SR.Inv(p, d) && p.state == S.OutputsOpen && p.w.tx.slot.box.state != BS.BoxFinished && !o.Fail?
    requires BS.StepOk(FS.BoxRunOf(p.w), o, FR.BoxBase(d), BS.Signing(d.inputs, Front(d.outputs)), b')
    ensures p.w.output.kind == OI.Bip32 ==> FS.EndBoxStep(p.w, o).s.output.payload == p.w.output.payload
  {
    hide FR.Inv, BS.StepOk, BS.Invariant, FR.BoxBase;
    SR.Unfold(p.w, d);
    SR.BoxStepOutput(FS.BoxRunOf(p.w), o, FR.BoxBase(d), BS.Signing(d.inputs, Front(d.outputs)), Last(d.outputs), b');
    PayloadStays(p.w.output);
    hide OI.SetBoxFinished;
  }

  lemma PayloadStays(o: OI.Output)
    ensures o.kind == OI.Bip32 ==> OI.SetBoxFinished(o).payload == o.payload
  {
  }

  lemma TokensKeepPath(p: S.Operation, d: Draft, data: bytes)
    requires SR.Inv(p, d) && S.DoOutputTokens(p, data).Ok? && p.w.output.kind == OI.Bip32
    ensures S.DoOutputTokens(p, data).s.w.output.payload == p.w.output.payload
  {
    hide FR.Inv, BS.StepOk, BS.Invariant, FR.BoxBase;
    SR.Unfold(p.w, d);
    var b := Last(d.outputs);
    BS.AddTokensKeeps(FS.BoxRunOf(p.w), data, FS.NamesOf(p.w), FR.BoxBase(d),
                      BS.Signing(d.inputs, Front(d.outputs)), b);
    StepKeepsPath(p, d, BS.AddTokens(FS.BoxRunOf(p.w), data, FS.NamesOf(p.w)),
                  BS.WithTokens(b, data, FS.NamesOf(p.w)));
  }

  lemma RegistersKeepPath(p: S.Operation, d: Draft, data: bytes)
    requires SR.Inv(p, d) && S.DoRegisters(p, data).Ok? && p.w.output.kind == OI.Bip32
    ensures S.DoRegisters(p, data).s.w.output.payload == p.w.output.payload
  {
    hide FR.Inv, BS.StepOk, BS.Invariant, FR.BoxBase;
    SR.Unfold(p.w, d);
    var b := Last(d.outputs);
    BS.AddRegistersKeeps(FS.BoxRunOf(p.w), data, FR.BoxBase(d), BS.Signing(d.inputs, Front(d.outputs)), b);
    StepKeepsPath(p, d, BS.AddRegisters(FS.BoxRunOf(p.w), data), BS.WithRegisters(b, data));
  }

  /** The messages before the outputs do not touch the output information. */
  lemma EarlierKeepPath(p: S.Operation, c: S.Command)
    requires S.Coupled(p) && S.Exec(p, c).Ok?
    requires c.TokenIds? || c.InputFrame? || c.Extension? || c.DataInputs? || c.Confirm?
    ensures S.Exec(p, c).s.w.output == p.w.output
  {
    if c.DataInputs? {
      FS.DataInputLoopFrame(p.w, c.data);
    }
    hide IS.AddTokens, FS.DataInputLoop;
  }

  lemma ChangeKeepsPath(p: S.Operation, c: S.Command)
    requires S.Coupled(p) && S.Exec(p, c).Ok? && c.ChangeTree?
    ensures S.Exec(p, c).s.w.output.payload == OI.Path(c.path)
  {
    hide FS.AddBoxKnownTree;
  }

  lemma ChangeShown(p: S.Operation, d: Draft)
    requires SR.Inv(p, d) && p.state != S.OpInitialized && d.outputs != [] && IsChange(Last(d.outputs))
    ensures p.w.output.kind == OI.Bip32
  {
  }

  /** The last output is a change output, shown with this path. */
  ghost predicate ShowsPath(p: S.Operation, d: Draft, path: seq<u32>) {
    d.outputs != [] && IsChange(Last(d.outputs)) ==> p.w.output.kind == OI.Bip32 && p.w.output.payload == OI.Path(path)
  }

  /** A subcommand other than a change tree leaves the path of a change output alone. */
  lemma PathStep(p: S.Operation, d: Draft, c: S.Command, path: seq<u32>)
    requires SR.Inv(p, d) && S.Coupled(p) && S.Exec(p, c).Ok?
    requires if c.ChangeTree? then path == c.path
             else d.outputs != [] && IsChange(Last(d.outputs)) && ShowsPath(p, d, path)
    requires !c.NewOutputBox? && !c.StartTx?
    ensures ShowsPath(S.Exec(p, c).s, SR.Record(d, c), path)
  {
    SR.ExecKeeps(p, d, c);
    if c.TreeChunk? || c.FeeTree? {
      TreeNeedsRoom(p, d, c);
      assert false;
    } else if c.ChangeTree? {
      ChangeKeepsPath(p, c);
    } else if c.OutputTokens? {
      TokensKeepPath(p, d, c.data);
    } else if c.Registers? {
      RegistersKeepPath(p, d, c.data);
    } else {
      EarlierKeepPath(p, c);
    }
    NotInitial(p, c);
    hide S.Exec, SR.Inv, S.Coupled, SR.Record;
    var q, e := S.Exec(p, c).s, SR.Record(d, c);
    if e.outputs != [] && IsChange(Last(e.outputs)) {
      ChangeShown(q, e);
    }
  }

  lemma NotInitial(p: S.Operation, c: S.Command)
    requires S.Coupled(p) && S.Exec(p, c).Ok?
    ensures S.Exec(p, c).s.state != S.OpInitialized
  {
    hide FS.Init, FS.AddTokens, FS.AddInput, FS.AddInputTokens, FS.AddExtension, FS.AddDataInputs, FS.AddBox,
         FS.AddBoxTree, FS.AddBoxKnownTree, FS.AddBoxTokens, FS.AddBoxRegisters, OI.AddTreeChunk, OI.SetFee,
         OI.SetBip32;
  }

  // ---------- every run ----------

  lemma CommandKind(issued: set<(bytes, bytes)>, sub: u8, data: bytes, env: Surroundings)
    ensures var c := ReadCommand(issued, sub, data, env);
            c.Ok? && c.s.ChangeTree? ==> sub == 0x18 && c.s.key == env.key && ReadPath(data) == Ok(c.s.path)
    ensures var c := ReadCommand(issued, sub, data, env); c.Ok? ==> (c.s.ChangeTree? <==> sub == 0x18)
  {
    hide ReadSignedFrame;
  }

  /** This event is an accepted subcommand of the session. */
  ghost predicate IsTaken(app: App, h: History, e: Event, s: Step)
    requires Safe(app)
  {
    && e.SignApdu? && app.ctx.Signing? && s.app.ctx.Signing? && !s.response.Error?
    && SC.Supplied(e.sub, e.data, e.env) && ReadCommand(app.issued, e.sub, e.data, e.env).Ok?
    && var c := ReadCommand(app.issued, e.sub, e.data, e.env).s;
       S.Exec(app.ctx.op, c) == Ok(s.app.ctx.op) && Remember(app, h, e, s).draft == SR.Record(h.draft, c)
  }

  /** The description changes by an accepted subcommand or by a new session only. */
  lemma DraftNext(dev: A.Device, app: App, h: History, e: Event)
    requires Safe(app)
    ensures var s := Next(dev, app, e); var d := Remember(app, h, e, s).draft;
            || IsTaken(app, h, e, s) || d.outputs == []
            || (d == h.draft && (s.app.ctx.Signing? ==> s.app.ctx == app.ctx))
  {
    hide S.Coupled, S.Exec, ReadCommand, InitParameters, A.Init, OI.Blind, SR.Record, Attend, SC.Supplied, S.Start;
    if e.SignApdu? && app.ctx.Signing? && IsSubcommand(e.sub) {
      SubcommandShape(app, e.sub, e.data, e.env);
      SC.SubcommandAsks(app, e.sub, e.data, e.env);
    } else if e.AttestApdu? && app.ctx.Attesting? {
      SC.AttestAfter(dev, app, e.sub, e.data);
    }
    hide RunSubcommand, RunAttest;
  }

  predicate Has(d: Draft, k: nat, tree: bytes) {
    k < |d.outputs| && IsChange(d.outputs[k]) && d.outputs[k].tree == tree
  }

  /** The `k`-th output got its tree by event `j`, a subcommand 0x18 with the key that the tree pays to. */
  ghost predicate ChangeFrom(dev: A.Device, events: seq<Event>, k: nat, j: nat)
    requires A.Proper(dev)
  {
    var d := After(dev, events).h.draft;
    && j < |events| && k < |d.outputs|
    && events[j].SignApdu? && events[j].sub == 0x18 && !SC.ResponseTo(dev, events, j).Error?
    && events[j].env.keyFound && ReadPath(events[j].data).Ok?
    && NoTreeYet(After(dev, events[..j]).h.draft, k)
    && ErgoTree.PaysTo(d.outputs[k].tree, events[j].env.key)
    && forall m :: j < m <= |events| ==> Has(After(dev, events[..m]).h.draft, k, d.outputs[k].tree)
  }

  predicate NoTreeYet(d: Draft, k: nat) {
    |d.outputs| == k + 1 && !d.outputs[k].treeDone
  }

  lemma ChangeStill(dev: A.Device, events: seq<Event>, k: nat, j: nat)
    requires A.Proper(dev) && events != [] && ChangeFrom(dev, Front(events), k, j)
    requires Has(After(dev, events).h.draft, k, After(dev, Front(events)).h.draft.outputs[k].tree)
    ensures ChangeFrom(dev, events, k, j) && events[j] == Front(events)[j]
  {
    hide Next, After, A.Proper, Inv, Safe, SC.ResponseTo, NoTreeYet, ErgoTree.PaysTo, ReadPath;
    var p, tree := Front(events), After(dev, events).h.draft.outputs[k].tree;
    SC.EarlierSame(dev, events, j);
    forall m | j < m <= |events|
      ensures Has(After(dev, events[..m]).h.draft, k, tree)
    {
      if m <= |p| {
        assert events[..m] == p[..m];
      } else {
        assert events[..m] == events;
      }
    }
  }

  lemma ChangeNow(dev: A.Device, events: seq<Event>, k: nat)
    requires A.Proper(dev) && events != []
    requires var e, d := Last(events), After(dev, events).h.draft;
             && e.SignApdu? && e.sub == 0x18 && !Next(dev, After(dev, Front(events)).app, e).response.Error?
             && e.env.keyFound && ReadPath(e.data).Ok? && k < |d.outputs| && IsChange(d.outputs[k])
             && NoTreeYet(After(dev, Front(events)).h.draft, k) && ErgoTree.PaysTo(d.outputs[k].tree, e.env.key)
    ensures ChangeFrom(dev, events, k, |events| - 1)
  {
    hide Next, After, A.Proper, Inv, Safe, NoTreeYet, ErgoTree.PaysTo, ReadPath;
    assert events[..|events| - 1] == Front(events) && events[..|events|] == events;
  }

  lemma RecordCount(d: Draft, c: S.Command)
    ensures var n := |SR.Record(d, c).outputs|;
            n == if c.StartTx? then 0 else if c.NewOutputBox? then |d.outputs| + 1 else |d.outputs|
    ensures c.NewOutputBox? ==> !IsChange(Last(SR.Record(d, c).outputs))
  {
    hide IS.WithFrame, Pieces, BS.Entries;
  }

  /** The path shown with the last output is the one of event `j`. */
  ghost predicate PathFrom(r: Reached, k: nat, e: Event) {
    r.app.ctx.Signing? && k == |r.h.draft.outputs| - 1 ==>
      e.SignApdu? && ReadPath(e.data).Ok? && ShowsPath(r.app.ctx.op, r.h.draft, ReadPath(e.data).s)
  }

  /** A subcommand makes the output a change output, or it was one and stays what it was. */
  ghost predicate Made(p: S.Operation, d: Draft, c: S.Command, k: nat)
    requires S.Coupled(p) && S.Exec(p, c).Ok? && k < |SR.Record(d, c).outputs|
  {
    && c.ChangeTree? && NoTreeYet(d, k) && ErgoTree.PaysTo(SR.Record(d, c).outputs[k].tree, c.key)
    && ShowsPath(S.Exec(p, c).s, SR.Record(d, c), c.path)
  }

  lemma StepCases(p: S.Operation, d: Draft, c: S.Command, k: nat, path: seq<u32>)
    requires SR.Inv(p, d) && S.Coupled(p) && S.Exec(p, c).Ok?
    requires k < |SR.Record(d, c).outputs| && IsChange(SR.Record(d, c).outputs[k])
    ensures var e := SR.Record(d, c);
            Made(p, d, c, k)
            || (&& Has(d, k, e.outputs[k].tree)
                && (k == |e.outputs| - 1 && (k == |d.outputs| - 1 ==> ShowsPath(p, d, path))
                    ==> k == |d.outputs| - 1 && ShowsPath(S.Exec(p, c).s, e, path)))
  {
    hide S.Exec, S.Coupled, SR.Inv, SR.Record, ErgoTree.PaysTo, ShowsPath;
    ChangeStep(p, d, c, k);
    RecordCount(d, c);
    if c.ChangeTree? && k == |d.outputs| - 1 {
      PathStep(p, d, c, c.path);
    } else if k == |SR.Record(d, c).outputs| - 1 && ShowsPath(p, d, path) {
      PathStep(p, d, c, path);
    }
  }

  /** The run goes on by a subcommand, which made the output or left it as it was. */
  lemma SubcommandCases(dev: A.Device, r: Reached, e: Event, k: nat, path: seq<u32>)
    requires A.Proper(dev) && Inv(dev, r.app, r.h) && Safe(r.app) && IsTaken(r.app, r.h, e, Next(dev, r.app, e))
    requires var d := Remember(r.app, r.h, e, Next(dev, r.app, e)).draft; k < |d.outputs| && IsChange(d.outputs[k])
    ensures var s := Next(dev, r.app, e); var d := Remember(r.app, r.h, e, s).draft;
            if e.sub == 0x18 && NoTreeYet(r.h.draft, k)
            then && e.env.keyFound && ReadPath(e.data).Ok? && ErgoTree.PaysTo(d.outputs[k].tree, e.env.key)
                 && ShowsPath(s.app.ctx.op, d, ReadPath(e.data).s)
            else && Has(r.h.draft, k, d.outputs[k].tree)
                 && (k == |d.outputs| - 1 && (k == |r.h.draft.outputs| - 1 ==> ShowsPath(r.app.ctx.op, r.h.draft, path))
                     ==> k == |r.h.draft.outputs| - 1 && ShowsPath(s.app.ctx.op, d, path))
  {
    hide Next, Remember, SR.Inv, S.Exec, S.Coupled, SR.Record, ReadCommand, ReadPath, ErgoTree.PaysTo, ShowsPath,
         Issued, InputsVouched;
    CommandKind(r.app.issued, e.sub, e.data, e.env);
    StepCases(r.app.ctx.op, r.h.draft, ReadCommand(r.app.issued, e.sub, e.data, e.env).s, k, path);
  }

  /**
   In every run the tree of each change output pays to the key that came with the output's own
   subcommand 0x18, and while the output is the last one its path is kept for the screen.
   */
  lemma {:induction false} ChangeGenuine(dev: A.Device, events: seq<Event>, k: nat) returns (j: nat)
    requires A.Proper(dev)
    requires k < |After(dev, events).h.draft.outputs| && IsChange(After(dev, events).h.draft.outputs[k])
    ensures ChangeFrom(dev, events, k, j) && j < |events| && events[j].SignApdu? && ReadPath(events[j].data).Ok?
    ensures PathFrom(After(dev, events), k, events[j])
  {
    hide Next, A.Proper, Safe, Remember, Inv, ReadPath, ErgoTree.PaysTo, ChangeFrom, ShowsPath, IsTaken;
    assert After(dev, []).h == EmptyHistory();
    var p, e := Front(events), Last(events);
    var r := After(dev, p);
    DraftNext(dev, r.app, r.h, e);
    if IsTaken(r.app, r.h, e, Next(dev, r.app, e)) {
      TakenFacts(dev, r, e);
      SubcommandCases(dev, r, e, k, []);
      if e.sub == 0x18 && NoTreeYet(r.h.draft, k) {
        ChangeNow(dev, events, k);
        j := |p|;
      } else {
        j := ChangeGenuine(dev, p, k);
        SubcommandCases(dev, r, e, k, ReadPath(p[j].data).s);
        ChangeStill(dev, events, k, j);
      }
    } else {
      j := ChangeGenuine(dev, p, k);
      ChangeStill(dev, events, k, j);
    }
  }

  lemma TakenFacts(dev: A.Device, r: Reached, e: Event)
    requires Safe(r.app) && IsTaken(r.app, r.h, e, Next(dev, r.app, e))
    ensures e.SignApdu? && r.app.ctx.Signing? && !Next(dev, r.app, e).response.Error?
    ensures Next(dev, r.app, e).app.ctx.Signing?
  {
    hide Next, Remember, S.Coupled;
  }
}
