/**
 On the device two messages of the same kind do the same as one that carries both, wherever
 they are accepted.
 */
module Joining {
  import opened Bytes
  import opened TxTypes
  import opened Reference
  import opened FullSerializer
  import OI = OutputInfo
  import BS = BoxSerializer
  import IS = InputSerializer
  import S = Signing
  import SR = SigningRefinement
  import R = Runs
  import T = Theorems

  /** The message that carries what `a` and `b` carry, if they can be joined. */
  function Join(a: S.Command, b: S.Command): Option<S.Command> {
    match (a, b)
    case (TreeChunk(x), TreeChunk(y)) => Some(S.TreeChunk(x + y))
    case (Registers(x), Registers(y)) => Some(S.Registers(x + y))
    case (Extension(x), Extension(y)) => Some(S.Extension(x + y))
    case (TokenIds(x), TokenIds(y)) => Some(S.TokenIds(x + y))
    case (DataInputs(x), DataInputs(y)) => Some(S.DataInputs(x + y))
    case (OutputTokens(x), OutputTokens(y)) => Some(S.OutputTokens(x + y))
    case _ => None
  }

  // ---------- the loops ----------

  lemma {:induction false} TableLoopJoin(table: seq<bytes>, n: TokenCount, x: bytes, y: bytes)
    requires TableLoop(table, n, x).Ok?
    ensures TableLoop(table, n, x + y) == TableLoop(TableLoop(table, n, x).s, n, y)
    decreases |x|
  {
    if x == [] {
      assert x + y == y;
    } else {
      assert (x + y)[..ID_LEN] == x[..ID_LEN] && (x + y)[ID_LEN..] == x[ID_LEN..] + y;
      TableLoopJoin(table + [x[..ID_LEN]], n, x[ID_LEN..], y);
    }
  }

  lemma {:induction false} DataInputLoopJoin(w: World, x: bytes, y: bytes)
    requires DataInputLoop(w, x).Ok?
    ensures DataInputLoop(w, x + y) == DataInputLoop(DataInputLoop(w, x).s, y)
    decreases |x|
  {
    if x == [] {
      assert x + y == y;
    } else {
      assert (x + y)[..ID_LEN] == x[..ID_LEN] && (x + y)[ID_LEN..] == x[ID_LEN..] + y;
      DataInputLoopJoin(
        w.(tx := w.tx.(dataInputsCount := w.tx.dataInputsCount - 1), log := w.log + x[..ID_LEN]), x[ID_LEN..], y);
    }
  }

  lemma OneTokenPrefix(r: BS.Run, x: bytes, y: bytes, names: BS.Names)
    requires names.TableIndexes? && names.distinct <= |names.ids| && BS.OneToken(r, x, names).Ok?
    ensures BS.OneToken(r, x + y, names) == BS.OneToken(r, x, names) && (x + y)[12..] == x[12..] + y
  {
    assert (x + y)[..4] == x[..4] && (x + y)[4..12] == x[4..12];
    assert BS.ReadEntry(x + y, names) == BS.ReadEntry(x, names);
  }

  lemma {:induction false} TokenLoopJoin(r: BS.Run, x: bytes, y: bytes, names: BS.Names)
    requires names.TableIndexes? && names.distinct <= |names.ids| && BS.TokenLoop(r, x, names).Ok?
    ensures BS.TokenLoop(r, x + y, names) == BS.TokenLoop(BS.TokenLoop(r, x, names).s, y, names)
    decreases |x|
  {
    hide BS.OneToken;
    if x == [] {
      assert x + y == y;
    } else {
      OneTokenPrefix(r, x, y, names);
      TokenLoopJoin(BS.OneToken(r, x, names).s, x[12..], y, names);
    }
  }

  // ---------- lists of ids ----------

  lemma IdsJoin(w: World, x: bytes, y: bytes)
    requires !AddTokens(w, x).Fail? && !AddTokens(AddTokens(w, x).s, y).Fail?
    ensures AddTokens(w, x + y) == AddTokens(AddTokens(w, x).s, y)
  {
    TableLoopJoin(w.amounts.table, w.tx.distinct, x, y);
    hide TableLoop;
  }

  lemma DataInputsJoin(w: World, x: bytes, y: bytes)
    requires w.tx.distinct <= |w.amounts.table|
    requires !AddDataInputs(w, x).Fail? && AddDataInputs(w, x).s.tx.distinct <= |AddDataInputs(w, x).s.amounts.table|
    requires !AddDataInputs(AddDataInputs(w, x).s, y).Fail?
    ensures AddDataInputs(w, x + y) == AddDataInputs(AddDataInputs(w, x).s, y)
  {
    DataInputLoopFrame(w, x);
    DataInputLoopFrame(w, x + y);
    DataInputLoopJoin(w, x, y);
    hide DataInputLoop;
  }

  // ---------- extensions and registers ----------

  lemma ExtensionJoin(r: IS.InputRun, x: bytes, y: bytes)
    requires IS.AddExtension(r, x).More? && !IS.AddExtension(IS.AddExtension(r, x).s, y).Fail?
    ensures IS.AddExtension(r, x + y) == IS.AddExtension(IS.AddExtension(r, x).s, y)
  {
    Assoc(r.log, x, y);
  }

  lemma ExtensionsJoin(w: World, x: bytes, y: bytes)
    requires InputSafe(w) && !AddExtension(w, x).Fail?
    requires InputSafe(AddExtension(w, x).s) && !AddExtension(AddExtension(w, x).s, y).Fail?
    ensures AddExtension(w, x + y) == AddExtension(AddExtension(w, x).s, y)
  {
    var i := IS.AddExtension(InputRunOf(w), x);
    if i.More? {
      assert InputRunOf(AfterInput(w, i.s)) == i.s;
      ExtensionJoin(InputRunOf(w), x, y);
    }
  }

  lemma RegisterJoin(r: BS.Run, x: bytes, y: bytes)
    requires BS.AddRegisters(r, x).More? && !BS.AddRegisters(BS.AddRegisters(r, x).s, y).Fail?
    ensures BS.AddRegisters(r, x + y) == BS.AddRegisters(BS.AddRegisters(r, x).s, y)
  {
    Assoc(r.log, x, y);
  }

  /** A box message that wants more leaves the box, with its listener, in the union. */
  lemma WantsMore(w: World, q: BS.Run)
    requires q.l.Signer?
    ensures BoxRunOf(AfterBox(w, q)) == q && EndBoxStep(w, More(q)) == More(AfterBox(w, q))
    ensures forall o :: EndBoxStep(AfterBox(w, q), o) == EndBoxStep(w, o) || !(o.Fail? || o.s.l.Signer?)
  {
  }

  lemma RegistersJoin(w: World, x: bytes, y: bytes)
    requires w.tx.state == OutputsStarted && BoxSafe(w) && BS.AddRegisters(BoxRunOf(w), x).More?
    requires BoxSafe(AddBoxRegisters(w, x).s) && !AddBoxRegisters(AddBoxRegisters(w, x).s, y).Fail?
    ensures AddBoxRegisters(w, x + y) == AddBoxRegisters(AddBoxRegisters(w, x).s, y)
  {
    var o := BS.AddRegisters(BoxRunOf(w), x);
    assert o.s.l == BoxRunOf(w).l;
    WantsMore(w, o.s);
    RegisterJoin(BoxRunOf(w), x, y);
    var q := BS.AddRegisters(o.s, y);
    assert q.s.l.Signer?;
  }

  // ---------- tokens ----------

  lemma {:induction false} LoopKeeps(r: BS.Run, x: bytes, names: BS.Names)
    requires names.TableIndexes? ==> names.distinct <= |names.ids|
    requires r.l.Signer? && BS.TokenLoop(r, x, names).Ok?
    ensures var q := BS.TokenLoop(r, x, names).s;
            q.l.Signer? && q.l.amounts.table == r.l.amounts.table && q.box.state == r.box.state
    decreases |x|
  {
    if x != [] {
      LoopKeeps(BS.OneToken(r, x, names).s, x[BS.EntrySize(names)..], names);
    }
  }

  lemma TokenJoin(r: BS.Run, x: bytes, y: bytes, names: BS.Names)
    requires names.TableIndexes? && names.distinct <= |names.ids| && r.l.Signer? && BS.AddTokens(r, x, names).More?
    ensures var q := BS.AddTokens(r, x, names).s;
            && q.l.Signer? && q.l.amounts.table == r.l.amounts.table
            && BS.AddTokens(r, x + y, names) == BS.AddTokens(q, y, names)
            && (BS.AddTokens(q, y, names).Fail? || BS.AddTokens(q, y, names).s.l.Signer?)
  {
    var q := BS.TokenLoop(r, x, names).s;
    LoopKeeps(r, x, names);
    TokenLoopJoin(r, x, y, names);
    if BS.TokenLoop(q, y, names).Ok? {
      LoopKeeps(q, y, names);
    }
    hide BS.TokenLoop;
  }

  lemma TokensJoin(w: World, x: bytes, y: bytes)
    requires w.tx.state == OutputsStarted && BoxSafe(w) && BS.AddTokens(BoxRunOf(w), x, NamesOf(w)).More?
    requires BoxSafe(AddBoxTokens(w, x).s) && !AddBoxTokens(AddBoxTokens(w, x).s, y).Fail?
    ensures AddBoxTokens(w, x + y) == AddBoxTokens(AddBoxTokens(w, x).s, y)
  {
    hide BS.AddTokens;
    TokenJoin(BoxRunOf(w), x, y, NamesOf(w));
    var q := BS.AddTokens(BoxRunOf(w), x, NamesOf(w)).s;
    WantsMore(w, q);
    assert NamesOf(AfterBox(w, q)) == NamesOf(w);
  }

  // ---------- trees ----------

  function SeenBy(l: BS.Listener, o: OI.Output, done: bool): BS.Listener
    requires l.Signer?
  {
    BS.Signer(l.amounts, if done then OI.SetBoxFinished(o) else o)
  }

  /** Apart from the output information, which is told twice, the two chunks do what the joined one does. */
  lemma TreeJoin(r: BS.Run, o: OI.Output, x: bytes, y: bytes)
    requires r.l.Signer? && BS.AddTree(r, x).More?
    requires var r1 := BS.AddTree(r, x).s.(l := BS.Signer(r.l.amounts, o)); !BS.AddTree(r1, y).Fail?
    ensures var r1 := BS.AddTree(r, x).s.(l := BS.Signer(r.l.amounts, o));
            var q, q' := BS.AddTree(r1, y), BS.AddTree(r, x + y);
            && !q'.Fail? && q'.Ok? == q.Ok? && q.s.l.Signer? && |x| >= MAX_DATA_CHUNK_LEN
            && var done := q.s.box.state == BS.BoxFinished;
               q.s.l == SeenBy(q.s.l, o, done) && q'.s == q.s.(l := SeenBy(q.s.l, r.l.output, done))
  {
    Assoc(r.log, x, y);
  }

  lemma OutputJoin(o: OI.Output, x: bytes, y: bytes, done: bool, last: bool)
    requires |x| >= MAX_DATA_CHUNK_LEN && OI.AddTreeChunk(o, x, false).Ok?
    ensures var p := OI.AddTreeChunk(o, x, false).s;
            && OI.AddTreeChunk(if done then OI.SetBoxFinished(p) else p, y, last)
            == OI.AddTreeChunk(if done then OI.SetBoxFinished(o) else o, x + y, last)
  {
    assert [] + x + y == [] + (x + y);
    if o.payload.TreeHasher? {
      Assoc(o.payload.absorbed, x, y);
    }
  }

  // ---------- subcommands ----------

  lemma DoIdsJoin(p: S.Operation, x: bytes, y: bytes)
    requires S.DoTokenIds(p, x).Ok? && S.DoTokenIds(S.DoTokenIds(p, x).s, y).Ok?
    ensures S.DoTokenIds(p, x + y) == S.DoTokenIds(S.DoTokenIds(p, x).s, y)
  {
    hide AddTokens;
    IdsJoin(p.w, x, y);
  }

  lemma DoDataInputsJoin(p: S.Operation, x: bytes, y: bytes)
    requires S.Coupled(p) && S.DoDataInputs(p, x).Ok?
    requires S.Coupled(S.DoDataInputs(p, x).s) && S.DoDataInputs(S.DoDataInputs(p, x).s, y).Ok?
    ensures S.DoDataInputs(p, x + y) == S.DoDataInputs(S.DoDataInputs(p, x).s, y)
  {
    hide AddDataInputs;
    DataInputsJoin(p.w, x, y);
  }

  lemma DoExtensionsJoin(p: S.Operation, x: bytes, y: bytes)
    requires S.Coupled(p) && S.DoExtension(p, x).Ok?
    requires S.Coupled(S.DoExtension(p, x).s) && S.DoExtension(S.DoExtension(p, x).s, y).Ok?
    ensures S.DoExtension(p, x + y) == S.DoExtension(S.DoExtension(p, x).s, y)
  {
    hide AddExtension;
    ExtensionsJoin(p.w, x, y);
  }

  /** Once the registers are complete no more are taken. */
  lemma RegistersOnce(p: S.Operation, x: bytes, y: bytes)
    requires S.Coupled(p) && S.DoRegisters(p, x).Ok?
    requires S.Coupled(S.DoRegisters(p, x).s) && S.DoRegisters(S.DoRegisters(p, x).s, y).Ok?
    ensures p.state == S.OutputsOpen && BS.AddRegisters(BoxRunOf(p.w), x).More?
  {
  }

  lemma DoRegistersJoin(p: S.Operation, x: bytes, y: bytes)
    requires S.Coupled(p) && S.DoRegisters(p, x).Ok?
    requires S.Coupled(S.DoRegisters(p, x).s) && S.DoRegisters(S.DoRegisters(p, x).s, y).Ok?
    ensures S.DoRegisters(p, x + y) == S.DoRegisters(S.DoRegisters(p, x).s, y)
  {
    RegistersOnce(p, x, y);
    WantsMore(p.w, BS.AddRegisters(BoxRunOf(p.w), x).s);
    hide AddBoxRegisters;
    StillOpen(p, AddBoxRegisters(p.w, x));
    RegistersJoin(p.w, x, y);
  }

  /** A box message that wants more does not finish the transaction. */
  lemma StillOpen(p: S.Operation, o: Outcome<World>)
    requires p.state == S.OutputsOpen && o.More? && o.s.tx.state == OutputsStarted
    ensures S.AcceptAndCheck(p, o) == Ok(p.(w := o.s))
  {
  }

  lemma TokensOnce(p: S.Operation, x: bytes, y: bytes)
    requires S.Coupled(p) && S.DoOutputTokens(p, x).Ok?
    requires S.Coupled(S.DoOutputTokens(p, x).s) && S.DoOutputTokens(S.DoOutputTokens(p, x).s, y).Ok?
    ensures p.state == S.OutputsOpen && BS.AddTokens(BoxRunOf(p.w), x, NamesOf(p.w)).More?
  {
    hide BS.TokenLoop;
  }

  lemma DoTokensJoin(p: S.Operation, x: bytes, y: bytes)
    requires S.Coupled(p) && S.DoOutputTokens(p, x).Ok?
    requires S.Coupled(S.DoOutputTokens(p, x).s) && S.DoOutputTokens(S.DoOutputTokens(p, x).s, y).Ok?
    ensures S.DoOutputTokens(p, x + y) == S.DoOutputTokens(S.DoOutputTokens(p, x).s, y)
  {
    TokensOnce(p, x, y);
    hide BS.AddTokens;
    StillOpen(p, AddBoxTokens(p.w, x));
    TokensJoin(p.w, x, y);
    hide AddBoxTokens;
  }

  lemma TreesOnce(p: S.Operation, x: bytes, y: bytes)
    requires S.Coupled(p) && S.DoTreeChunk(p, x).Ok?
    requires S.Coupled(S.DoTreeChunk(p, x).s) && S.DoTreeChunk(S.DoTreeChunk(p, x).s, y).Ok?
    ensures p.state == S.OutputsOpen && BS.AddTree(BoxRunOf(p.w), x).More?
  {
    hide OI.AddTreeChunk, BS.OnType;
  }

  lemma DoTreesJoin(p: S.Operation, x: bytes, y: bytes)
    requires S.Coupled(p) && S.DoTreeChunk(p, x).Ok?
    requires S.Coupled(S.DoTreeChunk(p, x).s) && S.DoTreeChunk(S.DoTreeChunk(p, x).s, y).Ok?
    ensures S.DoTreeChunk(p, x + y) == S.DoTreeChunk(S.DoTreeChunk(p, x).s, y)
  {
    TreesOnce(p, x, y);
    hide BS.AddTree, OI.AddTreeChunk, OI.SetBoxFinished;
    var r := BoxRunOf(p.w);
    FirstPart(p, x);
    var o := OI.AddTreeChunk(p.w.output, x, false).s;
    var r1 := BS.AddTree(r, x).s.(l := BS.Signer(r.l.amounts, o));
    TreeJoin(r, o, x, y);
    var q := BS.AddTree(r1, y);
    OutputJoin(p.w.output, x, y, q.s.box.state == BS.BoxFinished, q.Ok?);
  }

  /** The first chunk only waits: the box shrinks, the hash grows, the output information has absorbed it. */
  lemma FirstPart(p: S.Operation, x: bytes)
    requires S.Coupled(p) && p.state == S.OutputsOpen && S.DoTreeChunk(p, x).Ok? && BS.AddTree(BoxRunOf(p.w), x).More?
    ensures OI.AddTreeChunk(p.w.output, x, false).Ok?
    ensures var s, r := BS.AddTree(BoxRunOf(p.w), x).s, S.DoTreeChunk(p, x).s;
            && r.state == S.OutputsOpen && r.w.tx == p.w.tx.(slot := BoxSlot(s.box)) && r.w.log == s.log
            && r.w.amounts == p.w.amounts && r.w.output == OI.AddTreeChunk(p.w.output, x, false).s
  {
    hide OI.AddTreeChunk;
  }

  /** Wherever two joinable messages are accepted, the joined one is accepted and leads to the same state. */
  lemma JoinedExec(p: S.Operation, a: S.Command, b: S.Command)
    requires Join(a, b).Some? && S.Coupled(p) && S.Exec(p, a).Ok?
    requires S.Coupled(S.Exec(p, a).s) && S.Exec(S.Exec(p, a).s, b).Ok?
    ensures S.Exec(p, Join(a, b).value) == S.Exec(S.Exec(p, a).s, b)
  {
    hide S.Coupled, S.DoTokenIds, S.DoDataInputs, S.DoExtension, S.DoRegisters, S.DoOutputTokens, S.DoTreeChunk;
    match (a, b)
    case (TreeChunk(x), TreeChunk(y)) => DoTreesJoin(p, x, y);
    case (Registers(x), Registers(y)) => DoRegistersJoin(p, x, y);
    case (Extension(x), Extension(y)) => DoExtensionsJoin(p, x, y);
    case (TokenIds(x), TokenIds(y)) => DoIdsJoin(p, x, y);
    case (DataInputs(x), DataInputs(y)) => DoDataInputsJoin(p, x, y);
    case (OutputTokens(x), OutputTokens(y)) => DoTokensJoin(p, x, y);
  }

  // ---------- whole sessions ----------

  /** The first subcommand of an accepted session is accepted. */
  lemma FirstAccepted(p: S.Operation, d: Draft, cs: seq<S.Command>)
    requires SR.Inv(p, d) && cs != [] && T.ExecAll(p, d, cs).Ok?
    ensures S.Coupled(p) && S.Exec(p, cs[0]).Ok?
  {
    hide S.Exec, SR.Record, S.Coupled;
    R.CoupledNow(p, d);
    SR.ExecKeeps(p, d, cs[0]);
  }

  /** What the device does depends on its state, not on what was described. */
  lemma {:induction false} SameOutcome(p: S.Operation, d: Draft, e: Draft, cs: seq<S.Command>)
    requires SR.Inv(p, d) && SR.Inv(p, e)
    ensures T.ExecAll(p, d, cs) == T.ExecAll(p, e, cs)
    decreases |cs|
  {
    hide SR.Inv, S.Exec, SR.Record, S.Coupled;
    if cs != [] {
      R.CoupledNow(p, d);
      SR.ExecKeeps(p, d, cs[0]);
      SR.ExecKeeps(p, e, cs[0]);
      var o := S.Exec(p, cs[0]);
      if o.Ok? {
        SameOutcome(o.s, SR.Record(d, cs[0]), SR.Record(e, cs[0]), cs[1..]);
      }
    }
  }

  /**
   Anywhere in an accepted list of operation messages, two joinable ones may be replaced by the joined
   one, and the operation goes on as before.  A joined tree message is longer than an APDU carries.
   */
  lemma {:induction false} SessionJoined(
      p: S.Operation, d: Draft, before: seq<S.Command>, a: S.Command, b: S.Command, after: seq<S.Command>)
    requires SR.Inv(p, d) && Join(a, b).Some? && T.ExecAll(p, d, before + [a, b] + after).Ok?
    ensures T.ExecAll(p, d, before + [Join(a, b).value] + after) == T.ExecAll(p, d, before + [a, b] + after)
    decreases |before|
  {
    hide SR.Inv, S.Exec, SR.Record, S.Coupled, Join, T.ExecAll;
    var c := Join(a, b).value;
    var two, one := before + [a, b] + after, before + [c] + after;
    FirstAccepted(p, d, two);
    var q, e := T.OneMore(p, d, two);
    if before == [] {
      assert two[0] == a && two[1..] == [b] + after && two[1..][0] == b && two[1..][1..] == after;
      assert one[0] == c && one[1..] == after;
      FirstAccepted(q, e, two[1..]);
      var r, f := T.OneMore(q, e, two[1..]);
      JoinedExec(p, a, b);
      var r', f' := T.OneMore(p, d, one);
      SameOutcome(r, f, f', after);
    } else {
      assert two[0] == before[0] && two[1..] == before[1..] + [a, b] + after;
      assert one[0] == before[0] && one[1..] == before[1..] + [c] + after;
      var q', e' := T.OneMore(p, d, one);
      SessionJoined(q, e, before[1..], a, b, after);
    }
  }
}
