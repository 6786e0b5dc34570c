/**
 How the host cuts trees, registers, extensions and lists of ids and tokens into messages does
 not matter: the transaction described, and with it the message signed, is the same.
 */
module Chunking {
  import opened Bytes
  import opened TxTypes
  import opened Reference
  import opened Theorems
  import FR = FullRefinement
  import BS = BoxSerializer
  import S = Signing
  import SR = SigningRefinement
  import R = Runs

  /** All tokens of the message can be read: whole entries with announced indexes. */
  predicate WholeTokens(d: Draft, data: bytes) {
    12 * |BS.Entries(data, SR.Announced(d))| == |data|
  }

  /** The message `c` carries what `a` and `b` carry one after the other. */
  predicate Joins(d: Draft, a: S.Command, b: S.Command, c: S.Command) {
    match (a, b)
    case (TreeChunk(x), TreeChunk(y)) => c == S.TreeChunk(x + y)
    case (Registers(x), Registers(y)) => c == S.Registers(x + y)
    case (Extension(x), Extension(y)) => c == S.Extension(x + y)
    case (TokenIds(x), TokenIds(y)) => c == S.TokenIds(x + y) && |x| % ID_LEN == 0
    case (DataInputs(x), DataInputs(y)) => c == S.DataInputs(x + y) && |x| % ID_LEN == 0
    case (OutputTokens(x), OutputTokens(y)) => c == S.OutputTokens(x + y) && WholeTokens(d, x)
    case _ => false
  }

  lemma {:induction false} PiecesJoin(x: bytes, y: bytes)
    requires |x| % ID_LEN == 0
    ensures Pieces(x + y, ID_LEN) == Pieces(x, ID_LEN) + Pieces(y, ID_LEN)
    decreases |x|
  {
    if x == [] {
      assert x + y == y;
    } else {
      assert (x + y)[..ID_LEN] == x[..ID_LEN] && (x + y)[ID_LEN..] == x[ID_LEN..] + y;
      PiecesJoin(x[ID_LEN..], y);
    }
  }

  lemma {:induction false} EntriesJoin(x: bytes, y: bytes, n: u8, ids: seq<bytes>)
    requires n <= |ids|
    requires 12 * |BS.Entries(x, BS.TableIndexes(n, ids))| == |x|
    ensures var names := BS.TableIndexes(n, ids);
            BS.Entries(x + y, names) == BS.Entries(x, names) + BS.Entries(y, names)
    decreases |x|
  {
    var names := BS.TableIndexes(n, ids);
    if x == [] {
      assert x + y == y;
    } else {
      assert BS.ReadEntry(x, names).Ok?;
      assert (x + y)[..4] == x[..4] && (x + y)[4..12] == x[4..12] && (x + y)[12..] == x[12..] + y;
      EntriesJoin(x[12..], y, n, ids);
    }
  }

  /** Two messages and the one that joins them describe the same transaction. */
  lemma JoinedRecord(d: Draft, a: S.Command, b: S.Command, c: S.Command)
    requires Joins(d, a, b, c)
    ensures SR.Record(SR.Record(d, a), b) == SR.Record(d, c)
  {
    match (a, b)
    case (TreeChunk(x), TreeChunk(y)) => TreesJoin(d, x, y);
    case (Registers(x), Registers(y)) => RegistersJoin(d, x, y);
    case (Extension(x), Extension(y)) => ExtensionsJoin(d, x, y);
    case (TokenIds(x), TokenIds(y)) =>
      PiecesJoin(x, y);
      assert d.ids + Pieces(x, ID_LEN) + Pieces(y, ID_LEN) == d.ids + (Pieces(x, ID_LEN) + Pieces(y, ID_LEN));
    case (DataInputs(x), DataInputs(y)) =>
      PiecesJoin(x, y);
      assert d.dataInputs + Pieces(x, ID_LEN) + Pieces(y, ID_LEN)
        == d.dataInputs + (Pieces(x, ID_LEN) + Pieces(y, ID_LEN));
    case (OutputTokens(x), OutputTokens(y)) => TokensJoin(d, x, y);
  }

  lemma SetLastTwice<T>(s: seq<T>, x: T, y: T)
    requires s != []
    ensures SetLast(SetLast(s, x), y) == SetLast(s, y)
  {
  }

  lemma TreesJoin(d: Draft, x: bytes, y: bytes)
    ensures SR.Record(SR.Record(d, S.TreeChunk(x)), S.TreeChunk(y)) == SR.Record(d, S.TreeChunk(x + y))
  {
    if d.outputs != [] {
      var b := Last(d.outputs);
      Assoc(b.tree, x, y);
      SetLastTwice(d.outputs, BS.WithChunk(b, x), BS.WithChunk(b, x + y));
      assert BS.WithChunk(BS.WithChunk(b, x), y) == BS.WithChunk(b, x + y);
    }
  }

  lemma RegistersJoin(d: Draft, x: bytes, y: bytes)
    ensures SR.Record(SR.Record(d, S.Registers(x)), S.Registers(y)) == SR.Record(d, S.Registers(x + y))
  {
    if d.outputs != [] {
      var b := Last(d.outputs);
      Assoc(b.registers, x, y);
      SetLastTwice(d.outputs, BS.WithRegisters(b, x), BS.WithRegisters(b, x + y));
    }
  }

  lemma ExtensionsJoin(d: Draft, x: bytes, y: bytes)
    ensures SR.Record(SR.Record(d, S.Extension(x)), S.Extension(y)) == SR.Record(d, S.Extension(x + y))
  {
    if d.inputs != [] {
      var i := Last(d.inputs);
      Assoc(i.extension, x, y);
      SetLastTwice(d.inputs, i.(extension := i.extension + x), i.(extension := i.extension + (x + y)));
    }
  }

  lemma TokensJoin(d: Draft, x: bytes, y: bytes)
    requires WholeTokens(d, x)
    ensures SR.Record(SR.Record(d, S.OutputTokens(x)), S.OutputTokens(y)) == SR.Record(d, S.OutputTokens(x + y))
  {
    if d.outputs != [] {
      var b, names := Last(d.outputs), SR.Announced(d);
      EntriesJoin(x, y, names.distinct, names.ids);
      assert b.entries + BS.Entries(x, names) + BS.Entries(y, names)
          == b.entries + (BS.Entries(x, names) + BS.Entries(y, names));
      SetLastTwice(d.outputs, BS.WithTokens(b, x, names), BS.WithTokens(b, x + y, names));
    }
  }

  // ---------- whole sessions ----------

  /** Anywhere in a session, two messages may be sent as one. */
  lemma {:induction false} CutAnywhere(
      d: Draft, before: seq<S.Command>, a: S.Command, b: S.Command, c: S.Command, after: seq<S.Command>)
    requires Joins(RecordAll(d, before), a, b, c)
    ensures RecordAll(d, before + [a, b] + after) == RecordAll(d, before + [c] + after)
    decreases |before|
  {
    var two, one := before + [a, b] + after, before + [c] + after;
    if before == [] {
      JoinedRecord(d, a, b, c);
      assert two[0] == a && two[1..][0] == b && two[1..][1..] == after && one[0] == c && one[1..] == after;
    } else {
      CutAnywhere(SR.Record(d, before[0]), before[1..], a, b, c, after);
      assert two[0] == before[0] && two[1..] == before[1..] + [a, b] + after;
      assert one[0] == before[0] && one[1..] == before[1..] + [c] + after;
    }
  }

  /** A session that ends with every box complete. */
  ghost predicate Signs(base: bytes, cs: seq<S.Command>, log: bytes) {
    && SR.Inv(S.Start(base), R.NewDraft(base))
    && var o, d := ExecAll(S.Start(base), R.NewDraft(base), cs), RecordAll(R.NewDraft(base), cs);
       && o.Ok? && o.s.state == S.Finalized && log == o.s.w.log && |d.outputs| == d.outputsCount
  }

  /** Sessions that describe the same transaction sign the same message: its serialization. */
  lemma SameTransactionSameMessage(base: bytes, cs: seq<S.Command>, ds: seq<S.Command>, x: bytes, y: bytes)
    requires Signs(base, cs, x) && Signs(base, ds, y)
    requires RecordAll(R.NewDraft(base), cs) == RecordAll(R.NewDraft(base), ds)
    ensures x == y == base + TxBytes(RecordAll(R.NewDraft(base), cs))
  {
    SignsReference(base, cs, x);
    SignsReference(base, ds, y);
  }

  lemma {:induction false} BaseStays(d: Draft, cs: seq<S.Command>)
    ensures RecordAll(d, cs).base == d.base
    decreases |cs|
  {
    if cs != [] {
      BaseStays(SR.Record(d, cs[0]), cs[1..]);
    }
  }

  lemma SignsReference(base: bytes, cs: seq<S.Command>, log: bytes)
    requires Signs(base, cs, log)
    ensures log == base + TxBytes(RecordAll(R.NewDraft(base), cs))
  {
    BaseStays(R.NewDraft(base), cs);
    var p, d := ExecAll(S.Start(base), R.NewDraft(base), cs).s, RecordAll(R.NewDraft(base), cs);
    hide ExecAll, RecordAll, S.Start, FR.Inv;
    FinalFacts(p, d);
    FinishedBytes(p.w, d);
  }
}
