/**
 The box serializer as a step function: sizes and counts go down while bytes go to the
 hasher and tokens to the listener.  Source: src/ergo/tx_ser_box.c.
 */
module BoxSerializer {
  import opened Bytes
  import opened Gve
  import opened TxTypes
  import opened Accounting
  import opened Reference
  import opened OutputInfo

  datatype BoxState = Initialized | TreeAdded | TokensAdded | BoxFinished | HashFinalized | BoxError

  datatype BoxCtx = BoxCtx(
    value: u64, treeSize: u32, height: u32, tokensCount: u8, registersSize: u32,
    state: BoxState, kind: BoxKind)

  /** The callbacks and their context: the signing session's totals and output, or the attested token list. */
  datatype Listener = Signer(amounts: Amounts, output: Output) | Attester(tokens: TokenList)

  /** Where token names come from: full ids, or indexes below `distinct` into a table. */
  datatype Names = FullIds | TableIndexes(distinct: u8, ids: seq<bytes>)

  /** A box context with everything its operations touch. */
  datatype Run = Run(box: BoxCtx, log: bytes, l: Listener)

  // ---------- callbacks ----------

  function OnType(l: Listener, kind: BoxKind, value: u64): Outcome<Listener> {
    match l
    case Attester(_) => Ok(l)
    case Signer(a, o) =>
      match AddOutput(a, kind, value)
      case Fail(e) => Fail(e)
      case Ok(b) => Ok(Signer(b, o))
      case More(b) => Ok(Signer(b, o))
  }

  /** p2pk_output_token_cb and box_token_cb */
  function OnToken(l: Listener, t: Token): Outcome<Listener> {
    match l
    case Attester(ts) =>
      if |ts| >= TOKEN_MAX_COUNT then Fail(TooManyTokens)
      else if exists i :: 0 <= i < |ts| && ts[i].id == t.id then Fail(BadTokenId)
      else Ok(Attester(ts + [t]))
    case Signer(a, o) =>
      match AddToken(o, a.table, t.id, t.amount)
      case Fail(e) => Fail(e)
      case More(p) => Fail(BadState)
      case Ok(p) =>
        match AddOutputToken(a, t.id, t.amount)
        case Fail(e) => Fail(e)
        case More(b) => Fail(BadState)
        case Ok(b) => Ok(Signer(b, p))
  }

  function OnFinished(l: Listener): Listener {
    if l.Signer? then Signer(l.amounts, SetBoxFinished(l.output)) else l
  }

  // ---------- operations ----------

  /** ergo_tx_serializer_box_init */
  function Init(value: u64, treeSize: u32, height: u32, tokensCount: u8, registersSize: u32,
                log: bytes): Outcome<(BoxCtx, bytes)> {
    if tokensCount > TOKEN_MAX_COUNT then Fail(TooManyTokens)
    else if treeSize > MAX_TX_DATA_PART_LEN then Fail(TooMuchData)
    else if registersSize > MAX_TX_DATA_PART_LEN then Fail(TooMuchData)
    else Ok((BoxCtx(value, treeSize, height, tokensCount, registersSize, Initialized, TreeBox), log + Vlq(value)))
  }

  /** box_finished */
  function Finish(r: Run): Run {
    Run(r.box.(state := BoxFinished), r.log, OnFinished(r.l))
  }

  /** ergo_tree_added */
  function TreeIsAdded(r: Run, kind: BoxKind): Outcome<Run> {
    match OnType(r.l, kind, r.box.value)
    case Fail(e) => Fail(e)
    case More(l) => Fail(BadState)
    case Ok(l) =>
      var box := r.box.(kind := kind);
      var log := r.log + Vlq(box.height) + [box.tokensCount];
      if box.tokensCount != 0 then Ok(Run(box.(state := TreeAdded), log, l))
      else if box.registersSize != 0 then Ok(Run(box.(state := TokensAdded), log, l))
      else Ok(Finish(Run(box.(state := TokensAdded), log + [0], l)))
  }

  /** ergo_tx_serializer_box_add_tree */
  function AddTree(r: Run, chunk: bytes): Outcome<Run> {
    if r.box.state != Initialized then Fail(BadState)
    else if r.box.treeSize < |chunk| then Fail(TooMuchData)
    else if r.box.treeSize > |chunk| && |chunk| < MAX_DATA_CHUNK_LEN then Fail(SmallChunk)
    else
      var q := Run(r.box.(treeSize := r.box.treeSize - |chunk|), r.log + chunk, r.l);
      if q.box.treeSize == 0 then TreeIsAdded(q, TreeBox) else More(q)
  }

  /** ergo_tx_serializer_box_add_miners_fee_tree and ergo_tx_serializer_box_add_change_tree */
  function AddKnownTree(r: Run, kind: BoxKind, tree: bytes): Outcome<Run> {
    if r.box.state != Initialized then Fail(BadState)
    else TreeIsAdded(Run(r.box, r.log + tree, r.l), kind)
  }

  function EntrySize(names: Names): nat {
    if names.FullIds? then 40 else 12
  }

  /** One token at the front of the buffer. */
  function ReadEntry(data: bytes, names: Names): Outcome<Entry>
    requires names.TableIndexes? ==> names.distinct <= |names.ids|
  {
    match names
    case FullIds =>
      if |data| < 32 then Fail(BadTokenId)
      else if |data| < 40 then Fail(BadTokenValue)
      else Ok(Entry(InFull, Token(data[..32], U64(data[32..40]))))
    case TableIndexes(distinct, ids) =>
      if |data| < 4 then Fail(BadTokenIndex)
      else if U32(data[..4]) >= distinct then Fail(BadTokenIndex)
      else if |data| < 12 then Fail(BadTokenValue)
      else Ok(Entry(ByIndex(U32(data[..4])), Token(ids[U32(data[..4])], U64(data[4..12]))))
  }

  /** One round of the loop of ergo_tx_serializer_box_add_tokens. */
  function OneToken(r: Run, data: bytes, names: Names): (o: Outcome<Run>)
    requires names.TableIndexes? ==> names.distinct <= |names.ids|
    ensures o.Ok? ==> |data| >= EntrySize(names) && r.box.tokensCount != 0
    ensures !o.More?
  {
    if r.box.tokensCount == 0 then Fail(TooManyTokens)
    else
      match ReadEntry(data, names)
      case Fail(e) => Fail(e)
      case More(e) => Fail(BadState)
      case Ok(entry) =>
        match OnToken(r.l, entry.token)
        case Fail(e) => Fail(e)
        case More(l) => Fail(BadState)
        case Ok(l) =>
          var log := r.log + (if entry.name.ByIndex? then Vlq(entry.name.index) else entry.token.id);
          Ok(Run(r.box.(tokensCount := r.box.tokensCount - 1), log + Vlq(entry.token.amount), l))
  }

  function TokenLoop(r: Run, data: bytes, names: Names): (o: Outcome<Run>)
    requires names.TableIndexes? ==> names.distinct <= |names.ids|
    ensures !o.More?
    decreases |data|
  {
    if data == [] then Ok(r)
    else
      var o := OneToken(r, data, names);
      if o.Ok? then TokenLoop(o.s, data[EntrySize(names)..], names) else o
  }

  /** The loop comes to a token index of which only one to three bytes are there. */
  predicate ShortIndex(r: Run, data: bytes, names: Names)
    requires names.TableIndexes? ==> names.distinct <= |names.ids|
    decreases |data|
  {
    names.TableIndexes? && data != [] && r.box.tokensCount != 0 &&
    (|data| < 4 || (OneToken(r, data, names).Ok? && ShortIndex(OneToken(r, data, names).s, data[12..], names)))
  }

  /** That is: the whole entries are accepted, tokens are still expected, and one to three bytes are left over. */
  lemma {:induction false} ShortIndexExact(r: Run, data: bytes, names: Names)
    requires names.TableIndexes? && names.distinct <= |names.ids|
    ensures var whole := data[..|data| / 12 * 12];
            ShortIndex(r, data, names) <==>
              && 1 <= |data| % 12 <= 3 && TokenLoop(r, whole, names).Ok?
              && TokenLoop(r, whole, names).s.box.tokensCount != 0
    decreases |data|
  {
    var n := |data| / 12 * 12;
    if |data| < 12 {
      assert data[..n] == [];
    } else {
      assert data[..n][..4] == data[..4] && data[..n][4..12] == data[4..12];
      assert ReadEntry(data[..n], names) == ReadEntry(data, names);
      assert OneToken(r, data[..n], names) == OneToken(r, data, names);
      assert data[..n][12..] == data[12..][..|data[12..]| / 12 * 12];
      if OneToken(r, data, names).Ok? {
        ShortIndexExact(OneToken(r, data, names).s, data[12..], names);
      }
    }
  }

  /** Both fail with the same code: one byte where an index should stand is short, an index outside the table is not. */
  lemma ShortAndBadIndex(r: Run, names: Names)
    requires names.TableIndexes? && names.distinct <= |names.ids|
    requires r.box.state == TreeAdded && r.box.tokensCount != 0
    ensures ShortIndex(r, [0], names) && AddTokens(r, [0], names) == Fail(BadTokenIndex)
    ensures var big: bytes := [0, 0, 1, 0];
            !ShortIndex(r, big, names) && AddTokens(r, big, names) == Fail(BadTokenIndex)
  {
    var big: bytes := [0, 0, 1, 0];
    assert Number([], 256) == 0 && big[..3] == [0, 0, 1] && big[..3][..2] == [0, 0] && big[..3][..2][..1] == [0];
    assert Number([0], 256) == 0 && Number([0, 0], 256) == 0 && Number([0, 0, 1], 256) == 1;
    assert big[..4] == big && U32(big[..4]) == 256;
    assert ReadEntry(big, names) == Fail(BadTokenIndex);
    assert OneToken(r, big, names) == Fail(BadTokenIndex);
  }

  function EndOfTokens(q: Run): Outcome<Run> {
    if q.box.tokensCount != 0 then More(q)
    else if q.box.registersSize != 0 then Ok(q.(box := q.box.(state := TokensAdded)))
    else Ok(Finish(q.(log := q.log + [0])))
  }

  /** ergo_tx_serializer_box_add_tokens */
  function AddTokens(r: Run, data: bytes, names: Names): Outcome<Run>
    requires names.TableIndexes? ==> names.distinct <= |names.ids|
  {
    if r.box.state != TreeAdded then Fail(BadState)
    else
      var o := TokenLoop(r, data, names);
      if o.Ok? then EndOfTokens(o.s) else o
  }

  /** ergo_tx_serializer_box_add_registers */
  function AddRegisters(r: Run, chunk: bytes): Outcome<Run> {
    if r.box.state != TokensAdded then Fail(BadState)
    else if r.box.registersSize < |chunk| then Fail(TooMuchData)
    else
      var q := Run(r.box.(registersSize := r.box.registersSize - |chunk|), r.log + chunk, r.l);
      if q.box.registersSize == 0 then Ok(Finish(q)) else More(q)
  }

  // ---------- the reference side ----------

  function WithChunk(b: Box, chunk: bytes): Box {
    b.(tree := b.tree + chunk, treeDone := |b.tree| + |chunk| == b.treeSize)
  }

  function WithTree(b: Box, kind: BoxKind, tree: bytes): Box {
    b.(tree := b.tree + tree, treeDone := true, kind := kind)
  }

  function WithRegisters(b: Box, chunk: bytes): Box {
    b.(registers := b.registers + chunk)
  }

  /** The tokens of a message. */
  function Entries(data: bytes, names: Names): seq<Entry>
    requires names.TableIndexes? ==> names.distinct <= |names.ids|
    decreases |data|
  {
    match ReadEntry(data, names)
    case Ok(e) => [e] + Entries(data[EntrySize(names)..], names)
    case More(_) => []
    case Fail(_) => []
  }

  function WithTokens(b: Box, data: bytes, names: Names): Box
    requires names.TableIndexes? ==> names.distinct <= |names.ids|
  {
    b.(entries := b.entries + Entries(data, names))
  }

  // ---------- the coupling ----------

  /** The context is what remains of the box: announced minus received. */
  ghost predicate Matches(c: BoxCtx, b: Box) {
    && c.value == b.value && c.height == b.height
    && match c.state
       case Initialized =>
         && !b.treeDone && b.kind == TreeBox && b.entries == [] && b.registers == []
         && c.treeSize == b.treeSize - |b.tree|
         && c.tokensCount == b.tokensCount && c.registersSize == b.registersSize
         && (b.tree != [] ==> |b.tree| >= MAX_DATA_CHUNK_LEN)
       case TreeAdded =>
         && b.treeDone && c.kind == b.kind && b.registers == [] && |b.entries| < b.tokensCount
         && c.tokensCount == b.tokensCount - |b.entries| && c.registersSize == b.registersSize
       case TokensAdded =>
         && b.treeDone && |b.entries| == b.tokensCount && |b.registers| < b.registersSize
         && c.registersSize == b.registersSize - |b.registers|
       case BoxFinished => Complete(b)
       case HashFinalized => false
       case BoxError => false
  }

  /** What the listener must know of the books: all inputs and all boxes before this one. */
  datatype Context = Signing(inputs: seq<Input>, previous: seq<Box>) | Attesting

  ghost function Books(inputs: seq<Input>, boxes: seq<Box>): Ledger {
    Ledger(InputValues(inputs), InputTokens(inputs), BoxValues(boxes), BoxTokens(boxes))
  }

  ghost predicate Distinct(ts: seq<Token>) {
    forall i, j :: 0 <= i < j < |ts| ==> ts[i].id != ts[j].id
  }

  /** The listener has counted exactly this box, on top of what came before; `done` if it was told the box is
      complete. */
  ghost predicate Counted(l: Listener, x: Context, b: Box, done: bool) {
    match x
    case Signing(inputs, previous) =>
      l.Signer? && Balanced(l.amounts, Books(inputs, previous + [b])) && ShowsBox(l.output, l.amounts.table, b, done)
    case Attesting =>
      l.Attester? && l.tokens == TokensOf(b.entries) && Distinct(l.tokens)
  }

  ghost predicate Invariant(r: Run, base: bytes, x: Context, b: Box) {
    Matches(r.box, b) && r.log == base + Emitted(b) && Counted(r.l, x, b, r.box.state == BoxFinished)
  }

  /** Nothing but amounts and counters changed, except that a box just completed is marked so. */
  ghost predicate TreeSideKept(l: Listener, l': Listener, completed: bool) {
    l.Signer? ==>
      && l'.Signer?
      && l'.amounts.table == l.amounts.table
      && l'.output.(tokens := l.output.tokens) == (if completed then SetBoxFinished(l.output) else l.output)
  }

  /** An accepted step keeps the invariant for the box with the message added to it. */
  ghost predicate StepOk(r: Run, o: Outcome<Run>, base: bytes, x: Context, b': Box) {
    o.Fail? ||
    (&& Invariant(o.s, base, x, b')
     && TreeSideKept(r.l, o.s.l, o.s.box.state == BoxFinished)
     && (o.s.box.state == BoxFinished ==> o.Ok?))
  }

  lemma BooksSame(inputs: seq<Input>, previous: seq<Box>, b: Box, b': Box)
    requires b.treeDone == b'.treeDone && b.kind == b'.kind && b.value == b'.value && b.entries == b'.entries
    ensures Books(inputs, previous + [b]) == Books(inputs, previous + [b'])
  {
    assert Front(previous + [b]) == previous && Front(previous + [b']) == previous;
  }

  /** A box that changes neither its tree status nor its tokens leaves the listener's books right. */
  lemma StillCounted(l: Listener, x: Context, b: Box, b': Box)
    requires Counted(l, x, b, false)
    requires b.treeDone == b'.treeDone && b.kind == b'.kind && b.value == b'.value && b.entries == b'.entries
    ensures Counted(l, x, b', false)
    ensures Counted(OnFinished(l), x, b', true) && TreeSideKept(l, OnFinished(l), true)
  {
    if x.Signing? {
      BooksSame(x.inputs, x.previous, b, b');
    }
  }

  /** Counting the value when the tree becomes known. */
  lemma TypeCounted(l: Listener, x: Context, b: Box, kind: BoxKind, b': Box)
    requires Counted(l, x, b, false) && !b.treeDone && OnType(l, kind, b.value).Ok?
    requires b'.treeDone && b'.kind == kind && b'.value == b.value && b'.entries == b.entries
    ensures Counted(OnType(l, kind, b.value).s, x, b', false)
    ensures TreeSideKept(l, OnType(l, kind, b.value).s, false)
  {
    hide Balanced, SetBoxFinished;
    if x.Signing? {
      var books := Books(x.inputs, x.previous + [b]);
      AddOutputKeeps(l.amounts, books, kind, b.value);
      TypeBooks(x.inputs, x.previous, b, b');
    }
  }

  lemma TypeBooks(inputs: seq<Input>, previous: seq<Box>, b: Box, b': Box)
    requires !b.treeDone && b'.treeDone && b'.entries == b.entries
    ensures var books := Books(inputs, previous + [b]);
            Books(inputs, previous + [b']) == books.(outValues := books.outValues + [(b'.kind, b'.value)])
  {
    assert Front(previous + [b]) == previous && Front(previous + [b']) == previous;
  }

  lemma TokenCounted(l: Listener, x: Context, b: Box, e: Entry, b': Box)
    requires Counted(l, x, b, false) && OnToken(l, e.token).Ok? && b' == b.(entries := b.entries + [e])
    ensures Counted(OnToken(l, e.token).s, x, b', false)
    ensures TreeSideKept(l, OnToken(l, e.token).s, false)
  {
    assert TokensOf(b'.entries) == TokensOf(b.entries) + [e.token];
    if x.Signing? {
      var books := Books(x.inputs, x.previous + [b]);
      AddOutputTokenKeeps(l.amounts, books, e.token.id, e.token.amount);
      AddTokenShows(l.output, l.amounts.table, b, e);
      assert Front(x.previous + [b]) == x.previous && Front(x.previous + [b']) == x.previous;
      assert Books(x.inputs, x.previous + [b']).outTokens == books.outTokens + [e.token];
    }
  }

  // ---------- every operation keeps the coupling ----------

  lemma InitKeeps(value: u64, treeSize: u32, height: u32, tokensCount: u8, registersSize: u32, base: bytes)
    ensures var o := Init(value, treeSize, height, tokensCount, registersSize, base);
            o.Ok? ==> Matches(o.s.0, NewBox(value, treeSize, height, tokensCount, registersSize))
                      && o.s.1 == base + Emitted(NewBox(value, treeSize, height, tokensCount, registersSize))
  {
    assert Vlq(value) + [] == Vlq(value);
  }

  /** From a known tree on: height and token count are written, and an empty rest finishes the box. */
  lemma TreeIsAddedKeeps(r: Run, kind: BoxKind, base: bytes, x: Context, b: Box, b': Box)
    requires Counted(r.l, x, b, false) && !b.treeDone && b.entries == [] && b.registers == []
    requires b' == b.(tree := b'.tree, treeDone := true, kind := kind)
    requires r.box.value == b.value && r.box.height == b.height
    requires r.box.tokensCount == b.tokensCount && r.box.registersSize == b.registersSize
    requires r.log == base + (Vlq(b.value) + b'.tree)
    ensures StepOk(r, TreeIsAdded(r, kind), base, x, b')
    ensures !TreeIsAdded(r, kind).More?
  {
    hide OnType, Counted, TreeSideKept, OnFinished, Emitted, Vlq;
    var t := OnType(r.l, kind, r.box.value);
    if t.Ok? {
      TypeCounted(r.l, x, b, kind, b');
      StillCounted(t.s, x, b', b');
      FinishedKept(r.l, t.s);
      TreeBytes(b', base);
    }
  }

  lemma FinishedKept(l: Listener, l': Listener)
    requires TreeSideKept(l, l', false)
    ensures TreeSideKept(l, OnFinished(l'), true)
  {
  }

  lemma TreeBytes(b: Box, base: bytes)
    requires b.treeDone && b.entries == [] && b.registers == []
    ensures var e := base + (Vlq(b.value) + b.tree) + Vlq(b.height) + [b.tokensCount];
            base + Emitted(b) == if b.tokensCount == 0 && b.registersSize == 0 then e + [0] else e
  {
    var e := Vlq(b.value) + b.tree + Vlq(b.height) + [b.tokensCount];
    assert e + EntriesBytes(b.entries) == e;
  }

  lemma AddTreeKeeps(r: Run, chunk: bytes, base: bytes, x: Context, b: Box)
    requires Invariant(r, base, x, b)
    ensures StepOk(r, AddTree(r, chunk), base, x, WithChunk(b, chunk))
    ensures AddTree(r, chunk).Ok? ==> WithChunk(b, chunk).treeDone
    ensures AddTree(r, chunk).More? ==> !WithChunk(b, chunk).treeDone && |chunk| >= MAX_DATA_CHUNK_LEN
  {
    hide Counted, TreeSideKept, Vlq, EntriesBytes, TreeIsAdded, OnFinished;
    if AddTree(r, chunk).Fail? { return; }
    var b' := WithChunk(b, chunk);
    ChunkBehind(base, Vlq(b.value), b.tree, chunk);
    NothingHeard(r.l);
    var q := Run(r.box.(treeSize := r.box.treeSize - |chunk|), r.log + chunk, r.l);
    if q.box.treeSize == 0 {
      TreeIsAddedKeeps(q, TreeBox, base, x, b, b');
    } else {
      StillCounted(r.l, x, b, b');
    }
  }

  lemma AddKnownTreeKeeps(r: Run, kind: BoxKind, tree: bytes, base: bytes, x: Context, b: Box)
    requires Invariant(r, base, x, b)
    ensures StepOk(r, AddKnownTree(r, kind, tree), base, x, WithTree(b, kind, tree))
    ensures !AddKnownTree(r, kind, tree).More?
  {
    hide Counted, TreeSideKept, Vlq, EntriesBytes, TreeIsAdded;
    if r.box.state != Initialized { return; }
    ChunkBehind(base, Vlq(b.value), b.tree, tree);
    TreeIsAddedKeeps(Run(r.box, r.log + tree, r.l), kind, base, x, b, WithTree(b, kind, tree));
  }

  lemma ChunkBehind(base: bytes, value: bytes, tree: bytes, chunk: bytes)
    ensures base + (value + tree) + chunk == base + (value + (tree + chunk))
  {
    Assoc(value, tree, chunk);
    Assoc(base, value + tree, chunk);
  }

  /** The body of a box up to its last token. */
  function Body(b: Box): bytes {
    Vlq(b.value) + b.tree + Vlq(b.height) + [b.tokensCount] + EntriesBytes(b.entries)
  }

  lemma BodySnoc(b: Box, e: Entry)
    ensures Body(b.(entries := b.entries + [e])) == Body(b) + EntryBytes(e)
  {
    assert Front(b.entries + [e]) == b.entries;
  }

  /** The context side of the loop: counters and bytes. */
  ghost predicate InLoop(c: BoxCtx, log: bytes, base: bytes, b: Box) {
    && log == base + Body(b) && b.treeDone && b.registers == []
    && c.value == b.value && c.height == b.height && c.kind == b.kind && c.state == TreeAdded
    && |b.entries| <= b.tokensCount && c.tokensCount == b.tokensCount - |b.entries|
    && c.registersSize == b.registersSize
  }

  lemma OneTokenWrites(r: Run, data: bytes, names: Names, base: bytes, b: Box)
    requires names.TableIndexes? ==> names.distinct <= |names.ids|
    requires InLoop(r.box, r.log, base, b) && OneToken(r, data, names).Ok?
    ensures var e := ReadEntry(data, names).s; var r1 := OneToken(r, data, names).s;
            InLoop(r1.box, r1.log, base, b.(entries := b.entries + [e]))
  {
    var e := ReadEntry(data, names).s;
    BodySnoc(b, e);
    TokenBehind(base, Body(b), if e.name.ByIndex? then Vlq(e.name.index) else e.token.id, Vlq(e.token.amount));
  }

  lemma TokenBehind(base: bytes, body: bytes, name: bytes, amount: bytes)
    ensures base + body + name + amount == base + (body + (name + amount))
  {
    Assoc(base + body, name, amount);
    Assoc(base, body, name + amount);
  }

  lemma EntriesStep(b: Box, data: bytes, names: Names)
    requires names.TableIndexes? ==> names.distinct <= |names.ids|
    requires ReadEntry(data, names).Ok?
    ensures WithTokens(b.(entries := b.entries + [ReadEntry(data, names).s]), data[EntrySize(names)..], names)
         == WithTokens(b, data, names)
  {
    var e := ReadEntry(data, names).s;
    var rest := Entries(data[EntrySize(names)..], names);
    assert b.entries + [e] + rest == b.entries + ([e] + rest);
  }

  lemma {:induction false} TokenLoopKeeps(r: Run, data: bytes, names: Names, base: bytes, x: Context, b: Box)
    requires names.TableIndexes? ==> names.distinct <= |names.ids|
    requires InLoop(r.box, r.log, base, b) && Counted(r.l, x, b, false)
    ensures var o := TokenLoop(r, data, names);
            o.Fail? || (&& o.Ok?
                        && InLoop(o.s.box, o.s.log, base, WithTokens(b, data, names))
                        && Counted(o.s.l, x, WithTokens(b, data, names), false)
                        && TreeSideKept(r.l, o.s.l, false))
    decreases |data|
  {
    if data == [] {
      assert WithTokens(b, data, names) == b;
    } else {
      var o := OneToken(r, data, names);
      if o.Ok? {
        var e := ReadEntry(data, names).s;
        var b1 := b.(entries := b.entries + [e]);
        OneTokenWrites(r, data, names, base, b);
        TokenCounted(r.l, x, b, e, b1);
        EntriesStep(b, data, names);
        TokenLoopKeeps(o.s, data[EntrySize(names)..], names, base, x, b1);
      }
    }
  }

  lemma EndOfTokensKeeps(r: Run, q: Run, base: bytes, x: Context, b: Box)
    requires InLoop(q.box, q.log, base, b) && Counted(q.l, x, b, false) && TreeSideKept(r.l, q.l, false)
    ensures StepOk(r, EndOfTokens(q), base, x, b)
  {
    BodyEnd(b, base);
    StillCounted(q.l, x, b, b);
  }

  lemma AddTokensKeeps(r: Run, data: bytes, names: Names, base: bytes, x: Context, b: Box)
    requires names.TableIndexes? ==> names.distinct <= |names.ids|
    requires Invariant(r, base, x, b)
    ensures StepOk(r, AddTokens(r, data, names), base, x, WithTokens(b, data, names))
  {
    if r.box.state == TreeAdded {
      BodyEnd(b, base);
      TokenLoopKeeps(r, data, names, base, x, b);
      var o := TokenLoop(r, data, names);
      if o.Ok? {
        EndOfTokensKeeps(r, o.s, base, x, WithTokens(b, data, names));
      }
    }
  }

  lemma BodyEnd(b: Box, base: bytes)
    requires b.treeDone && b.registers == []
    ensures base + Emitted(b)
         == if |b.entries| == b.tokensCount && b.registersSize == 0 then base + Body(b) + [0] else base + Body(b)
  {
    assert Body(b) + [] == Body(b);
  }

  lemma RegistersGrow(b: Box, chunk: bytes, base: bytes)
    requires b.treeDone && |b.entries| == b.tokensCount && b.registersSize != 0
    ensures base + Emitted(WithRegisters(b, chunk)) == base + Emitted(b) + chunk
  {
    assert Emitted(b) == Body(b) + b.registers;
    assert Emitted(WithRegisters(b, chunk)) == Body(b) + (b.registers + chunk);
    Assoc(Body(b), b.registers, chunk);
    Assoc(base, Body(b) + b.registers, chunk);
  }

  lemma RegistersMatch(c: BoxCtx, b: Box, chunk: bytes)
    requires Matches(c, b) && c.state == TokensAdded && |chunk| <= c.registersSize
    ensures var c' := c.(registersSize := c.registersSize - |chunk|);
            Matches(if c'.registersSize == 0 then c'.(state := BoxFinished) else c', WithRegisters(b, chunk))
    ensures b.treeDone && |b.entries| == b.tokensCount && b.registersSize != 0
  {
  }

  lemma AddRegistersKeeps(r: Run, chunk: bytes, base: bytes, x: Context, b: Box)
    requires Invariant(r, base, x, b)
    ensures StepOk(r, AddRegisters(r, chunk), base, x, WithRegisters(b, chunk))
  {
    hide Matches, Emitted, Counted, OnFinished, TreeSideKept, WithRegisters;
    if r.box.state == TokensAdded && |chunk| <= r.box.registersSize {
      RegistersMatch(r.box, b, chunk);
      RegistersGrow(b, chunk, base);
      RegistersOnly(b, chunk);
      NothingHeard(r.l);
      StillCounted(r.l, x, b, WithRegisters(b, chunk));
    }
  }

  lemma RegistersOnly(b: Box, chunk: bytes)
    ensures var b' := WithRegisters(b, chunk);
            b.treeDone == b'.treeDone && b.kind == b'.kind && b.value == b'.value && b.entries == b'.entries
  {
  }

  lemma NothingHeard(l: Listener)
    ensures TreeSideKept(l, l, false)
  {
  }
}
