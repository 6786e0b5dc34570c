/**
 What the device remembers of the output being received, for the confirmation screen.
 Source: src/commands/signtx/stx_output.c.
 */
module OutputInfo {
  import opened Bytes
  import opened TxTypes
  import opened Accounting
  import opened Reference
  import ErgoTree

  datatype OutputKind = Unknown | Bip32 | Address | Script | ScriptHash | MinersFee

  /**
   The union of the source.  A hasher holds the bytes it absorbed; a digest stands for the
   hash of the bytes it was made from.  `Corrupt` is what finalising anything but a running
   hasher would leave.
   */
  datatype Payload =
    | Nothing
    | TreeHasher(absorbed: bytes)
    | TreeDigest(of: bytes)
    | PublicKey(key: bytes)
    | Hash(hash: bytes)
    | Path(path: seq<u32>)
    | Corrupt

  datatype OutputRaw = Output(
    value: u64, tokens: seq<u64>, kind: OutputKind, treeSet: bool, boxFinished: bool, payload: Payload)

  type Output = o: OutputRaw | |o.tokens| == TOKEN_MAX_COUNT
    witness Output(0, seq(TOKEN_MAX_COUNT, _ => 0), Unknown, false, false, Nothing)

  /** stx_output_info_init */
  function NewOutput(value: u64): Output {
    Output(value, seq(TOKEN_MAX_COUNT, _ => 0), Unknown, false, false, Nothing)
  }

  /** maybe_finished: a script's hasher is finalised when both tree and box are complete. */
  function MaybeFinished(o: Output): Output {
    if o.treeSet && o.boxFinished && o.kind == Script
    then o.(payload := if o.payload.TreeHasher? then TreeDigest(o.payload.absorbed) else Corrupt)
    else o
  }

  /** stx_output_info_set_bip32 */
  function SetBip32(o: Output, path: seq<u32>): Outcome<Output> {
    if o.kind != Unknown then Fail(BadState)
    else Ok(MaybeFinished(o.(kind := Bip32, treeSet := true, payload := Path(path))))
  }

  /** stx_output_info_set_fee */
  function SetFee(o: Output): Outcome<Output> {
    if o.kind != Unknown then Fail(BadState)
    else Ok(MaybeFinished(o.(kind := MinersFee, treeSet := true)))
  }

  /** The first chunk decides: a whole P2PK or P2SH tree is recognised, anything else starts a script hash. */
  function FirstChunk(o: Output, chunk: bytes, isFinished: bool): Output {
    if isFinished && ErgoTree.ParseP2pk(chunk).Some?
    then o.(kind := Address, treeSet := true, payload := PublicKey(ErgoTree.ParseP2pk(chunk).value))
    else if isFinished && ErgoTree.ParseP2sh(chunk).Some?
    then o.(kind := ScriptHash, treeSet := true, payload := Hash(ErgoTree.ParseP2sh(chunk).value))
    else o.(kind := Script, payload := TreeHasher([]))
  }

  /** stx_output_info_add_tree_chunk */
  function AddTreeChunk(o: Output, chunk: bytes, isFinished: bool): Outcome<Output> {
    if o.kind != Unknown && o.kind != Script then Fail(BadState)
    else if o.treeSet then Fail(BadState)
    else
      var p := if o.kind == Unknown then FirstChunk(o, chunk, isFinished) else o;
      var q := if p.kind != Script then p
               else p.(payload := if p.payload.TreeHasher? then TreeHasher(p.payload.absorbed + chunk) else Corrupt,
                       treeSet := isFinished);
      Ok(MaybeFinished(q))
  }

  /** stx_output_info_add_token */
  function AddToken(o: Output, table: seq<bytes>, id: bytes, value: u64): Outcome<Output> {
    var i := Find(table, id);
    if i == |table| || i >= TOKEN_MAX_COUNT then Fail(BadTokenId)
    else if o.tokens[i] != 0 then Fail(BadTokenValue)
    else Ok(o.(tokens := o.tokens[i := value]))
  }

  /** stx_output_info_set_box_finished */
  function SetBoxFinished(o: Output): Output {
    MaybeFinished(o.(boxFinished := true))
  }

  /** stx_output_info_is_finished and is_blind_signing_tx: received in full, and neither address, own path nor fee. */
  predicate Blind(o: Output) {
    o.treeSet && o.boxFinished && o.kind != Bip32 && o.kind != Address && o.kind != MinersFee
  }

  // ---------- what it means ----------

  /** How a complete tree is shown; independent of how it was cut into chunks. */
  function KindOfTree(tree: bytes): OutputKind {
    if ErgoTree.ParseP2pk(tree).Some? then Address
    else if ErgoTree.ParseP2sh(tree).Some? then ScriptHash
    else Script
  }

  function PayloadOfTree(tree: bytes, boxFinished: bool): Payload {
    if ErgoTree.ParseP2pk(tree).Some? then PublicKey(ErgoTree.ParseP2pk(tree).value)
    else if ErgoTree.ParseP2sh(tree).Some? then Hash(ErgoTree.ParseP2sh(tree).value)
    else if boxFinished then TreeDigest(tree) else TreeHasher(tree)
  }

  /** A box counted as fee or change carries exactly the script that makes it so. */
  predicate Genuine(b: Box) {
    && (b.treeDone && b.kind == FeeBox ==> b.tree == ErgoTree.MINERS_FEE_TREE)
    && (b.treeDone && b.kind == ChangeBox ==> ErgoTree.ParseP2pk(b.tree).Some?)
  }

  /** The kind and the payload are those of the tree received so far. */
  ghost predicate ShowsTree(o: Output, b: Box) {
    && o.treeSet == b.treeDone
    && if !b.treeDone then
         if b.tree == [] then o.kind == Unknown && o.payload == Nothing
         else o.kind == Script && o.payload == TreeHasher(b.tree)
       else match b.kind
         case FeeBox => o.kind == MinersFee && Genuine(b)
         case ChangeBox => o.kind == Bip32 && o.payload.Path? && Genuine(b)
         case TreeBox => o.kind == KindOfTree(b.tree) && o.payload == PayloadOfTree(b.tree, o.boxFinished)
  }

  /** The amounts shown are those of the box, each at the first place of its id. */
  ghost predicate ShowsTokens(o: Output, table: seq<bytes>, b: Box) {
    forall i :: 0 <= i < TOKEN_MAX_COUNT ==>
      o.tokens[i] == if i < |table| && Find(table, table[i]) == i then TokenSum(TokensOf(b.entries), table[i]) else 0
  }

  ghost predicate ShowsBox(o: Output, table: seq<bytes>, b: Box, done: bool) {
    o.value == b.value && o.boxFinished == done && ShowsTokens(o, table, b)
  }

  lemma NewOutputShows(table: seq<bytes>, b: Box)
    requires b.entries == [] && !b.treeDone && b.tree == []
    ensures ShowsBox(NewOutput(b.value), table, b, false) && ShowsTree(NewOutput(b.value), b)
  {
  }

  lemma AddTokenShows(o: Output, table: seq<bytes>, b: Box, e: Entry)
    requires ShowsTokens(o, table, b)
    ensures var r := AddToken(o, table, e.token.id, e.token.amount);
            r.Ok? ==> ShowsTokens(r.s, table, b.(entries := b.entries + [e]))
  {
    var es := b.entries + [e];
    assert TokensOf(es) == TokensOf(b.entries) + [e.token];
    forall i | 0 <= i < |table|
      ensures TokenSum(TokensOf(es), table[i])
           == TokenSum(TokensOf(b.entries), table[i]) + (if e.token.id == table[i] then e.token.amount else 0)
    {
      TokenSumSnoc(TokensOf(b.entries), e.token, table[i]);
    }
  }

  /** Marking the box finished finalises a script's hasher exactly if the tree is complete, and only once. */
  lemma FinishShows(o: Output, b: Box, b': Box)
    requires ShowsTree(o, b) && !o.boxFinished
    requires b'.tree == b.tree && b'.kind == b.kind && b'.treeDone == b.treeDone
    ensures ShowsTree(SetBoxFinished(o), b')
  {
  }

  /** A chunk added to the tree is shown as the tree so far, given that only a last chunk may be short. */
  lemma AddTreeChunkShows(o: Output, o': Output, b: Box, chunk: bytes, b': Box)
    requires ShowsTree(o, b) && !b.treeDone
    requires b'.tree == b.tree + chunk && b'.kind == TreeBox
    requires b.tree != [] ==> |b.tree| >= MAX_DATA_CHUNK_LEN
    requires !b'.treeDone ==> b'.tree != []
    requires o'.kind == o.kind && o'.treeSet == o.treeSet && o'.payload == o.payload
    requires o'.boxFinished ==> b'.treeDone
    ensures AddTreeChunk(o', chunk, b'.treeDone).Ok?
    ensures var q := AddTreeChunk(o', chunk, b'.treeDone).s;
            ShowsTree(q, b') && q.value == o'.value && q.tokens == o'.tokens && q.boxFinished == o'.boxFinished
  {
  }
}
