/**
 The three serializer contexts as objects: fields count down, bytes go to the shared hasher and
 callbacks reach the totals and the output.  Every operation is proved against the step
 function of its layer.
 Source: src/ergo/tx_ser_input.c, src/ergo/tx_ser_box.c, src/ergo/tx_ser_full.c.
 */
module SerializerContexts {
  import opened Bytes
  import opened Gve
  import opened TxTypes
  import opened Contexts
  import IS = InputSerializer
  import BS = BoxSerializer
  import FS = FullSerializer
  import opened Reference

  // ---------- inputs ----------

  /** ergo_tx_serializer_input_context_t, with the totals its token callback adds to. */
  class InputContext {
    const hash: Hasher
    const amounts: AmountsContext
    var state: IS.InputState
    var boxId: bytes
    var framesCount: u8
    var framesProcessed: u8
    var extensionSize: u32

    ghost predicate Valid()
      reads this, amounts, amounts.table
    {
      amounts.Valid()
    }

    ghost function Ctx(): IS.InputCtx
      reads this
    {
      IS.InputCtx(state, boxId, framesCount, framesProcessed, extensionSize)
    }

    ghost function View(): IS.InputRun
      requires Valid()
      reads this, hash, amounts, amounts.table
    {
      IS.InputRun(Ctx(), hash.log, amounts.View())
    }

    constructor (h: Hasher, a: AmountsContext)
      requires a.Valid()
      ensures Valid() && hash == h && amounts == a && Ctx() == FS.IdleInput(IS.FramesStarted).input
    {
      hash, amounts := h, a;
      state, boxId, framesCount, framesProcessed, extensionSize := IS.FramesStarted, FS.NoId(), 0, 0, 0;
    }

    /** memset to zero, with the given state */
    method Clear(s: IS.InputState)
      modifies this
      ensures Ctx() == FS.IdleInput(s).input
    {
      state, boxId, framesCount, framesProcessed, extensionSize := s, FS.NoId(), 0, 0, 0;
    }

    method Fail(e: Error) returns (c: Code)
      modifies this`state
      ensures c == Err(e) && state == IS.InputError
    {
      state := IS.InputError;
      return Err(e);
    }

    /** ergo_tx_serializer_input_init */
    method Init(id: bytes, frames: u8, size: u32) returns (c: Code)
      modifies this
      ensures Agrees(IS.Init(id, frames, size), c, Ctx())
      ensures c.Err? ==> state == IS.InputError
    {
      Clear(IS.FramesStarted);
      if size == 1 || size > MAX_TX_DATA_PART_LEN {
        c := Fail(BadContextExtensionSize);
        return;
      }
      boxId := id;
      framesCount := frames;
      extensionSize := size;
      return Done;
    }

    static lemma PairSlices(pairs: bytes, i: nat)
      requires i + 40 <= |pairs|
      ensures var rest := pairs[i..];
              rest[..32] == pairs[i..i + 32] && rest[32..40] == pairs[i + 32..i + 40] && rest[40..] == pairs[i + 40..]
    {
    }

    /** The token loop: every pair goes to stx_amounts_add_input_token. */
    method TakePairs(pairs: bytes) returns (c: Code)
      requires Valid()
      modifies amounts, amounts.table
      ensures Valid() && Agrees(IS.PairLoop(old(amounts.View()), pairs), c, amounts.View())
    {
      var i := 0;
      ghost var spec := IS.PairLoop(amounts.View(), pairs);
      assert pairs[0..] == pairs;
      while i < |pairs|
        invariant i <= |pairs| && Valid()
        invariant IS.PairLoop(amounts.View(), pairs[i..]) == spec
      {
        if |pairs| - i < 32 {
          return Err(BadTokenId);
        }
        if |pairs| - i < 40 {
          return Err(BadTokenValue);
        }
        PairSlices(pairs, i);
        c := amounts.AddInputToken(pairs[i..i + 32], U64(pairs[i + 32..i + 40]));
        if c.Err? {
          return;
        }
        i := i + 40;
      }
      assert pairs[i..] == [];
      return Done;
    }

    /** ergo_tx_serializer_input_add_tokens */
    method AddTokens(id: bytes, index: u8, pairs: bytes) returns (c: Code)
      requires Valid()
      modifies this, hash, amounts, amounts.table
      ensures Valid() && Agrees(IS.AddTokens(old(View()), id, index, pairs), c, View())
      ensures c.Err? ==> state == IS.InputError
    {
      if state != IS.FramesStarted {
        c := Fail(BadState);
        return;
      }
      if boxId != id {
        c := Fail(BadInputId);
        return;
      }
      if index >= framesCount {
        c := Fail(TooManyInputFrames);
        return;
      }
      if index != framesProcessed {
        c := Fail(BadFrameIndex);
        return;
      }
      FS.PairLoopExtends(amounts.View(), pairs);
      c := TakePairs(pairs);
      if c.Err? {
        c := Fail(c.e);
        return;
      }
      framesProcessed := framesProcessed + 1;
      if framesProcessed != framesCount {
        return MoreData;
      }
      hash.Update(id);
      hash.Update([0]);
      if extensionSize == 0 {
        hash.Update([0]);
        state := IS.InputFinished;
      } else {
        state := IS.ExtensionStarted;
      }
      return Done;
    }

    /** ergo_tx_serializer_input_add_context_extension */
    method AddExtension(chunk: bytes) returns (c: Code)
      requires Valid()
      modifies this, hash
      ensures Valid() && Agrees(IS.AddExtension(old(View()), chunk), c, View())
      ensures c.Err? ==> state == IS.InputError
    {
      if state != IS.ExtensionStarted {
        c := Fail(BadState);
        return;
      }
      if extensionSize < |chunk| {
        c := Fail(TooMuchData);
        return;
      }
      hash.Update(chunk);
      extensionSize := extensionSize - |chunk|;
      if extensionSize == 0 {
        state := IS.InputFinished;
        return Done;
      }
      return MoreData;
    }
  }

  // ---------- boxes ----------

  /** The token table and amounts of attest_input_ctx_t. */
  class AttestedTokens {
    const table: TokenTable
    var amounts: seq<u64>

    ghost predicate Valid()
      reads this, table
    {
      table.Valid() && |amounts| == TOKEN_MAX_COUNT
    }

    ghost function View(): TokenList
      requires Valid()
      reads this, table
    {
      seq(table.count, i requires 0 <= i < table.count && Valid() reads this, table =>
            Token(table.tokens[i], amounts[i]))
    }

    constructor ()
      ensures Valid() && fresh(table) && View() == []
    {
      table := new TokenTable();
      amounts := seq(TOKEN_MAX_COUNT, _ => 0);
    }

    method Clear()
      requires Valid()
      modifies this, table
      ensures Valid() && View() == []
    {
      table.count := 0;
    }

    /** box_token_cb: an id may occur once in a box. */
    method Take(id: bytes, amount: u64) returns (c: Code)
      requires Valid()
      modifies this, table
      ensures Valid()
      ensures match BS.OnToken(BS.Attester(old(View())), Token(id, amount))
              case Ok(l) => c == Done && l == BS.Attester(View())
              case More(_) => false
              case Fail(e) => c == Err(e)
    {
      if table.count >= TOKEN_MAX_COUNT {
        return Err(TooManyTokens);
      }
      for i := 0 to table.count
        invariant forall j :: 0 <= j < i ==> View()[j].id != id
      {
        if table.tokens[i] == id {
          assert View()[i].id == id;
          return Err(BadTokenId);
        }
      }
      ghost var was := View();
      table.tokens := table.tokens[table.count := id];
      amounts := amounts[table.count := amount];
      table.count := table.count + 1;
      assert View() == was + [Token(id, amount)];
      return Done;
    }
  }

  /** The registered callbacks with their context. */
  datatype Callbacks = ToSigner(amounts: AmountsContext, output: OutputContext) | ToAttester(tokens: AttestedTokens)

  ghost function Objects(l: Callbacks): set<object> {
    match l
    case ToSigner(a, o) => {a, o}
    case ToAttester(t) => {t, t.table}
  }

  ghost function Read(l: Callbacks): set<object> {
    match l
    case ToSigner(a, o) => {a, o, a.table}
    case ToAttester(t) => {t, t.table}
  }

  ghost predicate Ready(l: Callbacks)
    reads Read(l)
  {
    match l
    case ToSigner(a, o) => o.table == a.table && a.Valid() && o.Valid()
    case ToAttester(t) => t.Valid()
  }

  ghost function Heard(l: Callbacks): BS.Listener
    requires Ready(l)
    reads Read(l)
  {
    match l
    case ToSigner(a, o) => BS.Signer(a.View(), o.View())
    case ToAttester(t) => BS.Attester(t.View())
  }

  /** Nothing changed where the callbacks look. */
  twostate lemma StillHeard(l: Callbacks)
    requires old(Ready(l)) && unchanged(Read(l))
    ensures Ready(l) && Heard(l) == old(Heard(l))
  {
  }

  /** p2pk_output_type_cb; the attestation session registers none. */
  method OnType(l: Callbacks, kind: BoxKind, value: u64) returns (c: Code)
    requires Ready(l)
    modifies Objects(l)
    ensures Ready(l) && Agrees(BS.OnType(old(Heard(l)), kind, value), c, Heard(l)) && c != MoreData
  {
    match l
    case ToSigner(a, o) => c := a.AddOutput(kind, value);
    case ToAttester(_) => c := Done;
  }

  /** p2pk_output_token_cb and box_token_cb */
  method OnToken(l: Callbacks, id: bytes, amount: u64) returns (c: Code)
    requires Ready(l)
    modifies Objects(l)
    ensures Ready(l) && Agrees(BS.OnToken(old(Heard(l)), Token(id, amount)), c, Heard(l)) && c != MoreData
  {
    match l
    case ToSigner(a, o) =>
      c := o.AddToken(id, amount);
      if c == Done {
        c := a.AddOutputToken(id, amount);
      }
    case ToAttester(t) => c := t.Take(id, amount);
  }

  /** p2pk_output_finished_cb */
  method OnFinished(l: Callbacks)
    requires Ready(l)
    modifies Objects(l)
    ensures Ready(l) && Heard(l) == BS.OnFinished(old(Heard(l)))
  {
    match l
    case ToSigner(_, o) => o.SetBoxFinished();
    case ToAttester(_) =>
  }

  /** ergo_tx_serializer_box_context_t */
  class BoxContext {
    const hash: Hasher
    const l: Callbacks
    var value: u64
    var treeSize: u32
    var height: u32
    var tokensCount: u8
    var registersSize: u32
    var state: BS.BoxState
    var kind: BoxKind

    ghost predicate Valid()
      reads this, Read(l)
    {
      Ready(l)
    }

    ghost function Ctx(): BS.BoxCtx
      reads this
    {
      BS.BoxCtx(value, treeSize, height, tokensCount, registersSize, state, kind)
    }

    ghost function View(): BS.Run
      requires Valid()
      reads this, hash, Read(l)
    {
      BS.Run(Ctx(), hash.log, Heard(l))
    }

    constructor (h: Hasher, callbacks: Callbacks)
      requires Ready(callbacks)
      ensures Valid() && hash == h && l == callbacks
    {
      hash, l := h, callbacks;
      value, treeSize, height, tokensCount, registersSize := 0, 0, 0, 0, 0;
      state, kind := BS.Initialized, TreeBox;
    }

    method Fail(e: Error) returns (c: Code)
      modifies this`state
      ensures c == Err(e) && state == BS.BoxError
    {
      state := BS.BoxError;
      return Err(e);
    }

    /** ergo_tx_serializer_box_init */
    method Init(amount: u64, tree: u32, created: u32, tokens: u8, registers: u32) returns (c: Code)
      modifies this, hash
      ensures Agrees(BS.Init(amount, tree, created, tokens, registers, old(hash.log)), c, (Ctx(), hash.log))
      ensures c.Err? ==> state == BS.BoxError
    {
      if tokens > TOKEN_MAX_COUNT {
        c := Fail(TooManyTokens);
        return;
      }
      if tree > MAX_TX_DATA_PART_LEN || registers > MAX_TX_DATA_PART_LEN {
        c := Fail(TooMuchData);
        return;
      }
      hash.Update(Vlq(amount));
      treeSize, height, tokensCount, registersSize := tree, created, tokens, registers;
      value, kind, state := amount, TreeBox, BS.Initialized;
      return Done;
    }

    /** box_finished */
    method Finish()
      requires Valid()
      modifies this, Objects(l)
      ensures Valid() && View() == BS.Finish(old(View()))
    {
      OnFinished(l);
      state := BS.BoxFinished;
    }

    method AddHeightAndTokenCount()
      modifies hash
      ensures hash.log == old(hash.log) + Vlq(height) + [tokensCount]
    {
      hash.Update(Vlq(height));
      hash.Update([tokensCount]);
    }

    /** ergo_tree_added, with the type set before */
    method TreeIsAdded(k: BoxKind) returns (c: Code)
      requires Valid()
      modifies this, hash, Objects(l)
      ensures Valid() && Agrees(BS.TreeIsAdded(old(View()), k), c, View())
      ensures c.Err? ==> state == BS.BoxError
    {
      hide BS.OnType, BS.OnFinished, Ready, Heard;
      kind := k;
      StillHeard(l);
      c := OnType(l, k, value);
      label Told:
      if c.Err? {
        c := Fail(c.e);
        StillHeard@Told(l);
        return;
      }
      AddHeightAndTokenCount();
      if tokensCount == 0 {
        state := BS.TokensAdded;
        if registersSize == 0 {
          hash.Update([0]);
          StillHeard@Told(l);
          Finish();
          return Done;
        }
      } else {
        state := BS.TreeAdded;
      }
      StillHeard@Told(l);
      return Done;
    }

    /** ergo_tx_serializer_box_add_tree */
    method AddTree(chunk: bytes) returns (c: Code)
      requires Valid()
      modifies this, hash, Objects(l)
      ensures Valid() && Agrees(BS.AddTree(old(View()), chunk), c, View())
      ensures c.Err? ==> state == BS.BoxError
    {
      if state != BS.Initialized {
        c := Fail(BadState);
        return;
      }
      if treeSize < |chunk| {
        c := Fail(TooMuchData);
        return;
      }
      if treeSize > |chunk| && |chunk| < MAX_DATA_CHUNK_LEN {
        c := Fail(SmallChunk);
        return;
      }
      hash.Update(chunk);
      treeSize := treeSize - |chunk|;
      if treeSize == 0 {
        c := TreeIsAdded(TreeBox);
        return;
      }
      return MoreData;
    }

    /** ergo_tx_serializer_box_add_miners_fee_tree and ergo_tx_serializer_box_add_change_tree */
    method AddKnownTree(k: BoxKind, tree: bytes) returns (c: Code)
      requires Valid()
      modifies this, hash, Objects(l)
      ensures Valid() && Agrees(BS.AddKnownTree(old(View()), k, tree), c, View())
      ensures c.Err? ==> state == BS.BoxError
    {
      if state != BS.Initialized {
        c := Fail(BadState);
        return;
      }
      hash.Update(tree);
      c := TreeIsAdded(k);
    }

    /** The names a token message is read with: full ids without a table, indexes with one. */
    static ghost function NamesIn(table: TokenTable?, distinct: u8): BS.Names
      requires table != null ==> table.Valid()
      reads table
    {
      if table == null then BS.FullIds else BS.TableIndexes(distinct, table.View())
    }

    /** The name of a token: an id, or an index that must lie inside the table; either goes to the hasher. */
    method TakeName(data: bytes, table: TokenTable?, distinct: u8) returns (c: Code, id: bytes, rest: bytes)
      requires table != null ==> table.Valid() && distinct <= table.count
      modifies this`state, hash
      ensures c.Err? ==> state == if table != null && |data| < 4 then old(state) else BS.BoxError
      ensures c.Err? ==> BS.ReadEntry(data, old(NamesIn(table, distinct))) == Outcome.Fail(c.e)
      ensures !c.Err? ==>
                && c == Done && state == old(state) && (table == null ==> |data| >= 32 && id == data[..32])
                && (table != null ==> |data| >= 4 && U32(data[..4]) < distinct && id == table.tokens[U32(data[..4])])
                && rest == data[if table == null then 32 else 4..]
                && hash.log == old(hash.log) + (if table == null then id else Vlq(U32(data[..4])))
    {
      id, rest := [], [];
      if table == null {
        if |data| < 32 {
          c := Fail(BadTokenId);
          return;
        }
        id, rest := data[..32], data[32..];
        hash.Update(id);
      } else {
        if |data| < 4 {
          c := Err(BadTokenIndex);
          return;
        }
        var index := U32(data[..4]);
        if index >= distinct {
          c := Fail(BadTokenIndex);
          return;
        }
        id, rest := table.tokens[index], data[4..];
        hash.Update(Vlq(index));
      }
      c := Done;
    }

    /** Name and value of a token; both go to the hasher. */
    method TakeEntry(data: bytes, table: TokenTable?, distinct: u8)
        returns (c: Code, id: bytes, amount: u64, rest: bytes)
      requires table != null ==> table.Valid() && distinct <= table.count
      modifies this`state, hash
      ensures var o := BS.ReadEntry(data, old(NamesIn(table, distinct)));
              if c.Err?
              then o == Outcome.Fail(c.e) && state == if table != null && |data| < 4 then old(state) else BS.BoxError
              else && c == Done && o.Ok? && o.s.token == Token(id, amount) && state == old(state) && |data| >= 12
                   && rest == data[BS.EntrySize(old(NamesIn(table, distinct)))..]
                   && hash.log == old(hash.log) + (if o.s.name.ByIndex? then Vlq(o.s.name.index) else id) + Vlq(amount)
    {
      amount := 0;
      c, id, rest := TakeName(data, table, distinct);
      if c.Err? {
        return;
      }
      if |rest| < 8 {
        c := Fail(BadTokenValue);
        return;
      }
      amount := U64(rest[..8]);
      assert table == null ==> rest[..8] == data[32..40] && rest[8..] == data[40..];
      assert table != null ==> rest[..8] == data[4..12] && rest[8..] == data[12..];
      rest := rest[8..];
      hash.Update(Vlq(amount));
    }

    /** One round of the loop: name, value, callback, count. */
    method TakeToken(data: bytes, table: TokenTable?, distinct: u8) returns (c: Code, rest: bytes)
      requires Valid() && data != []
      requires table != null ==> table.Valid() && distinct <= table.count && table !in Objects(l)
      modifies this, hash, Objects(l)
      ensures Valid() && c != MoreData
      ensures Agrees(BS.OneToken(old(View()), data, old(NamesIn(table, distinct))), c, View())
      ensures c == Done ==> rest == data[BS.EntrySize(old(NamesIn(table, distinct)))..] && state == old(state)
      ensures c.Err? ==>
                state == if table != null && old(tokensCount) != 0 && |data| < 4 then old(state) else BS.BoxError
    {
      hide BS.OnToken, BS.ReadEntry, BS.EntrySize, Ready, Heard;
      rest := data;
      if tokensCount == 0 {
        c := Fail(TooManyTokens);
        StillHeard(l);
        return;
      }
      var id, amount;
      c, id, amount, rest := TakeEntry(data, table, distinct);
      StillHeard(l);
      if c.Err? {
        return;
      }
      c := OnToken(l, id, amount);
      label Told:
      if c.Err? {
        c := Fail(c.e);
      } else {
        tokensCount := tokensCount - 1;
      }
      StillHeard@Told(l);
    }

    /** ergo_tx_serializer_box_add_tokens; after an error the state is ERROR, except exactly for a short token index. */
    method AddTokens(input: bytes, table: TokenTable?, distinct: u8) returns (c: Code)
      requires Valid()
      requires table != null ==> table.Valid() && distinct <= table.count && table !in Objects(l)
      modifies this, hash, Objects(l)
      ensures Valid()
      ensures Agrees(BS.AddTokens(old(View()), input, old(NamesIn(table, distinct))), c, View())
      ensures c.Err? ==>
                state == if old(state) == BS.TreeAdded
                            && BS.ShortIndex(old(View()), input, old(NamesIn(table, distinct)))
                         then BS.TreeAdded else BS.BoxError
    {
      hide BS.OneToken, BS.EndOfTokens;
      if state != BS.TreeAdded {
        c := Fail(BadState);
        return;
      }
      var data := input;
      ghost var names := NamesIn(table, distinct);
      ghost var spec, short := BS.TokenLoop(View(), input, names), BS.ShortIndex(View(), input, names);
      while data != []
        invariant Valid() && state == BS.TreeAdded
        invariant table != null ==> table.Valid() && distinct <= table.count && names == NamesIn(table, distinct)
        invariant BS.TokenLoop(View(), data, names) == spec
        invariant BS.ShortIndex(View(), data, names) == short
        decreases |data|
      {
        c, data := TakeToken(data, table, distinct);
        if c.Err? {
          return;
        }
      }
      c := EndOfTokens();
    }

    /** The end of a token message: more tokens, registers, or an empty register list that closes the box. */
    method EndOfTokens() returns (c: Code)
      requires Valid()
      modifies this, hash, Objects(l)
      ensures Valid() && Agrees(BS.EndOfTokens(old(View())), c, View()) && !c.Err?
    {
      if tokensCount != 0 {
        return MoreData;
      }
      if registersSize != 0 {
        state := BS.TokensAdded;
      } else {
        hash.Update([0]);
        Finish();
      }
      return Done;
    }

    /** ergo_tx_serializer_box_add_registers */
    method AddRegisters(chunk: bytes) returns (c: Code)
      requires Valid()
      modifies this, hash, Objects(l)
      ensures Valid() && Agrees(BS.AddRegisters(old(View()), chunk), c, View())
      ensures c.Err? ==> state == BS.BoxError
    {
      if state != BS.TokensAdded {
        c := Fail(BadState);
        return;
      }
      if registersSize < |chunk| {
        c := Fail(TooMuchData);
        return;
      }
      hash.Update(chunk);
      registersSize := registersSize - |chunk|;
      if registersSize == 0 {
        Finish();
        return Done;
      }
      return MoreData;
    }
  }
}
