/**
 The contexts of the source as objects whose operations change fields in place.  Every
 operation is proved against the step function of its layer.
 Source: src/ergo/tx_ser_table.h, src/ergo/tx_ser_table.c, src/commands/signtx/stx_amounts.c,
 src/commands/signtx/stx_output.c.
 */
module Contexts {
  import opened Bytes
  import opened Gve
  import opened TxTypes
  import opened SafeInt
  import Ac = Accounting
  import OI = OutputInfo
  import FS = FullSerializer
  import ErgoTree

  const NOT_FOUND: u8 := 0xFF

  /** The result codes of the source's functions. */
  datatype Code = Done | MoreData | Err(e: Error)

  /** An operation returned the code and reached the state that its step function gives. */
  ghost predicate Agrees<S>(o: Outcome<S>, c: Code, s: S) {
    match o
    case Ok(t) => c == Done && s == t
    case More(t) => c == MoreData && s == t
    case Fail(e) => c == Err(e)
  }

  /** A running hash, known by what it absorbed. */
  class Hasher {
    var log: bytes

    constructor (initial: bytes)
      ensures log == initial
    {
      log := initial;
    }

    method Update(data: bytes)
      modifies this
      ensures log == old(log) + data
    {
      log := log + data;
    }
  }

  /** token_table_t: a hundred places, of which the first `count` are taken. */
  class TokenTable {
    var count: nat
    var tokens: seq<bytes>

    ghost predicate Valid()
      reads this
    {
      |tokens| == TOKEN_MAX_COUNT && count <= TOKEN_MAX_COUNT
    }

    ghost function View(): seq<bytes>
      requires Valid()
      reads this
    {
      tokens[..count]
    }

    constructor ()
      ensures Valid() && View() == []
    {
      count := 0;
      tokens := seq(TOKEN_MAX_COUNT, _ => []);
    }

    /** token_table_find_token_index */
    method Find(id: bytes) returns (index: u8)
      requires Valid()
      ensures var i := Ac.Find(View(), id); index == if i == count then NOT_FOUND else i
    {
      for i := 0 to count
        invariant forall j :: 0 <= j < i ==> tokens[j] != id
      {
        if tokens[i] == id {
          Ac.FindUnique(View(), id, i);
          return i;
        }
      }
      Ac.FindUnique(View(), id, count);
      return NOT_FOUND;
    }

    /** token_table_add_token */
    method Add(id: bytes) returns (index: u8)
      requires Valid()
      modifies this
      ensures Valid()
      ensures old(count) >= TOKEN_MAX_COUNT ==> index == NOT_FOUND && View() == old(View())
      ensures old(count) < TOKEN_MAX_COUNT ==> index == old(count) && View() == old(View()) + [id]
    {
      if count >= TOKEN_MAX_COUNT {
        return NOT_FOUND;
      }
      index := count;
      tokens := tokens[count := id];
      count := count + 1;
    }

    /** ergo_tx_serializer_table_add: ids are read up to the announced number. */
    method AddAll(distinct: nat, data: bytes) returns (c: Code)
      requires Valid() && distinct <= TOKEN_MAX_COUNT
      modifies this
      ensures Valid()
      ensures match FS.TableLoop(old(View()), distinct, data)
              case Ok(t) => View() == t && c == (if |t| >= distinct then Done else MoreData)
              case More(_) => false
              case Fail(e) => c == Err(e)
    {
      var i := 0;
      ghost var spec := FS.TableLoop(View(), distinct, data);
      assert data[0..] == data;
      while i < |data|
        invariant i <= |data| && Valid()
        invariant FS.TableLoop(View(), distinct, data[i..]) == spec
      {
        if count >= distinct {
          return Err(TooManyTokens);
        }
        if |data| - i < ID_LEN {
          return Err(BadTokenId);
        }
        assert data[i..][..ID_LEN] == data[i..i + ID_LEN] && data[i..][ID_LEN..] == data[i + ID_LEN..];
        ghost var was := View();
        tokens := tokens[count := data[i..i + ID_LEN]];
        count := count + 1;
        assert View() == was + [data[i..i + ID_LEN]];
        i := i + ID_LEN;
      }
      assert data[i..] == [];
      return if count >= distinct then Done else MoreData;
    }

    /** ergo_tx_serializer_table_hash: the announced number, then the announced ids. */
    method HashInto(distinct: nat, hash: Hasher)
      requires Valid() && distinct <= count
      modifies hash
      ensures hash.log == old(hash.log) + Vlq(distinct) + Flatten(View()[..distinct])
    {
      hash.Update(Vlq(distinct));
      ghost var start := hash.log;
      assert start + [] == start;
      for i := 0 to distinct
        invariant hash.log == start + Flatten(View()[..i])
      {
        assert View()[..i + 1] == View()[..i] + [tokens[i]];
        FlattenSnoc(View()[..i], tokens[i]);
        Assoc(start, Flatten(View()[..i]), tokens[i]);
        hash.Update(tokens[i]);
      }
    }
  }

  /** sign_transaction_amounts_ctx_t */
  class AmountsContext {
    const table: TokenTable
    var fee: u64
    var value: u64
    var tokens: seq<i64>

    ghost predicate Valid()
      reads this, table
    {
      table.Valid() && |tokens| == TOKEN_MAX_COUNT
    }

    ghost function View(): Ac.Amounts
      requires Valid()
      reads this, table
    {
      Ac.Amounts(fee, value, tokens, table.View())
    }

    constructor ()
      ensures Valid() && fresh(table) && View() == Ac.Zero()
    {
      table := new TokenTable();
      fee, value := 0, 0;
      tokens := seq(TOKEN_MAX_COUNT, _ => 0);
    }

    /** stx_amounts_init */
    method Reset()
      requires Valid()
      modifies this, table
      ensures Valid() && View() == Ac.Zero()
    {
      fee, value := 0, 0;
      tokens := seq(TOKEN_MAX_COUNT, _ => 0);
      table.count := 0;
    }

    /** stx_amounts_add_input */
    method AddInput(amount: u64) returns (c: Code)
      requires Valid()
      modifies this`value
      ensures Valid() && Agrees(Ac.AddInput(old(View()), amount), c, View())
    {
      var ok, sum := CheckedAddU64(value, amount);
      value := sum;
      return if ok then Done else Err(U64Overflow);
    }

    /** stx_amounts_add_input_token */
    method AddInputToken(id: bytes, amount: u64) returns (c: Code)
      requires Valid()
      modifies this`tokens, table
      ensures Valid() && Agrees(Ac.AddInputToken(old(View()), id, amount), c, View())
    {
      var index := table.Find(id);
      if index == NOT_FOUND {
        index := table.Add(id);
        if index == NOT_FOUND {
          return Err(TooManyTokens);
        }
        tokens := tokens[index := 0];
      }
      var ok, sum := CheckedAddI64(tokens[index], amount);
      if !ok {
        return Err(U64Overflow);
      }
      tokens := tokens[index := sum];
      return Done;
    }

    /** stx_amounts_add_output */
    method AddOutput(kind: BoxKind, amount: u64) returns (c: Code)
      requires Valid()
      modifies this`value, this`fee
      ensures Valid() && Agrees(Ac.AddOutput(old(View()), kind, amount), c, View())
    {
      if kind == TreeBox {
        return Done;
      }
      var ok, rest := CheckedSubU64(value, amount);
      if !ok {
        return Err(U64Overflow);
      }
      value := rest;
      if kind == FeeBox {
        var fits, sum := CheckedAddU64(fee, amount);
        if !fits {
          return Err(U64Overflow);
        }
        fee := sum;
      }
      return Done;
    }

    /** stx_amounts_add_output_token */
    method AddOutputToken(id: bytes, amount: u64) returns (c: Code)
      requires Valid()
      modifies this`tokens
      ensures Valid() && Agrees(Ac.AddOutputToken(old(View()), id, amount), c, View())
    {
      var index := table.Find(id);
      if index == NOT_FOUND {
        return Err(BadTokenId);
      }
      var ok, rest := CheckedSubI64(tokens[index], amount);
      if !ok {
        return Err(U64Overflow);
      }
      tokens := tokens[index := rest];
      return Done;
    }
  }

  // ---------- the output information ----------

  /** The numbers of sign_transaction_output_info_type_e. */
  function KindCode(k: OI.OutputKind): bv8 {
    match k
    case Unknown => 0
    case Bip32 => 1
    case Address => 2
    case Script => 3
    case ScriptHash => 4
    case MinersFee => 5
  }

  function KindOf(state: bv8): OI.OutputKind {
    var k := state & 0x3F;
    if k == 1 then OI.Bip32 else if k == 2 then OI.Address else if k == 3 then OI.Script
    else if k == 4 then OI.ScriptHash else if k == 5 then OI.MinersFee else OI.Unknown
  }

  /** The flags and the kind share one byte without disturbing each other. */
  lemma StateByte(state: bv8, k: OI.OutputKind)
    ensures KindOf((state & 0xC0) | (KindCode(k) & 0x3F)) == k
    ensures ((state & 0xC0) | (KindCode(k) & 0x3F)) & 0xC0 == state & 0xC0
    ensures KindOf(state | 0x40) == KindOf(state) && KindOf(state | 0x80) == KindOf(state)
    ensures (state | 0x40) & 0x40 != 0 && (state | 0x80) & 0x80 != 0
    ensures (state | 0x40) & 0x80 == state & 0x80 && (state | 0x80) & 0x40 == state & 0x40
    ensures var s := (state & 0xC0) | (KindCode(k) & 0x3F); s & 0x40 == state & 0x40 && s & 0x80 == state & 0x80
  {
  }

  /** sign_transaction_output_info_ctx_t: kind, tree-set and box-finished packed in one byte. */
  class OutputContext {
    const table: TokenTable
    var value: u64
    var tokens: seq<u64>
    var state: bv8
    var payload: OI.Payload

    ghost predicate Valid()
      reads this, table
    {
      table.Valid() && |tokens| == TOKEN_MAX_COUNT
    }

    ghost function View(): OI.Output
      requires Valid()
      reads this, table
    {
      OI.Output(value, tokens, KindOf(state), state & 0x40 != 0, state & 0x80 != 0, payload)
    }

    constructor (t: TokenTable)
      requires t.Valid()
      ensures Valid() && table == t && View() == OI.NewOutput(0)
    {
      table := t;
      value, state, payload := 0, 0, OI.Nothing;
      tokens := seq(TOKEN_MAX_COUNT, _ => 0);
    }

    /** stx_output_info_init */
    method Init(amount: u64)
      requires Valid()
      modifies this
      ensures Valid() && View() == OI.NewOutput(amount)
    {
      value, state, payload := amount, 0, OI.Nothing;
      tokens := seq(TOKEN_MAX_COUNT, _ => 0);
    }

    /** Whether the output is complete and cannot be clear-signed. */
    method IsBlind() returns (blind: bool)
      requires Valid()
      ensures blind == OI.Blind(View())
    {
      var kind := KindOf(state);
      return state & 0x40 != 0 && state & 0x80 != 0
             && kind != OI.Bip32 && kind != OI.Address && kind != OI.MinersFee;
    }

    method SetKind(k: OI.OutputKind)
      requires Valid()
      modifies this`state
      ensures Valid() && View() == old(View()).(kind := k)
    {
      StateByte(state, k);
      state := (state & 0xC0) | (KindCode(k) & 0x3F);
    }

    method SetTree()
      requires Valid()
      modifies this`state
      ensures Valid() && View() == old(View()).(treeSet := true)
    {
      StateByte(state, OI.Unknown);
      state := state | 0x40;
    }

    /** maybe_finished: blake2b_256_finalize turns the running hasher into its digest. */
    method MaybeFinished()
      requires Valid()
      modifies this`payload
      ensures Valid() && View() == OI.MaybeFinished(old(View()))
    {
      if state & 0x40 != 0 && state & 0x80 != 0 && KindOf(state) == OI.Script {
        payload := if payload.TreeHasher? then OI.TreeDigest(payload.absorbed) else OI.Corrupt;
      }
    }

    /** stx_output_info_set_bip32 */
    method SetBip32(path: seq<u32>) returns (c: Code)
      requires Valid()
      modifies this
      ensures Valid() && Agrees(OI.SetBip32(old(View()), path), c, View())
    {
      if KindOf(state) != OI.Unknown {
        return Err(BadState);
      }
      SetKind(OI.Bip32);
      SetTree();
      payload := OI.Path(path);
      MaybeFinished();
      return Done;
    }

    /** stx_output_info_set_fee */
    method SetFee() returns (c: Code)
      requires Valid()
      modifies this
      ensures Valid() && Agrees(OI.SetFee(old(View())), c, View())
    {
      if KindOf(state) != OI.Unknown {
        return Err(BadState);
      }
      SetKind(OI.MinersFee);
      SetTree();
      MaybeFinished();
      return Done;
    }

    /** stx_output_info_add_tree_chunk */
    method AddTreeChunk(chunk: bytes, isFinished: bool) returns (c: Code)
      requires Valid()
      modifies this
      ensures Valid() && Agrees(OI.AddTreeChunk(old(View()), chunk, isFinished), c, View())
    {
      if KindOf(state) != OI.Unknown && KindOf(state) != OI.Script {
        return Err(BadState);
      }
      if state & 0x40 != 0 {
        return Err(BadState);
      }
      if KindOf(state) == OI.Unknown {
        var key, hash := ErgoTree.ParseP2pk(chunk), ErgoTree.ParseP2sh(chunk);
        if isFinished && key.Some? {
          payload := OI.PublicKey(key.value);
          SetKind(OI.Address);
          SetTree();
        } else if isFinished && hash.Some? {
          payload := OI.Hash(hash.value);
          SetKind(OI.ScriptHash);
          SetTree();
        } else {
          SetKind(OI.Script);
          payload := OI.TreeHasher([]);
        }
      }
      if KindOf(state) == OI.Script {
        payload := if payload.TreeHasher? then OI.TreeHasher(payload.absorbed + chunk) else OI.Corrupt;
        if isFinished {
          SetTree();
        }
      }
      MaybeFinished();
      return Done;
    }

    /** stx_output_info_add_token */
    method AddToken(id: bytes, amount: u64) returns (c: Code)
      requires Valid()
      modifies this`tokens
      ensures Valid() && Agrees(OI.AddToken(old(View()), table.View(), id, amount), c, View())
    {
      var index := table.Find(id);
      if index == NOT_FOUND {
        return Err(BadTokenId);
      }
      if tokens[index] != 0 {
        return Err(BadTokenValue);
      }
      tokens := tokens[index := amount];
      return Done;
    }

    /** stx_output_info_set_box_finished */
    method SetBoxFinished()
      requires Valid()
      modifies this
      ensures Valid() && View() == OI.SetBoxFinished(old(View()))
    {
      StateByte(state, OI.Unknown);
      state := state | 0x80;
      MaybeFinished();
    }
  }
}
