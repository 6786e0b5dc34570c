/**
 Vocabulary shared by the serializers and the two sessions.
 */
module TxTypes {
  import opened Bytes

  const ID_LEN: nat := 32
  const TOKEN_MAX_COUNT: nat := 100
  const MAX_TX_DATA_PART_LEN: nat := 32768
  const MAX_DATA_CHUNK_LEN: nat := 255

  /** The result codes of the layers, which the mapping tables of the source carry upwards unchanged. */
  datatype Error =
    | BadState | BadSession | BadSubcommand | BadParameters | NotEnoughData | TooMuchData | Busy | Denied
    | BadInputCount | BadOutputCount | TooManyInputs | TooManyDataInputs | TooManyOutputs
    | BadTokenId | BadTokenIndex | BadTokenValue | TooManyTokens
    | BadInputId | BadFrameIndex | TooManyInputFrames | BadContextExtensionSize | BadFrameSignature
    | BadDataInput | SmallChunk | U64Overflow | BufferError

  /** What a step returns: finished, more data wanted, or an error that ends the whole operation. */
  datatype Outcome<+S> = Ok(s: S) | More(s: S) | Fail(e: Error)

  datatype Token = Token(id: bytes, amount: u64)

  /** As many tokens as the table of the device holds. */
  type TokenList = ts: seq<Token> | |ts| <= TOKEN_MAX_COUNT

  datatype BoxKind = FeeBox | ChangeBox | TreeBox

  function Last<T>(s: seq<T>): T
    requires s != []
  {
    s[|s| - 1]
  }

  function Front<T>(s: seq<T>): seq<T>
    requires s != []
  {
    s[..|s| - 1]
  }

  /** `s` with its last element replaced. */
  function SetLast<T>(s: seq<T>, x: T): (r: seq<T>)
    requires s != []
    ensures |r| == |s| && Last(r) == x && Front(r) == Front(s)
  {
    s[..|s| - 1] + [x]
  }

  /** The list of `n`-byte pieces of `s`; an incomplete tail is dropped. */
  function Pieces(s: bytes, n: nat): seq<bytes>
    requires n > 0
  {
    if |s| < n then [] else [s[..n]] + Pieces(s[n..], n)
  }

  function Flatten(parts: seq<bytes>): bytes {
    if parts == [] then [] else Flatten(Front(parts)) + Last(parts)
  }

  lemma FlattenSnoc(parts: seq<bytes>, x: bytes)
    ensures Flatten(parts + [x]) == Flatten(parts) + x
  {
    assert Front(parts + [x]) == parts;
  }

  lemma {:induction false} FlattenCons(id: bytes, ids: seq<bytes>)
    ensures Flatten([id] + ids) == id + Flatten(ids)
  {
    if ids == [] {
      assert [id] + ids == [id] && Front([id]) == [];
      assert [] + id == id + [];
    } else {
      FlattenCons(id, Front(ids));
      assert Front([id] + ids) == [id] + Front(ids);
      Assoc(id, Flatten(Front(ids)), Last(ids));
    }
  }

  /** A list of (32-byte id, big-endian amount) pairs, as input frames carry it. */
  function TokenPairs(s: bytes): seq<Token> {
    if |s| < 40 then [] else [Token(s[..32], U64(s[32..40]))] + TokenPairs(s[40..])
  }

  function TokenSum(ts: seq<Token>, id: bytes): nat {
    if ts == [] then 0 else TokenSum(Front(ts), id) + (if Last(ts).id == id then Last(ts).amount else 0)
  }

  lemma TokenSumSnoc(ts: seq<Token>, t: Token, id: bytes)
    ensures TokenSum(ts + [t], id) == TokenSum(ts, id) + (if t.id == id then t.amount else 0)
  {
    assert Front(ts + [t]) == ts;
  }

  lemma {:induction false} TokenSumAbsent(ts: seq<Token>, id: bytes)
    requires forall i :: 0 <= i < |ts| ==> ts[i].id != id
    ensures TokenSum(ts, id) == 0
  {
    if ts != [] {
      TokenSumAbsent(Front(ts), id);
    }
  }
}
