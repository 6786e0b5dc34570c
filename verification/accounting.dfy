/**
 Totals of a transaction: ERG in, change and fee out, and the balance of every token.
 Source: src/commands/signtx/stx_amounts.c, src/ergo/tx_ser_table.h.
 */
module Accounting {
  import opened Bytes
  import opened TxTypes

  datatype AmountsRaw = Amounts(fee: u64, value: u64, tokens: seq<i64>, table: seq<bytes>)

  type Amounts = a: AmountsRaw | |a.tokens| == TOKEN_MAX_COUNT && |a.table| <= TOKEN_MAX_COUNT
    witness Amounts(0, 0, seq(TOKEN_MAX_COUNT, _ => 0), [])

  function Zero(): Amounts {
    Amounts(0, 0, seq(TOKEN_MAX_COUNT, _ => 0), [])
  }

  /** token_table_find_token_index: the first place of an id in the table, or the table's length. */
  function Find(table: seq<bytes>, id: bytes): (i: nat)
    ensures i <= |table| && (i < |table| ==> table[i] == id)
    ensures forall j :: 0 <= j < i ==> table[j] != id
  {
    if table == [] || table[0] == id then 0
    else
      var i := Find(table[1..], id);
      assert forall j :: 1 <= j < i + 1 ==> table[j] == table[1..][j - 1];
      i + 1
  }

  lemma FindUnique(table: seq<bytes>, id: bytes, i: nat)
    requires i <= |table| && (i < |table| ==> table[i] == id)
    requires forall j :: 0 <= j < i ==> table[j] != id
    ensures Find(table, id) == i
  {
  }

  /** stx_amounts_add_input */
  function AddInput(a: Amounts, value: u64): Outcome<Amounts> {
    if a.value + value > U64_MAX then Fail(U64Overflow) else Ok(a.(value := a.value + value))
  }

  /** stx_amounts_add_input_token: an id seen for the first time gets the next place in the table. */
  function AddInputToken(a: Amounts, id: bytes, value: u64): (o: Outcome<Amounts>)
    ensures !o.More?
  {
    var i := Find(a.table, id);
    if i == |a.table| && i >= TOKEN_MAX_COUNT then Fail(TooManyTokens)
    else
      var b := if i == |a.table| then a.(table := a.table + [id], tokens := a.tokens[i := 0]) else a;
      var sum := b.tokens[i] + value;
      if sum > I64_MAX then Fail(U64Overflow) else Ok(b.(tokens := b.tokens[i := sum]))
  }

  /** stx_amounts_add_output */
  function AddOutput(a: Amounts, kind: BoxKind, value: u64): Outcome<Amounts> {
    match kind
    case TreeBox => Ok(a)
    case ChangeBox =>
      if value > a.value then Fail(U64Overflow) else Ok(a.(value := a.value - value))
    case FeeBox =>
      if value > a.value then Fail(U64Overflow)
      else if a.fee + value > U64_MAX then Fail(U64Overflow)
      else Ok(a.(value := a.value - value, fee := a.fee + value))
  }

  /** stx_amounts_add_output_token */
  function AddOutputToken(a: Amounts, id: bytes, value: u64): Outcome<Amounts> {
    var i := Find(a.table, id);
    if i == |a.table| then Fail(BadTokenId)
    else
      var rest := a.tokens[i] - value;
      if rest < I64_MIN then Fail(U64Overflow) else Ok(a.(tokens := a.tokens[i := rest]))
  }

  // ---------- what the totals mean ----------

  /** Everything that was counted, in order. */
  datatype Ledger = Ledger(
    inValues: seq<u64>, inTokens: seq<Token>,
    outValues: seq<(BoxKind, u64)>, outTokens: seq<Token>)

  const EMPTY: Ledger := Ledger([], [], [], [])

  function Sum(values: seq<u64>): nat {
    if values == [] then 0 else Sum(Front(values)) + Last(values)
  }

  /** The total of the boxes of one kind. */
  function SumOf(values: seq<(BoxKind, u64)>, kind: BoxKind): nat {
    if values == [] then 0
    else SumOf(Front(values), kind) + (if Last(values).0 == kind then Last(values).1 else 0)
  }

  /** ERG is conserved: what is left to pay others, plus change, plus fee, is what came in. */
  ghost predicate ErgBalanced(a: Amounts, l: Ledger) {
    && a.value + SumOf(l.outValues, ChangeBox) + SumOf(l.outValues, FeeBox) == Sum(l.inValues)
    && a.fee == SumOf(l.outValues, FeeBox)
    && Sum(l.inValues) <= U64_MAX
  }

  /** The entry of a table place: the balance of the id if this is its first place, else nothing. */
  ghost function BalanceAt(table: seq<bytes>, l: Ledger, i: nat): int {
    if i < |table| && Find(table, table[i]) == i
    then TokenSum(l.inTokens, table[i]) - TokenSum(l.outTokens, table[i]) else 0
  }

  /** Tokens are conserved, as exact integers, and nothing is recorded anywhere else. */
  ghost predicate TokensBalanced(a: Amounts, l: Ledger) {
    && (forall i :: 0 <= i < TOKEN_MAX_COUNT ==> a.tokens[i] == BalanceAt(a.table, l, i))
    && (forall i :: 0 <= i < |l.inTokens| ==> l.inTokens[i].id in a.table)
    && (forall i :: 0 <= i < |l.outTokens| ==> l.outTokens[i].id in a.table)
  }

  ghost predicate Balanced(a: Amounts, l: Ledger) {
    ErgBalanced(a, l) && TokensBalanced(a, l)
  }

  lemma ZeroBalanced(a: Amounts)
    requires a.fee == 0 && a.value == 0 && forall i :: 0 <= i < TOKEN_MAX_COUNT ==> a.tokens[i] == 0
    ensures Balanced(a, EMPTY)
  {
  }

  /** Input values; outputs must not have started, as the sum in use would otherwise not be the sum of the inputs. */
  lemma AddInputKeeps(a: Amounts, l: Ledger, value: u64)
    requires Balanced(a, l) && l.outValues == []
    ensures var r := AddInput(a, value);
            r.Ok? ==> Balanced(r.s, l.(inValues := l.inValues + [value]))
  {
    var l' := l.(inValues := l.inValues + [value]);
    assert Front(l'.inValues) == l.inValues;
    assert forall i :: 0 <= i < TOKEN_MAX_COUNT ==> BalanceAt(a.table, l', i) == BalanceAt(a.table, l, i);
  }

  lemma AddInputTokenKeeps(a: Amounts, l: Ledger, id: bytes, value: u64)
    requires Balanced(a, l)
    ensures var r := AddInputToken(a, id, value);
            r.Ok? ==> Balanced(r.s, l.(inTokens := l.inTokens + [Token(id, value)])) && a.table <= r.s.table
  {
    var r := AddInputToken(a, id, value);
    if r.Ok? {
      var l' := l.(inTokens := l.inTokens + [Token(id, value)]);
      var k := Find(a.table, id);
      forall i | 0 <= i < TOKEN_MAX_COUNT
        ensures r.s.tokens[i] == BalanceAt(r.s.table, l', i)
      {
        InputEntry(a, l, id, value, i);
      }
      assert id == r.s.table[k];
    }
  }

  lemma InputEntry(a: Amounts, l: Ledger, id: bytes, value: u64, i: nat)
    requires TokensBalanced(a, l) && AddInputToken(a, id, value).Ok? && i < TOKEN_MAX_COUNT
    ensures var r := AddInputToken(a, id, value).s;
            r.tokens[i] == BalanceAt(r.table, l.(inTokens := l.inTokens + [Token(id, value)]), i)
  {
    var r := AddInputToken(a, id, value).s;
    if i < |a.table| {
      FindInExtension(a.table, r.table, a.table[i]);
      TokenSumSnoc(l.inTokens, Token(id, value), a.table[i]);
    } else if i == Find(a.table, id) {
      FindUnique(r.table, id, i);
      TokenSumSnoc(l.inTokens, Token(id, value), id);
      TokenSumAbsent(l.inTokens, id);
      TokenSumAbsent(l.outTokens, id);
    }
  }

  lemma FindInExtension(t: seq<bytes>, u: seq<bytes>, id: bytes)
    requires t <= u && id in t
    ensures Find(u, id) == Find(t, id)
  {
    FindUnique(u, id, Find(t, id));
  }

  lemma AddOutputKeeps(a: Amounts, l: Ledger, kind: BoxKind, value: u64)
    requires Balanced(a, l)
    ensures var r := AddOutput(a, kind, value);
            r.Ok? ==> Balanced(r.s, l.(outValues := l.outValues + [(kind, value)])) && r.s.table == a.table
  {
    var l' := l.(outValues := l.outValues + [(kind, value)]);
    assert Front(l'.outValues) == l.outValues;
    assert forall i :: 0 <= i < TOKEN_MAX_COUNT ==> BalanceAt(a.table, l', i) == BalanceAt(a.table, l, i);
  }

  /** The fee accumulator cannot overflow: fee and value together never exceed what came in. */
  lemma FeeNeverOverflows(a: Amounts, l: Ledger, value: u64)
    requires Balanced(a, l)
    ensures AddOutput(a, FeeBox, value).Fail? <==> value > a.value
    ensures value <= a.value ==> a.fee + value <= U64_MAX
  {
  }

  lemma AddOutputTokenKeeps(a: Amounts, l: Ledger, id: bytes, value: u64)
    requires Balanced(a, l)
    ensures var r := AddOutputToken(a, id, value);
            r.Ok? ==> Balanced(r.s, l.(outTokens := l.outTokens + [Token(id, value)])) && r.s.table == a.table
  {
    var r := AddOutputToken(a, id, value);
    if r.Ok? {
      var l' := l.(outTokens := l.outTokens + [Token(id, value)]);
      forall i | 0 <= i < TOKEN_MAX_COUNT
        ensures r.s.tokens[i] == BalanceAt(r.s.table, l', i)
      {
        if i < |a.table| {
          TokenSumSnoc(l.outTokens, Token(id, value), a.table[i]);
        }
      }
      assert id == a.table[Find(a.table, id)];
    }
  }

  // ---------- the review list ----------

  /** How many of the first `n` entries are not zero. */
  function NonZero(tokens: seq<int>, n: nat): (c: nat)
    requires n <= |tokens|
    ensures c <= n
  {
    if n == 0 then 0 else NonZero(tokens, n - 1) + (if tokens[n - 1] != 0 then 1 else 0)
  }

  /** The place of the k-th nonzero entry: nonzero, with k nonzero ones before it. */
  ghost predicate IsKth(tokens: seq<int>, k: nat, i: nat) {
    i < |tokens| && tokens[i] != 0 && NonZero(tokens, i) == k
  }

  /** stx_amounts_non_zero_tokens_count */
  method NonZeroCount(tokens: seq<int>) returns (count: nat)
    ensures count == NonZero(tokens, |tokens|)
  {
    count := 0;
    for i := 0 to |tokens|
      invariant count == NonZero(tokens, i)
    {
      if tokens[i] != 0 {
        count := count + 1;
      }
    }
  }

  /** stx_amounts_non_zero_token_index: the k-th place, or 0xFF exactly when there are not that many. */
  method NonZeroIndex(tokens: seq<int>, k: u8) returns (index: u8)
    requires |tokens| == TOKEN_MAX_COUNT
    ensures index == 0xFF <==> k >= NonZero(tokens, |tokens|)
    ensures index != 0xFF ==> IsKth(tokens, k, index)
  {
    var count := 0;
    for i := 0 to |tokens|
      invariant count == NonZero(tokens, i) <= k
    {
      if tokens[i] != 0 {
        if count == k {
          NonZeroGrows(tokens, i + 1, |tokens|);
          return i;
        }
        count := count + 1;
      }
    }
    return 0xFF;
  }

  lemma {:induction false} NonZeroGrows(tokens: seq<int>, m: nat, n: nat)
    requires m <= n <= |tokens|
    ensures NonZero(tokens, m) <= NonZero(tokens, n)
  {
    if m < n {
      NonZeroGrows(tokens, m, n - 1);
    }
  }

  lemma {:induction false} NonZeroStep(tokens: seq<int>, i: nat)
    requires i < |tokens| && tokens[i] != 0
    ensures NonZero(tokens, i + 1) == NonZero(tokens, i) + 1
  {
  }

  /** Selection is increasing and one-to-one: each nonzero place is selected by exactly one number, below the count. */
  lemma {:induction false} SelectionExact(tokens: seq<int>, i: nat, j: nat)
    requires i < |tokens| && tokens[i] != 0
    requires j < |tokens| && tokens[j] != 0
    ensures IsKth(tokens, NonZero(tokens, i), i)
    ensures NonZero(tokens, i) < NonZero(tokens, |tokens|)
    ensures i < j <==> NonZero(tokens, i) < NonZero(tokens, j)
  {
    NonZeroStep(tokens, i);
    NonZeroStep(tokens, j);
    hide NonZero;
    NonZeroGrows(tokens, i + 1, |tokens|);
    if i < j {
      NonZeroGrows(tokens, i + 1, j);
    } else if j < i {
      NonZeroGrows(tokens, j + 1, i);
    }
  }

  /** The k-th screen of the review shows this token. */
  ghost predicate Shows(a: Amounts, k: nat, id: bytes) {
    exists i: nat :: IsKth(a.tokens, k, i) && i < |a.table| && a.table[i] == id
  }

  /** With balanced books the review list is exactly the tokens minted or burned, each shown once. */
  lemma {:induction false} ReviewListExact(a: Amounts, l: Ledger, id: bytes)
    requires Balanced(a, l)
    ensures (exists k: nat :: k < NonZero(a.tokens, TOKEN_MAX_COUNT) && Shows(a, k, id))
            <==> TokenSum(l.inTokens, id) != TokenSum(l.outTokens, id)
    ensures forall k: nat, k': nat :: Shows(a, k, id) && Shows(a, k', id) ==> k == k'
  {
    if id in a.table {
      var i := Find(a.table, id);
      if a.tokens[i] != 0 {
        SelectionExact(a.tokens, i, i);
        assert Shows(a, NonZero(a.tokens, i), id);
      }
      forall k: nat | Shows(a, k, id)
        ensures k == NonZero(a.tokens, i) && a.tokens[i] != 0
      {
        var j: nat :| IsKth(a.tokens, k, j) && j < |a.table| && a.table[j] == id;
        assert BalanceAt(a.table, l, j) != 0;
      }
    } else {
      TokenSumAbsent(l.inTokens, id);
      TokenSumAbsent(l.outTokens, id);
    }
  }
}
