/**
 Outputs opened and left incomplete: what they take from the totals of the transaction that is
 signed, and when they take nothing.
 */
module Totals {
  import opened Bytes
  import opened TxTypes
  import opened Accounting
  import opened Reference

  /** The described transaction with the boxes that were received in full. */
  function Final(d: Draft): Draft {
    d.(outputs := Finished(d.outputs))
  }

  /** The boxes that were left incomplete. */
  function Abandoned(s: seq<Box>): seq<Box> {
    if s == [] then [] else Abandoned(Front(s)) + (if Complete(Last(s)) then [] else [Last(s)])
  }

  /** No abandoned box had a change or fee value counted, or an amount of any token. */
  ghost predicate NothingLost(d: Draft) {
    var lost := Abandoned(d.outputs);
    && SumOf(BoxValues(lost), ChangeBox) == 0 && SumOf(BoxValues(lost), FeeBox) == 0
    && NoAmounts(BoxTokens(lost))
  }

  ghost predicate NoAmounts(ts: seq<Token>) {
    forall id :: TokenSum(ts, id) == 0
  }

  // ---------- sums over finished and abandoned boxes ----------

  lemma SumOfSnoc(values: seq<(BoxKind, u64)>, v: (BoxKind, u64), kind: BoxKind)
    ensures SumOf(values + [v], kind) == SumOf(values, kind) + (if v.0 == kind then v.1 else 0)
  {
    assert Front(values + [v]) == values;
  }

  lemma {:induction false} TokenSumAppend(a: seq<Token>, b: seq<Token>, id: bytes)
    ensures TokenSum(a + b, id) == TokenSum(a, id) + TokenSum(b, id)
  {
    if b == [] {
      assert a + b == a;
    } else {
      TokenSumAppend(a, Front(b), id);
      assert Front(a + b) == a + Front(b);
    }
  }

  lemma ValuesSnoc(s: seq<Box>, b: Box, kind: BoxKind)
    ensures SumOf(BoxValues(s + [b]), kind)
         == SumOf(BoxValues(s), kind) + (if b.treeDone && b.kind == kind then b.value else 0)
  {
    assert Front(s + [b]) == s;
    if b.treeDone {
      SumOfSnoc(BoxValues(s), (b.kind, b.value), kind);
    } else {
      assert BoxValues(s) + [] == BoxValues(s);
    }
  }

  lemma TokensSnoc(s: seq<Box>, b: Box, id: bytes)
    ensures TokenSum(BoxTokens(s + [b]), id) == TokenSum(BoxTokens(s), id) + TokenSum(TokensOf(b.entries), id)
  {
    assert Front(s + [b]) == s;
    TokenSumAppend(BoxTokens(s), TokensOf(b.entries), id);
  }

  lemma {:induction false} SplitLast(s: seq<Box>)
    requires s != []
    ensures s == Front(s) + [Last(s)]
    ensures Finished(s) == if Complete(Last(s)) then Finished(Front(s)) + [Last(s)] else Finished(Front(s))
    ensures Abandoned(s) == if Complete(Last(s)) then Abandoned(Front(s)) else Abandoned(Front(s)) + [Last(s)]
  {
    hide Complete;
    assert s == Front(s) + [Last(s)];
    assert Finished(Front(s)) + [] == Finished(Front(s)) && Abandoned(Front(s)) + [] == Abandoned(Front(s));
  }

  /** Every opened box is finished or abandoned, and counted accordingly. */
  lemma {:induction false} ValuesSplit(s: seq<Box>, kind: BoxKind)
    ensures SumOf(BoxValues(s), kind) == SumOf(BoxValues(Finished(s)), kind) + SumOf(BoxValues(Abandoned(s)), kind)
  {
    if s != [] {
      SplitLast(s);
      hide SumOf, BoxValues, Finished, Abandoned, Complete;
      ValuesSplit(Front(s), kind);
      ValuesSnoc(Front(s), Last(s), kind);
      ValuesSnoc(Finished(Front(s)), Last(s), kind);
      ValuesSnoc(Abandoned(Front(s)), Last(s), kind);
    }
  }

  lemma {:induction false} TokensSplit(s: seq<Box>, id: bytes)
    ensures TokenSum(BoxTokens(s), id) == TokenSum(BoxTokens(Finished(s)), id) + TokenSum(BoxTokens(Abandoned(s)), id)
  {
    if s != [] {
      SplitLast(s);
      hide TokenSum, BoxTokens, Finished, Abandoned, Complete;
      TokensSplit(Front(s), id);
      TokensSnoc(Front(s), Last(s), id);
      TokensSnoc(Finished(Front(s)), Last(s), id);
      TokensSnoc(Abandoned(Front(s)), Last(s), id);
    }
  }

  /** A token of some of the boxes is a token of all of them. */
  lemma {:induction false} FinishedTokens(s: seq<Box>, t: Token)
    requires t in BoxTokens(Finished(s)) || t in BoxTokens(Abandoned(s))
    ensures t in BoxTokens(s)
  {
    if s != [] {
      SplitLast(s);
      TokensOfSnoc(Finished(Front(s)), Last(s));
      TokensOfSnoc(Abandoned(Front(s)), Last(s));
      hide Finished, Abandoned, Complete;
      if t !in TokensOf(Last(s).entries) {
        FinishedTokens(Front(s), t);
      }
    }
  }

  lemma TokensOfSnoc(s: seq<Box>, b: Box)
    ensures BoxTokens(s + [b]) == BoxTokens(s) + TokensOf(b.entries)
  {
    assert Front(s + [b]) == s;
  }

  // ---------- when the totals are those of the transaction ----------

  lemma ErgExact(a: Amounts, d: Draft)
    requires ErgBalanced(a, Counted(d))
    ensures ErgBalanced(a, Counted(Final(d))) <==>
              SumOf(BoxValues(Abandoned(d.outputs)), ChangeBox) == 0
                && SumOf(BoxValues(Abandoned(d.outputs)), FeeBox) == 0
  {
    ValuesSplit(d.outputs, ChangeBox);
    ValuesSplit(d.outputs, FeeBox);
    hide SumOf, BoxValues, Finished, Abandoned;
  }

  ghost predicate Listed(ts: seq<Token>, table: seq<bytes>) {
    forall i :: 0 <= i < |ts| ==> ts[i].id in table
  }

  lemma IdsListed(a: Amounts, d: Draft)
    requires TokensBalanced(a, Counted(d))
    ensures Listed(Counted(Final(d)).outTokens, a.table) && Listed(BoxTokens(Abandoned(d.outputs)), a.table)
  {
    hide Finished, Abandoned, BoxTokens, TokenSum;
    var all := BoxTokens(d.outputs);
    forall t | t in BoxTokens(Finished(d.outputs)) || t in BoxTokens(Abandoned(d.outputs))
      ensures t.id in a.table
    {
      FinishedTokens(d.outputs, t);
      var i :| 0 <= i < |all| && all[i] == t;
      assert Counted(d).outTokens[i].id in a.table;
    }
  }

  lemma EntryExact(a: Amounts, d: Draft, i: nat)
    requires TokensBalanced(a, Counted(d)) && i < TOKEN_MAX_COUNT
    ensures a.tokens[i] == BalanceAt(a.table, Counted(Final(d)), i) <==>
              (i < |a.table| && Find(a.table, a.table[i]) == i ==>
                 TokenSum(BoxTokens(Abandoned(d.outputs)), a.table[i]) == 0)
  {
    if i < |a.table| {
      TokensSplit(d.outputs, a.table[i]);
    }
    hide Finished, Abandoned, BoxTokens, TokenSum, Find;
    assert a.tokens[i] == BalanceAt(a.table, Counted(d), i);
  }

  lemma NotListedNotLost(a: Amounts, d: Draft, id: bytes)
    requires TokensBalanced(a, Counted(d)) && id !in a.table
    ensures TokenSum(BoxTokens(Abandoned(d.outputs)), id) == 0
  {
    IdsListed(a, d);
    TokenSumAbsent(BoxTokens(Abandoned(d.outputs)), id);
  }

  lemma TokensExact(a: Amounts, d: Draft)
    requires TokensBalanced(a, Counted(d))
    ensures TokensBalanced(a, Counted(Final(d))) <==> NoAmounts(BoxTokens(Abandoned(d.outputs)))
  {
    var lost := BoxTokens(Abandoned(d.outputs));
    IdsListed(a, d);
    hide Finished, Abandoned, BoxTokens, BalanceAt;
    if TokensBalanced(a, Counted(Final(d))) {
      forall id
        ensures TokenSum(lost, id) == 0
      {
        if id in a.table {
          EntryExact(a, d, Find(a.table, id));
        } else {
          NotListedNotLost(a, d, id);
        }
      }
    }
    if NoAmounts(lost) {
      forall i | 0 <= i < TOKEN_MAX_COUNT
        ensures a.tokens[i] == BalanceAt(a.table, Counted(Final(d)), i)
      {
        EntryExact(a, d, i);
      }
      assert Counted(Final(d)).inTokens == Counted(d).inTokens;
    }
  }

  /** The totals are those of the finished transaction if and only if nothing was lost in abandoned boxes. */
  lemma TotalsExact(a: Amounts, d: Draft)
    requires Balanced(a, Counted(d))
    ensures Balanced(a, Counted(Final(d))) <==> NothingLost(d)
  {
    ErgExact(a, d);
    TokensExact(a, d);
    hide ErgBalanced, TokensBalanced, NoAmounts, BoxValues, BoxTokens, Abandoned;
  }

  /** An incomplete box that was never counted: its tree unknown and no token received. */
  predicate Silent(b: Box) {
    Complete(b) || (!b.treeDone && b.entries == [])
  }

  /** The books of the finished transaction are those of all that was opened exactly if every incomplete box is
      silent. */
  lemma CountedExact(d: Draft)
    ensures Counted(Final(d)) == Counted(d) <==> forall k :: 0 <= k < |d.outputs| ==> Silent(d.outputs[k])
  {
    SameBooks(d.outputs);
  }

  lemma {:induction false} SameBooks(s: seq<Box>)
    ensures |BoxValues(Finished(s))| <= |BoxValues(s)| && |BoxTokens(Finished(s))| <= |BoxTokens(s)|
    ensures var silent := forall k :: 0 <= k < |s| ==> Silent(s[k]);
            && (silent ==> BoxValues(Finished(s)) == BoxValues(s) && BoxTokens(Finished(s)) == BoxTokens(s))
            && (!silent ==> |BoxValues(Finished(s))| < |BoxValues(s)| || |BoxTokens(Finished(s))| < |BoxTokens(s)|)
  {
    if s != [] {
      SplitLast(s);
      SameBooks(Front(s));
      var f, b := Finished(Front(s)), Last(s);
      assert Front(f + [b]) == f;
      assert BoxTokens(Front(s)) + [] == BoxTokens(Front(s)) && BoxValues(Front(s)) + [] == BoxValues(Front(s));
      assert (forall k :: 0 <= k < |s| ==> Silent(s[k]))
        <==> (forall k :: 0 <= k < |Front(s)| ==> Silent(Front(s)[k])) && Silent(b) by {
        assert forall k :: 0 <= k < |s| - 1 ==> Front(s)[k] == s[k];
      }
    }
  }
}
