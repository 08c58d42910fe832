// Choosing rows of the token table for a payment through the coin selection.

module PaymentSelection {
  import opened Lists
  import opened Coins
  import opened LedgerState
  import opened LedgerSteps
  import opened LedgerSafety
  import opened LedgerSolvency
  import CoinSelection

  // The rows as the coin selection sees them.
  function AsMinted(tokens: map<TokenId, Token>, rows: seq<TokenId>): (r: seq<MintedToken>)
    requires AllIn(rows, tokens)
    ensures |r| == |rows|
  {
    seq(|rows|, i requires 0 <= i < |rows| => MintedToken(rows[i], tokens[rows[i]].denom))
  }

  // Among all spendable rows of the wallet that cover the amount, ids has the least total and
  // then the fewest rows.
  ghost predicate BestPayment(tokens: map<TokenId, Token>, wallet: WalletId, amount: int, ids: seq<TokenId>) {
    && Spendable(tokens, wallet, ids)
    && AllIn(ids, tokens)
    && Value(tokens, ids) >= amount
    && forall other :: Spendable(tokens, wallet, other) && AllIn(other, tokens) && Value(tokens, other) >= amount ==>
         Value(tokens, ids) < Value(tokens, other) || (Value(tokens, ids) == Value(tokens, other) && |ids| <= |other|)
  }

  ghost predicate NothingCovers(tokens: map<TokenId, Token>, wallet: WalletId, amount: int) {
    forall other :: Spendable(tokens, wallet, other) && AllIn(other, tokens) ==> Value(tokens, other) < amount
  }

  // Exactly the rows that the offline query returns.
  ghost predicate SpendableRows(tokens: map<TokenId, Token>, wallet: WalletId, rows: seq<TokenId>) {
    && Distinct(rows)
    && forall t :: t in rows <==> t in tokens && tokens[t].wallet == wallet && tokens[t].status == Minted
  }

  lemma {:induction false} TotalIsValue(tokens: map<TokenId, Token>, ids: seq<TokenId>)
    requires AllIn(ids, tokens)
    ensures Total(AsMinted(tokens, ids)) == Value(tokens, ids)
    decreases |ids|
  {
    if ids == [] {
    } else {
      ValueFirst(tokens, ids);
      TotalIsValue(tokens, ids[1..]);
      assert AsMinted(tokens, ids)[1..] == AsMinted(tokens, ids[1..]);
    }
  }

  lemma {:induction false} AtMostOnce<T>(s: seq<T>, x: T)
    requires Distinct(s)
    ensures multiset(s)[x] <= 1
    decreases |s|
  {
    if s == [] {
    } else {
      var init := s[..|s| - 1];
      assert s == init + [s[|s| - 1]];
      AtMostOnce(init, x);
      if x == s[|s| - 1] { assert x !in init; }
    }
  }

  lemma AtLeastTwice<T>(s: seq<T>, i: nat, j: nat)
    requires i < j < |s| && s[i] == s[j]
    ensures multiset(s)[s[i]] >= 2
  {
    assert s == s[..j] + [s[j]] + s[j + 1..];
    assert s[i] in s[..j];
  }

  lemma DistinctRows(tokens: map<TokenId, Token>, rows: seq<TokenId>)
    requires AllIn(rows, tokens) && Distinct(rows)
    ensures Distinct(AsMinted(tokens, rows))
  {
  }

  // What the coin selection picks from distinct rows are rows again.
  lemma PickedRows(tokens: map<TokenId, Token>, rows: seq<TokenId>, pick: seq<MintedToken>, ids: seq<TokenId>)
    requires AllIn(rows, tokens) && Distinct(rows) && CoinSelection.From(pick, AsMinted(tokens, rows))
    requires ids == MintedIds(pick)
    ensures Distinct(ids) && AllIn(ids, tokens) && pick == AsMinted(tokens, ids)
    ensures forall t :: t in ids ==> t in rows
  {
    var all := AsMinted(tokens, rows);
    forall i | 0 <= i < |pick| ensures pick[i] in all && ids[i] in rows && pick[i].denom == tokens[ids[i]].denom {
      assert pick[i] in multiset(pick);
      assert pick[i] in multiset(all);
      var j :| 0 <= j < |all| && all[j] == pick[i];
    }
    DistinctRows(tokens, rows);
    forall i, j | 0 <= i < j < |ids| ensures ids[i] != ids[j] {
      AtMostOnce(all, pick[i]);
      if pick[i] == pick[j] { AtLeastTwice(pick, i, j); }
    }
  }

  lemma RowsCanBePicked(tokens: map<TokenId, Token>, rows: seq<TokenId>, other: seq<TokenId>)
    requires AllIn(rows, tokens) && AllIn(other, tokens) && Distinct(other)
    requires forall i :: 0 <= i < |other| ==> other[i] in rows
    ensures CoinSelection.From(AsMinted(tokens, other), AsMinted(tokens, rows))
  {
    var all, pick := AsMinted(tokens, rows), AsMinted(tokens, other);
    DistinctRows(tokens, other);
    forall x ensures multiset(pick)[x] <= multiset(all)[x] {
      AtMostOnce(pick, x);
      if x in pick {
        var i :| 0 <= i < |pick| && pick[i] == x;
        var j :| 0 <= j < |rows| && rows[j] == other[i];
        assert all[j] == x;
      }
    }
  }

  // The least and smallest choice of coins is the best choice of rows.
  lemma ChoiceIsBest(db: Db, wallet: WalletId, amount: int, rows: seq<TokenId>, pick: seq<MintedToken>,
                     ids: seq<TokenId>)
    requires TokensSafe(db) && SpendableRows(db.tokens, wallet, rows) && AllIn(rows, db.tokens)
    requires CoinSelection.LeastTotal(pick, AsMinted(db.tokens, rows), amount)
    requires AllValid(AsMinted(db.tokens, rows)) ==> CoinSelection.FewestTokens(pick, AsMinted(db.tokens, rows))
    requires ids == MintedIds(pick)
    ensures BestPayment(db.tokens, wallet, amount, ids) && Total(pick) == Value(db.tokens, ids)
  {
    PickIsSpendable(db.tokens, wallet, rows, pick, ids);
    forall other | Spendable(db.tokens, wallet, other) && AllIn(other, db.tokens) && Value(db.tokens, other) >= amount
      ensures Value(db.tokens, ids) <= Value(db.tokens, other)
      ensures Value(db.tokens, ids) == Value(db.tokens, other) ==> |ids| <= |other|
    {
      OtherIsNoBetter(db, wallet, amount, rows, pick, other);
    }
  }

  lemma PickIsSpendable(tokens: map<TokenId, Token>, wallet: WalletId, rows: seq<TokenId>, pick: seq<MintedToken>,
                        ids: seq<TokenId>)
    requires SpendableRows(tokens, wallet, rows) && AllIn(rows, tokens)
    requires CoinSelection.From(pick, AsMinted(tokens, rows)) && ids == MintedIds(pick)
    ensures Spendable(tokens, wallet, ids) && AllIn(ids, tokens) && Total(pick) == Value(tokens, ids)
  {
    PickedRows(tokens, rows, pick, ids);
    TotalIsValue(tokens, ids);
    forall i | 0 <= i < |ids| ensures tokens[ids[i]].wallet == wallet && tokens[ids[i]].status == Minted {
      assert ids[i] in ids;
    }
  }

  lemma OtherIsNoBetter(db: Db, wallet: WalletId, amount: int, rows: seq<TokenId>, pick: seq<MintedToken>,
                        other: seq<TokenId>)
    requires TokensSafe(db) && SpendableRows(db.tokens, wallet, rows) && AllIn(rows, db.tokens)
    requires CoinSelection.LeastTotal(pick, AsMinted(db.tokens, rows), amount)
    requires AllValid(AsMinted(db.tokens, rows)) ==> CoinSelection.FewestTokens(pick, AsMinted(db.tokens, rows))
    requires Spendable(db.tokens, wallet, other) && AllIn(other, db.tokens) && Value(db.tokens, other) >= amount
    ensures Total(pick) <= Value(db.tokens, other)
    ensures Total(pick) == Value(db.tokens, other) ==> |pick| <= |other|
  {
    RowsCanBePicked(db.tokens, rows, other);
    TotalIsValue(db.tokens, other);
    assert |AsMinted(db.tokens, other)| == |other|;
  }

  lemma NoChoice(tokens: map<TokenId, Token>, wallet: WalletId, amount: int, rows: seq<TokenId>)
    requires SpendableRows(tokens, wallet, rows) && AllIn(rows, tokens)
    requires Total(AsMinted(tokens, rows)) < amount
    ensures NothingCovers(tokens, wallet, amount)
  {
    forall other | Spendable(tokens, wallet, other) && AllIn(other, tokens) ensures Value(tokens, other) < amount {
      RowsCanBePicked(tokens, rows, other);
      CoinSelection.FromIsSmaller(AsMinted(tokens, other), AsMinted(tokens, rows));
      TotalIsValue(tokens, other);
    }
  }
}
