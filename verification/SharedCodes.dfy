// Codes are drawn at random and never compared. What a code issued for two wallets does, exactly.

module SharedCodes {
  import opened Sums
  import opened LedgerState
  import opened LedgerSteps
  import opened LedgerSafety
  import opened LedgerAgreement
  import opened LedgerBooks

  // Locking keeps every code within one wallet exactly if the new code was fresh for the wallet.
  lemma CodesKeptWhenFresh(db: Db, wallet: WalletId, ids: seq<TokenId>, code: string)
    requires CodesAgree(db.tokens) && Lockable(db.tokens, wallet, ids) && ids != []
    ensures CodesAgree(Lock(db.tokens, ids, code)) <==> IsFreshFor(db.tokens, code, wallet)
  {
    var b := Lock(db.tokens, ids, code);
    if IsFreshFor(db.tokens, code, wallet) {
      LockCodes(db, wallet, ids, code);
    } else {
      var t :| t in db.tokens && Carries(db.tokens, t, code) && db.tokens[t].wallet != wallet;
      assert ids[0] in ids && b[ids[0]].otp == Live(code);
      assert HaveSameCode(b[t], b[ids[0]]);
    }
  }

  // ---------- redeeming a shared code ----------

  lemma FreedRows(a: map<TokenId, Token>, rows: seq<TokenId>, n: nat, code: string, b: map<TokenId, Token>)
    requires FoundBy(a, rows, code) && n <= |rows| && b == Unlock(Redeem(a, rows[..n], code), rows[n..])
    ensures a.Keys == b.Keys
    ensures forall t :: t in a && t !in rows ==> b[t] == a[t]
    ensures forall t :: t in rows ==> Carries(a, t, code) && b[t].wallet == a[t].wallet && Weight(b[t]) >= 0
    ensures forall i :: n <= i < |rows| ==> rows[i] in rows && b[rows[i]] == a[rows[i]].(otp := NoCode)
  {
    forall t | t in rows ensures Carries(a, t, code) { var i :| 0 <= i < |rows| && rows[i] == t; }
    assert rows == rows[..n] + rows[n..];
    forall i | n <= i < |rows| ensures rows[i] in rows[n..] && rows[i] !in rows[..n] {
      assert rows[n..][i - n] == rows[i];
    }
  }

  // Freed tokens gain weight in their own wallet, consumed ones had none.
  lemma FreedWeights(a: map<TokenId, Token>, rows: seq<TokenId>, n: nat, code: string, b: map<TokenId, Token>,
                     ws: set<WalletId>)
    requires FoundBy(a, rows, code) && n <= |rows| && b == Unlock(Redeem(a, rows[..n], code), rows[n..])
    ensures var m, k := Weights(a, ws), Weights(b, ws);
            && m.Keys == k.Keys
            && (forall t :: t in a ==> m[t] <= k[t])
            && (forall i :: n <= i < |rows| && a[rows[i]].wallet in ws ==> k[rows[i]] == m[rows[i]] + a[rows[i]].denom)
  {
    FreedRows(a, rows, n, code, b);
  }

  lemma UnbalancedRefund(db: Db, b: Db, rows: seq<TokenId>, n: nat, i: nat)
    requires TokensSafe(db) && IsRedeemed(db, b, rows, n) && AllIn(rows, db.tokens)
    requires n <= i < |rows| && db.tokens[rows[i]].wallet != db.tokens[rows[0]].wallet
    requires BalanceLaw(db, {db.tokens[rows[i]].wallet})
    ensures !BalanceLaw(b, {db.tokens[rows[i]].wallet})
  {
    var ws := {db.tokens[rows[i]].wallet};
    var code, payee, net :| RedeemedTo(db, b, rows, n, code, payee, net);
    RedeemedOffline(db, rows, n, payee, net, ws);
    FreedWeights(db.tokens, rows, n, code, b.tokens, ws);
    SumLess(Weights(db.tokens, ws), Weights(b.tokens, ws), rows[i]);
  }

  // The whole refund goes to the wallet of the smallest token. Balances keep agreeing with tokens
  // exactly if every freed token belongs to that wallet.
  lemma RefundsBalanceWhen(db: Db, b: Db, rows: seq<TokenId>, n: nat)
    requires TokensSafe(db) && IsRedeemed(db, b, rows, n) && AllIn(rows, db.tokens)
    requires forall ws: set<WalletId> :: BalanceLaw(db, ws)
    ensures (forall ws: set<WalletId> :: BalanceLaw(b, ws)) <==> RefundsPayer(db.tokens, rows, n)
  {
    if RefundsPayer(db.tokens, rows, n) {
      forall ws: set<WalletId> ensures BalanceLaw(b, ws) { BalancedRefund(db, b, rows, n, ws); }
    } else {
      var i :| n <= i < |rows| && db.tokens[rows[i]].wallet != db.tokens[rows[0]].wallet;
      assert BalanceLaw(db, {db.tokens[rows[i]].wallet});
      UnbalancedRefund(db, b, rows, n, i);
    }
  }
}
