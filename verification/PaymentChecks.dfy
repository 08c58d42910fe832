// When the constraints on a wallet's balance and the destroyed keys stop an offline payment, and
// what a stopped payment leaves behind.

module PaymentChecks {
  import opened Lists
  import opened Coins
  import opened Sums
  import opened KeyRecords
  import opened LedgerState
  import opened LedgerSteps
  import opened LedgerSafety
  import opened LedgerBooks
  import opened LedgerSolvency
  import opened LedgerRuns
  import opened PaymentSelection

  // ---------- the balance ----------

  // Some spendable rows cover the amount and are worth at most the balance.
  ghost predicate FitsBalance(tokens: map<TokenId, Token>, wallet: WalletId, amount: int, balance: int) {
    exists ids :: Spendable(tokens, wallet, ids) && AllIn(ids, tokens) && amount <= Value(tokens, ids) <= balance
  }

  // The best payment passes the CHECK on the balance exactly if some covering choice does.
  lemma BestPaymentFitsWhen(tokens: map<TokenId, Token>, wallet: WalletId, amount: int, ids: seq<TokenId>, balance: int)
    requires BestPayment(tokens, wallet, amount, ids)
    ensures Value(tokens, ids) <= balance <==> FitsBalance(tokens, wallet, amount, balance)
  {
    if FitsBalance(tokens, wallet, amount, balance) {
      var other :| Spendable(tokens, wallet, other) && AllIn(other, tokens)
                  && amount <= Value(tokens, other) <= balance;
    }
  }

  lemma {:induction false} Enumerate<T>(s: set<T>) returns (ts: seq<T>)
    ensures Distinct(ts) && forall t :: t in ts <==> t in s
    decreases |s|
  {
    if s == {} {
      ts := [];
    } else {
      var t :| t in s;
      var rest := Enumerate(s - {t});
      ts := rest + [t];
    }
  }

  lemma {:induction false} SumAtZeros<K>(m: map<K, int>, ks: seq<K>)
    requires forall k :: k in ks ==> k in m && m[k] == 0
    ensures SumAt(m, ks) == 0
  {
    if ks == [] {
    } else {
      SumAtZeros(m, ks[..|ks| - 1]);
    }
  }

  // A sum is the sum over the keys of its non-zero entries.
  lemma SumOfSupport<K>(m: map<K, int>, ks: seq<K>)
    requires Distinct(ks) && (forall k :: k in ks ==> k in m) && forall k :: k in m && k !in ks ==> m[k] == 0
    ensures Sum(m) == SumAt(m, ks)
  {
    var zeros := map k | k in m :: 0;
    SumOfZeros(zeros);
    SumAtZeros(zeros, ks);
    SumChange(zeros, m, ks);
  }

  // All unlocked tokens of a wallet together.
  lemma UnlockedRows(tokens: map<TokenId, Token>, id: WalletId) returns (ids: seq<TokenId>)
    ensures Lockable(tokens, id, ids) && AllIn(ids, tokens) && Value(tokens, ids) == Sum(UnlockedOf(tokens, {id}))
  {
    var m := UnlockedOf(tokens, {id});
    ids := Enumerate(set t | t in tokens && tokens[t].wallet == id && IsUnlocked(tokens[t]));
    forall i | 0 <= i < |ids| ensures ids[i] in tokens && tokens[ids[i]].wallet == id && IsUnlocked(tokens[ids[i]]) {
      assert ids[i] in ids;
    }
    SumOfSupport(m, ids);
    SumAtIsValue(m, tokens, ids);
  }

  // The balance covers every choice of unlocked tokens exactly if what was charged twice is at
  // most the dust.
  lemma UnlockedTokensFitWhen(w: World, id: WalletId)
    requires Sound(w) && id in w.db.wallets
    ensures (forall ids :: Lockable(w.db.tokens, id, ids) && AllIn(ids, w.db.tokens) ==>
               Value(w.db.tokens, ids) <= w.db.wallets[id].offline)
            <==> Sum(DoubleChargedOf(w.db.tokens, {id})) <= Sum(Dust(w.db.topUps, {id}))
  {
    BalanceEquation(w.db, id);
    var all := UnlockedRows(w.db.tokens, id);
    if Sum(DoubleChargedOf(w.db.tokens, {id})) <= Sum(Dust(w.db.topUps, {id})) {
      forall ids | Lockable(w.db.tokens, id, ids) && AllIn(ids, w.db.tokens)
        ensures Value(w.db.tokens, ids) <= w.db.wallets[id].offline
      {
        UnlockedValue(w.db.tokens, id, ids);
      }
    }
  }

  // Past its guards a code is generated exactly if the chosen tokens and what was charged twice are
  // worth at most all unlocked tokens and the dust.
  lemma CodeSucceedsWhen(w: World, s: Step)
    requires Sound(w) && s.LockStep? && Legal(w, s) && s.wallet in w.db.wallets && s.selected.Some?
    requires w.db.wallets[s.wallet].offline >= s.amount
    ensures AllIn(s.selected.value, w.db.tokens)
    ensures OutcomeOf(w, s) == (
              if Value(w.db.tokens, s.selected.value) + Sum(DoubleChargedOf(w.db.tokens, {s.wallet}))
                 <= Sum(UnlockedOf(w.db.tokens, {s.wallet})) + Sum(Dust(w.db.topUps, {s.wallet}))
              then Done
              else Refused(IntegrityError))
  {
    BalanceEquation(w.db, s.wallet);
  }

  // While nothing was charged twice, an amount that the unlocked tokens can pay never fails the
  // CHECK, whichever tokens the payment picks.
  lemma PaymentsAreCovered(w: World, id: WalletId, amount: int, ids: seq<TokenId>)
    requires Reachable(w) && id in w.db.wallets && NeverDoubleCharged(w.db.tokens, {id})
    requires BestPayment(w.db.tokens, id, amount, ids) && amount <= Sum(UnlockedOf(w.db.tokens, {id}))
    ensures amount <= Value(w.db.tokens, ids) <= Sum(UnlockedOf(w.db.tokens, {id})) <= w.db.wallets[id].offline
    ensures FitsBalance(w.db.tokens, id, amount, w.db.wallets[id].offline)
  {
    var rows := UnlockedRows(w.db.tokens, id);
    UnlockedTokensAreCovered(w, id, rows);
    assert Spendable(w.db.tokens, id, rows);
  }

  // ---------- the keys ----------

  // With the best selection a payment goes through exactly if its id is new, no picked token has
  // lost its key, and some covering choice is worth at most the balance.
  lemma PaymentSucceedsWhen(w: World, s: Step)
    requires s.PayOfflineStep? && Legal(w, s) && ReachesKeys(w, s.wallet, s.amount, s.selected)
    requires BestPayment(w.db.tokens, s.wallet, s.amount, s.selected.value)
    ensures OutcomeOf(w, s) == Done <==>
            && s.tx !in w.db.txs
            && (forall t :: t in s.selected.value ==> KeyOf(t) !in w.keys.destroyed)
            && FitsBalance(w.db.tokens, s.wallet, s.amount, w.db.wallets[s.wallet].offline)
  {
    BestPaymentFitsWhen(w.db.tokens, s.wallet, s.amount, s.selected.value, w.db.wallets[s.wallet].offline);
    KeysSuffice(w.keys, s.selected.value);
  }

  // ---------- stopped payments ----------

  // The token looks unspent, but its key is gone.
  ghost predicate IsStranded(w: World, t: TokenId) {
    t in w.db.tokens && w.db.tokens[t].status == Minted && KeyOf(t) in w.keys.destroyed
  }

  // A payment that the database refuses after signing strands all tokens it picked.
  lemma AbortedPaymentStrands(w: World, s: Step)
    requires Safe(w) && s.PayOfflineStep? && Legal(w, s) && OutcomeOf(w, s) == Refused(IntegrityError)
    ensures s.selected.Some? && Next(w, s).db == w.db
    ensures forall t :: t in s.selected.value ==> IsStranded(Next(w, s), t)
  {
    SpendKeysSafe(w.keys, s.selected.value);
    var ids := s.selected.value;
    forall t | t in ids ensures IsStranded(Next(w, s), t) {
      var i :| 0 <= i < |ids| && ids[i] == t;
    }
  }

  // Whatever requests follow, every payment that picks a token without a key fails.
  lemma StrandedTokensNeverPay(w: World, steps: seq<Step>, s: Step, t: TokenId)
    requires Safe(w) && KeyOf(t) in w.keys.destroyed && LegalRun(w, steps) && Legal(After(w, steps), s)
    requires s.PayOfflineStep? && s.selected.Some? && t in s.selected.value
    ensures OutcomeOf(After(w, steps), s) != Done
    ensures ReachesKeys(After(w, steps), s.wallet, s.amount, s.selected) ==>
              OutcomeOf(After(w, steps), s) == Refused(TokenSpendFailed)
  {
    RunsAreSafe(w, steps);
    KeysSuffice(After(w, steps).keys, s.selected.value);
  }
}
