// The offline query ignores codes, so a payment can spend a token that a code has locked. Its value
// then leaves the balance twice. The books agree exactly in the runs where this never happens.

module DoubleCharges {
  import opened Coins
  import opened Lists
  import opened Sums
  import opened LedgerState
  import opened LedgerSteps
  import opened LedgerSafety
  import opened LedgerAgreement
  import opened LedgerBooks
  import opened LedgerSolvency
  import opened LedgerRuns

  // The step is an offline payment of a wallet in ws that spends a locked token.
  ghost predicate PicksLocked(w: World, s: Step, ws: set<WalletId>)
    requires Legal(w, s)
  {
    && s.PayOfflineStep?
    && s.wallet in ws
    && OutcomeOf(w, s) == Done
    && exists t :: t in s.selected.value && t in w.db.tokens && w.db.tokens[t].otp != NoCode
  }

  ghost predicate RunPicksLocked(w: World, steps: seq<Step>, ws: set<WalletId>)
    requires LegalRun(w, steps)
    decreases |steps|
  {
    steps != [] && (PicksLocked(w, steps[0], ws) || RunPicksLocked(Next(w, steps[0]), steps[1..], ws))
  }

  // ---------- one step ----------

  // The step leaves the set of tokens charged twice as it is.
  ghost predicate SameCharges(a: map<TokenId, Token>, b: map<TokenId, Token>) {
    && (forall t :: t in a ==>
          t in b && b[t].wallet == a[t].wallet && (IsDoubleCharged(b[t]) <==> IsDoubleCharged(a[t])))
    && (forall t :: t in b && t !in a ==> !IsDoubleCharged(b[t]))
  }

  lemma SameChargesAgree(a: map<TokenId, Token>, b: map<TokenId, Token>, ws: set<WalletId>)
    requires SameCharges(a, b)
    ensures NeverDoubleCharged(a, ws) <==> NeverDoubleCharged(b, ws)
  {
    if NeverDoubleCharged(b, ws) {
      forall t | t in a && a[t].wallet in ws ensures !IsDoubleCharged(a[t]) { assert !IsDoubleCharged(b[t]); }
    }
  }

  lemma TopUpCharges(tokens: map<TokenId, Token>, wallet: WalletId, minted: seq<MintedToken>)
    requires Distinct(MintedIds(minted)) && forall i :: 0 <= i < |minted| ==> minted[i].id !in tokens
    ensures SameCharges(tokens, AddTokens(tokens, wallet, minted))
  {
    var b := AddTokens(tokens, wallet, minted);
    AddedTokens(tokens, wallet, minted);
    forall t | t in b && t !in tokens ensures b[t].otp == NoCode {
      var i :| 0 <= i < |minted| && MintedIds(minted)[i] == t;
    }
  }

  lemma LockCharges(tokens: map<TokenId, Token>, wallet: WalletId, ids: seq<TokenId>, code: string)
    requires Lockable(tokens, wallet, ids)
    ensures SameCharges(tokens, Lock(tokens, ids, code))
  {
  }

  lemma RedeemCharges(tokens: map<TokenId, Token>, rows: seq<TokenId>, n: nat, code: string)
    requires FoundBy(tokens, rows, code) && n <= |rows|
    ensures SameCharges(tokens, Unlock(Redeem(tokens, rows[..n], code), rows[n..]))
  {
    forall t | t in rows ensures t in tokens && tokens[t].status == Minted {
      var i :| 0 <= i < |rows| && rows[i] == t;
      assert Carries(tokens, rows[i], code);
    }
    assert forall t :: t in rows <==> t in rows[..n] || t in rows[n..] by { assert rows == rows[..n] + rows[n..]; }
  }

  lemma SettleCharges(w: World, p: Proof)
    requires Agreed(w) && p in w.emitted
    ensures SameCharges(w.db.tokens, Settle(w.db.tokens, p.tokens))
  {
    forall t | t in p.tokens ensures Gone(w.db.tokens, t) {
      var i :| 0 <= i < |p.tokens| && p.tokens[i] == t;
      assert Gone(w.db.tokens, w.db.txs[p.tx].consumed[i]);
    }
  }

  // A payment charges exactly the locked tokens it spends.
  lemma PaymentCharges(tokens: map<TokenId, Token>, wallet: WalletId, ids: seq<TokenId>, tx: TxId, ws: set<WalletId>)
    requires CodesAgree(tokens) && Spendable(tokens, wallet, ids)
    ensures NeverDoubleCharged(MarkSpent(tokens, ids, tx), ws) <==>
            NeverDoubleCharged(tokens, ws)
            && !(wallet in ws && exists t :: t in ids && t in tokens && tokens[t].otp != NoCode)
  {
    var b := MarkSpent(tokens, ids, tx);
    forall t | t in ids
      ensures t in tokens && tokens[t].wallet == wallet && !tokens[t].otp.Redeemed? && !IsDoubleCharged(tokens[t])
    {
      var i :| 0 <= i < |ids| && ids[i] == t;
    }
    forall t | t in tokens
      ensures IsDoubleCharged(b[t]) <==> IsDoubleCharged(tokens[t]) || (t in ids && tokens[t].otp != NoCode)
    {
    }
    ChargesOf(tokens, b, wallet, ids, ws);
  }

  lemma ChargesOf(a: map<TokenId, Token>, b: map<TokenId, Token>, wallet: WalletId, ids: seq<TokenId>,
                  ws: set<WalletId>)
    requires a.Keys == b.Keys && forall t :: t in a ==> b[t].wallet == a[t].wallet
    requires forall t :: t in ids ==> t in a && a[t].wallet == wallet
    requires forall t :: t in a ==>
              (IsDoubleCharged(b[t]) <==> IsDoubleCharged(a[t]) || (t in ids && a[t].otp != NoCode))
    ensures NeverDoubleCharged(b, ws) <==>
            NeverDoubleCharged(a, ws) && !(wallet in ws && exists t :: t in ids && t in a && a[t].otp != NoCode)
  {
    if NeverDoubleCharged(b, ws) {
      forall t | t in a && a[t].wallet in ws ensures !IsDoubleCharged(a[t]) { assert !IsDoubleCharged(b[t]); }
      forall t | wallet in ws && t in ids ensures a[t].otp == NoCode { assert !IsDoubleCharged(b[t]); }
    }
  }

  lemma StepKeepsCharges(w: World, s: Step)
    requires Agreed(w) && Honest(w, s) && !s.PayOfflineStep? && OutcomeOf(w, s) == Done
    ensures SameCharges(w.db.tokens, Next(w, s).db.tokens)
  {
    match s
    case CreateWalletStep(_, _) =>
    case TopUpStep(wallet, _, _, _, minted) => TopUpCharges(w.db.tokens, wallet, minted);
    case PayOnlineStep(_, _, _, _) =>
    case LockStep(wallet, _, code, selected) => LockCharges(w.db.tokens, wallet, selected.value, code);
    case RedeemStep(_, amount, code, _, rows, _, _) =>
      var n := Needed(w.db.tokens, rows, amount, 0);
      RedeemStepParts(w, s, Next(w, s).db, n);
      RedeemCharges(w.db.tokens, rows, n, code);
    case SettleStep(p, _, _, _) => SettleCharges(w, p);
    case SyncStep(_, _) => SyncStepKeepsRows(w, s, Next(w, s).db);
  }

  lemma PaymentStepCharges(w: World, s: Step, ws: set<WalletId>)
    requires CodesAgree(w.db.tokens) && s.PayOfflineStep? && Legal(w, s)
    ensures NeverDoubleCharged(Next(w, s).db.tokens, ws) <==>
              NeverDoubleCharged(w.db.tokens, ws) && !PicksLocked(w, s, ws)
  {
    if OutcomeOf(w, s) == Done {
      PaymentCharges(w.db.tokens, s.wallet, s.selected.value, s.tx, ws);
    }
  }

  // A step charges tokens twice exactly if it is a payment that spends locked ones, and a token
  // once charged twice stays so.
  lemma StepCharges(w: World, s: Step, ws: set<WalletId>)
    requires Agreed(w) && CodesAgree(w.db.tokens) && Honest(w, s)
    ensures NeverDoubleCharged(Next(w, s).db.tokens, ws) <==>
              NeverDoubleCharged(w.db.tokens, ws) && !PicksLocked(w, s, ws)
  {
    if s.PayOfflineStep? {
      PaymentStepCharges(w, s, ws);
    } else if OutcomeOf(w, s) == Done {
      StepKeepsCharges(w, s);
      SameChargesAgree(w.db.tokens, Next(w, s).db.tokens, ws);
    }
  }

  // ---------- runs ----------

  lemma {:induction false} RunCharges(w: World, steps: seq<Step>, ws: set<WalletId>)
    requires Sound(w) && HonestRun(w, steps)
    ensures LegalRun(w, steps) && Sound(After(w, steps))
    ensures NeverDoubleCharged(After(w, steps).db.tokens, ws) <==>
            NeverDoubleCharged(w.db.tokens, ws) && !RunPicksLocked(w, steps, ws)
    decreases |steps|
  {
    HonestIsLegal(w, steps);
    if steps == [] {
    } else {
      StepIsSound(w, steps[0]);
      StepCharges(w, steps[0], ws);
      RunCharges(Next(w, steps[0]), steps[1..], ws);
    }
  }

  lemma RunFromEmpty(steps: seq<Step>, ws: set<WalletId>, v: World)
    requires HonestRun(EMPTY, steps) && LegalRun(EMPTY, steps) && v == After(EMPTY, steps)
    ensures Sound(v) && (NeverDoubleCharged(v.db.tokens, ws) <==> !RunPicksLocked(EMPTY, steps, ws))
  {
    EmptyIsSound();
    RunCharges(EMPTY, steps, ws);
  }

  // After any honest run the offline balance equals the unlocked minted value plus dust exactly
  // if no offline payment of the wallet spent a locked token; otherwise it is less.
  lemma BalancesAgreeWhen(steps: seq<Step>, id: WalletId, v: World)
    requires HonestRun(EMPTY, steps) && LegalRun(EMPTY, steps) && v == After(EMPTY, steps) && id in v.db.wallets
    ensures var due := Sum(UnlockedOf(v.db.tokens, {id})) + Sum(Dust(v.db.topUps, {id}));
            && v.db.wallets[id].offline <= due
            && (v.db.wallets[id].offline == due <==> !RunPicksLocked(EMPTY, steps, {id}))
  {
    RunFromEmpty(steps, {id}, v);
    BalanceAgreement(v, id);
  }

  // Money is conserved to the cent exactly if no offline payment spent a locked token.
  lemma MoneyIsConservedWhen(steps: seq<Step>, v: World)
    requires HonestRun(EMPTY, steps) && LegalRun(EMPTY, steps) && v == After(EMPTY, steps)
    ensures var db, all := v.db, AllWallets(v.db);
            Sum(OnlineBalances(db.wallets)) + Sum(OfflineBalances(db.wallets, all)) + Sum(LockedValues(db.tokens))
            + Sum(GoneValues(db.tokens)) + Sum(OnlinePaid(db.txs)) == Sum(TopUpAmounts(db.topUps)) + v.credited
            <==> !RunPicksLocked(EMPTY, steps, all)
  {
    RunFromEmpty(steps, AllWallets(v.db), v);
    Conservation(v);
    DenominationsArePositive(v.db);
    DoubleChargeIsPositive(v.db.tokens, AllWallets(v.db));
  }
}
