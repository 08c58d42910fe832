// Settlement takes any proof at its word. Which accepted proofs keep the books: conditions on the
// tables before the call, exact for each invariant and for all of them together.

module ForgedProofs {
  import opened Coins
  import opened Sums
  import opened LedgerState
  import opened LedgerSteps
  import opened LedgerSafety
  import opened LedgerAgreement
  import opened LedgerBooks
  import opened LedgerSolvency
  import opened LedgerRuns
  import opened SharedCodes

  // ---------- all or nothing ----------

  // The proof lists every token of a pending payment and no token of another payment.
  ghost predicate ListsItsTokens(db: Db, p: Proof)
    requires p.tx in db.txs
  {
    && (db.txs[p.tx].status == Pending ==> forall t :: t in db.txs[p.tx].consumed ==> t in p.tokens)
    && (forall y, t :: y in db.txs && y != p.tx && t in db.txs[y].consumed ==> t !in p.tokens)
  }

  // b is a after x succeeded and the tokens ids, none registered before, were registered for it.
  ghost predicate RegisteredFor(a: Db, b: Db, x: TxId, ids: seq<TokenId>) {
    && NoneRegisteredYet(a, ids)
    && (forall t :: t in b.registry <==> t in a.registry || t in ids)
    && (forall t :: t in a.registry ==> b.registry[t] == a.registry[t])
    && (forall t :: t in ids && t in b.registry ==> b.registry[t].tx == x)
    && x in a.txs && b.txs == a.txs[x := a.txs[x].(status := Succeeded)]
  }

  lemma SettlementRegisters(db: Db, p: Proof, m: MerchantId, expired: bool, stl: SettlementId)
    requires SettleOutcome(db, p, m, expired, stl) == Done
    ensures RegisteredFor(db, SettleDb(db, p, stl), p.tx, p.tokens)
  {
    NoneRegistered(db.registry, p.tokens);
  }

  lemma AmountStaysCovered(a: Db, b: Db, y: TxId)
    requires y in a.txs && TxAgreed(a, y) && SameSpentIn(a, b, a.txs[y].consumed)
    ensures a.txs[y].consumed != [] ==>
              AllIn(a.txs[y].consumed, b.tokens) && a.txs[y].amount <= Value(b.tokens, a.txs[y].consumed)
  {
    var ids := a.txs[y].consumed;
    if ids != [] {
      assert AllIn(ids, b.tokens);
      SameValue(a.tokens, b.tokens, ids);
    }
  }

  lemma SettledTxAgrees(a: Db, b: Db, x: TxId, ids: seq<TokenId>)
    requires RegisteredFor(a, b, x, ids) && TxAgreed(a, x) && SameSpentIn(a, b, a.txs[x].consumed)
    ensures TxAgreed(b, x) <==> (a.txs[x].status == Pending ==> forall t :: t in a.txs[x].consumed ==> t in ids)
  {
    var own := a.txs[x].consumed;
    AmountStaysCovered(a, b, x);
    if TxAgreed(b, x) && a.txs[x].status == Pending {
      forall t | t in own ensures t in ids { var i :| 0 <= i < |own| && own[i] == t; }
    }
  }

  lemma OtherTxAgrees(a: Db, b: Db, x: TxId, ids: seq<TokenId>, y: TxId)
    requires RegisteredFor(a, b, x, ids) && y in a.txs && y != x && TxAgreed(a, y)
    requires SameSpentIn(a, b, a.txs[y].consumed)
    ensures TxAgreed(b, y) <==> forall t :: t in a.txs[y].consumed ==> t !in ids
  {
    var own := a.txs[y].consumed;
    AmountStaysCovered(a, b, y);
    if TxAgreed(b, y) {
      forall t | t in own ensures t !in ids { var i :| 0 <= i < |own| && own[i] == t; }
    }
  }

  // An accepted proof keeps every payment all or nothing exactly if it lists its own tokens.
  lemma AllOrNothingKept(db: Db, p: Proof, m: MerchantId, expired: bool, stl: SettlementId)
    requires TxsAgreed(db) && ConsumedSafe(db) && SettleOutcome(db, p, m, expired, stl) == Done
    ensures TxsAgreed(SettleDb(db, p, stl)) <==> ListsItsTokens(db, p)
  {
    var b := SettleDb(db, p, stl);
    SettlementRegisters(db, p, m, expired, stl);
    StaysForConsumed(db, b);
    SettledTxAgrees(db, b, p.tx, p.tokens);
    forall y | y in db.txs && y != p.tx
      ensures TxAgreed(b, y) <==> forall t :: t in db.txs[y].consumed ==> t !in p.tokens
    {
      OtherTxAgrees(db, b, p.tx, p.tokens, y);
    }
  }

  // ---------- solvency ----------

  // An accepted proof adds its amount to what is settled and the value of its tokens to what is
  // registered; nothing compares the two.
  lemma SettlementMovesSums(db: Db, p: Proof, m: MerchantId, expired: bool, stl: SettlementId)
    requires RegistrySafe(db) && SettleOutcome(db, p, m, expired, stl) == Done
    ensures AllIn(p.tokens, db.tokens)
    ensures var b := SettleDb(db, p, stl);
            && Sum(SettledAmounts(b)) == Sum(SettledAmounts(db)) + p.amount
            && Sum(RegisteredValues(b)) == Sum(RegisteredValues(db)) + Value(db.tokens, p.tokens)
  {
    var b := SettleDb(db, p, stl);
    NoneRegistered(db.registry, p.tokens);
    SettlementValue(db, b, stl);
    RegisteredAdded(db, b, p.tokens, Spend(p.tx, Some(stl)));
  }

  ghost predicate IsCovered(db: Db, p: Proof)
    requires AllIn(p.tokens, db.tokens)
  {
    Sum(SettledAmounts(db)) + p.amount <= Sum(RegisteredValues(db)) + Value(db.tokens, p.tokens)
  }

  lemma SolvencyKept(db: Db, p: Proof, m: MerchantId, expired: bool, stl: SettlementId)
    requires RegistrySafe(db) && SettleOutcome(db, p, m, expired, stl) == Done
    ensures AllIn(p.tokens, db.tokens) && (SolvencyLaw(SettleDb(db, p, stl)) <==> IsCovered(db, p))
  {
    SettlementMovesSums(db, p, m, expired, stl);
  }

  // A proof without tokens is accepted for any payment on record and any amount, and the amount is
  // guaranteed against nothing.
  lemma EmptyProofIsGuaranteed(db: Db, p: Proof, stl: SettlementId)
    requires RegistrySafe(db) && p.tokens == [] && p.tx in db.txs && stl !in db.settlements
    ensures SettleOutcome(db, p, p.merchant, false, stl) == Done
    ensures var b := SettleDb(db, p, stl);
            && b.txs[p.tx].status == Succeeded && b.registry == db.registry && b.tokens == db.tokens
            && Sum(SettledAmounts(b)) == Sum(SettledAmounts(db)) + p.amount
            && (SolvencyLaw(b) <==> p.amount <= Sum(RegisteredValues(db)) - Sum(SettledAmounts(db)))
  {
    SettlementMovesSums(db, p, p.merchant, false, stl);
    NothingMoves(db.tokens, db.registry, p.tokens, Spend(p.tx, Some(stl)));
  }

  lemma NothingMoves(tokens: map<TokenId, Token>, registry: map<TokenId, Spend>, ids: seq<TokenId>, spend: Spend)
    requires ids == []
    ensures Settle(tokens, ids) == tokens && Register(registry, ids, spend) == registry
  {
  }

  // ---------- one settlement a payment ----------

  ghost predicate IsUnpaid(db: Db, x: TxId) {
    forall s :: s in db.settlements ==> db.settlements[s].payment != x
  }

  lemma SettlementsKeptWhenUnpaid(db: Db, p: Proof, stl: SettlementId)
    requires SettlementsAgreed(db) && p.tx in db.txs && stl !in db.settlements
    ensures SettlementsAgreed(SettleDb(db, p, stl)) <==> IsUnpaid(db, p.tx)
  {
    var b := SettleDb(db, p, stl);
    assert b.settlements[stl].payment == p.tx;
    forall s | s in db.settlements ensures s in b.settlements && b.settlements[s] == db.settlements[s] && s != stl { }
  }

  // ---------- balances ----------

  ghost predicate NoneMinted(db: Db, p: Proof) {
    forall t :: t in p.tokens && t in db.tokens ==> db.tokens[t].status != Minted
  }

  lemma SettledWeights(tokens: map<TokenId, Token>, ids: seq<TokenId>, ws: set<WalletId>)
    requires CodesAgree(tokens)
    ensures var m, n := Weights(Settle(tokens, ids), ws), Weights(tokens, ws);
            && m.Keys == n.Keys
            && (forall t :: t in tokens ==> m[t] <= n[t])
            && (forall t :: t in tokens && (t !in ids || tokens[t].status != Minted) ==> m[t] == n[t])
            && (forall t :: t in tokens && t in ids && tokens[t].status == Minted && tokens[t].wallet in ws
                            && tokens[t].denom > 0 ==>
                  m[t] < n[t])
  {
  }

  // Settling an unspent token takes its value out of the tokens but not out of the balance.
  lemma BalancesKept(db: Db, p: Proof, stl: SettlementId)
    requires forall ws: set<WalletId> :: BalanceLaw(db, ws)
    requires CodesAgree(db.tokens) && TokensSafe(db) && p.tx in db.txs
    ensures (forall ws: set<WalletId> :: BalanceLaw(SettleDb(db, p, stl), ws)) <==> NoneMinted(db, p)
  {
    var b := SettleDb(db, p, stl);
    if NoneMinted(db, p) {
      forall ws: set<WalletId> ensures BalanceLaw(b, ws) {
        assert BalanceLaw(db, ws);
        SettledWeights(db.tokens, p.tokens, ws);
        assert Weights(b.tokens, ws) == Weights(db.tokens, ws);
      }
    } else {
      var t :| t in p.tokens && t in db.tokens && db.tokens[t].status == Minted;
      MintedBreaksBalance(db, b, p.tokens, t, {db.tokens[t].wallet});
    }
  }

  lemma MintedBreaksBalance(a: Db, b: Db, ids: seq<TokenId>, t: TokenId, ws: set<WalletId>)
    requires BalanceLaw(a, ws) && CodesAgree(a.tokens) && TokensSafe(a)
    requires b.tokens == Settle(a.tokens, ids) && b.wallets == a.wallets && b.topUps == a.topUps
    requires t in ids && t in a.tokens && a.tokens[t].status == Minted && a.tokens[t].wallet in ws
    ensures !BalanceLaw(b, ws)
  {
    SettledWeights(a.tokens, ids, ws);
    SumLess(Weights(b.tokens, ws), Weights(a.tokens, ws), t);
  }

  // ---------- all invariants ----------

  lemma AgreementKept(w: World, s: Step, b: World)
    requires Agreed(w) && s.SettleStep? && OutcomeOf(w, s) == Done && b == Next(w, s)
    ensures Agreed(b) <==> ListsItsTokens(w.db, s.proof) && IsUnpaid(w.db, s.proof.tx)
  {
    var p := s.proof;
    StepIsSafe(w, s);
    AllOrNothingKept(w.db, p, s.merchant, s.expired, s.stl);
    SettlementsKeptWhenUnpaid(w.db, p, s.stl);
    EmittedKept(w, b);
    QueueKept(w.db, b.db);
  }

  // What a proof has to satisfy, in terms of the tables before it is submitted.
  ghost predicate Fits(db: Db, p: Proof)
    requires p.tx in db.txs && AllIn(p.tokens, db.tokens)
  {
    ListsItsTokens(db, p) && IsUnpaid(db, p.tx) && IsCovered(db, p) && NoneMinted(db, p)
  }

  lemma OtherLawsKept(w: World, s: Step)
    requires Sound(w) && s.SettleStep? && OutcomeOf(w, s) == Done
    ensures CodesAgree(Next(w, s).db.tokens) && TokenLaw(Next(w, s).db) && OnlineLaw(Next(w, s))
  {
    StepTokens(w, s);
    StepOnline(w, s);
    SettleCodes(w.db.tokens, s.proof.tokens);
  }

  // An accepted proof, emitted or not, keeps every invariant exactly if it fits the tables.
  lemma SoundnessKept(w: World, s: Step, b: World)
    requires Sound(w) && s.SettleStep? && OutcomeOf(w, s) == Done && b == Next(w, s)
    ensures s.proof.tx in w.db.txs && AllIn(s.proof.tokens, w.db.tokens)
    ensures Sound(b) <==> Fits(w.db, s.proof)
  {
    AgreementKept(w, s, b);
    OtherLawsKept(w, s);
    TableLawsKept(w, s, b.db);
  }

  lemma TableLawsKept(w: World, s: Step, b: Db)
    requires Sound(w) && s.SettleStep? && OutcomeOf(w, s) == Done && b == Next(w, s).db
    ensures s.proof.tx in w.db.txs && AllIn(s.proof.tokens, w.db.tokens)
    ensures SolvencyLaw(b) <==> IsCovered(w.db, s.proof)
    ensures (forall ws :: BalanceLaw(b, ws)) <==> NoneMinted(w.db, s.proof)
  {
    SolvencyKept(w.db, s.proof, s.merchant, s.expired, s.stl);
    BalancesKept(w.db, s.proof, s.stl);
  }

  // Proofs that offline payments emitted always fit when they are accepted.
  lemma EmittedProofsFit(w: World, s: Step)
    requires Sound(w) && s.SettleStep? && s.proof in w.emitted && OutcomeOf(w, s) == Done
    ensures s.proof.tx in w.db.txs && AllIn(s.proof.tokens, w.db.tokens) && Fits(w.db, s.proof)
  {
    StepIsSound(w, s);
    SoundnessKept(w, s, Next(w, s));
  }

  // ---------- runs with arbitrary proofs and codes ----------

  // If the step goes through, its proof fits the tables, its code is fresh.
  ghost predicate StepFits(w: World, s: Step)
    requires Legal(w, s)
  {
    && (s.SettleStep? && OutcomeOf(w, s) == Done ==>
          s.proof.tx in w.db.txs && AllIn(s.proof.tokens, w.db.tokens) && Fits(w.db, s.proof))
    && (s.LockStep? && OutcomeOf(w, s) == Done ==> IsFreshFor(w.db.tokens, s.code, s.wallet))
  }

  ghost predicate StepsFit(w: World, steps: seq<Step>)
    requires LegalRun(w, steps)
    decreases |steps|
  {
    steps == [] || (StepFits(w, steps[0]) && StepsFit(Next(w, steps[0]), steps[1..]))
  }

  ghost predicate AlwaysSound(w: World, steps: seq<Step>)
    requires LegalRun(w, steps)
    decreases |steps|
  {
    Sound(w) && (steps == [] || AlwaysSound(Next(w, steps[0]), steps[1..]))
  }

  lemma LockIsSoundWhen(w: World, s: Step)
    requires Sound(w) && s.LockStep? && Legal(w, s) && OutcomeOf(w, s) == Done
    ensures Sound(Next(w, s)) <==> IsFreshFor(w.db.tokens, s.code, s.wallet)
  {
    if IsFreshFor(w.db.tokens, s.code, s.wallet) {
      StepIsSound(w, s);
    } else {
      CodesKeptWhenFresh(w.db, s.wallet, s.selected.value, s.code);
    }
  }

  // Any legal step keeps every invariant exactly if it fits.
  lemma StepIsSoundWhen(w: World, s: Step)
    requires Sound(w) && Legal(w, s)
    ensures Sound(Next(w, s)) <==> StepFits(w, s)
  {
    if s.SettleStep? && OutcomeOf(w, s) == Done {
      SoundnessKept(w, s, Next(w, s));
    } else if s.LockStep? && OutcomeOf(w, s) == Done {
      LockIsSoundWhen(w, s);
    } else if !s.SettleStep? && !s.LockStep? {
      StepIsSound(w, s);
    }
  }

  // In runs of any legal requests, with arbitrary proofs and codes, the invariants hold throughout
  // exactly if every accepted proof fits and every code issued is fresh.
  lemma {:induction false} RunIsSoundWhen(w: World, steps: seq<Step>)
    requires Sound(w) && LegalRun(w, steps)
    ensures AlwaysSound(w, steps) <==> StepsFit(w, steps)
    decreases |steps|
  {
    if steps == [] {
    } else {
      StepIsSoundWhen(w, steps[0]);
      if Sound(Next(w, steps[0])) { RunIsSoundWhen(Next(w, steps[0]), steps[1..]); }
    }
  }
}
