// Solvency and conservation in runs with honest proofs: settlements never exceed the tokens
// registered for them, and no step creates or loses money.

module LedgerSolvency {
  import opened Lists
  import opened Coins
  import opened Sums
  import opened LedgerState
  import opened LedgerSteps
  import opened LedgerSafety
  import opened LedgerAgreement
  import opened LedgerBooks

  // ---------- the solvency law ----------

  lemma RegisteredAdded(a: Db, b: Db, ids: seq<TokenId>, spend: Spend)
    requires TokensAge(a.tokens, b.tokens) && RegistrySafe(a) && AllIn(ids, a.tokens) && Distinct(ids)
    requires forall i :: 0 <= i < |ids| ==> ids[i] !in a.registry
    requires b.registry == Register(a.registry, ids, spend)
    ensures Sum(RegisteredValues(b)) == Sum(RegisteredValues(a)) + Value(a.tokens, ids)
  {
    var m, n := RegisteredValues(a), RegisteredValues(b);
    SumExtend(m, n, ids);
    SumAtIsValue(n, a.tokens, ids);
  }

  lemma RegisteredKept(a: Db, b: Db)
    requires TokensAge(a.tokens, b.tokens) && RegistrySafe(a) && b.registry == a.registry
    ensures RegisteredValues(b) == RegisteredValues(a)
  {
  }

  lemma SettlementValue(a: Db, b: Db, stl: SettlementId)
    requires stl !in a.settlements && stl in b.settlements && b.settlements == a.settlements[stl := b.settlements[stl]]
    ensures Sum(SettledAmounts(b)) == Sum(SettledAmounts(a)) + b.settlements[stl].amount
  {
    SumInsert(SettledAmounts(a), stl, b.settlements[stl].amount);
    assert SettledAmounts(b) == SettledAmounts(a)[stl := b.settlements[stl].amount];
  }

  // Consumption stops once the amount is covered.
  lemma {:induction false} NeededCovers(tokens: map<TokenId, Token>, rows: seq<TokenId>, amount: int, collected: int)
    requires AllIn(rows, tokens) && collected + Value(tokens, rows) >= amount
    ensures AllIn(rows[..Needed(tokens, rows, amount, collected)], tokens)
    ensures collected + Value(tokens, rows[..Needed(tokens, rows, amount, collected)]) >= amount
    decreases |rows|
  {
    var n := Needed(tokens, rows, amount, collected);
    if rows != [] && collected < amount {
      var d := tokens[rows[0]].denom;
      ValueFirst(tokens, rows);
      NeededCovers(tokens, rows[1..], amount, collected + d);
      ValueFirst(tokens, rows[..n]);
      assert rows[..n][1..] == rows[1..][..n - 1];
    }
  }

  lemma {:induction false} ValueFirst(tokens: map<TokenId, Token>, ids: seq<TokenId>)
    requires AllIn(ids, tokens) && ids != []
    ensures AllIn(ids[1..], tokens) && Value(tokens, ids) == tokens[ids[0]].denom + Value(tokens, ids[1..])
    decreases |ids|
  {
    if |ids| > 1 {
      var init := ids[..|ids| - 1];
      ValueFirst(tokens, init);
      assert init[1..] == ids[1..][..|ids| - 2];
    }
  }

  // A settlement is added together with registry rows whose tokens cover its amount.
  lemma SettlementSolvent(a: Db, b: Db, ids: seq<TokenId>, spend: Spend, stl: SettlementId)
    requires SolvencyLaw(a) && RegistrySafe(a) && TokensAge(a.tokens, b.tokens)
    requires AllIn(ids, a.tokens) && Distinct(ids) && NoneRegisteredYet(a, ids)
    requires b.registry == Register(a.registry, ids, spend)
    requires stl !in a.settlements && stl in b.settlements && b.settlements == a.settlements[stl := b.settlements[stl]]
    requires b.settlements[stl].amount <= Value(a.tokens, ids)
    ensures SolvencyLaw(b)
  {
    RegisteredAdded(a, b, ids, spend);
    SettlementValue(a, b, stl);
  }

  lemma SettledRows(w: World, s: Step, b: Db)
    requires TxsAgreed(w.db) && EmittedAgreed(w) && s.SettleStep? && Honest(w, s) && OutcomeOf(w, s) == Done
    requires b == Next(w, s).db
    ensures var p := s.proof;
            && AllIn(p.tokens, w.db.tokens) && Distinct(p.tokens) && NoneRegisteredYet(w.db, p.tokens)
            && p.amount <= Value(w.db.tokens, p.tokens)
            && b.registry == Register(w.db.registry, p.tokens, Spend(p.tx, Some(s.stl)))
            && s.stl !in w.db.settlements && s.stl in b.settlements && b.settlements[s.stl].amount == p.amount
            && b.settlements == w.db.settlements[s.stl := b.settlements[s.stl]]
  {
    assert TxAgreed(w.db, s.proof.tx);
    NoneRegistered(w.db.registry, s.proof.tokens);
  }

  lemma SettleSolvent(w: World, s: Step, b: Db)
    requires Agreed(w) && SolvencyLaw(w.db) && s.SettleStep? && Honest(w, s) && OutcomeOf(w, s) == Done
    requires b == Next(w, s).db
    ensures SolvencyLaw(b)
  {
    StepIsSafe(w, s);
    SettledRows(w, s, b);
    SettlementSolvent(w.db, b, s.proof.tokens, Spend(s.proof.tx, Some(s.stl)), s.stl);
  }

  lemma RedeemSolvent(w: World, s: Step, b: Db, n: nat)
    requires Safe(w) && SolvencyLaw(w.db) && s.RedeemStep? && Legal(w, s) && OutcomeOf(w, s) == Done
    requires b == Next(w, s).db
    requires n == Needed(w.db.tokens, s.rows, s.amount, 0)
    ensures SolvencyLaw(b)
  {
    StepIsSafe(w, s);
    RedeemedRows(w, s, b, n);
    UsedRows(w.db, s.code, s.rows, s.amount, n);
    SettlementSolvent(w.db, b, s.rows[..n], Spend(s.tx, Some(s.stl)), s.stl);
  }

  lemma UsedRows(db: Db, code: string, rows: seq<TokenId>, amount: int, n: nat)
    requires RegistrySafe(db) && FoundBy(db.tokens, rows, code) && AllIn(rows, db.tokens)
    requires Value(db.tokens, rows) >= amount
    requires n == Needed(db.tokens, rows, amount, 0)
    ensures n <= |rows| && AllIn(rows[..n], db.tokens) && Distinct(rows[..n]) && NoneRegisteredYet(db, rows[..n])
    ensures Value(db.tokens, rows[..n]) >= amount
  {
    NeededCovers(db.tokens, rows, amount, 0);
    RedeemNeverCollides(db, code, rows);
  }

  lemma RedeemedRows(w: World, s: Step, b: Db, n: nat)
    requires s.RedeemStep? && Legal(w, s) && OutcomeOf(w, s) == Done && b == Next(w, s).db
    requires n == Needed(w.db.tokens, s.rows, s.amount, 0)
    ensures n <= |s.rows| && Value(w.db.tokens, s.rows) >= s.amount
    ensures b.registry == Register(w.db.registry, s.rows[..n], Spend(s.tx, Some(s.stl)))
    ensures s.stl !in w.db.settlements && s.stl in b.settlements && b.settlements[s.stl].amount == s.amount
    ensures b.settlements == w.db.settlements[s.stl := b.settlements[s.stl]]
  {
  }

  lemma {:induction false} SyncSolvent(db: Db, due: seq<nat>)
    requires DbSafe(db) && SolvencyLaw(db) && forall j :: 0 <= j < |due| ==> due[j] < |db.queue|
    ensures SolvencyLaw(SyncAll(db, due))
  {
    var b := SyncAll(db, due);
    SyncAllSafe(db, due);
    SyncKeepsRows(db, due, b);
    assert SettledAmounts(b) == SettledAmounts(db);
    SumAtMost(RegisteredValues(db), RegisteredValues(b));
  }

  lemma OtherStepsKeepRows(w: World, s: Step, b: Db)
    requires Legal(w, s) && b == Next(w, s).db && !s.SettleStep? && !s.RedeemStep? && !s.SyncStep?
    ensures b.registry == w.db.registry && b.settlements == w.db.settlements
  {
  }

  lemma OtherStepsSolvent(w: World, s: Step, b: Db)
    requires Safe(w) && SolvencyLaw(w.db) && Legal(w, s) && b == Next(w, s).db
    requires !s.SettleStep? && !s.RedeemStep? && !s.SyncStep?
    ensures SolvencyLaw(b)
  {
    StepIsSafe(w, s);
    OtherStepsKeepRows(w, s, b);
    RowsKeptSolvent(w.db, b);
  }

  lemma RowsKeptSolvent(a: Db, b: Db)
    requires SolvencyLaw(a) && TokensAge(a.tokens, b.tokens) && RegistrySafe(a)
    requires b.registry == a.registry && b.settlements == a.settlements
    ensures SolvencyLaw(b)
  {
    RegisteredKept(a, b);
    assert SettledAmounts(b) == SettledAmounts(a);
  }

  lemma StepSolvent(w: World, s: Step)
    requires Agreed(w) && SolvencyLaw(w.db) && Honest(w, s)
    ensures SolvencyLaw(Next(w, s).db)
  {
    if s.SettleStep? {
      if OutcomeOf(w, s) == Done { SettleSolvent(w, s, Next(w, s).db); }
    } else if s.RedeemStep? {
      if OutcomeOf(w, s) == Done { RedeemSolvent(w, s, Next(w, s).db, Needed(w.db.tokens, s.rows, s.amount, 0)); }
    } else if s.SyncStep? {
      SyncSolvent(w.db, DueItems(w.db, s.filter, s.batch, 0));
    } else {
      OtherStepsSolvent(w, s, Next(w, s).db);
    }
  }

  // ---------- what the laws say together ----------

  ghost predicate Sound(w: World) {
    && Agreed(w)
    && CodesAgree(w.db.tokens)
    && TokenLaw(w.db)
    && OnlineLaw(w)
    && SolvencyLaw(w.db)
    && forall ws: set<WalletId> :: BalanceLaw(w.db, ws)
  }

  lemma StepIsSound(w: World, s: Step)
    requires Sound(w) && Honest(w, s)
    ensures Sound(Next(w, s))
  {
    StepAgrees(w, s);
    StepCodes(w, s);
    StepTokens(w, s);
    StepOnline(w, s);
    StepSolvent(w, s);
    forall ws: set<WalletId> ensures BalanceLaw(Next(w, s).db, ws) { StepBalances(w, s, ws); }
  }
}
