// Theorems about whole runs: any sequence of requests, starting from an empty database.

module LedgerRuns {
  import opened Lists
  import opened Sums
  import opened KeyRecords
  import opened LedgerState
  import opened LedgerSteps
  import opened LedgerSafety
  import opened LedgerAgreement
  import opened LedgerBooks
  import opened LedgerSolvency

  ghost const EMPTY: World := World(Db(map[], map[], map[], map[], map[], [], map[]), Keys({}, {}, []), {}, 0)

  ghost predicate LegalRun(w: World, steps: seq<Step>)
    decreases |steps|
  {
    steps == [] || (Legal(w, steps[0]) && LegalRun(Next(w, steps[0]), steps[1..]))
  }

  ghost predicate HonestRun(w: World, steps: seq<Step>)
    decreases |steps|
  {
    steps == [] || (Honest(w, steps[0]) && HonestRun(Next(w, steps[0]), steps[1..]))
  }

  ghost function After(w: World, steps: seq<Step>): World
    requires LegalRun(w, steps)
    decreases |steps|
  {
    if steps == [] then w else After(Next(w, steps[0]), steps[1..])
  }

  lemma {:induction false} HonestIsLegal(w: World, steps: seq<Step>)
    requires HonestRun(w, steps)
    ensures LegalRun(w, steps)
    decreases |steps|
  {
    if steps == [] {
    } else {
      HonestIsLegal(Next(w, steps[0]), steps[1..]);
    }
  }

  // ---------- any run ----------

  lemma GrowsTransitive(a: World, b: World, c: World)
    requires Grows(a, b) && Grows(b, c)
    ensures Grows(a, c)
  {
    DbGrowsTransitive(a.db, b.db, c.db);
    forall p, i | p in c.emitted && p !in a.emitted && 0 <= i < |p.tokens|
      ensures KeyOf(p.tokens[i]) !in a.keys.destroyed && KeyOf(p.tokens[i]) in c.keys.destroyed
    {
      if p in b.emitted {
        assert KeyOf(p.tokens[i]) !in a.keys.destroyed && KeyOf(p.tokens[i]) in b.keys.destroyed;
      } else {
        assert KeyOf(p.tokens[i]) !in b.keys.destroyed && KeyOf(p.tokens[i]) in c.keys.destroyed;
      }
    }
  }

  // From any safe world, every run stays safe and only grows: registry rows never change or go
  // away, registered tokens stay unspendable, succeeded transactions stay succeeded, no key signs
  // twice, and a token whose key was destroyed appears in no later proof.
  lemma {:induction false} RunsAreSafe(w: World, steps: seq<Step>)
    requires Safe(w) && LegalRun(w, steps)
    ensures Safe(After(w, steps)) && Grows(w, After(w, steps))
    decreases |steps|
  {
    if steps == [] {
    } else {
      var v := Next(w, steps[0]);
      StepIsSafe(w, steps[0]);
      RunsAreSafe(v, steps[1..]);
      GrowsTransitive(w, v, After(v, steps[1..]));
    }
  }

  lemma EmptyIsSound()
    ensures Sound(EMPTY)
  {
  }

  // No token is registered twice: whatever proofs arrive in between, a registered token keeps
  // its row and can no longer be selected, locked or redeemed.
  lemma NoDoubleSpend(steps: seq<Step>, more: seq<Step>, t: TokenId)
    requires LegalRun(EMPTY, steps) && LegalRun(After(EMPTY, steps), more)
    requires t in After(EMPTY, steps).db.registry
    ensures var a, b := After(EMPTY, steps).db, After(After(EMPTY, steps), more).db;
            && t in b.registry && b.registry[t] == a.registry[t]
            && t in b.tokens && b.tokens[t].status != Minted
  {
    EmptyIsSound();
    RunsAreSafe(EMPTY, steps);
    RunsAreSafe(After(EMPTY, steps), more);
    assert Gone(After(After(EMPTY, steps), more).db.tokens, t);
  }

  // No key ever signs twice, rollbacks included: a token whose key was destroyed appears in no
  // proof emitted later.
  lemma SignedOnce(steps: seq<Step>, more: seq<Step>)
    requires LegalRun(EMPTY, steps) && LegalRun(After(EMPTY, steps), more)
    ensures var a, b := After(EMPTY, steps), After(After(EMPTY, steps), more);
            && b.keys.live !! b.keys.destroyed
            && Distinct(b.keys.signed) && a.keys.signed <= b.keys.signed
            && (forall k :: k in b.keys.signed ==> k in b.keys.destroyed)
            && (forall p, i :: p in b.emitted && p !in a.emitted && 0 <= i < |p.tokens| ==>
                KeyOf(p.tokens[i]) !in a.keys.destroyed)
  {
    EmptyIsSound();
    RunsAreSafe(EMPTY, steps);
    RunsAreSafe(After(EMPTY, steps), more);
  }

  // A completed queue item belongs to a payment that succeeded, and success is final.
  lemma SuccessIsFinal(steps: seq<Step>, more: seq<Step>, x: TxId)
    requires LegalRun(EMPTY, steps) && LegalRun(After(EMPTY, steps), more)
    requires var a := After(EMPTY, steps).db;
             && x in a.txs
             && (a.txs[x].status == Succeeded
                 || exists i :: 0 <= i < |a.queue| && a.queue[i].tx == x && a.queue[i].status == Completed)
    ensures var b := After(After(EMPTY, steps), more).db;
            x in b.txs && b.txs[x].status == Succeeded
  {
    EmptyIsSound();
    RunsAreSafe(EMPTY, steps);
    RunsAreSafe(After(EMPTY, steps), more);
  }

  // Every settlement splits its amount into fee and net; the fee is 3%, truncated toward zero.
  ghost predicate FeesSplit(db: Db) {
    forall s :: s in db.settlements ==>
      var row := db.settlements[s];
      && row.fee + row.net == row.amount
      && (row.amount >= 0 ==> 0 <= row.fee && 100 * row.fee <= 3 * row.amount < 100 * (row.fee + 1))
      && (row.amount <= 0 ==> row.fee <= 0 && 100 * (row.fee - 1) < 3 * row.amount <= 100 * row.fee)
  }

  lemma RedeemFees(w: World, s: Step, b: Db)
    requires s.RedeemStep? && Legal(w, s) && OutcomeOf(w, s) == Done && b == Next(w, s).db
    ensures b.settlements
         == w.db.settlements[s.stl := Settlement(s.tx, s.merchant, s.amount, Fee(s.amount), s.amount - Fee(s.amount))]
  {
  }

  lemma StepSplitsFees(w: World, s: Step)
    requires FeesSplit(w.db) && Legal(w, s)
    ensures FeesSplit(Next(w, s).db)
  {
    var b := Next(w, s).db;
    if s.RedeemStep? && OutcomeOf(w, s) == Done {
      RedeemFees(w, s, b);
    } else if s.SyncStep? {
      SyncStepKeepsRows(w, s, b);
    } else if !s.SettleStep? && !s.RedeemStep? {
      OtherStepsKeepRows(w, s, b);
    }
  }

  lemma {:induction false} FeesAlwaysSplit(w: World, steps: seq<Step>)
    requires FeesSplit(w.db) && LegalRun(w, steps)
    ensures FeesSplit(After(w, steps).db)
    decreases |steps|
  {
    if steps == [] {
    } else {
      StepSplitsFees(w, steps[0]);
      FeesAlwaysSplit(Next(w, steps[0]), steps[1..]);
    }
  }

  // ---------- honest runs ----------

  lemma {:induction false} HonestRunsAreSound(w: World, steps: seq<Step>)
    requires Sound(w) && HonestRun(w, steps)
    ensures LegalRun(w, steps) && Sound(After(w, steps))
    decreases |steps|
  {
    HonestIsLegal(w, steps);
    if steps == [] {
    } else {
      StepIsSound(w, steps[0]);
      HonestRunsAreSound(Next(w, steps[0]), steps[1..]);
    }
  }

  // The worlds that honest requests can lead to.
  ghost predicate Reachable(w: World) {
    exists steps :: HonestRun(EMPTY, steps) && LegalRun(EMPTY, steps) && w == After(EMPTY, steps)
  }

  lemma ReachableIsSound(w: World)
    requires Reachable(w)
    ensures Sound(w)
  {
    var steps :| HonestRun(EMPTY, steps) && LegalRun(EMPTY, steps) && w == After(EMPTY, steps);
    EmptyIsSound();
    HonestRunsAreSound(EMPTY, steps);
  }

  // Every offline payment is settled as a whole or not at all, and payments share no tokens.
  lemma AllOrNothing(w: World, x: TxId)
    requires Reachable(w) && x in w.db.txs && w.db.txs[x].consumed != []
    ensures var ids := w.db.txs[x].consumed;
            if w.db.txs[x].status == Pending then forall i :: 0 <= i < |ids| ==> ids[i] !in w.db.registry
            else
              && w.db.txs[x].status == Succeeded
              && forall i :: 0 <= i < |ids| ==> ids[i] in w.db.registry && w.db.registry[ids[i]].tx == x
    ensures forall y :: y in w.db.txs && y != x ==> forall t :: t in w.db.txs[x].consumed ==> t !in w.db.txs[y].consumed
  {
    ReachableIsSound(w);
    assert TxAgreed(w.db, x);
    forall y | y in w.db.txs && y != x ensures forall t :: t in w.db.txs[x].consumed ==> t !in w.db.txs[y].consumed {
      ConsumedAreDisjoint(w.db, x, y);
    }
  }

  // Replaying an emitted proof fails exactly when its payment was settled or synced before.
  lemma ReplayFails(w: World, p: Proof, stl: SettlementId)
    requires Reachable(w) && p in w.emitted && stl !in w.db.settlements
    ensures p.tx in w.db.txs
    ensures SettleOutcome(w.db, p, p.merchant, false, stl)
         == if w.db.txs[p.tx].status == Succeeded then Refused(DoubleSpend) else Done
  {
    ReachableIsSound(w);
    assert TxAgreed(w.db, p.tx);
    forall i | 0 <= i < |p.tokens| ensures p.tokens[i] != "" && p.tokens[i] in w.db.tokens {
      assert Gone(w.db.tokens, w.db.txs[p.tx].consumed[i]);
    }
    EmittedProofProblem(w, p);
  }

  // ---------- solvency ----------

  // Settlements never pay more than the tokens registered, nor than was ever allocated to offline
  // use, and no payment is settled twice.
  lemma SettlementsAreCovered(w: World)
    requires Reachable(w)
    ensures forall s, u :: s in w.db.settlements && u in w.db.settlements && s != u ==>
              w.db.settlements[s].payment != w.db.settlements[u].payment
    ensures Sum(SettledAmounts(w.db)) <= Sum(RegisteredValues(w.db)) <= Sum(Denoms(w.db.tokens))
    ensures Sum(Denoms(w.db.tokens)) <= Sum(Allocations(w.db.topUps))
  {
    ReachableIsSound(w);
    SumAtMost(RegisteredValues(w.db), Denoms(w.db.tokens));
    SumNonNegative(Residues(w.db.topUps));
  }

  // ---------- balances ----------

  ghost function UnlockedOf(tokens: map<TokenId, Token>, ws: set<WalletId>): map<TokenId, int> {
    map t | t in tokens :: if tokens[t].wallet in ws && IsUnlocked(tokens[t]) then tokens[t].denom else 0
  }

  ghost function DoubleChargedOf(tokens: map<TokenId, Token>, ws: set<WalletId>): map<TokenId, int> {
    map t | t in tokens :: if tokens[t].wallet in ws && IsDoubleCharged(tokens[t]) then tokens[t].denom else 0
  }

  lemma WeightsAreDifferences(tokens: map<TokenId, Token>, ws: set<WalletId>)
    ensures Sum(UnlockedOf(tokens, ws)) == Sum(Weights(tokens, ws)) + Sum(DoubleChargedOf(tokens, ws))
  {
    SumPlus(Weights(tokens, ws), DoubleChargedOf(tokens, ws), UnlockedOf(tokens, ws));
  }

  lemma SumOfPart<K>(m: map<K, int>, k: K)
    requires k in m && forall j :: j in m ==> m[j] >= 0
    ensures m[k] <= Sum(m)
  {
    SumRemove(m, k);
    SumNonNegative(m - {k});
  }

  lemma BalanceEquation(db: Db, id: WalletId)
    requires BalanceLaw(db, {id}) && id in db.wallets
    ensures db.wallets[id].offline
         == Sum(UnlockedOf(db.tokens, {id})) + Sum(Dust(db.topUps, {id})) - Sum(DoubleChargedOf(db.tokens, {id}))
  {
    SumOfOne(OfflineBalances(db.wallets, {id}), id);
    WeightsAreDifferences(db.tokens, {id});
  }

  ghost predicate NeverDoubleCharged(tokens: map<TokenId, Token>, ws: set<WalletId>) {
    forall t :: t in tokens && tokens[t].wallet in ws ==> !IsDoubleCharged(tokens[t])
  }

  lemma DoubleChargeIsPositive(tokens: map<TokenId, Token>, ws: set<WalletId>)
    requires forall t :: t in tokens ==> tokens[t].denom > 0
    ensures Sum(DoubleChargedOf(tokens, ws)) >= 0
    ensures Sum(DoubleChargedOf(tokens, ws)) == 0 <==> NeverDoubleCharged(tokens, ws)
  {
    var m := DoubleChargedOf(tokens, ws);
    SumNonNegative(m);
    if NeverDoubleCharged(tokens, ws) {
      SumOfZeros(m);
    } else {
      var t :| t in tokens && tokens[t].wallet in ws && IsDoubleCharged(tokens[t]);
      SumOfPart(m, t);
    }
  }

  // The stored balance is the unlocked minted value plus dust, less what was charged twice.
  lemma BalanceAgreement(w: World, id: WalletId)
    requires Sound(w) && id in w.db.wallets
    ensures var tokens := w.db.tokens;
            var due := Sum(UnlockedOf(tokens, {id})) + Sum(Dust(w.db.topUps, {id}));
            && w.db.wallets[id].offline == due - Sum(DoubleChargedOf(tokens, {id})) <= due
            && (w.db.wallets[id].offline == due <==> NeverDoubleCharged(tokens, {id}))
  {
    BalanceEquation(w.db, id);
    DenominationsArePositive(w.db);
    DoubleChargeIsPositive(w.db.tokens, {id});
  }

  lemma DenominationsArePositive(db: Db)
    requires TokensSafe(db)
    ensures forall t :: t in db.tokens ==> db.tokens[t].denom > 0
  {
  }

  lemma {:induction false} SumAtBound<K>(m: map<K, int>, ks: seq<K>)
    requires Distinct(ks) && (forall k :: k in ks ==> k in m) && forall k :: k in m ==> m[k] >= 0
    ensures SumAt(m, ks) <= Sum(m)
    decreases |ks|
  {
    if ks == [] {
      SumNonNegative(m);
    } else {
      var init, k := ks[..|ks| - 1], ks[|ks| - 1];
      assert k !in init;
      SumAtBound(m - {k}, init);
      SumAtAgrees(m - {k}, m, init);
      SumRemove(m, k);
    }
  }

  // While nothing was charged twice, the balance covers any choice of unlocked tokens, so the
  // CHECK on the balance never stops a code. A payment may pick a locked token, so it can stop one.
  lemma UnlockedTokensAreCovered(w: World, id: WalletId, ids: seq<TokenId>)
    requires Reachable(w) && id in w.db.wallets && Lockable(w.db.tokens, id, ids)
    requires NeverDoubleCharged(w.db.tokens, {id})
    ensures Value(w.db.tokens, ids) <= w.db.wallets[id].offline
  {
    ReachableIsSound(w);
    BalanceAgreement(w, id);
    UnlockedValue(w.db.tokens, id, ids);
    SumNonNegative(Dust(w.db.topUps, {id}));
  }

  lemma CodesPassTheCheck(w: World, s: Step)
    requires Reachable(w) && s.LockStep? && Legal(w, s) && NeverDoubleCharged(w.db.tokens, {s.wallet})
    ensures OutcomeOf(w, s) != Refused(IntegrityError)
  {
    if s.wallet in w.db.wallets && s.selected.Some? { UnlockedTokensAreCovered(w, s.wallet, s.selected.value); }
  }

  lemma UnlockedValue(tokens: map<TokenId, Token>, id: WalletId, ids: seq<TokenId>)
    requires Lockable(tokens, id, ids) && AllIn(ids, tokens)
    ensures Value(tokens, ids) <= Sum(UnlockedOf(tokens, {id}))
  {
    var m := UnlockedOf(tokens, {id});
    SumAtIsValue(m, tokens, ids);
    SumAtBound(m, ids);
  }

  // ---------- conservation ----------

  ghost function LockedValues(tokens: map<TokenId, Token>): map<TokenId, int> {
    map t | t in tokens :: if IsLocked(tokens[t]) then tokens[t].denom else 0
  }

  ghost function GoneValues(tokens: map<TokenId, Token>): map<TokenId, int> {
    map t | t in tokens :: if tokens[t].status != Minted then tokens[t].denom else 0
  }

  ghost function MintedValues(tokens: map<TokenId, Token>): map<TokenId, int> {
    map t | t in tokens :: if tokens[t].status == Minted then tokens[t].denom else 0
  }

  ghost function TopUpAmounts(topUps: map<TopUpId, TopUp>): map<TopUpId, int> {
    map u | u in topUps :: topUps[u].amount
  }

  ghost function AllWallets(db: Db): set<WalletId> {
    db.wallets.Keys + set u | u in db.topUps :: db.topUps[u].wallet
  }

  lemma DenomsByClass(tokens: map<TokenId, Token>, ws: set<WalletId>)
    requires forall t :: t in tokens ==> tokens[t].wallet in ws
    ensures Sum(Denoms(tokens)) == Sum(UnlockedOf(tokens, ws)) + Sum(LockedValues(tokens)) + Sum(GoneValues(tokens))
  {
    SumPlus(UnlockedOf(tokens, ws), LockedValues(tokens), MintedValues(tokens));
    SumPlus(MintedValues(tokens), GoneValues(tokens), Denoms(tokens));
  }

  lemma TokensPartition(db: Db, all: set<WalletId>)
    requires BalanceLaw(db, all) && TokenLaw(db)
    requires forall t :: t in db.tokens ==> db.tokens[t].wallet in all
    requires forall u :: u in db.topUps ==> db.topUps[u].wallet in all
    ensures Sum(OfflineBalances(db.wallets, all)) + Sum(DoubleChargedOf(db.tokens, all)) + Sum(LockedValues(db.tokens))
            + Sum(GoneValues(db.tokens)) == Sum(Allocations(db.topUps))
  {
    WeightsAreDifferences(db.tokens, all);
    DenomsByClass(db.tokens, all);
    assert Dust(db.topUps, all) == Residues(db.topUps);
  }

  lemma TopUpParts(topUps: map<TopUpId, TopUp>)
    ensures Sum(TopUpAmounts(topUps)) == Sum(OnlineParts(topUps)) + Sum(Allocations(topUps))
  {
    SumPlus(OnlineParts(topUps), Allocations(topUps), TopUpAmounts(topUps));
  }

  // Balances, locked and spent tokens and online payments always add up to what was topped up and
  // credited; tokens charged twice are the only gap.
  lemma Conservation(w: World)
    requires Sound(w)
    ensures var db, all := w.db, AllWallets(w.db);
            Sum(OnlineBalances(db.wallets)) + Sum(OfflineBalances(db.wallets, all))
            + Sum(DoubleChargedOf(db.tokens, all))
            + Sum(LockedValues(db.tokens)) + Sum(GoneValues(db.tokens)) + Sum(OnlinePaid(db.txs))
            == Sum(TopUpAmounts(db.topUps)) + w.credited
  {
    TokensPartition(w.db, AllWallets(w.db));
    TopUpParts(w.db.topUps);
  }
}
