// Runs in which merchants submit only proofs that offline payments emitted: settlement, sync and
// the registry agree about every payment, and each payment is settled as a whole or not at all.

module LedgerAgreement {
  import opened Lists
  import opened Coins
  import opened LedgerState
  import opened LedgerSteps
  import opened LedgerSafety

  // ---------- the invariant ----------

  ghost predicate NoneRegisteredYet(db: Db, ids: seq<TokenId>) {
    forall i :: 0 <= i < |ids| ==> ids[i] !in db.registry
  }

  ghost predicate AllRegisteredFor(db: Db, ids: seq<TokenId>, x: TxId) {
    forall i :: 0 <= i < |ids| ==> ids[i] in db.registry && db.registry[ids[i]].tx == x
  }

  ghost predicate SpentIn(db: Db, ids: seq<TokenId>, x: TxId) {
    forall i :: 0 <= i < |ids| ==> ids[i] in db.tokens && db.tokens[ids[i]].spentIn == Some(x)
  }

  // A transaction is pending with none of its tokens registered, or succeeded with all of them
  // registered under its own id, and its tokens cover its amount.
  ghost predicate TxAgreed(db: Db, x: TxId)
    requires x in db.txs
  {
    var tx := db.txs[x];
    && Distinct(tx.consumed)
    && SpentIn(db, tx.consumed, x)
    && ((tx.status == Pending && tx.consumed != [] && NoneRegisteredYet(db, tx.consumed))
        || (tx.status == Succeeded && AllRegisteredFor(db, tx.consumed, x)))
    && (tx.consumed != [] ==> AllIn(tx.consumed, db.tokens) && tx.amount <= Value(db.tokens, tx.consumed))
  }

  ghost predicate TxsAgreed(db: Db) {
    forall x :: x in db.txs ==> TxAgreed(db, x)
  }

  ghost predicate EmittedAgreed(w: World) {
    forall p :: p in w.emitted ==>
      && p.tx in w.db.txs
      && p.tokens != []
      && w.db.txs[p.tx].consumed == p.tokens
      && w.db.txs[p.tx].amount == p.amount
  }

  // One queue item a transaction; every pending transaction waits in the queue.
  ghost predicate QueueAgreed(db: Db) {
    && (forall i, j :: 0 <= i < j < |db.queue| ==> db.queue[i].tx != db.queue[j].tx)
    && (forall i :: 0 <= i < |db.queue| ==> db.queue[i].status == Queued || db.queue[i].status == Completed)
    && (forall x :: x in db.txs && db.txs[x].status == Pending ==> IsQueued(db.queue, x))
  }

  ghost predicate IsQueued(queue: seq<SyncItem>, x: TxId) {
    exists i :: 0 <= i < |queue| && queue[i].tx == x && queue[i].status == Queued
  }

  // Every settlement pays a succeeded transaction, and none is paid twice.
  ghost predicate SettlementsAgreed(db: Db) {
    && (forall s :: s in db.settlements ==>
          db.settlements[s].payment in db.txs && db.txs[db.settlements[s].payment].status == Succeeded)
    && (forall s, u :: s in db.settlements && u in db.settlements && s != u ==>
          db.settlements[s].payment != db.settlements[u].payment)
  }

  ghost predicate Agreed(w: World) {
    && Safe(w)
    && TxsAgreed(w.db)
    && EmittedAgreed(w)
    && QueueAgreed(w.db)
    && SettlementsAgreed(w.db)
  }

  // No unspent token of another wallet carries the code.
  ghost predicate IsFreshFor(tokens: map<TokenId, Token>, code: string, wallet: WalletId) {
    forall t :: t in tokens && Carries(tokens, t, code) ==> tokens[t].wallet == wallet
  }

  // Proofs come from offline payments, and no minted token of another wallet carries the code.
  ghost predicate Honest(w: World, s: Step) {
    && Legal(w, s)
    && (s.SettleStep? ==> s.proof in w.emitted)
    && (s.LockStep? ==> IsFreshFor(w.db.tokens, s.code, s.wallet))
  }

  // ---------- token sets of different transactions ----------

  lemma ConsumedAreDisjoint(db: Db, x: TxId, y: TxId)
    requires TxsAgreed(db) && x in db.txs && y in db.txs && x != y
    ensures forall t :: t in db.txs[x].consumed ==> t !in db.txs[y].consumed
  {
    assert TxAgreed(db, x) && TxAgreed(db, y);
  }

  // ---------- keeping one transaction's agreement ----------

  lemma {:induction false} SameValue(a: map<TokenId, Token>, b: map<TokenId, Token>, ids: seq<TokenId>)
    requires AllIn(ids, a) && AllIn(ids, b)
    requires forall i :: 0 <= i < |ids| ==> a[ids[i]].denom == b[ids[i]].denom
    ensures Value(a, ids) == Value(b, ids)
  {
    if ids == [] {
    } else {
      SameValue(a, b, ids[..|ids| - 1]);
    }
  }

  ghost predicate SameSpentIn(a: Db, b: Db, ids: seq<TokenId>) {
    forall i :: 0 <= i < |ids| ==>
      ids[i] in a.tokens && ids[i] in b.tokens && a.tokens[ids[i]].spentIn == b.tokens[ids[i]].spentIn
      && a.tokens[ids[i]].denom == b.tokens[ids[i]].denom
  }

  ghost predicate SameRegistryAt(a: Db, b: Db, ids: seq<TokenId>) {
    forall i :: 0 <= i < |ids| ==>
      (ids[i] in a.registry <==> ids[i] in b.registry)
      && (ids[i] in a.registry ==> a.registry[ids[i]].tx == b.registry[ids[i]].tx)
  }

  // A step that leaves the rows of x and of its tokens alone keeps x in agreement.
  lemma TxUntouched(a: Db, b: Db, x: TxId)
    requires x in a.txs && x in b.txs && TxAgreed(a, x)
    requires b.txs[x].consumed == a.txs[x].consumed && b.txs[x].status == a.txs[x].status
    requires b.txs[x].amount == a.txs[x].amount
    requires SameSpentIn(a, b, a.txs[x].consumed) && SameRegistryAt(a, b, a.txs[x].consumed)
    ensures TxAgreed(b, x)
  {
    var ids := a.txs[x].consumed;
    if ids != [] {
      assert AllIn(ids, b.tokens);
      SameValue(a.tokens, b.tokens, ids);
    }
  }

  // Registering exactly the tokens of a pending transaction completes it.
  lemma TxCompleted(a: Db, b: Db, x: TxId, spend: Spend)
    requires x in a.txs && TxAgreed(a, x) && spend.tx == x
    requires x in b.txs && b.txs[x] == a.txs[x].(status := Succeeded)
    requires SameSpentIn(a, b, a.txs[x].consumed)
    requires b.registry == Register(a.registry, a.txs[x].consumed, spend)
    ensures TxAgreed(b, x)
  {
    var ids := a.txs[x].consumed;
    if ids != [] {
      assert AllIn(ids, b.tokens);
      SameValue(a.tokens, b.tokens, ids);
    }
  }

  // Completing x leaves all other transactions alone.
  lemma CompletionAgrees(a: Db, b: Db, x: TxId, spend: Spend)
    requires TxsAgreed(a) && x in a.txs && spend.tx == x
    requires b.txs == a.txs[x := a.txs[x].(status := Succeeded)]
    requires forall y :: y in a.txs ==> SameSpentIn(a, b, a.txs[y].consumed)
    requires b.registry == Register(a.registry, a.txs[x].consumed, spend)
    ensures TxsAgreed(b)
  {
    forall y | y in b.txs ensures TxAgreed(b, y) {
      assert TxAgreed(a, y);
      if y == x {
        TxCompleted(a, b, x, spend);
      } else {
        ConsumedAreDisjoint(a, y, x);
        assert SameRegistryAt(a, b, a.txs[y].consumed);
        TxUntouched(a, b, y);
      }
    }
  }

  // ---------- sync never conflicts ----------

  lemma RegisterFirst(registry: map<TokenId, Spend>, ids: seq<TokenId>, spend: Spend)
    requires ids != []
    ensures Register(registry[ids[0] := spend], ids[1..], spend) == Register(registry, ids, spend)
  {
    assert ids == [ids[0]] + ids[1..];
    assert forall t :: t in ids <==> t == ids[0] || t in ids[1..];
  }

  lemma {:induction false} RegisterClean(registry: map<TokenId, Spend>, ids: seq<TokenId>, spend: Spend)
    requires Distinct(ids) && forall i :: 0 <= i < |ids| ==> ids[i] !in registry
    ensures RegisterUntilConflict(registry, ids, spend) == (Register(registry, ids, spend), true)
    decreases |ids|
  {
    if ids == [] {
      assert Register(registry, ids, spend) == registry;
    } else {
      forall i | 0 <= i < |ids[1..]| ensures ids[1..][i] != ids[0] && ids[1..][i] !in registry {
        assert ids[1..][i] == ids[i + 1];
      }
      RegisterClean(registry[ids[0] := spend], ids[1..], spend);
      RegisterFirst(registry, ids, spend);
    }
  }

  // In agreement, syncing an item always completes it and never reports a double spend.
  lemma SyncOneCompletes(db: Db, i: nat)
    requires DbSafe(db) && TxsAgreed(db) && i < |db.queue|
    ensures var b := SyncOne(db, i);
            var x := db.queue[i].tx;
            && b.queue == db.queue[i := db.queue[i].(status := Completed)]
            && b.txs == db.txs[x := db.txs[x].(status := Succeeded)]
            && b.tokens == db.tokens && b.settlements == db.settlements
            && b.wallets == db.wallets && b.topUps == db.topUps
            && b.registry == if db.txs[x].status == Succeeded then db.registry
                             else Register(db.registry, db.txs[x].consumed, Spend(x, None))
  {
    var x := db.queue[i].tx;
    assert TxAgreed(db, x);
    if db.txs[x].status != Succeeded {
      RegisterClean(db.registry, db.txs[x].consumed, Spend(x, None));
    } else {
      assert db.txs[x := db.txs[x].(status := Succeeded)] == db.txs;
    }
  }

  // ---------- transactions, step by step ----------

  // No token changes its denomination or the payment that spent it.
  ghost predicate SpentInStays(a: map<TokenId, Token>, b: map<TokenId, Token>) {
    forall t :: t in a ==> t in b && b[t].spentIn == a[t].spentIn && b[t].denom == a[t].denom
  }

  lemma StaysForConsumed(a: Db, b: Db)
    requires ConsumedSafe(a) && SpentInStays(a.tokens, b.tokens)
    ensures forall y :: y in a.txs ==> SameSpentIn(a, b, a.txs[y].consumed)
  {
    forall y | y in a.txs ensures SameSpentIn(a, b, a.txs[y].consumed) {
      forall i | 0 <= i < |a.txs[y].consumed| ensures Gone(a.tokens, a.txs[y].consumed[i]) {
      }
    }
  }

  lemma OnlyTokensChange(a: Db, b: Db)
    requires TxsAgreed(a) && ConsumedSafe(a) && SpentInStays(a.tokens, b.tokens)
    requires b.txs == a.txs && b.registry == a.registry
    ensures TxsAgreed(b)
  {
    StaysForConsumed(a, b);
    forall y | y in b.txs ensures TxAgreed(b, y) {
      assert TxAgreed(a, y);
      TxUntouched(a, b, y);
    }
  }

  // A new transaction without tokens, and registry rows for tokens that could still be spent.
  lemma TokenlessTxAdded(a: Db, b: Db, x: TxId, ids: seq<TokenId>, spend: Spend)
    requires TxsAgreed(a) && ConsumedSafe(a) && SpentInStays(a.tokens, b.tokens)
    requires x !in a.txs && x in b.txs && b.txs == a.txs[x := b.txs[x]]
    requires b.txs[x].consumed == [] && b.txs[x].status == Succeeded
    requires b.registry == Register(a.registry, ids, spend)
    requires forall i :: 0 <= i < |ids| ==> !Gone(a.tokens, ids[i])
    ensures TxsAgreed(b)
  {
    StaysForConsumed(a, b);
    forall y | y in b.txs ensures TxAgreed(b, y) {
      if y != x {
        assert TxAgreed(a, y);
        forall i | 0 <= i < |a.txs[y].consumed| ensures a.txs[y].consumed[i] !in ids {
          assert Gone(a.tokens, a.txs[y].consumed[i]);
        }
        assert SameRegistryAt(a, b, a.txs[y].consumed);
        TxUntouched(a, b, y);
      }
    }
  }

  lemma PayOfflineTxsAgree(db: Db, wallet: WalletId, merchant: MerchantId, amount: int, tx: TxId, ids: seq<TokenId>)
    requires DbSafe(db) && TxsAgreed(db) && wallet in db.wallets && tx !in db.txs
    requires Spendable(db.tokens, wallet, ids) && ids != [] && Value(db.tokens, ids) >= amount
    ensures TxsAgreed(PayOfflineDb(db, wallet, merchant, amount, tx, ids))
  {
    var b := PayOfflineDb(db, wallet, merchant, amount, tx, ids);
    forall y | y in b.txs ensures TxAgreed(b, y) {
      if y == tx {
        SameValue(db.tokens, b.tokens, ids);
      } else {
        assert TxAgreed(db, y);
        forall i | 0 <= i < |db.txs[y].consumed|
          ensures db.txs[y].consumed[i] in db.tokens && db.txs[y].consumed[i] !in ids
        {
          assert Gone(db.tokens, db.txs[y].consumed[i]);
        }
        TxUntouched(db, b, y);
      }
    }
  }

  // A proof that was emitted settles exactly while its payment is pending.
  lemma EmittedProofProblem(w: World, p: Proof)
    requires TxsAgreed(w.db) && EmittedAgreed(w) && p in w.emitted
    requires forall i :: 0 <= i < |p.tokens| ==> p.tokens[i] != ""
    ensures FirstProblem(w.db.registry, p.tokens)
         == if w.db.txs[p.tx].status == Pending then Done else Refused(DoubleSpend)
  {
    assert TxAgreed(w.db, p.tx);
    NoneRegistered(w.db.registry, p.tokens);
    if w.db.txs[p.tx].status == Succeeded {
      assert p.tokens[0] in w.db.registry;
    }
  }

  lemma SettledWasPending(w: World, p: Proof, merchant: MerchantId, stl: SettlementId)
    requires TxsAgreed(w.db) && EmittedAgreed(w) && p in w.emitted
    requires SettleOutcome(w.db, p, merchant, false, stl) == Done
    ensures w.db.txs[p.tx].status == Pending
  {
    assert TxAgreed(w.db, p.tx);
    NoneRegistered(w.db.registry, p.tokens);
    assert p.tokens[0] !in w.db.registry;
  }

  lemma SettleTxsAgree(db: Db, p: Proof, stl: SettlementId)
    requires TxsAgreed(db) && ConsumedSafe(db) && p.tx in db.txs && db.txs[p.tx].consumed == p.tokens
    ensures TxsAgreed(SettleDb(db, p, stl))
  {
    var b := SettleDb(db, p, stl);
    StaysForConsumed(db, b);
    CompletionAgrees(db, b, p.tx, Spend(p.tx, Some(stl)));
  }

  // What emergency settlement does to the tables that the agreement is about.
  ghost predicate RedeemShape(a: Db, b: Db, ids: seq<TokenId>, tx: TxId, stl: SettlementId) {
    && SpentInStays(a.tokens, b.tokens)
    && tx !in a.txs && tx in b.txs && b.txs == a.txs[tx := b.txs[tx]]
    && b.txs[tx].consumed == [] && b.txs[tx].status == Succeeded
    && b.registry == Register(a.registry, ids, Spend(tx, Some(stl)))
    && stl !in a.settlements && stl in b.settlements && b.settlements == a.settlements[stl := b.settlements[stl]]
    && b.settlements[stl].payment == tx
    && b.queue == a.queue
  }

  lemma RedeemHasShape(db: Db, merchant: MerchantId, amount: int, code: string, payee: Option<WalletId>,
                       rows: seq<TokenId>, tx: TxId, stl: SettlementId, b: Db)
    requires AllIn(rows, db.tokens) && rows != []
    requires RedeemOutcome(db, amount, rows, tx, stl) == Done
    requires b == RedeemDb(db, merchant, amount, code, payee, rows, tx, stl)
    ensures RedeemShape(db, b, rows[..Needed(db.tokens, rows, amount, 0)], tx, stl)
  {
  }

  lemma RedeemTxsAgree(a: Db, b: Db, code: string, rows: seq<TokenId>, n: nat, tx: TxId, stl: SettlementId)
    requires ConsumedSafe(a) && TxsAgreed(a) && FoundBy(a.tokens, rows, code) && n <= |rows|
    requires RedeemShape(a, b, rows[..n], tx, stl)
    ensures TxsAgreed(b)
  {
    forall i | 0 <= i < |rows[..n]| ensures !Gone(a.tokens, rows[..n][i]) {
      assert Carries(a.tokens, rows[i], code);
    }
    TokenlessTxAdded(a, b, tx, rows[..n], Spend(tx, Some(stl)));
  }

  lemma SyncOneTxsAgree(db: Db, i: nat)
    requires DbSafe(db) && TxsAgreed(db) && i < |db.queue|
    ensures TxsAgreed(SyncOne(db, i))
  {
    var x := db.queue[i].tx;
    SyncOneCompletes(db, i);
    var b := SyncOne(db, i);
    assert TxAgreed(db, x);
    if db.txs[x].status == Succeeded {
      assert b.txs == db.txs;
      OnlyTokensChange(db, b);
    } else {
      StaysForConsumed(db, b);
      CompletionAgrees(db, b, x, Spend(x, None));
    }
  }

  // ---------- queue and settlements ----------

  lemma QueueKept(a: Db, b: Db)
    requires QueueAgreed(a) && b.queue == a.queue
    requires forall x :: x in b.txs && b.txs[x].status == Pending ==> x in a.txs && a.txs[x].status == Pending
    ensures QueueAgreed(b)
  {
  }

  lemma PayOfflineQueueAgrees(db: Db, wallet: WalletId, merchant: MerchantId, amount: int, tx: TxId, ids: seq<TokenId>)
    requires QueueSafe(db) && QueueAgreed(db) && wallet in db.wallets && AllIn(ids, db.tokens) && tx !in db.txs
    ensures QueueAgreed(PayOfflineDb(db, wallet, merchant, amount, tx, ids))
  {
    var b := PayOfflineDb(db, wallet, merchant, amount, tx, ids);
    var n := |db.queue|;
    assert b.queue[n].tx == tx;
    forall x | x in b.txs && b.txs[x].status == Pending ensures IsQueued(b.queue, x) {
      if x != tx {
        var i :| 0 <= i < n && db.queue[i].tx == x && db.queue[i].status == Queued;
        assert b.queue[i] == db.queue[i];
      }
    }
  }

  lemma SyncOneQueueAgrees(db: Db, i: nat)
    requires DbSafe(db) && TxsAgreed(db) && QueueAgreed(db) && i < |db.queue|
    ensures QueueAgreed(SyncOne(db, i))
  {
    SyncOneCompletes(db, i);
    var b := SyncOne(db, i);
    forall x | x in b.txs && b.txs[x].status == Pending ensures IsQueued(b.queue, x) {
      var j :| 0 <= j < |db.queue| && db.queue[j].tx == x && db.queue[j].status == Queued;
      assert j != i;
      assert b.queue[j] == db.queue[j];
    }
  }

  lemma SettlementsKept(a: Db, b: Db)
    requires SettlementsAgreed(a) && TxsAge(a.txs, b.txs) && b.settlements == a.settlements
    ensures SettlementsAgreed(b)
  {
  }

  lemma SettlementAdded(a: Db, b: Db, stl: SettlementId, x: TxId)
    requires SettlementsAgreed(a) && TxsAge(a.txs, b.txs)
    requires stl in b.settlements && b.settlements == a.settlements[stl := b.settlements[stl]]
    requires b.settlements[stl].payment == x
    requires x in b.txs && b.txs[x].status == Succeeded
    requires x in a.txs ==> a.txs[x].status != Succeeded
    ensures SettlementsAgreed(b)
  {
  }

  // ---------- every step ----------

  lemma EmittedKept(a: World, b: World)
    requires EmittedAgreed(a) && TxsAge(a.db.txs, b.db.txs) && b.emitted == a.emitted
    ensures EmittedAgreed(b)
  {
  }

  lemma CreateWalletAgrees(w: World, wallet: WalletId, allowance: int)
    requires Agreed(w) && allowance > 0 && wallet !in w.db.wallets
    ensures Agreed(Next(w, CreateWalletStep(wallet, allowance)))
  {
    var s := CreateWalletStep(wallet, allowance);
    StepIsSafe(w, s);
    OnlyTokensChange(w.db, Next(w, s).db);
  }

  lemma TopUpAgrees(w: World, s: Step)
    requires Agreed(w) && s.TopUpStep? && Honest(w, s) && OutcomeOf(w, s) == Done
    ensures Agreed(Next(w, s))
  {
    StepIsSafe(w, s);
    AddedTokens(w.db.tokens, s.wallet, s.minted);
    OnlyTokensChange(w.db, Next(w, s).db);
  }

  lemma PayOnlineAgrees(w: World, s: Step)
    requires Agreed(w) && s.PayOnlineStep? && Honest(w, s) && OutcomeOf(w, s) == Done
    ensures Agreed(Next(w, s))
  {
    var b := Next(w, s).db;
    StepIsSafe(w, s);
    assert b.registry == Register(w.db.registry, [], Spend(s.tx, None));
    TokenlessTxAdded(w.db, b, s.tx, [], Spend(s.tx, None));
    QueueKept(w.db, b);
    SettlementsKept(w.db, b);
  }

  lemma LockAgrees(w: World, s: Step)
    requires Agreed(w) && s.LockStep? && Honest(w, s) && OutcomeOf(w, s) == Done
    ensures Agreed(Next(w, s))
  {
    StepIsSafe(w, s);
    OnlyTokensChange(w.db, Next(w, s).db);
  }

  lemma PayOfflineAgrees(w: World, s: Step)
    requires Agreed(w) && s.PayOfflineStep? && Honest(w, s)
    ensures Agreed(Next(w, s))
  {
    var b := Next(w, s);
    StepIsSafe(w, s);
    if ReachesKeys(w, s.wallet, s.amount, s.selected) && OutcomeOf(w, s) == Done {
      var ids := s.selected.value;
      PayOfflineTxsAgree(w.db, s.wallet, s.merchant, s.amount, s.tx, ids);
      PayOfflineQueueAgrees(w.db, s.wallet, s.merchant, s.amount, s.tx, ids);
      SettlementsKept(w.db, b.db);
    }
  }

  lemma SettleAgrees(w: World, s: Step)
    requires Agreed(w) && s.SettleStep? && Honest(w, s) && OutcomeOf(w, s) == Done
    ensures Agreed(Next(w, s))
  {
    var p, b := s.proof, Next(w, s).db;
    StepIsSafe(w, s);
    SettledWasPending(w, p, s.merchant, s.stl);
    SettleTxsAgree(w.db, p, s.stl);
    QueueKept(w.db, b);
    SettlementAdded(w.db, b, s.stl, p.tx);
  }

  lemma RedeemAgrees(w: World, s: Step)
    requires Agreed(w) && s.RedeemStep? && Honest(w, s) && OutcomeOf(w, s) == Done
    ensures Agreed(Next(w, s))
  {
    var n := Needed(w.db.tokens, s.rows, s.amount, 0);
    var b := Next(w, s).db;
    StepIsSafe(w, s);
    RedeemHasShape(w.db, s.merchant, s.amount, s.code, s.payee, s.rows, s.tx, s.stl, b);
    RedeemTxsAgree(w.db, b, s.code, s.rows, n, s.tx, s.stl);
    QueueKept(w.db, b);
    SettlementAdded(w.db, b, s.stl, s.tx);
  }

  lemma {:induction false} SyncAllAgrees(db: Db, due: seq<nat>)
    requires DbSafe(db) && TxsAgreed(db) && QueueAgreed(db) && SettlementsAgreed(db)
    requires forall j :: 0 <= j < |due| ==> due[j] < |db.queue|
    ensures var b := SyncAll(db, due);
            TxsAgreed(b) && QueueAgreed(b) && SettlementsAgreed(b)
    decreases |due|
  {
    if due == [] {
    } else {
      var n := |due| - 1;
      var a := SyncAll(db, due[..n]);
      SyncAllAgrees(db, due[..n]);
      SyncAllSafe(db, due[..n]);
      SyncOneSafe(a, due[n]);
      SyncOneTxsAgree(a, due[n]);
      SyncOneQueueAgrees(a, due[n]);
      SyncOneCompletes(a, due[n]);
      SettlementsKept(a, SyncOne(a, due[n]));
    }
  }

  lemma StepAgrees(w: World, s: Step)
    requires Agreed(w) && Honest(w, s)
    ensures Agreed(Next(w, s))
  {
    if s.PayOfflineStep? {
      PayOfflineAgrees(w, s);
    } else if OutcomeOf(w, s) == Done {
      match s
      case CreateWalletStep(wallet, allowance) => CreateWalletAgrees(w, wallet, allowance);
      case TopUpStep(_, _, _, _, _) => TopUpAgrees(w, s);
      case PayOnlineStep(_, _, _, _) => PayOnlineAgrees(w, s);
      case LockStep(_, _, _, _) => LockAgrees(w, s);
      case RedeemStep(_, _, _, _, _, _, _) => RedeemAgrees(w, s);
      case SettleStep(_, _, _, _) => SettleAgrees(w, s);
      case SyncStep(filter, batch) => SyncAgrees(w, filter, batch);
    }
  }

  lemma SyncAgrees(w: World, filter: Option<WalletId>, batch: nat)
    requires Agreed(w)
    ensures Agreed(Next(w, SyncStep(filter, batch)))
  {
    StepIsSafe(w, SyncStep(filter, batch));
    SyncAllAgrees(w.db, DueItems(w.db, filter, batch, 0));
    EmittedKept(w, Next(w, SyncStep(filter, batch)));
  }
}
