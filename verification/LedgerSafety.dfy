// What holds in every run, whatever proofs merchants submit: the registry only grows, a
// registered token is never spendable again, and no key signs twice.

module LedgerSafety {
  import opened Lists
  import opened Coins
  import opened KeyRecords
  import opened LedgerState
  import opened LedgerSteps

  // ---------- the invariant ----------

  ghost predicate TokensSafe(db: Db) {
    forall t :: t in db.tokens ==> t != "" && IsDenomination(db.tokens[t].denom) && db.tokens[t].wallet in db.wallets
  }

  // The token exists and can no longer be spent.
  predicate Gone(tokens: map<TokenId, Token>, t: TokenId) {
    t in tokens && tokens[t].status != Minted
  }

  ghost predicate RegistrySafe(db: Db) {
    forall t :: t in db.registry ==> Gone(db.tokens, t)
  }

  ghost predicate ConsumedSafe(db: Db) {
    forall x, i :: x in db.txs && 0 <= i < |db.txs[x].consumed| ==> Gone(db.tokens, db.txs[x].consumed[i])
  }

  ghost predicate QueueSafe(db: Db) {
    forall i :: 0 <= i < |db.queue| ==>
      && db.queue[i].tx in db.txs
      && (db.queue[i].status == Completed ==> db.txs[db.queue[i].tx].status == Succeeded)
  }

  ghost predicate DbSafe(db: Db) {
    && WalletsChecked(db.wallets)
    && TokensSafe(db)
    && RegistrySafe(db)
    && ConsumedSafe(db)
    && QueueSafe(db)
  }

  ghost predicate Safe(w: World) { DbSafe(w.db) && KeysSafe(w.keys) }

  // ---------- what never changes ----------

  ghost predicate TokensAge(a: map<TokenId, Token>, b: map<TokenId, Token>) {
    forall t :: t in a ==>
        t in b && b[t].denom == a[t].denom && b[t].wallet == a[t].wallet && (Gone(a, t) ==> Gone(b, t))
  }

  ghost predicate TxsAge(a: map<TxId, Tx>, b: map<TxId, Tx>) {
    forall x :: x in a ==> x in b && b[x].consumed == a[x].consumed && b[x].amount == a[x].amount
                           && (a[x].status == Succeeded ==> b[x].status == Succeeded)
  }

  predicate Extends<K, V(==)>(a: map<K, V>, b: map<K, V>) {
    forall k :: k in a ==> k in b && b[k] == a[k]
  }

  ghost predicate DbGrows(a: Db, b: Db) {
    && a.wallets.Keys <= b.wallets.Keys
    && TokensAge(a.tokens, b.tokens)
    && TxsAge(a.txs, b.txs)
    && Extends(a.registry, b.registry)
    && Extends(a.settlements, b.settlements)
    && Extends(a.topUps, b.topUps)
  }

  lemma DbGrowsTransitive(a: Db, b: Db, c: Db)
    requires DbGrows(a, b) && DbGrows(b, c)
    ensures DbGrows(a, c)
  {
  }

  // ---------- rebuilding the invariant after a step ----------

  // If the tables only age and everything newly registered or consumed is gone, safety stays.
  lemma RestoreRegistry(a: Db, b: Db, ids: seq<TokenId>)
    requires RegistrySafe(a) && TokensAge(a.tokens, b.tokens)
    requires forall t :: t in b.registry ==> t in a.registry || t in ids
    requires forall i :: 0 <= i < |ids| ==> Gone(b.tokens, ids[i])
    ensures RegistrySafe(b)
  {
  }

  lemma RestoreConsumed(a: Db, b: Db, x: TxId)
    requires ConsumedSafe(a) && TokensAge(a.tokens, b.tokens)
    requires forall y :: y in b.txs && y != x ==> y in a.txs && b.txs[y].consumed == a.txs[y].consumed
    requires x in b.txs ==> forall i :: 0 <= i < |b.txs[x].consumed| ==> Gone(b.tokens, b.txs[x].consumed[i])
    ensures ConsumedSafe(b)
  {
  }

  // ---------- single steps ----------

  // b is a with one new unspent token of the wallet for each one minted.
  ghost predicate Added(a: map<TokenId, Token>, b: map<TokenId, Token>, wallet: WalletId, minted: seq<MintedToken>) {
    && (forall t :: t in a ==> t in b && b[t] == a[t])
    && (forall i :: 0 <= i < |minted| ==>
          minted[i].id in b && b[minted[i].id] == Token(wallet, minted[i].denom, Minted, NoCode, None))
    && (forall t :: t in b ==> t in a || t in MintedIds(minted))
  }

  lemma OneMoreAdded(a: map<TokenId, Token>, b: map<TokenId, Token>, wallet: WalletId, minted: seq<MintedToken>,
                     m: MintedToken)
    requires Added(a, b, wallet, minted) && m.id !in a && m.id !in MintedIds(minted)
    ensures Added(a, b[m.id := Token(wallet, m.denom, Minted, NoCode, None)], wallet, minted + [m])
  {
    assert MintedIds(minted + [m]) == MintedIds(minted) + [m.id];
    forall i | 0 <= i < |minted| ensures minted[i].id != m.id {
      assert MintedIds(minted)[i] in MintedIds(minted);
    }
  }

  lemma {:induction false} AddedTokens(tokens: map<TokenId, Token>, wallet: WalletId, minted: seq<MintedToken>)
    requires Distinct(MintedIds(minted))
    requires forall i :: 0 <= i < |minted| ==> minted[i].id !in tokens
    ensures Added(tokens, AddTokens(tokens, wallet, minted), wallet, minted)
    decreases |minted|
  {
    if minted == [] {
    } else {
      var init, m := minted[..|minted| - 1], minted[|minted| - 1];
      assert MintedIds(minted) == MintedIds(init) + [m.id] && minted == init + [m];
      DistinctButLast(MintedIds(init), m.id);
      AddedTokens(tokens, wallet, init);
      OneMoreAdded(tokens, AddTokens(tokens, wallet, init), wallet, init, m);
    }
  }

  lemma {:induction false} AddedKeys(tokens: map<TokenId, Token>, wallet: WalletId, minted: seq<MintedToken>)
    ensures forall t :: t in AddTokens(tokens, wallet, minted) <==> t in tokens || t in MintedIds(minted)
  {
    if minted == [] {
    } else {
      var n := |minted| - 1;
      AddedKeys(tokens, wallet, minted[..n]);
      assert MintedIds(minted) == MintedIds(minted[..n]) + [minted[n].id];
    }
  }

  lemma DistinctButLast(ids: seq<TokenId>, t: TokenId)
    ensures Distinct(ids + [t]) <==> Distinct(ids) && t !in ids
  {
    var all := ids + [t];
    forall i | 0 <= i < |ids| ensures all[i] == ids[i] && all[|ids|] == t { }
    if Distinct(all) {
      forall i, j | 0 <= i < j < |ids| ensures ids[i] != ids[j] { assert all[i] != all[j]; }
    }
  }

  lemma TopUpSafe(db: Db, wallet: WalletId, amount: int, allocation: int, id: TopUpId, minted: seq<MintedToken>)
    requires DbSafe(db) && TopUpOutcome(db, wallet, amount, allocation, id, minted) == Done
    requires 0 <= allocation <= amount && AllValid(minted) && "" !in MintedIds(minted)
    ensures DbSafe(TopUpDb(db, wallet, amount, allocation, id, minted))
    ensures DbGrows(db, TopUpDb(db, wallet, amount, allocation, id, minted))
  {
    var b := TopUpDb(db, wallet, amount, allocation, id, minted);
    AddedTokens(db.tokens, wallet, minted);
    forall t | t in b.tokens ensures t != "" && IsDenomination(b.tokens[t].denom) && b.tokens[t].wallet in b.wallets {
      if t !in db.tokens {
        var i :| 0 <= i < |minted| && MintedIds(minted)[i] == t;
      }
    }
    RestoreRegistry(db, b, []);
    assert ConsumedSafe(b);
  }

  lemma PayOnlineSafe(db: Db, wallet: WalletId, merchant: MerchantId, amount: int, tx: TxId)
    requires DbSafe(db) && PayOnlineOutcome(db, wallet, amount, tx) == Done && amount > 0
    ensures DbSafe(PayOnlineDb(db, wallet, merchant, amount, tx))
    ensures DbGrows(db, PayOnlineDb(db, wallet, merchant, amount, tx))
  {
  }

  lemma PayOfflineSafe(db: Db, wallet: WalletId, merchant: MerchantId, amount: int, tx: TxId, ids: seq<TokenId>)
    requires DbSafe(db) && wallet in db.wallets && tx !in db.txs
    requires Spendable(db.tokens, wallet, ids) && Value(db.tokens, ids) <= db.wallets[wallet].offline
    ensures DbSafe(PayOfflineDb(db, wallet, merchant, amount, tx, ids))
    ensures DbGrows(db, PayOfflineDb(db, wallet, merchant, amount, tx, ids))
  {
    var b := PayOfflineDb(db, wallet, merchant, amount, tx, ids);
    RestoreRegistry(db, b, []);
    RestoreConsumed(db, b, tx);
  }

  lemma LockSafe(db: Db, wallet: WalletId, ids: seq<TokenId>, code: string)
    requires DbSafe(db) && wallet in db.wallets
    requires Lockable(db.tokens, wallet, ids) && Value(db.tokens, ids) <= db.wallets[wallet].offline
    ensures DbSafe(LockDb(db, wallet, ids, code)) && DbGrows(db, LockDb(db, wallet, ids, code))
  {
    var b := LockDb(db, wallet, ids, code);
    RestoreRegistry(db, b, []);
    assert ConsumedSafe(b);
  }

  lemma SettleSafe(db: Db, p: Proof, merchant: MerchantId, stl: SettlementId)
    requires DbSafe(db) && SettleOutcome(db, p, merchant, false, stl) == Done
    ensures DbSafe(SettleDb(db, p, stl)) && DbGrows(db, SettleDb(db, p, stl))
  {
    var b := SettleDb(db, p, stl);
    NoneRegistered(db.registry, p.tokens);
    RestoreRegistry(db, b, p.tokens);
    assert ConsumedSafe(b);
  }

  lemma {:induction false} NoneRegistered(registry: map<TokenId, Spend>, ids: seq<TokenId>)
    ensures FirstProblem(registry, ids) == Done <==>
            forall i :: 0 <= i < |ids| ==> ids[i] !in registry && ids[i] != ""
    decreases |ids|
  {
    if ids == [] {
    } else {
      NoneRegistered(registry, ids[1..]);
      if forall i :: 0 <= i < |ids| ==> ids[i] !in registry && ids[i] != "" {
        forall i | 0 <= i < |ids[1..]| ensures ids[1..][i] !in registry && ids[1..][i] != "" {
          assert ids[1..][i] == ids[i + 1];
        }
      }
      if FirstProblem(registry, ids) == Done {
        forall i | 0 <= i < |ids| ensures ids[i] !in registry && ids[i] != "" {
          if i > 0 { assert ids[i] == ids[1..][i - 1]; }
        }
      }
    }
  }

  // The unchecked insert of emergency settlement never meets an existing registry row.
  lemma RedeemNeverCollides(db: Db, code: string, rows: seq<TokenId>)
    requires RegistrySafe(db) && FoundBy(db.tokens, rows, code)
    ensures forall i :: 0 <= i < |rows| ==> rows[i] !in db.registry
  {
    forall i | 0 <= i < |rows| ensures rows[i] !in db.registry {
      assert Carries(db.tokens, rows[i], code);
    }
  }

  lemma RedeemedTokens(tokens: map<TokenId, Token>, rows: seq<TokenId>, n: nat, code: string)
    requires FoundBy(tokens, rows, code) && n <= |rows|
    ensures TokensAge(tokens, Unlock(Redeem(tokens, rows[..n], code), rows[n..]))
    ensures forall i :: 0 <= i < n ==> Gone(Unlock(Redeem(tokens, rows[..n], code), rows[n..]), rows[i])
  {
  }

  lemma CreditedWallets(wallets: map<WalletId, Wallet>, payee: Option<WalletId>, net: int)
    requires WalletsChecked(wallets) && net >= 0
    ensures WalletsChecked(CreditWallets(wallets, payee, net))
    ensures CreditWallets(wallets, payee, net).Keys == wallets.Keys
  {
  }

  lemma RedeemTokensSafe(db: Db, merchant: MerchantId, amount: int, code: string, payee: Option<WalletId>,
                         rows: seq<TokenId>, tx: TxId, stl: SettlementId, b: Db)
    requires RegistrySafe(db) && ConsumedSafe(db) && FoundBy(db.tokens, rows, code) && rows != []
    requires b == RedeemDb(db, merchant, amount, code, payee, rows, tx, stl)
    ensures RegistrySafe(b) && ConsumedSafe(b) && TokensAge(db.tokens, b.tokens) && b.tokens.Keys == db.tokens.Keys
  {
    var n := Needed(db.tokens, rows, amount, 0);
    RedeemedTokens(db.tokens, rows, n, code);
    RestoreRegistry(db, b, rows[..n]);
    RestoreConsumed(db, b, tx);
  }

  lemma RedeemWalletsSafe(db: Db, merchant: MerchantId, amount: int, code: string, payee: Option<WalletId>,
                          rows: seq<TokenId>, tx: TxId, stl: SettlementId, b: Db)
    requires AllIn(rows, db.tokens) && rows != [] && amount > 0
    requires RedeemOutcome(db, amount, rows, tx, stl) == Done
    requires b == RedeemDb(db, merchant, amount, code, payee, rows, tx, stl)
    ensures WalletsChecked(b.wallets) && b.wallets.Keys == db.wallets.Keys
  {
    var n := Needed(db.tokens, rows, amount, 0);
    CreditedWallets(RefundWallets(db, rows, n), payee, amount - Fee(amount));
  }

  lemma RedeemGrows(db: Db, merchant: MerchantId, amount: int, code: string, payee: Option<WalletId>,
                    rows: seq<TokenId>, tx: TxId, stl: SettlementId, b: Db)
    requires DbSafe(db) && AllIn(rows, db.tokens) && rows != []
    requires RedeemOutcome(db, amount, rows, tx, stl) == Done
    requires b == RedeemDb(db, merchant, amount, code, payee, rows, tx, stl)
    requires TokensAge(db.tokens, b.tokens) && b.tokens.Keys == db.tokens.Keys && b.wallets.Keys == db.wallets.Keys
    ensures TokensSafe(b) && QueueSafe(b) && DbGrows(db, b)
  {
    var n := Needed(db.tokens, rows, amount, 0);
    RedeemTables(db, b, rows[..n], tx, stl, Spend(tx, Some(stl)));
  }

  lemma RedeemSafe(db: Db, merchant: MerchantId, amount: int, code: string, payee: Option<WalletId>,
                   rows: seq<TokenId>, tx: TxId, stl: SettlementId, b: Db)
    requires DbSafe(db) && FoundBy(db.tokens, rows, code) && amount > 0 && rows != []
    requires RedeemOutcome(db, amount, rows, tx, stl) == Done
    requires b == RedeemDb(db, merchant, amount, code, payee, rows, tx, stl)
    ensures DbSafe(b) && DbGrows(db, b)
  {
    RedeemTokensSafe(db, merchant, amount, code, payee, rows, tx, stl, b);
    RedeemWalletsSafe(db, merchant, amount, code, payee, rows, tx, stl, b);
    RedeemGrows(db, merchant, amount, code, payee, rows, tx, stl, b);
  }

  lemma RedeemTables(a: Db, b: Db, ids: seq<TokenId>, tx: TxId, stl: SettlementId, spend: Spend)
    requires DbSafe(a) && TokensAge(a.tokens, b.tokens) && b.tokens.Keys == a.tokens.Keys
    requires b.wallets.Keys == a.wallets.Keys
    requires tx !in a.txs && tx in b.txs && b.txs == a.txs[tx := b.txs[tx]]
    requires stl !in a.settlements && stl in b.settlements && b.settlements == a.settlements[stl := b.settlements[stl]]
    requires forall i :: 0 <= i < |ids| ==> ids[i] !in a.registry
    requires b.registry == Register(a.registry, ids, spend)
    requires b.queue == a.queue && b.topUps == a.topUps
    ensures TokensSafe(b) && QueueSafe(b) && DbGrows(a, b)
  {
  }

  // ---------- sync ----------

  lemma {:induction false} RegisteredUntilConflict(registry: map<TokenId, Spend>, ids: seq<TokenId>, spend: Spend)
    ensures var (r, clean) := RegisterUntilConflict(registry, ids, spend);
            && Extends(registry, r)
            && (forall t :: t in r ==> t in registry || (t in ids && r[t] == spend))
            && (clean ==> forall t :: t in ids ==> t in r && t !in registry)
    decreases |ids|
  {
    if ids != [] && ids[0] !in registry {
      RegisteredUntilConflict(registry[ids[0] := spend], ids[1..], spend);
      assert ids == [ids[0]] + ids[1..];
    }
  }

  // A sync step replaces registry rows, the status of one transaction and one queue item.
  lemma SyncUpdateSafe(db: Db, i: nat, registry: map<TokenId, Spend>, status: TxStatus, item: SyncItem)
    requires DbSafe(db) && i < |db.queue| && item.tx == db.queue[i].tx
    requires db.txs[item.tx].status != Succeeded
    requires item.status == Completed ==> status == Succeeded
    requires Extends(db.registry, registry)
    requires forall t :: t in registry ==> t in db.registry || t in db.txs[item.tx].consumed
    ensures var tx := db.txs[item.tx];
            var b := db.(registry := registry, txs := db.txs[item.tx := tx.(status := status)],
                         queue := db.queue[i := item]);
            DbSafe(b) && DbGrows(db, b)
  {
    var tx := db.txs[item.tx];
    var b := db.(registry := registry, txs := db.txs[item.tx := tx.(status := status)], queue := db.queue[i := item]);
    RestoreRegistry(db, b, tx.consumed);
    RestoreConsumed(db, b, item.tx);
  }

  lemma SyncOneSafe(db: Db, i: nat)
    requires DbSafe(db) && i < |db.queue|
    ensures DbSafe(SyncOne(db, i)) && DbGrows(db, SyncOne(db, i))
  {
    var item := db.queue[i];
    var tx := db.txs[item.tx];
    if tx.status != Succeeded {
      var (registry, clean) := RegisterUntilConflict(db.registry, tx.consumed, Spend(item.tx, None));
      RegisteredUntilConflict(db.registry, tx.consumed, Spend(item.tx, None));
      if clean {
        SyncUpdateSafe(db, i, registry, Succeeded, item.(status := Completed));
      } else {
        SyncUpdateSafe(db, i, registry, Failed, item.(status := SyncFailed));
      }
    }
  }

  lemma {:induction false} SyncAllSafe(db: Db, due: seq<nat>)
    requires DbSafe(db) && forall j :: 0 <= j < |due| ==> due[j] < |db.queue|
    ensures DbSafe(SyncAll(db, due)) && DbGrows(db, SyncAll(db, due))
    decreases |due|
  {
    if due == [] {
    } else {
      var n := |due| - 1;
      SyncAllSafe(db, due[..n]);
      SyncOneSafe(SyncAll(db, due[..n]), due[n]);
      DbGrowsTransitive(db, SyncAll(db, due[..n]), SyncAll(db, due));
    }
  }

  // ---------- every step ----------

  ghost predicate Grows(a: World, b: World) {
    && DbGrows(a.db, b.db)
    && KeysGrow(a.keys, b.keys)
    && a.emitted <= b.emitted
    && forall p :: p in b.emitted && p !in a.emitted ==>
         forall i :: 0 <= i < |p.tokens| ==>
             KeyOf(p.tokens[i]) !in a.keys.destroyed && KeyOf(p.tokens[i]) in b.keys.destroyed
  }

  lemma PayOfflineStepSafe(w: World, wallet: WalletId, merchant: MerchantId, amount: int, tx: TxId,
                           selected: Option<seq<TokenId>>)
    requires Safe(w) && (selected.Some? ==> Spendable(w.db.tokens, wallet, selected.value))
    ensures Safe(PayOffline(w, wallet, merchant, amount, tx, selected))
    ensures Grows(w, PayOffline(w, wallet, merchant, amount, tx, selected))
  {
    if ReachesKeys(w, wallet, amount, selected) {
      SpendKeysSafe(w.keys, selected.value);
      if PayOfflineOutcome(w, wallet, amount, tx, selected) == Done {
        PayOfflineSafe(w.db, wallet, merchant, amount, tx, selected.value);
      }
    }
  }

  lemma StepIsSafe(w: World, s: Step)
    requires Safe(w) && Legal(w, s)
    ensures Safe(Next(w, s)) && Grows(w, Next(w, s))
  {
    if s.PayOfflineStep? {
      PayOfflineStepSafe(w, s.wallet, s.merchant, s.amount, s.tx, s.selected);
    } else if OutcomeOf(w, s) == Done {
      match s
      case CreateWalletStep(wallet, allowance) =>
      case TopUpStep(wallet, amount, allocation, id, minted) => TopUpSafe(w.db, wallet, amount, allocation, id, minted);
      case PayOnlineStep(wallet, merchant, amount, tx) => PayOnlineSafe(w.db, wallet, merchant, amount, tx);
      case LockStep(wallet, _, code, selected) => LockSafe(w.db, wallet, selected.value, code);
      case RedeemStep(merchant, amount, code, payee, rows, tx, stl) =>
        RedeemSafe(w.db, merchant, amount, code, payee, rows, tx, stl, Next(w, s).db);
      case SettleStep(p, merchant, _, stl) => SettleSafe(w.db, p, merchant, stl);
      case SyncStep(filter, batch) => SyncAllSafe(w.db, DueItems(w.db, filter, batch, 0));
    }
  }
}
