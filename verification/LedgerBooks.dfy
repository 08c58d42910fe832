// The books: what wallets hold against the tokens, top-ups, payments and settlements on record.

module LedgerBooks {
  import opened Lists
  import opened Coins
  import opened Sums
  import opened LedgerState
  import opened LedgerSteps
  import opened LedgerSafety
  import opened LedgerAgreement

  // ---------- classes of tokens ----------

  predicate IsUnlocked(t: Token) { t.status == Minted && t.otp == NoCode }

  predicate IsLocked(t: Token) { t.status == Minted && t.otp != NoCode }

  // Spent by an offline payment while locked by a code: deducted from the balance twice.
  predicate IsDoubleCharged(t: Token) { t.status != Minted && t.otp.Live? }

  // What a token contributes to the offline balance of its wallet.
  function Weight(t: Token): int {
    if IsUnlocked(t) then t.denom else if IsDoubleCharged(t) then -(t.denom as int) else 0
  }

  ghost function Weights(tokens: map<TokenId, Token>, ws: set<WalletId>): map<TokenId, int> {
    map t | t in tokens :: if tokens[t].wallet in ws then Weight(tokens[t]) else 0
  }

  ghost function Denoms(tokens: map<TokenId, Token>): map<TokenId, int> {
    map t | t in tokens :: tokens[t].denom
  }

  ghost function OfflineBalances(wallets: map<WalletId, Wallet>, ws: set<WalletId>): map<WalletId, int> {
    map w | w in wallets :: if w in ws then wallets[w].offline else 0
  }

  ghost function OnlineBalances(wallets: map<WalletId, Wallet>): map<WalletId, int> {
    map w | w in wallets :: wallets[w].online
  }

  // Allocations are minted in multiples of 500; the rest is in the balance without a token.
  function Residue(t: TopUp): int { t.allocation % 500 }

  ghost function Dust(topUps: map<TopUpId, TopUp>, ws: set<WalletId>): map<TopUpId, int> {
    map u | u in topUps :: if topUps[u].wallet in ws then Residue(topUps[u]) else 0
  }

  ghost function Allocations(topUps: map<TopUpId, TopUp>): map<TopUpId, int> {
    map u | u in topUps :: topUps[u].allocation
  }

  ghost function Residues(topUps: map<TopUpId, TopUp>): map<TopUpId, int> {
    map u | u in topUps :: Residue(topUps[u])
  }

  ghost function OnlineParts(topUps: map<TopUpId, TopUp>): map<TopUpId, int> {
    map u | u in topUps :: topUps[u].amount - topUps[u].allocation
  }

  ghost function OnlinePaid(txs: map<TxId, Tx>): map<TxId, int> {
    map x | x in txs :: if txs[x].mode == Online then txs[x].amount else 0
  }

  ghost function RegisteredValues(db: Db): map<TokenId, int> {
    map t | t in db.registry && t in db.tokens :: db.tokens[t].denom
  }

  ghost function SettledAmounts(db: Db): map<SettlementId, int> {
    map s | s in db.settlements :: db.settlements[s].amount
  }

  // ---------- the laws ----------

  // For every set of wallets, the offline balances are the unlocked tokens plus dust, less the
  // tokens charged twice.
  ghost predicate BalanceLaw(db: Db, ws: set<WalletId>) {
    Sum(OfflineBalances(db.wallets, ws)) == Sum(Weights(db.tokens, ws)) + Sum(Dust(db.topUps, ws))
  }

  ghost predicate TokenLaw(db: Db) {
    Sum(Denoms(db.tokens)) + Sum(Residues(db.topUps)) == Sum(Allocations(db.topUps))
  }

  ghost predicate OnlineLaw(w: World) {
    Sum(OnlineBalances(w.db.wallets)) + Sum(OnlinePaid(w.db.txs)) == Sum(OnlineParts(w.db.topUps)) + w.credited
  }

  ghost predicate SolvencyLaw(db: Db) {
    Sum(SettledAmounts(db)) <= Sum(RegisteredValues(db))
  }

  // A code locks tokens of one wallet only, and a redeemed token is gone.
  ghost predicate CodesAgree(tokens: map<TokenId, Token>) {
    && (forall t, u :: t in tokens && u in tokens && HaveSameCode(tokens[t], tokens[u]) ==>
        tokens[t].wallet == tokens[u].wallet)
    && (forall t :: t in tokens && tokens[t].otp.Redeemed? ==> Gone(tokens, t))
  }

  predicate HaveSameCode(t: Token, u: Token) {
    t.status == Minted && u.status == Minted && t.otp.Live? && t.otp == u.otp
  }

  // ---------- how sums move ----------

  function Signed(sign: int, d: int): int { if sign == 0 then 0 else if sign > 0 then d else -d }

  lemma {:induction false} SumAtShift(m: map<TokenId, int>, n: map<TokenId, int>, tokens: map<TokenId, Token>,
                                      ids: seq<TokenId>, sign: int)
    requires AllIn(ids, tokens) && -1 <= sign <= 1
    requires forall k :: k in ids ==> k in m && k in n
    requires forall i :: 0 <= i < |ids| ==> n[ids[i]] == m[ids[i]] + Signed(sign, tokens[ids[i]].denom)
    ensures SumAt(n, ids) == SumAt(m, ids) + Signed(sign, Value(tokens, ids))
  {
    if ids == [] {
    } else {
      SumAtShift(m, n, tokens, ids[..|ids| - 1], sign);
    }
  }

  lemma {:induction false} SumAtIsValue(m: map<TokenId, int>, tokens: map<TokenId, Token>, ids: seq<TokenId>)
    requires AllIn(ids, tokens)
    requires forall k :: k in ids ==> k in m && m[k] == tokens[k].denom
    ensures SumAt(m, ids) == Value(tokens, ids)
  {
    if ids == [] {
    } else {
      SumAtIsValue(m, tokens, ids[..|ids| - 1]);
    }
  }

  // Tokens of one wallet change their weight by sign times their denomination.
  lemma WeightsShift(a: map<TokenId, Token>, b: map<TokenId, Token>, ws: set<WalletId>, wallet: WalletId,
                     ids: seq<TokenId>, sign: int)
    requires a.Keys == b.Keys && Distinct(ids) && AllIn(ids, a) && -1 <= sign <= 1
    requires forall t :: t in a && t !in ids ==> b[t] == a[t]
    requires forall i :: 0 <= i < |ids| ==> a[ids[i]].wallet == wallet && b[ids[i]].wallet == wallet
    requires forall i :: 0 <= i < |ids| ==>
               Weight(b[ids[i]]) == Weight(a[ids[i]]) + Signed(sign, a[ids[i]].denom)
    ensures Sum(Weights(b, ws)) == Sum(Weights(a, ws)) + (if wallet in ws then Signed(sign, Value(a, ids)) else 0)
  {
    var m, n := Weights(a, ws), Weights(b, ws);
    SumChange(m, n, ids);
    SumAtShift(m, n, a, ids, if wallet in ws then sign else 0);
  }

  // Tokens change without changing their weight.
  lemma WeightsStay(a: map<TokenId, Token>, b: map<TokenId, Token>, ws: set<WalletId>)
    requires a.Keys == b.Keys
    requires forall t :: t in a ==> b[t].wallet == a[t].wallet && Weight(b[t]) == Weight(a[t])
    ensures Weights(a, ws) == Weights(b, ws)
  {
  }

  lemma OfflineShift(wallets: map<WalletId, Wallet>, ws: set<WalletId>, wallet: WalletId, v: Wallet)
    requires wallet in wallets
    ensures Sum(OfflineBalances(wallets[wallet := v], ws))
         == Sum(OfflineBalances(wallets, ws)) + (if wallet in ws then v.offline - wallets[wallet].offline else 0)
  {
    var m := OfflineBalances(wallets, ws);
    SumUpdate(m, wallet, if wallet in ws then v.offline else 0);
    assert OfflineBalances(wallets[wallet := v], ws) == m[wallet := if wallet in ws then v.offline else 0];
  }

  lemma OnlineShift(wallets: map<WalletId, Wallet>, wallet: WalletId, v: Wallet)
    requires wallet in wallets
    ensures Sum(OnlineBalances(wallets[wallet := v]))
         == Sum(OnlineBalances(wallets)) + v.online - wallets[wallet].online
  {
    var m := OnlineBalances(wallets);
    SumUpdate(m, wallet, v.online);
    assert OnlineBalances(wallets[wallet := v]) == m[wallet := v.online];
  }

  // ---------- the balance law, step by step ----------

  lemma CreateWalletBalances(db: Db, wallet: WalletId, allowance: int, ws: set<WalletId>)
    requires BalanceLaw(db, ws) && wallet !in db.wallets
    ensures BalanceLaw(db.(wallets := db.wallets[wallet := Wallet(0, 0, allowance)]), ws)
  {
    var m := OfflineBalances(db.wallets, ws);
    SumInsert(m, wallet, 0);
    assert OfflineBalances(db.wallets[wallet := Wallet(0, 0, allowance)], ws) == m[wallet := 0];
  }

  lemma PayOfflineBalances(db: Db, wallet: WalletId, merchant: MerchantId, amount: int, tx: TxId, ids: seq<TokenId>,
                           ws: set<WalletId>)
    requires BalanceLaw(db, ws) && wallet in db.wallets && Spendable(db.tokens, wallet, ids)
    requires CodesAgree(db.tokens)
    ensures BalanceLaw(PayOfflineDb(db, wallet, merchant, amount, tx, ids), ws)
  {
    var b := PayOfflineDb(db, wallet, merchant, amount, tx, ids);
    WeightsShift(db.tokens, b.tokens, ws, wallet, ids, -1);
    OfflineShift(db.wallets, ws, wallet, b.wallets[wallet]);
  }

  lemma LockBalances(db: Db, wallet: WalletId, ids: seq<TokenId>, code: string, ws: set<WalletId>)
    requires BalanceLaw(db, ws) && wallet in db.wallets && Lockable(db.tokens, wallet, ids)
    ensures BalanceLaw(LockDb(db, wallet, ids, code), ws)
  {
    var b := LockDb(db, wallet, ids, code);
    WeightsShift(db.tokens, b.tokens, ws, wallet, ids, -1);
    OfflineShift(db.wallets, ws, wallet, b.wallets[wallet]);
  }

  lemma SettleBalances(db: Db, p: Proof, stl: SettlementId, ws: set<WalletId>)
    requires BalanceLaw(db, ws) && p.tx in db.txs
    requires forall i :: 0 <= i < |p.tokens| ==> Gone(db.tokens, p.tokens[i])
    ensures BalanceLaw(SettleDb(db, p, stl), ws)
  {
    WeightsStay(db.tokens, SettleDb(db, p, stl).tokens, ws);
  }

  lemma SamePayer(tokens: map<TokenId, Token>, rows: seq<TokenId>, code: string)
    requires FoundBy(tokens, rows, code) && CodesAgree(tokens)
    ensures forall i :: 0 <= i < |rows| ==> tokens[rows[i]].wallet == tokens[rows[0]].wallet
  {
    forall i | 0 <= i < |rows| ensures tokens[rows[i]].wallet == tokens[rows[0]].wallet {
      assert Carries(tokens, rows[i], code) && Carries(tokens, rows[0], code);
      assert HaveSameCode(tokens[rows[i]], tokens[rows[0]]);
    }
  }

  ghost predicate AllCarry(tokens: map<TokenId, Token>, ids: seq<TokenId>, code: string) {
    forall i :: 0 <= i < |ids| ==> Carries(tokens, ids[i], code)
  }

  lemma RedeemKeepsWeights(tokens: map<TokenId, Token>, ids: seq<TokenId>, code: string, ws: set<WalletId>)
    requires AllCarry(tokens, ids, code)
    ensures Weights(Redeem(tokens, ids, code), ws) == Weights(tokens, ws)
  {
    WeightsStay(tokens, Redeem(tokens, ids, code), ws);
  }

  lemma UnlockRestoresWeights(tokens: map<TokenId, Token>, ids: seq<TokenId>, code: string, wallet: WalletId,
                              ws: set<WalletId>)
    requires AllCarry(tokens, ids, code) && Distinct(ids) && AllIn(ids, tokens)
    requires forall i :: 0 <= i < |ids| ==> tokens[ids[i]].wallet == wallet
    ensures Sum(Weights(Unlock(tokens, ids), ws))
         == Sum(Weights(tokens, ws)) + (if wallet in ws then Value(tokens, ids) else 0)
  {
    WeightsShift(tokens, Unlock(tokens, ids), ws, wallet, ids, 1);
  }

  // The refund goes to the wallet whose tokens are unlocked again.
  lemma RedeemedWeights(tokens: map<TokenId, Token>, used: seq<TokenId>, rest: seq<TokenId>, code: string,
                        wallet: WalletId, ws: set<WalletId>)
    requires AllCarry(tokens, used, code) && AllCarry(tokens, rest, code) && Distinct(rest) && AllIn(rest, tokens)
    requires forall i :: 0 <= i < |rest| ==> rest[i] !in used && tokens[rest[i]].wallet == wallet
    ensures Sum(Weights(Unlock(Redeem(tokens, used, code), rest), ws))
         == Sum(Weights(tokens, ws)) + (if wallet in ws then Value(tokens, rest) else 0)
  {
    var mid := Redeem(tokens, used, code);
    RedeemKeepsWeights(tokens, used, code, ws);
    SameValue(tokens, mid, rest);
    UnlockRestoresWeights(mid, rest, code, wallet, ws);
  }

  lemma SplitRows(tokens: map<TokenId, Token>, rows: seq<TokenId>, n: nat, code: string)
    requires FoundBy(tokens, rows, code) && n <= |rows|
    ensures AllCarry(tokens, rows[..n], code) && AllCarry(tokens, rows[n..], code) && Distinct(rows[n..])
    ensures AllIn(rows[n..], tokens)
    ensures forall i :: 0 <= i < |rows[n..]| ==> rows[n..][i] !in rows[..n] && rows[n..][i] == rows[n + i]
  {
  }

  lemma RedeemedOffline(db: Db, rows: seq<TokenId>, n: nat, payee: Option<WalletId>, net: int, ws: set<WalletId>)
    requires AllIn(rows, db.tokens) && rows != [] && n <= |rows| && db.tokens[rows[0]].wallet in db.wallets
    ensures Sum(OfflineBalances(CreditWallets(RefundWallets(db, rows, n), payee, net), ws))
         == Sum(OfflineBalances(db.wallets, ws))
            + (if db.tokens[rows[0]].wallet in ws then Value(db.tokens, rows[n..]) else 0)
  {
    var refunded := RefundWallets(db, rows, n);
    var payer := db.tokens[rows[0]].wallet;
    if Value(db.tokens, rows[n..]) != 0 {
      OfflineShift(db.wallets, ws, payer, refunded[payer]);
    }
    assert OfflineBalances(CreditWallets(refunded, payee, net), ws) == OfflineBalances(refunded, ws);
  }

  lemma RedeemParts(db: Db, merchant: MerchantId, amount: int, code: string, payee: Option<WalletId>,
                    rows: seq<TokenId>, tx: TxId, stl: SettlementId, b: Db, n: nat)
    requires AllIn(rows, db.tokens) && rows != []
    requires b == RedeemDb(db, merchant, amount, code, payee, rows, tx, stl)
    requires n == Needed(db.tokens, rows, amount, 0)
    ensures b.tokens == Unlock(Redeem(db.tokens, rows[..n], code), rows[n..])
    ensures b.wallets == CreditWallets(RefundWallets(db, rows, n), payee, amount - Fee(amount))
    ensures b.topUps == db.topUps
  {
  }

  // b is db after the first n rows were consumed, the others freed and the payee credited.
  ghost predicate RedeemedTo(db: Db, b: Db, rows: seq<TokenId>, n: nat, code: string, payee: Option<WalletId>,
                             net: int) {
    && rows != [] && FoundBy(db.tokens, rows, code) && AllIn(rows, db.tokens) && n <= |rows|
    && b.tokens == Unlock(Redeem(db.tokens, rows[..n], code), rows[n..])
    && b.wallets == CreditWallets(RefundWallets(db, rows, n), payee, net)
    && b.topUps == db.topUps
  }

  ghost predicate IsRedeemed(db: Db, b: Db, rows: seq<TokenId>, n: nat) {
    exists code, payee, net :: RedeemedTo(db, b, rows, n, code, payee, net)
  }

  ghost predicate RefundsPayer(tokens: map<TokenId, Token>, rows: seq<TokenId>, n: nat)
    requires AllIn(rows, tokens)
  {
    forall i :: n <= i < |rows| ==> tokens[rows[i]].wallet == tokens[rows[0]].wallet
  }

  lemma BalancedRefund(db: Db, b: Db, rows: seq<TokenId>, n: nat, ws: set<WalletId>)
    requires BalanceLaw(db, ws) && TokensSafe(db) && IsRedeemed(db, b, rows, n)
    requires AllIn(rows, db.tokens) && RefundsPayer(db.tokens, rows, n)
    ensures BalanceLaw(b, ws)
  {
    var code, payee, net :| RedeemedTo(db, b, rows, n, code, payee, net);
    SplitRows(db.tokens, rows, n, code);
    RedeemedWeights(db.tokens, rows[..n], rows[n..], code, db.tokens[rows[0]].wallet, ws);
    RedeemedOffline(db, rows, n, payee, net, ws);
  }

  lemma RedeemBalances(db: Db, b: Db, rows: seq<TokenId>, n: nat, ws: set<WalletId>)
    requires BalanceLaw(db, ws) && CodesAgree(db.tokens) && TokensSafe(db) && IsRedeemed(db, b, rows, n)
    ensures BalanceLaw(b, ws)
  {
    var code, payee, net :| RedeemedTo(db, b, rows, n, code, payee, net);
    SamePayer(db.tokens, rows, code);
    BalancedRefund(db, b, rows, n, ws);
  }

  // ---------- minting ----------

  lemma {:induction false} MintedSum(m: map<TokenId, int>, minted: seq<MintedToken>, counted: bool)
    requires forall i :: 0 <= i < |minted| ==>
              minted[i].id in m && m[minted[i].id] == if counted then minted[i].denom else 0
    requires forall k :: k in MintedIds(minted) ==> k in m
    ensures SumAt(m, MintedIds(minted)) == if counted then Total(minted) else 0
    decreases |minted|
  {
    if minted == [] {
    } else {
      var n := |minted| - 1;
      assert MintedIds(minted)[..n] == MintedIds(minted[..n]);
      forall k | k in MintedIds(minted[..n]) ensures k in m {
        assert k in MintedIds(minted);
      }
      MintedSum(m, minted[..n], counted);
      Append(minted[..n], [minted[n]]);
      assert minted == minted[..n] + [minted[n]];
      OneToken(minted[n]);
    }
  }

  lemma MintedTokens(tokens: map<TokenId, Token>, wallet: WalletId, minted: seq<MintedToken>, m: map<TokenId, int>,
                     n: map<TokenId, int>, counted: bool)
    requires Distinct(MintedIds(minted)) && forall i :: 0 <= i < |minted| ==> minted[i].id !in tokens
    requires m.Keys == tokens.Keys && n.Keys == AddTokens(tokens, wallet, minted).Keys
    requires forall t :: t in m ==> t in n && n[t] == m[t]
    requires forall i :: 0 <= i < |minted| ==>
              minted[i].id in n && n[minted[i].id] == if counted then minted[i].denom else 0
    ensures Sum(n) == Sum(m) + if counted then Total(minted) else 0
  {
    AddedTokens(tokens, wallet, minted);
    forall k | k in MintedIds(minted) ensures k !in m && k in n {
      var i :| 0 <= i < |minted| && MintedIds(minted)[i] == k;
    }
    SumExtend(m, n, MintedIds(minted));
    MintedSum(n, minted, counted);
  }

  lemma MintedWeights(tokens: map<TokenId, Token>, wallet: WalletId, minted: seq<MintedToken>, ws: set<WalletId>)
    requires Distinct(MintedIds(minted)) && forall i :: 0 <= i < |minted| ==> minted[i].id !in tokens
    ensures Sum(Weights(AddTokens(tokens, wallet, minted), ws))
         == Sum(Weights(tokens, ws)) + if wallet in ws then Total(minted) else 0
  {
    AddedTokens(tokens, wallet, minted);
    MintedTokens(tokens, wallet, minted, Weights(tokens, ws), Weights(AddTokens(tokens, wallet, minted), ws),
                 wallet in ws);
  }

  lemma AddedDust(topUps: map<TopUpId, TopUp>, id: TopUpId, t: TopUp, ws: set<WalletId>)
    requires id !in topUps
    ensures Sum(Dust(topUps[id := t], ws)) == Sum(Dust(topUps, ws)) + if t.wallet in ws then t.allocation % 500 else 0
  {
    var residue := if t.wallet in ws then t.allocation % 500 else 0;
    SumInsert(Dust(topUps, ws), id, residue);
    assert Dust(topUps[id := t], ws) == Dust(topUps, ws)[id := residue];
  }

  lemma TopUpBalances(db: Db, wallet: WalletId, amount: int, allocation: int, id: TopUpId, minted: seq<MintedToken>,
                      ws: set<WalletId>)
    requires BalanceLaw(db, ws)
    requires TopUpOutcome(db, wallet, amount, allocation, id, minted) == Done
    requires Total(minted) == allocation - allocation % 500
    ensures BalanceLaw(TopUpDb(db, wallet, amount, allocation, id, minted), ws)
  {
    var w := db.wallets[wallet];
    var v := w.(online := w.online + (amount - allocation), offline := w.offline + allocation);
    AddedBalances(db, TopUpDb(db, wallet, amount, allocation, id, minted), wallet, v, id,
                  TopUp(wallet, amount, allocation), minted, ws);
  }

  lemma AddedBalances(a: Db, b: Db, wallet: WalletId, v: Wallet, id: TopUpId, t: TopUp, minted: seq<MintedToken>,
                      ws: set<WalletId>)
    requires BalanceLaw(a, ws) && wallet in a.wallets && id !in a.topUps
    requires Distinct(MintedIds(minted)) && forall i :: 0 <= i < |minted| ==> minted[i].id !in a.tokens
    requires b.wallets == a.wallets[wallet := v] && b.topUps == a.topUps[id := t]
    requires b.tokens == AddTokens(a.tokens, wallet, minted)
    requires t.wallet == wallet && v.offline == a.wallets[wallet].offline + t.allocation
    requires Total(minted) == t.allocation - t.allocation % 500
    ensures BalanceLaw(b, ws)
  {
    MintedWeights(a.tokens, wallet, minted, ws);
    OfflineShift(a.wallets, ws, wallet, v);
    AddedDust(a.topUps, id, t, ws);
  }

  // What a successful emergency settlement leaves behind, with n tokens consumed.
  lemma RedeemStepParts(w: World, s: Step, b: Db, n: nat)
    requires s.RedeemStep? && Legal(w, s) && OutcomeOf(w, s) == Done && b == Next(w, s).db
    requires n == Needed(w.db.tokens, s.rows, s.amount, 0)
    ensures RedeemedTo(w.db, b, s.rows, n, s.code, s.payee, s.amount - Fee(s.amount))
  {
    RedeemParts(w.db, s.merchant, s.amount, s.code, s.payee, s.rows, s.tx, s.stl, b, n);
  }

  lemma StatusKeepsOnlinePaid(txs: map<TxId, Tx>, x: TxId, status: TxStatus)
    requires x in txs
    ensures OnlinePaid(txs[x := txs[x].(status := status)]) == OnlinePaid(txs)
  {
  }

  lemma SyncOneTxs(db: Db, i: nat) returns (status: TxStatus)
    requires i < |db.queue|
    ensures var b, x := SyncOne(db, i), db.queue[i].tx;
            && b.wallets == db.wallets && b.tokens == db.tokens
            && b.topUps == db.topUps && b.settlements == db.settlements
            && b.txs == if x in db.txs then db.txs[x := db.txs[x].(status := status)] else db.txs
  {
    var x := db.queue[i].tx;
    if x !in db.txs {
      status := Pending;
    } else {
      status := SyncOne(db, i).txs[x].status;
      assert db.txs[x := db.txs[x].(status := db.txs[x].status)] == db.txs;
    }
  }

  lemma SyncOneKeepsRows(db: Db, i: nat, b: Db)
    requires i < |db.queue| && b == SyncOne(db, i)
    ensures b.wallets == db.wallets && b.tokens == db.tokens && b.topUps == db.topUps && b.settlements == db.settlements
    ensures OnlinePaid(b.txs) == OnlinePaid(db.txs)
  {
    var status := SyncOneTxs(db, i);
    if db.queue[i].tx in db.txs { StatusKeepsOnlinePaid(db.txs, db.queue[i].tx, status); }
  }

  lemma {:induction false} SyncKeepsRows(db: Db, due: seq<nat>, b: Db)
    requires forall j :: 0 <= j < |due| ==> due[j] < |db.queue|
    requires b == SyncAll(db, due)
    ensures b.wallets == db.wallets && b.tokens == db.tokens && b.topUps == db.topUps && b.settlements == db.settlements
    ensures OnlinePaid(b.txs) == OnlinePaid(db.txs)
    decreases |due|
  {
    if due == [] {
    } else {
      var n := |due| - 1;
      var a := SyncAll(db, due[..n]);
      SyncKeepsRows(db, due[..n], a);
      SyncOneKeepsRows(a, due[n], b);
    }
  }

  lemma SyncStepKeepsRows(w: World, s: Step, b: Db)
    requires s.SyncStep? && Legal(w, s) && b == Next(w, s).db
    ensures b.wallets == w.db.wallets && b.tokens == w.db.tokens && b.topUps == w.db.topUps
    ensures b.settlements == w.db.settlements
    ensures OnlinePaid(b.txs) == OnlinePaid(w.db.txs)
  {
    SyncKeepsRows(w.db, DueItems(w.db, s.filter, s.batch, 0), b);
  }

  lemma StepBalances(w: World, s: Step, ws: set<WalletId>)
    requires Agreed(w) && Honest(w, s) && BalanceLaw(w.db, ws) && CodesAgree(w.db.tokens)
    ensures BalanceLaw(Next(w, s).db, ws)
  {
    if s.PayOfflineStep? {
      PayOfflineStepBalances(w, s, ws);
    } else if OutcomeOf(w, s) == Done {
      match s
      case CreateWalletStep(wallet, allowance) => CreateWalletBalances(w.db, wallet, allowance, ws);
      case TopUpStep(wallet, amount, allocation, id, minted) =>
        TopUpBalances(w.db, wallet, amount, allocation, id, minted, ws);
      case PayOnlineStep(wallet, merchant, amount, tx) => PayOnlineBalances(w.db, wallet, merchant, amount, tx, ws);
      case LockStep(wallet, _, code, selected) => LockBalances(w.db, wallet, selected.value, code, ws);
      case RedeemStep(_, amount, _, _, rows, _, _) =>
        var b, n := Next(w, s).db, Needed(w.db.tokens, rows, amount, 0);
        RedeemStepParts(w, s, b, n);
        RedeemBalances(w.db, b, rows, n, ws);
      case SettleStep(p, _, _, stl) => SettleStepBalances(w, p, stl, ws);
      case SyncStep(_, _) => SyncStepKeepsRows(w, s, Next(w, s).db);
    }
  }

  lemma PayOfflineStepBalances(w: World, s: Step, ws: set<WalletId>)
    requires s.PayOfflineStep? && Legal(w, s) && BalanceLaw(w.db, ws) && CodesAgree(w.db.tokens)
    ensures BalanceLaw(Next(w, s).db, ws)
  {
    if ReachesKeys(w, s.wallet, s.amount, s.selected) && OutcomeOf(w, s) == Done {
      PayOfflineBalances(w.db, s.wallet, s.merchant, s.amount, s.tx, s.selected.value, ws);
    }
  }

  lemma PayOnlineBalances(db: Db, wallet: WalletId, merchant: MerchantId, amount: int, tx: TxId, ws: set<WalletId>)
    requires BalanceLaw(db, ws) && wallet in db.wallets
    ensures BalanceLaw(PayOnlineDb(db, wallet, merchant, amount, tx), ws)
  {
    OfflineShift(db.wallets, ws, wallet, db.wallets[wallet].(online := db.wallets[wallet].online - amount));
  }

  lemma SettleStepBalances(w: World, p: Proof, stl: SettlementId, ws: set<WalletId>)
    requires Agreed(w) && p in w.emitted && BalanceLaw(w.db, ws)
    ensures p.tx in w.db.txs && BalanceLaw(SettleDb(w.db, p, stl), ws)
  {
    forall i | 0 <= i < |p.tokens| ensures Gone(w.db.tokens, p.tokens[i]) {
      assert w.db.txs[p.tx].consumed[i] == p.tokens[i];
    }
    SettleBalances(w.db, p, stl, ws);
  }

  // ---------- codes ----------

  lemma LockCodes(db: Db, wallet: WalletId, ids: seq<TokenId>, code: string)
    requires CodesAgree(db.tokens) && Lockable(db.tokens, wallet, ids)
    requires forall t :: t in db.tokens && Carries(db.tokens, t, code) ==> db.tokens[t].wallet == wallet
    ensures CodesAgree(Lock(db.tokens, ids, code))
  {
    var b := Lock(db.tokens, ids, code);
    forall t, u | t in b && u in b && HaveSameCode(b[t], b[u]) ensures b[t].wallet == b[u].wallet {
      if t in ids || u in ids {
        assert b[t].otp == Live(code) && b[u].otp == Live(code);
        assert t !in ids ==> Carries(db.tokens, t, code);
        assert u !in ids ==> Carries(db.tokens, u, code);
      } else {
        assert HaveSameCode(db.tokens[t], db.tokens[u]);
      }
    }
  }

  // Fewer tokens carry live codes, and those that do carry the same codes.
  lemma CodesThinned(a: map<TokenId, Token>, b: map<TokenId, Token>)
    requires CodesAgree(a) && a.Keys <= b.Keys
    requires forall t :: t in a ==> b[t].wallet == a[t].wallet
    requires forall t :: t in b && b[t].status == Minted && b[t].otp.Live? ==>
              t in a && a[t].status == Minted && a[t].otp == b[t].otp
    requires forall t :: t in b && b[t].otp.Redeemed? ==> Gone(b, t)
    ensures CodesAgree(b)
  {
    forall t, u | t in b && u in b && HaveSameCode(b[t], b[u]) ensures b[t].wallet == b[u].wallet {
      assert HaveSameCode(a[t], a[u]);
    }
  }

  lemma StepCodes(w: World, s: Step)
    requires CodesAgree(w.db.tokens) && Honest(w, s) && Safe(w)
    ensures CodesAgree(Next(w, s).db.tokens)
  {
    if s.PayOfflineStep? {
      PayOfflineCodes(w, s);
    } else if OutcomeOf(w, s) == Done {
      match s
      case CreateWalletStep(_, _) =>
      case TopUpStep(wallet, _, _, _, minted) => TopUpCodes(w.db.tokens, wallet, minted);
      case PayOnlineStep(_, _, _, _) =>
      case LockStep(wallet, _, code, selected) => LockCodes(w.db, wallet, selected.value, code);
      case RedeemStep(_, amount, code, _, rows, _, _) =>
        var n := Needed(w.db.tokens, rows, amount, 0);
        RedeemStepParts(w, s, Next(w, s).db, n);
        RedeemCodes(w.db.tokens, rows, n, code);
      case SettleStep(p, _, _, _) => SettleCodes(w.db.tokens, p.tokens);
      case SyncStep(_, _) => SyncStepKeepsRows(w, s, Next(w, s).db);
    }
  }

  lemma PayOfflineCodes(w: World, s: Step)
    requires CodesAgree(w.db.tokens) && s.PayOfflineStep? && Legal(w, s)
    ensures CodesAgree(Next(w, s).db.tokens)
  {
    CodesThinned(w.db.tokens, Next(w, s).db.tokens);
  }

  lemma SettleCodes(tokens: map<TokenId, Token>, ids: seq<TokenId>)
    requires CodesAgree(tokens)
    ensures CodesAgree(Settle(tokens, ids))
  {
    CodesThinned(tokens, Settle(tokens, ids));
  }

  lemma TopUpCodes(tokens: map<TokenId, Token>, wallet: WalletId, minted: seq<MintedToken>)
    requires CodesAgree(tokens) && Distinct(MintedIds(minted))
    requires forall i :: 0 <= i < |minted| ==> minted[i].id !in tokens
    ensures CodesAgree(AddTokens(tokens, wallet, minted))
  {
    var b := AddTokens(tokens, wallet, minted);
    AddedTokens(tokens, wallet, minted);
    forall t | t in b && t !in tokens ensures b[t].otp == NoCode {
      var i :| 0 <= i < |minted| && MintedIds(minted)[i] == t;
    }
    CodesThinned(tokens, b);
  }

  lemma RedeemCodes(tokens: map<TokenId, Token>, rows: seq<TokenId>, n: nat, code: string)
    requires CodesAgree(tokens) && n <= |rows| && FoundBy(tokens, rows, code)
    ensures CodesAgree(Unlock(Redeem(tokens, rows[..n], code), rows[n..]))
  {
    CodesThinned(tokens, Unlock(Redeem(tokens, rows[..n], code), rows[n..]));
  }

  // ---------- the token law ----------

  lemma TopUpTokens(db: Db, wallet: WalletId, amount: int, allocation: int, id: TopUpId, minted: seq<MintedToken>)
    requires TokenLaw(db) && TopUpOutcome(db, wallet, amount, allocation, id, minted) == Done
    requires Total(minted) == allocation - allocation % 500
    ensures TokenLaw(TopUpDb(db, wallet, amount, allocation, id, minted))
  {
    var b := TopUpDb(db, wallet, amount, allocation, id, minted);
    MintedDenoms(db.tokens, wallet, minted);
    AddedAllocation(db.topUps, id, TopUp(wallet, amount, allocation));
    AddedResidue(db.topUps, id, TopUp(wallet, amount, allocation));
  }

  lemma MintedDenoms(tokens: map<TokenId, Token>, wallet: WalletId, minted: seq<MintedToken>)
    requires Distinct(MintedIds(minted)) && forall i :: 0 <= i < |minted| ==> minted[i].id !in tokens
    ensures Sum(Denoms(AddTokens(tokens, wallet, minted))) == Sum(Denoms(tokens)) + Total(minted)
  {
    AddedTokens(tokens, wallet, minted);
    MintedTokens(tokens, wallet, minted, Denoms(tokens), Denoms(AddTokens(tokens, wallet, minted)), true);
  }

  lemma AddedAllocation(topUps: map<TopUpId, TopUp>, id: TopUpId, t: TopUp)
    requires id !in topUps
    ensures Sum(Allocations(topUps[id := t])) == Sum(Allocations(topUps)) + t.allocation
  {
    SumInsert(Allocations(topUps), id, t.allocation);
    assert Allocations(topUps[id := t]) == Allocations(topUps)[id := t.allocation];
  }

  lemma AddedResidue(topUps: map<TopUpId, TopUp>, id: TopUpId, t: TopUp)
    requires id !in topUps
    ensures Sum(Residues(topUps[id := t])) == Sum(Residues(topUps)) + t.allocation % 500
  {
    SumInsert(Residues(topUps), id, t.allocation % 500);
    assert Residues(topUps[id := t]) == Residues(topUps)[id := t.allocation % 500];
  }

  lemma AddedOnlinePart(topUps: map<TopUpId, TopUp>, id: TopUpId, t: TopUp)
    requires id !in topUps
    ensures Sum(OnlineParts(topUps[id := t])) == Sum(OnlineParts(topUps)) + t.amount - t.allocation
  {
    SumInsert(OnlineParts(topUps), id, t.amount - t.allocation);
    assert OnlineParts(topUps[id := t]) == OnlineParts(topUps)[id := t.amount - t.allocation];
  }

  // Outside top-ups no token is added and no denomination changes.
  lemma StepTokens(w: World, s: Step)
    requires Safe(w) && Legal(w, s) && TokenLaw(w.db)
    ensures TokenLaw(Next(w, s).db)
  {
    if s.TopUpStep? {
      if OutcomeOf(w, s) == Done { TopUpTokens(w.db, s.wallet, s.amount, s.allocation, s.id, s.minted); }
    } else {
      StepIsSafe(w, s);
      StepKeepsTokenSet(w, s);
      assert Denoms(Next(w, s).db.tokens) == Denoms(w.db.tokens);
    }
  }

  lemma StepKeepsTokenSet(w: World, s: Step)
    requires Legal(w, s) && !s.TopUpStep?
    ensures Next(w, s).db.tokens.Keys == w.db.tokens.Keys && Next(w, s).db.topUps == w.db.topUps
  {
    if s.SyncStep? { SyncStepKeepsRows(w, s, Next(w, s).db); }
  }

  // ---------- the online law ----------

  lemma AddedTx(txs: map<TxId, Tx>, x: TxId, tx: Tx)
    requires x !in txs
    ensures Sum(OnlinePaid(txs[x := tx])) == Sum(OnlinePaid(txs)) + if tx.mode == Online then tx.amount else 0
  {
    var paid := if tx.mode == Online then tx.amount else 0;
    SumInsert(OnlinePaid(txs), x, paid);
    assert OnlinePaid(txs[x := tx]) == OnlinePaid(txs)[x := paid];
  }

  lemma RefundKeepsOnline(db: Db, rows: seq<TokenId>, n: nat)
    requires AllIn(rows, db.tokens) && n <= |rows|
    ensures OnlineBalances(RefundWallets(db, rows, n)) == OnlineBalances(db.wallets)
    ensures RefundWallets(db, rows, n).Keys == db.wallets.Keys
  {
  }

  lemma CreditedOnline(wallets: map<WalletId, Wallet>, payee: Option<WalletId>, net: int)
    ensures Sum(OnlineBalances(CreditWallets(wallets, payee, net)))
         == Sum(OnlineBalances(wallets)) + if payee.Some? && payee.value in wallets then net else 0
  {
    if payee.Some? && payee.value in wallets {
      OnlineShift(wallets, payee.value, wallets[payee.value].(online := wallets[payee.value].online + net));
    }
  }

  lemma CreateWalletOnline(w: World, wallet: WalletId, allowance: int)
    requires OnlineLaw(w) && wallet !in w.db.wallets
    ensures OnlineLaw(w.(db := w.db.(wallets := w.db.wallets[wallet := Wallet(0, 0, allowance)])))
  {
    var m := OnlineBalances(w.db.wallets);
    SumInsert(m, wallet, 0);
    assert OnlineBalances(w.db.wallets[wallet := Wallet(0, 0, allowance)]) == m[wallet := 0];
  }

  lemma TopUpOnline(w: World, wallet: WalletId, amount: int, allocation: int, id: TopUpId, minted: seq<MintedToken>)
    requires OnlineLaw(w) && TopUpOutcome(w.db, wallet, amount, allocation, id, minted) == Done
    ensures OnlineLaw(w.(db := TopUpDb(w.db, wallet, amount, allocation, id, minted)))
  {
    var v := w.db.wallets[wallet];
    OnlineShift(w.db.wallets, wallet,
                v.(online := v.online + (amount - allocation), offline := v.offline + allocation));
    AddedOnlinePart(w.db.topUps, id, TopUp(wallet, amount, allocation));
  }

  lemma PayOnlineOnline(w: World, wallet: WalletId, merchant: MerchantId, amount: int, tx: TxId)
    requires OnlineLaw(w) && wallet in w.db.wallets && tx !in w.db.txs
    ensures OnlineLaw(w.(db := PayOnlineDb(w.db, wallet, merchant, amount, tx)))
  {
    var v := w.db.wallets[wallet];
    OnlineShift(w.db.wallets, wallet, v.(online := v.online - amount));
    AddedTx(w.db.txs, tx, Tx(wallet, merchant, Online, Succeeded, amount, []));
  }

  lemma OfflineKeepsOnline(wallets: map<WalletId, Wallet>, wallet: WalletId, offline: int)
    requires wallet in wallets
    ensures OnlineBalances(wallets[wallet := wallets[wallet].(offline := offline)]) == OnlineBalances(wallets)
  {
  }

  lemma PayOfflineOnline(w: World, s: Step)
    requires OnlineLaw(w) && s.PayOfflineStep? && Legal(w, s)
    ensures OnlineLaw(Next(w, s))
  {
    if ReachesKeys(w, s.wallet, s.amount, s.selected) && OutcomeOf(w, s) == Done {
      var ids := s.selected.value;
      OfflineKeepsOnline(w.db.wallets, s.wallet, w.db.wallets[s.wallet].offline - Value(w.db.tokens, ids));
      AddedTx(w.db.txs, s.tx, Tx(s.wallet, s.merchant, Offline, Pending, s.amount, ids));
    }
  }

  // The rows that an emergency settlement adds besides the tokens.
  lemma RedeemStepRows(w: World, s: Step, b: World)
    requires s.RedeemStep? && Legal(w, s) && OutcomeOf(w, s) == Done && b == Next(w, s)
    ensures s.rows != [] && s.rows[0] in w.db.tokens && s.tx !in w.db.txs
    ensures b.db.txs
         == w.db.txs[s.tx := Tx(w.db.tokens[s.rows[0]].wallet, s.merchant, Offline, Succeeded, s.amount, [])]
    ensures b.credited == w.credited + Credit(w.db, s.amount, s.payee)
  {
  }

  lemma RedeemedOnlineBalances(db: Db, b: Db, rows: seq<TokenId>, n: nat, code: string, payee: Option<WalletId>,
                               amount: int)
    requires RedeemedTo(db, b, rows, n, code, payee, amount - Fee(amount))
    ensures Sum(OnlineBalances(b.wallets)) == Sum(OnlineBalances(db.wallets)) + Credit(db, amount, payee)
  {
    RefundKeepsOnline(db, rows, n);
    CreditedOnline(RefundWallets(db, rows, n), payee, amount - Fee(amount));
  }

  lemma RedeemOnline(w: World, s: Step, b: World, n: nat)
    requires OnlineLaw(w) && s.RedeemStep? && Legal(w, s) && OutcomeOf(w, s) == Done && b == Next(w, s)
    requires n == Needed(w.db.tokens, s.rows, s.amount, 0)
    ensures OnlineLaw(b)
  {
    RedeemStepParts(w, s, b.db, n);
    RedeemStepRows(w, s, b);
    RedeemedOnlineBalances(w.db, b.db, s.rows, n, s.code, s.payee, s.amount);
    AddedTx(w.db.txs, s.tx, b.db.txs[s.tx]);
  }

  lemma SettleOnline(w: World, p: Proof, stl: SettlementId)
    requires OnlineLaw(w) && p.tx in w.db.txs
    ensures OnlineLaw(w.(db := SettleDb(w.db, p, stl)))
  {
    StatusKeepsOnlinePaid(w.db.txs, p.tx, Succeeded);
  }

  lemma StepOnline(w: World, s: Step)
    requires OnlineLaw(w) && Legal(w, s)
    ensures OnlineLaw(Next(w, s))
  {
    if s.PayOfflineStep? {
      PayOfflineOnline(w, s);
    } else if OutcomeOf(w, s) == Done {
      match s
      case CreateWalletStep(wallet, allowance) => CreateWalletOnline(w, wallet, allowance);
      case TopUpStep(wallet, amount, allocation, id, minted) => TopUpOnline(w, wallet, amount, allocation, id, minted);
      case PayOnlineStep(wallet, merchant, amount, tx) => PayOnlineOnline(w, wallet, merchant, amount, tx);
      case LockStep(wallet, _, _, selected) =>
        OfflineKeepsOnline(w.db.wallets, wallet, w.db.wallets[wallet].offline - Value(w.db.tokens, selected.value));
      case RedeemStep(_, amount, _, _, rows, _, _) =>
        RedeemOnline(w, s, Next(w, s), Needed(w.db.tokens, rows, amount, 0));
      case SettleStep(p, _, _, stl) => SettleOnline(w, p, stl);
      case SyncStep(_, _) => SyncStepKeepsRows(w, s, Next(w, s).db);
    }
  }
}
