// Every request, seen from outside: exactly when it goes through, why it is refused otherwise, and
// which rows it adds or changes while all others stay as they were.

module Requests {
  import opened Lists
  import opened Coins
  import opened KeyRecords
  import opened LedgerState
  import opened LedgerSteps
  import opened LedgerSafety
  import opened LedgerBooks
  import opened LedgerSolvency
  import opened LedgerRuns
  import opened EmergencyCodes

  // ---------- rows ----------

  // Row k is new, and no other row changes.
  ghost predicate NewRow<K, V>(a: map<K, V>, b: map<K, V>, k: K) {
    k !in a && b.Keys == a.Keys + {k} && forall j :: j in a ==> b[j] == a[j]
  }

  // The balances of one wallet move; all else about wallets stays.
  ghost predicate Moves(a: map<WalletId, Wallet>, b: map<WalletId, Wallet>, id: WalletId, online: int, offline: int) {
    && a.Keys == b.Keys
    && forall u :: u in a ==>
         && b[u].allowance == a[u].allowance
         && b[u].online == a[u].online + (if u == id then online else 0)
         && b[u].offline == a[u].offline + (if u == id then offline else 0)
  }

  // Only the tokens in ids change.
  ghost predicate OthersStay(a: map<TokenId, Token>, b: map<TokenId, Token>, ids: seq<TokenId>) {
    a.Keys == b.Keys && forall t :: t in a && t !in ids ==> b[t] == a[t]
  }

  // A refused request changes nothing, except that a payment may have used up keys.
  lemma RefusalsChangeNothing(w: World, s: Step)
    requires Legal(w, s) && OutcomeOf(w, s) != Done
    ensures Next(w, s).(keys := w.keys) == w
    ensures Next(w, s) != w ==> s.PayOfflineStep? && ReachesKeys(w, s.wallet, s.amount, s.selected)
  {
  }

  // ---------- wallets and top-ups ----------

  lemma WalletIsCreated(w: World, s: Step)
    requires s.CreateWalletStep? && Legal(w, s)
    ensures OutcomeOf(w, s) == Done <==> s.wallet !in w.db.wallets
    ensures OutcomeOf(w, s) == Done ==>
              var b := Next(w, s);
              && NewRow(w.db.wallets, b.db.wallets, s.wallet) && b.db.wallets[s.wallet] == Wallet(0, 0, s.allowance)
              && b == w.(db := w.db.(wallets := b.db.wallets))
  {
  }

  lemma TopUpAnswers(w: World, s: Step)
    requires s.TopUpStep? && Legal(w, s)
    ensures OutcomeOf(w, s) == Refused(WalletNotFound) <==> s.wallet !in w.db.wallets
    ensures s.wallet in w.db.wallets ==>
              var v := w.db.wallets[s.wallet];
              var unused := && s.id !in w.db.topUps && Distinct(MintedIds(s.minted))
                            && forall t :: t in MintedIds(s.minted) ==> t !in w.db.tokens;
              && (OutcomeOf(w, s) == Refused(AllowanceExceeded) <==> v.offline + s.allocation > v.allowance)
              && (OutcomeOf(w, s) == Done <==> v.offline + s.allocation <= v.allowance && unused)
              && (OutcomeOf(w, s) == Refused(IntegrityError) <==> v.offline + s.allocation <= v.allowance && !unused)
  {
    forall i | 0 <= i < |s.minted| ensures MintedIds(s.minted)[i] == s.minted[i].id { }
  }

  lemma TopUpAdds(w: World, s: Step)
    requires s.TopUpStep? && Legal(w, s) && OutcomeOf(w, s) == Done
    ensures var a, b := w.db, Next(w, s).db;
            && Moves(a.wallets, b.wallets, s.wallet, s.amount - s.allocation, s.allocation)
            && NewRow(a.topUps, b.topUps, s.id) && b.topUps[s.id] == TopUp(s.wallet, s.amount, s.allocation)
            && Added(a.tokens, b.tokens, s.wallet, s.minted)
            && Next(w, s) == w.(db := a.(wallets := b.wallets, topUps := b.topUps, tokens := b.tokens))
  {
    AddedTokens(w.db.tokens, s.wallet, s.minted);
  }

  // ---------- payments ----------

  lemma OnlinePaymentAnswers(w: World, s: Step)
    requires s.PayOnlineStep? && Legal(w, s)
    ensures OutcomeOf(w, s) == Refused(WalletNotFound) <==> s.wallet !in w.db.wallets
    ensures s.wallet in w.db.wallets ==>
              var balance := w.db.wallets[s.wallet].online;
              && (OutcomeOf(w, s) == Refused(InsufficientFunds) <==> s.amount > balance)
              && (OutcomeOf(w, s) == Done <==> s.amount <= balance && s.tx !in w.db.txs)
              && (OutcomeOf(w, s) == Refused(IntegrityError) <==> s.amount <= balance && s.tx in w.db.txs)
  {
  }

  lemma OnlinePaymentMoves(w: World, s: Step)
    requires s.PayOnlineStep? && Legal(w, s) && OutcomeOf(w, s) == Done
    ensures var a, b := w.db, Next(w, s).db;
            && Moves(a.wallets, b.wallets, s.wallet, -s.amount, 0)
            && NewRow(a.txs, b.txs, s.tx)
            && b.txs[s.tx] == Tx(s.wallet, s.merchant, Online, Succeeded, s.amount, [])
            && Next(w, s) == w.(db := a.(wallets := b.wallets, txs := b.txs))
  {
  }

  lemma OfflinePaymentAnswers(w: World, s: Step)
    requires s.PayOfflineStep? && Legal(w, s)
    ensures OutcomeOf(w, s) == Refused(WalletNotFound) <==> s.wallet !in w.db.wallets
    ensures s.wallet in w.db.wallets ==>
              var balance := w.db.wallets[s.wallet].offline;
              OutcomeOf(w, s) == Refused(InsufficientFunds) <==> s.amount > balance || s.selected.None?
    ensures s.wallet in w.db.wallets && s.selected.Some? && s.amount <= w.db.wallets[s.wallet].offline ==>
              var ids, balance := s.selected.value, w.db.wallets[s.wallet].offline;
              var keys := forall t :: t in ids ==> KeyOf(t) !in w.keys.destroyed;
              && AllIn(ids, w.db.tokens)
              && (OutcomeOf(w, s) == Refused(TokenSpendFailed) <==> !keys)
              && (OutcomeOf(w, s) == Done <==> keys && Value(w.db.tokens, ids) <= balance && s.tx !in w.db.txs)
              && (OutcomeOf(w, s) == Refused(IntegrityError) <==>
                    keys && (Value(w.db.tokens, ids) > balance || s.tx in w.db.txs))
  {
    if s.selected.Some? { KeysSuffice(w.keys, s.selected.value); }
  }

  lemma OfflinePaymentMoves(w: World, s: Step)
    requires s.PayOfflineStep? && Legal(w, s) && OutcomeOf(w, s) == Done
    ensures s.selected.Some? && AllIn(s.selected.value, w.db.tokens)
    ensures var a, b, ids := w.db, Next(w, s).db, s.selected.value;
            && Moves(a.wallets, b.wallets, s.wallet, 0, -(Value(a.tokens, ids) as int))
            && OthersStay(a.tokens, b.tokens, ids)
            && (forall t :: t in ids ==>
                  t in a.tokens && b.tokens[t] == a.tokens[t].(status := Spent, spentIn := Some(s.tx)))
            && NewRow(a.txs, b.txs, s.tx)
            && b.txs[s.tx] == Tx(s.wallet, s.merchant, Offline, Pending, s.amount, ids)
            && b.queue == a.queue + [SyncItem(s.tx, Queued, 0)]
            && Next(w, s).emitted == w.emitted + {Proof(s.tx, s.merchant, s.amount, ids)}
            && b.registry == a.registry && b.settlements == a.settlements && b.topUps == a.topUps
            && Next(w, s).credited == w.credited
  {
    forall t | t in s.selected.value ensures t in w.db.tokens {
      var i :| 0 <= i < |s.selected.value| && s.selected.value[i] == t;
    }
  }

  // The keys of the picked tokens sign and are destroyed in order, up to the first destroyed before.
  lemma OfflinePaymentKeys(w: World, s: Step) returns (n: nat)
    requires s.PayOfflineStep? && Legal(w, s)
    ensures !ReachesKeys(w, s.wallet, s.amount, s.selected) ==> Next(w, s).keys == w.keys
    ensures ReachesKeys(w, s.wallet, s.amount, s.selected) ==>
              StopsAt(w.keys, s.selected.value, n) && Next(w, s).keys == KeysUsed(w.keys, s.selected.value[..n])
  {
    n := 0;
    if ReachesKeys(w, s.wallet, s.amount, s.selected) { n := SpendsInOrder(w.keys, s.selected.value); }
  }

  // ---------- emergency codes ----------

  lemma CodeAnswers(w: World, s: Step)
    requires s.LockStep? && Legal(w, s)
    ensures OutcomeOf(w, s) == Refused(WalletNotFound) <==> s.wallet !in w.db.wallets
    ensures s.wallet in w.db.wallets ==>
              var balance := w.db.wallets[s.wallet].offline;
              OutcomeOf(w, s) == Refused(InsufficientFunds) <==> s.amount > balance || s.selected.None?
    ensures s.wallet in w.db.wallets && s.selected.Some? && s.amount <= w.db.wallets[s.wallet].offline ==>
              var balance := w.db.wallets[s.wallet].offline;
              && AllIn(s.selected.value, w.db.tokens)
              && (OutcomeOf(w, s) == Done <==> Value(w.db.tokens, s.selected.value) <= balance)
              && (OutcomeOf(w, s) == Refused(IntegrityError) <==> Value(w.db.tokens, s.selected.value) > balance)
  {
  }

  lemma CodeLocks(w: World, s: Step)
    requires s.LockStep? && Legal(w, s) && OutcomeOf(w, s) == Done
    ensures s.selected.Some? && AllIn(s.selected.value, w.db.tokens)
    ensures var a, b, ids := w.db, Next(w, s).db, s.selected.value;
            && Moves(a.wallets, b.wallets, s.wallet, 0, -(Value(a.tokens, ids) as int))
            && OthersStay(a.tokens, b.tokens, ids)
            && (forall t :: t in ids ==> t in a.tokens && b.tokens[t] == a.tokens[t].(otp := Live(s.code)))
            && Next(w, s) == w.(db := a.(wallets := b.wallets, tokens := b.tokens))
  {
    forall t | t in s.selected.value ensures t in w.db.tokens {
      var i :| 0 <= i < |s.selected.value| && s.selected.value[i] == t;
    }
  }

  lemma RedemptionAnswers(w: World, s: Step)
    requires s.RedeemStep? && Legal(w, s)
    ensures AllIn(s.rows, w.db.tokens)
    ensures OutcomeOf(w, s) == Refused(InvalidCode) <==> forall t :: !Carries(w.db.tokens, t, s.code)
    ensures OutcomeOf(w, s) == Refused(InsufficientFunds) <==> s.rows != [] && Value(w.db.tokens, s.rows) < s.amount
    ensures OutcomeOf(w, s) == Refused(IntegrityError) ==> s.rows != [] && Value(w.db.tokens, s.rows) >= s.amount
    ensures OutcomeOf(w, s) in {Done, Refused(InvalidCode), Refused(InsufficientFunds), Refused(IntegrityError)}
  {
    FoundAreCarriers(w.db.tokens, s.rows, s.code);
    assert s.rows != [] ==> s.rows[0] in s.rows;
  }

  lemma RedemptionAccepts(w: World, s: Step, n: nat, payer: WalletId)
    requires Safe(w) && s.RedeemStep? && Legal(w, s) && s.rows != [] && Value(w.db.tokens, s.rows) >= s.amount
    requires n == Needed(w.db.tokens, s.rows, s.amount, 0) && payer == w.db.tokens[s.rows[0]].wallet
    ensures payer in w.db.wallets
    ensures OutcomeOf(w, s) == Done <==>
              && FreshIds(w.db, s.tx, s.stl)
              && w.db.wallets[payer].offline + Value(w.db.tokens, s.rows[n..]) <= w.db.wallets[payer].allowance
  {
    RedeemNeverCollides(w.db, s.code, s.rows);
    RefundChecked(w.db, s.rows, n, payer);
  }

  lemma RedemptionRegisters(w: World, s: Step, b: Db, n: nat)
    requires s.RedeemStep? && Legal(w, s) && OutcomeOf(w, s) == Done && b == Next(w, s).db
    requires n == Needed(w.db.tokens, s.rows, s.amount, 0)
    ensures n <= |s.rows|
    ensures forall t :: t in b.registry <==> t in w.db.registry || t in s.rows[..n]
    ensures forall t :: t in b.registry ==>
              b.registry[t] == if t in s.rows[..n] then Spend(s.tx, Some(s.stl)) else w.db.registry[t]
  {
    RedeemedRows(w, s, b, n);
    RegisteredRows(w.db.registry, s.rows[..n], Spend(s.tx, Some(s.stl)));
  }

  lemma RedemptionRecords(w: World, s: Step, b: Db)
    requires s.RedeemStep? && Legal(w, s) && OutcomeOf(w, s) == Done && b == Next(w, s).db
    ensures s.rows != [] && s.rows[0] in w.db.tokens
    ensures NewRow(w.db.txs, b.txs, s.tx)
    ensures b.txs[s.tx] == Tx(w.db.tokens[s.rows[0]].wallet, s.merchant, Offline, Succeeded, s.amount, [])
  {
    RedeemStepRows(w, s, Next(w, s));
  }

  lemma RedemptionSettles(w: World, s: Step, b: Db)
    requires s.RedeemStep? && Legal(w, s) && OutcomeOf(w, s) == Done && b == Next(w, s).db
    ensures NewRow(w.db.settlements, b.settlements, s.stl)
    ensures b.settlements[s.stl] == Settlement(s.tx, s.merchant, s.amount, Fee(s.amount), s.amount - Fee(s.amount))
  {
    RedemptionIsNew(w, s);
    RedeemFees(w, s, b);
  }

  lemma RedemptionIsNew(w: World, s: Step)
    requires s.RedeemStep? && Legal(w, s) && OutcomeOf(w, s) == Done
    ensures s.tx !in w.db.txs && s.stl !in w.db.settlements
  {
  }

  lemma RedemptionLeaves(w: World, s: Step, b: World)
    requires s.RedeemStep? && Legal(w, s) && OutcomeOf(w, s) == Done && b == Next(w, s)
    ensures b.db.queue == w.db.queue && b.db.topUps == w.db.topUps && b.keys == w.keys && b.emitted == w.emitted
  {
  }

  lemma RegisteredRows(registry: map<TokenId, Spend>, ids: seq<TokenId>, spend: Spend)
    ensures var r := Register(registry, ids, spend);
            && (forall t :: t in r <==> t in registry || t in ids)
            && forall t :: t in r ==> r[t] == if t in ids then spend else registry[t]
  {
  }

  // The payee's online balance grows by the net amount, if there is such a wallet.
  ghost predicate OnlyCredits(a: map<WalletId, Wallet>, b: map<WalletId, Wallet>, payee: Option<WalletId>, net: int) {
    && a.Keys == b.Keys
    && forall u :: u in a ==>
         && b[u].allowance == a[u].allowance
         && b[u].online == a[u].online + if payee == Some(u) then net else 0
  }

  lemma RedemptionCredits(w: World, s: Step, b: Db, n: nat)
    requires s.RedeemStep? && Legal(w, s) && OutcomeOf(w, s) == Done && b == Next(w, s).db
    requires n == Needed(w.db.tokens, s.rows, s.amount, 0)
    ensures OnlyCredits(w.db.wallets, b.wallets, s.payee, s.amount - Fee(s.amount))
  {
    var net := s.amount - Fee(s.amount);
    RedeemedWallets(w, s, b, n, net);
    RefundsOffline(w.db, s.rows, n);
    CreditsOnline(RefundWallets(w.db, s.rows, n), s.payee, net);
  }

  lemma RedeemedWallets(w: World, s: Step, b: Db, n: nat, net: int)
    requires s.RedeemStep? && Legal(w, s) && OutcomeOf(w, s) == Done && b == Next(w, s).db
    requires n == Needed(w.db.tokens, s.rows, s.amount, 0) && net == s.amount - Fee(s.amount)
    ensures n <= |s.rows| && b.wallets == CreditWallets(RefundWallets(w.db, s.rows, n), s.payee, net)
  {
    WalletsOfRedeemDb(w.db, s.merchant, s.amount, s.code, s.payee, s.rows, s.tx, s.stl, n, net);
  }

  lemma WalletsOfRedeemDb(db: Db, merchant: MerchantId, amount: int, code: string, payee: Option<WalletId>,
                          rows: seq<TokenId>, tx: TxId, stl: SettlementId, n: nat, net: int)
    requires AllIn(rows, db.tokens) && rows != []
    requires n == Needed(db.tokens, rows, amount, 0) && net == amount - Fee(amount)
    ensures RedeemDb(db, merchant, amount, code, payee, rows, tx, stl).wallets
         == CreditWallets(RefundWallets(db, rows, n), payee, net)
  {
  }

  lemma RefundsOffline(db: Db, rows: seq<TokenId>, n: nat)
    requires AllIn(rows, db.tokens) && n <= |rows|
    ensures OnlyCredits(db.wallets, RefundWallets(db, rows, n), None, 0)
  {
  }

  lemma CreditsOnline(wallets: map<WalletId, Wallet>, payee: Option<WalletId>, net: int)
    ensures OnlyCredits(wallets, CreditWallets(wallets, payee, net), payee, net)
  {
  }

  // ---------- proof settlement ----------

  ghost predicate IsAcceptable(db: Db, t: TokenId) { t != "" && t !in db.registry }

  // Token i is the first that settlement stops at.
  ghost predicate FirstBad(db: Db, ids: seq<TokenId>, i: int) {
    0 <= i < |ids| && !IsAcceptable(db, ids[i]) && forall j :: 0 <= j < i ==> IsAcceptable(db, ids[j])
  }

  ghost predicate AllAcceptable(db: Db, ids: seq<TokenId>) {
    forall j :: 0 <= j < |ids| ==> IsAcceptable(db, ids[j])
  }

  lemma {:induction false} ProblemAt(db: Db, ids: seq<TokenId>) returns (i: int)
    ensures FirstBad(db, ids, i) || (i == |ids| && AllAcceptable(db, ids))
    ensures FirstProblem(db.registry, ids) == if i == |ids| then Done
                                              else if ids[i] == "" then Refused(MalformedProof)
                                              else Refused(DoubleSpend)
    decreases |ids|
  {
    if ids == [] || !IsAcceptable(db, ids[0]) {
      i := 0;
    } else {
      var m := ProblemAt(db, ids[1..]);
      i := m + 1;
      forall j | 0 < j < |ids| ensures ids[j] == ids[1..][j - 1] { }
    }
  }

  lemma ProblemIsFirstBad(db: Db, ids: seq<TokenId>)
    ensures FirstProblem(db.registry, ids) == Done <==> AllAcceptable(db, ids)
    ensures FirstProblem(db.registry, ids) == Refused(MalformedProof) <==>
              exists i :: FirstBad(db, ids, i) && ids[i] == ""
    ensures FirstProblem(db.registry, ids) == Refused(DoubleSpend) <==>
              exists i :: FirstBad(db, ids, i) && ids[i] != ""
  {
    var m := ProblemAt(db, ids);
    forall i | FirstBad(db, ids, i) ensures i == m { }
  }

  // A proof goes through exactly if it is submitted by the merchant it names, in time, with distinct
  // known tokens that no registry row names, for a payment on record and under a new id.
  lemma SettlementAccepts(w: World, s: Step)
    requires s.SettleStep?
    ensures OutcomeOf(w, s) == Done <==>
              && s.merchant == s.proof.merchant && !s.expired
              && Distinct(s.proof.tokens)
              && (forall t :: t in s.proof.tokens ==> t != "" && t in w.db.tokens && t !in w.db.registry)
              && s.proof.tx in w.db.txs && s.stl !in w.db.settlements
  {
    var ids := s.proof.tokens;
    NoneRegistered(w.db.registry, ids);
    forall i | 0 <= i < |ids| ensures ids[i] in ids { }
  }

  lemma SettlementRefuses(w: World, s: Step)
    requires s.SettleStep?
    ensures OutcomeOf(w, s) == Refused(MerchantMismatch) <==> s.merchant != s.proof.merchant
    ensures OutcomeOf(w, s) == Refused(ProofExpired) <==> s.merchant == s.proof.merchant && s.expired
    ensures OutcomeOf(w, s) == Refused(MalformedProof) <==>
              && s.merchant == s.proof.merchant && !s.expired
              && exists i :: FirstBad(w.db, s.proof.tokens, i) && s.proof.tokens[i] == ""
    ensures OutcomeOf(w, s) == Refused(DoubleSpend) <==>
              && s.merchant == s.proof.merchant && !s.expired
              && exists i :: FirstBad(w.db, s.proof.tokens, i) && s.proof.tokens[i] != ""
    ensures OutcomeOf(w, s) != Done ==> Next(w, s) == w
  {
    ProblemIsFirstBad(w.db, s.proof.tokens);
    SettlementProblem(w, s, FirstProblem(w.db.registry, s.proof.tokens));
  }

  lemma SettlementProblem(w: World, s: Step, problem: Outcome)
    requires s.SettleStep? && problem == FirstProblem(w.db.registry, s.proof.tokens)
    ensures s.merchant != s.proof.merchant ==> OutcomeOf(w, s) == Refused(MerchantMismatch)
    ensures s.merchant == s.proof.merchant && s.expired ==> OutcomeOf(w, s) == Refused(ProofExpired)
    ensures s.merchant == s.proof.merchant && !s.expired ==>
              if problem != Done then OutcomeOf(w, s) == problem
              else OutcomeOf(w, s) == Done || OutcomeOf(w, s) == Refused(IntegrityError)
    ensures OutcomeOf(w, s) != Done ==> Next(w, s) == w
    ensures problem == Done || problem == Refused(MalformedProof) || problem == Refused(DoubleSpend)
  {
    var m := ProblemAt(w.db, s.proof.tokens);
  }

  lemma SettlementAdds(w: World, s: Step, b: Db)
    requires s.SettleStep? && OutcomeOf(w, s) == Done && b == Next(w, s).db
    ensures var a, p := w.db, s.proof;
            && (forall t :: t in b.registry <==> t in a.registry || t in p.tokens)
            && (forall t :: t in b.registry ==>
                  b.registry[t] == if t in p.tokens then Spend(p.tx, Some(s.stl)) else a.registry[t])
            && OthersStay(a.tokens, b.tokens, p.tokens)
            && (forall t :: t in p.tokens && t in a.tokens ==> b.tokens[t] == a.tokens[t].(status := Settled))
            && p.tx in a.txs && b.txs.Keys == a.txs.Keys
            && (forall x :: x in a.txs ==> b.txs[x] == if x == p.tx then a.txs[x].(status := Succeeded) else a.txs[x])
            && NewRow(a.settlements, b.settlements, s.stl)
            && b.settlements[s.stl] == Settlement(p.tx, s.merchant, p.amount, Fee(p.amount), p.amount - Fee(p.amount))
            && b.wallets == a.wallets && b.queue == a.queue && b.topUps == a.topUps
            && Next(w, s) == w.(db := b)
  {
  }
}
