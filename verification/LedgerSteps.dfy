// One request is one step. Each step maps the world before the request to the world after it;
// ids, codes and the order of query results, which the program draws or leaves open, are
// parameters. A refused step leaves the database unchanged.

module LedgerSteps {
  import opened Lists
  import opened Coins
  import opened KeyRecords
  import opened LedgerState

  // ---------- top-up ----------

  function MintedIds(minted: seq<MintedToken>): (ids: seq<TokenId>)
    ensures |ids| == |minted|
  {
    seq(|minted|, i requires 0 <= i < |minted| => minted[i].id)
  }

  function AddTokens(tokens: map<TokenId, Token>, wallet: WalletId, minted: seq<MintedToken>): map<TokenId, Token> {
    if minted == [] then tokens
    else
      var n := |minted| - 1;
      AddTokens(tokens, wallet, minted[..n])[minted[n].id := Token(wallet, minted[n].denom, Minted, NoCode, None)]
  }

  function TopUpOutcome(db: Db, wallet: WalletId, amount: int, allocation: int, id: TopUpId,
                        minted: seq<MintedToken>): Outcome {
    if wallet !in db.wallets then Refused(WalletNotFound)
    else if db.wallets[wallet].offline + allocation > db.wallets[wallet].allowance then Refused(AllowanceExceeded)
    else if id in db.topUps || !Distinct(MintedIds(minted))
         || (exists i :: 0 <= i < |minted| && minted[i].id in db.tokens)
      then Refused(IntegrityError)
    else Done
  }

  function TopUpDb(db: Db, wallet: WalletId, amount: int, allocation: int, id: TopUpId, minted: seq<MintedToken>): Db
    requires wallet in db.wallets
  {
    var w := db.wallets[wallet];
    db.(wallets := db.wallets[wallet := w.(online := w.online + (amount - allocation),
                                           offline := w.offline + allocation)],
        topUps := db.topUps[id := TopUp(wallet, amount, allocation)],
        tokens := AddTokens(db.tokens, wallet, minted))
  }

  // ---------- online payment ----------

  function PayOnlineOutcome(db: Db, wallet: WalletId, amount: int, tx: TxId): Outcome {
    if wallet !in db.wallets then Refused(WalletNotFound)
    else if db.wallets[wallet].online < amount then Refused(InsufficientFunds)
    else if tx in db.txs then Refused(IntegrityError)
    else Done
  }

  function PayOnlineDb(db: Db, wallet: WalletId, merchant: MerchantId, amount: int, tx: TxId): Db
    requires wallet in db.wallets
  {
    var w := db.wallets[wallet];
    db.(wallets := db.wallets[wallet := w.(online := w.online - amount)],
        txs := db.txs[tx := Tx(wallet, merchant, Online, Succeeded, amount, [])])
  }

  // ---------- offline payment ----------

  // Tokens that the offline query may return: the otp_code column is not consulted.
  predicate Spendable(tokens: map<TokenId, Token>, wallet: WalletId, ids: seq<TokenId>) {
    && Distinct(ids)
    && forall i :: 0 <= i < |ids| ==>
        ids[i] in tokens && tokens[ids[i]].wallet == wallet && tokens[ids[i]].status == Minted
  }

  function PayOfflineOutcome(w: World, wallet: WalletId, amount: int, tx: TxId, selected: Option<seq<TokenId>>): Outcome
    requires selected.Some? ==> Spendable(w.db.tokens, wallet, selected.value)
  {
    if wallet !in w.db.wallets then Refused(WalletNotFound)
    else if w.db.wallets[wallet].offline < amount then Refused(InsufficientFunds)
    else if selected.None? then Refused(InsufficientFunds)
    else if !SpendKeys(w.keys, selected.value).1 then Refused(TokenSpendFailed)
    else if w.db.wallets[wallet].offline < Value(w.db.tokens, selected.value) || tx in w.db.txs
      then Refused(IntegrityError)
    else Done
  }

  function PayOfflineDb(db: Db, wallet: WalletId, merchant: MerchantId, amount: int, tx: TxId, ids: seq<TokenId>): Db
    requires wallet in db.wallets && AllIn(ids, db.tokens)
  {
    var w := db.wallets[wallet];
    db.(wallets := db.wallets[wallet := w.(offline := w.offline - Value(db.tokens, ids))],
        tokens := MarkSpent(db.tokens, ids, tx),
        txs := db.txs[tx := Tx(wallet, merchant, Offline, Pending, amount, ids)],
        queue := db.queue + [SyncItem(tx, Queued, 0)])
  }

  // The request got as far as the secure element.
  predicate ReachesKeys(w: World, wallet: WalletId, amount: int, selected: Option<seq<TokenId>>) {
    wallet in w.db.wallets && w.db.wallets[wallet].offline >= amount && selected.Some?
  }

  function PayOffline(w: World, wallet: WalletId, merchant: MerchantId, amount: int, tx: TxId,
                      selected: Option<seq<TokenId>>): World
    requires selected.Some? ==> Spendable(w.db.tokens, wallet, selected.value)
  {
    if !ReachesKeys(w, wallet, amount, selected) then w
    else
      var w' := w.(keys := SpendKeys(w.keys, selected.value).0);
      if PayOfflineOutcome(w, wallet, amount, tx, selected) != Done then w'
      else w'.(db := PayOfflineDb(w.db, wallet, merchant, amount, tx, selected.value),
               emitted := w.emitted + {Proof(tx, merchant, amount, selected.value)})
  }

  // ---------- emergency code ----------

  predicate Lockable(tokens: map<TokenId, Token>, wallet: WalletId, ids: seq<TokenId>) {
    Spendable(tokens, wallet, ids) && forall i :: 0 <= i < |ids| ==> tokens[ids[i]].otp == NoCode
  }

  function LockOutcome(db: Db, wallet: WalletId, amount: int, selected: Option<seq<TokenId>>): Outcome
    requires selected.Some? ==> Lockable(db.tokens, wallet, selected.value)
  {
    if wallet !in db.wallets then Refused(WalletNotFound)
    else if db.wallets[wallet].offline < amount then Refused(InsufficientFunds)
    else if selected.None? then Refused(InsufficientFunds)
    else if db.wallets[wallet].offline < Value(db.tokens, selected.value) then Refused(IntegrityError)
    else Done
  }

  function LockDb(db: Db, wallet: WalletId, ids: seq<TokenId>, code: string): Db
    requires wallet in db.wallets && AllIn(ids, db.tokens)
  {
    var w := db.wallets[wallet];
    db.(wallets := db.wallets[wallet := w.(offline := w.offline - Value(db.tokens, ids))],
        tokens := Lock(db.tokens, ids, code))
  }

  // ---------- emergency settlement ----------

  predicate Carries(tokens: map<TokenId, Token>, t: TokenId, code: string) {
    t in tokens && tokens[t].status == Minted && tokens[t].otp == Live(code)
  }

  // The rows a code finds, sorted by denomination, smallest first.
  predicate FoundBy(tokens: map<TokenId, Token>, rows: seq<TokenId>, code: string) {
    && Distinct(rows)
    && (forall i :: 0 <= i < |rows| ==> Carries(tokens, rows[i], code))
    && (forall t :: t in tokens && Carries(tokens, t, code) ==> t in rows)
    && (forall i, j :: 0 <= i < j < |rows| ==> tokens[rows[i]].denom <= tokens[rows[j]].denom)
  }

  // How many of the rows from i on are consumed when `collected` is covered already.
  function Needed(tokens: map<TokenId, Token>, rows: seq<TokenId>, amount: int, collected: int): (n: nat)
    requires AllIn(rows, tokens)
    ensures n <= |rows|
    decreases |rows|
  {
    if rows == [] || collected >= amount then 0
    else 1 + Needed(tokens, rows[1..], amount, collected + tokens[rows[0]].denom)
  }

  // 3% of the amount, truncated toward zero.
  function Fee(amount: int): int {
    if amount >= 0 then 3 * amount / 100 else -(3 * -amount / 100)
  }

  function Refunded(wallets: map<WalletId, Wallet>, payer: WalletId, refund: nat): map<WalletId, Wallet> {
    if refund > 0 && payer in wallets then wallets[payer := wallets[payer].(offline := wallets[payer].offline + refund)]
    else wallets
  }

  function RefundWallets(db: Db, rows: seq<TokenId>, n: nat): map<WalletId, Wallet>
    requires AllIn(rows, db.tokens) && 0 <= n <= |rows|
  {
    if n == |rows| then db.wallets else Refunded(db.wallets, db.tokens[rows[0]].wallet, Value(db.tokens, rows[n..]))
  }

  function CreditWallets(wallets: map<WalletId, Wallet>, payee: Option<WalletId>, net: int): map<WalletId, Wallet> {
    if payee.Some? && payee.value in wallets
    then wallets[payee.value := wallets[payee.value].(online := wallets[payee.value].online + net)]
    else wallets
  }

  predicate WalletsChecked(wallets: map<WalletId, Wallet>) {
    forall w :: w in wallets ==> 0 <= wallets[w].online && 0 <= wallets[w].offline <= wallets[w].allowance
  }

  function RedeemOutcome(db: Db, amount: int, rows: seq<TokenId>, tx: TxId, stl: SettlementId): Outcome
    requires AllIn(rows, db.tokens)
  {
    if rows == [] then Refused(InvalidCode)
    else if Value(db.tokens, rows) < amount then Refused(InsufficientFunds)
    else
      var n := Needed(db.tokens, rows, amount, 0);
      if (exists i :: 0 <= i < n && rows[i] in db.registry) || tx in db.txs || stl in db.settlements
         || !WalletsChecked(RefundWallets(db, rows, n))
      then Refused(IntegrityError)
      else Done
  }

  function RedeemDb(db: Db, merchant: MerchantId, amount: int, code: string, payee: Option<WalletId>,
                    rows: seq<TokenId>, tx: TxId, stl: SettlementId): Db
    requires AllIn(rows, db.tokens) && rows != []
  {
    var n := Needed(db.tokens, rows, amount, 0);
    var net := amount - Fee(amount);
    Db(CreditWallets(RefundWallets(db, rows, n), payee, net),
       Unlock(Redeem(db.tokens, rows[..n], code), rows[n..]),
       db.txs[tx := Tx(db.tokens[rows[0]].wallet, merchant, Offline, Succeeded, amount, [])],
       Register(db.registry, rows[..n], Spend(tx, Some(stl))),
       db.settlements[stl := Settlement(tx, merchant, amount, Fee(amount), net)],
       db.queue,
       db.topUps)
  }

  function Credit(db: Db, amount: int, payee: Option<WalletId>): int {
    if payee.Some? && payee.value in db.wallets then amount - Fee(amount) else 0
  }

  // ---------- proof settlement ----------

  // The first problem met while checking the tokens of a proof in order.
  function FirstProblem(registry: map<TokenId, Spend>, ids: seq<TokenId>): Outcome
    decreases |ids|
  {
    if ids == [] then Done
    else if ids[0] == "" then Refused(MalformedProof)
    else if ids[0] in registry then Refused(DoubleSpend)
    else FirstProblem(registry, ids[1..])
  }

  function SettleOutcome(db: Db, p: Proof, merchant: MerchantId, expired: bool, stl: SettlementId): Outcome {
    if p.merchant != merchant then Refused(MerchantMismatch)
    else if expired then Refused(ProofExpired)
    else if FirstProblem(db.registry, p.tokens) != Done then FirstProblem(db.registry, p.tokens)
    else if !Distinct(p.tokens) || !AllIn(p.tokens, db.tokens) || p.tx !in db.txs || stl in db.settlements
      then Refused(IntegrityError)
    else Done
  }

  function SettleDb(db: Db, p: Proof, stl: SettlementId): Db
    requires p.tx in db.txs
  {
    db.(registry := Register(db.registry, p.tokens, Spend(p.tx, Some(stl))),
        tokens := Settle(db.tokens, p.tokens),
        txs := db.txs[p.tx := db.txs[p.tx].(status := Succeeded)],
        settlements := db.settlements[stl := Settlement(p.tx, p.merchant, p.amount, Fee(p.amount),
                                                        p.amount - Fee(p.amount))])
  }

  // ---------- sync ----------

  const MAX_ATTEMPTS: nat := 10

  // Register tokens one by one; stop at the first that is registered already.
  function RegisterUntilConflict(registry: map<TokenId, Spend>, ids: seq<TokenId>, spend: Spend)
    : (map<TokenId, Spend>, bool)
    decreases |ids|
  {
    if ids == [] then (registry, true)
    else if ids[0] in registry then (registry, false)
    else RegisterUntilConflict(registry[ids[0] := spend], ids[1..], spend)
  }

  // A missing transaction is retried; the tenth attempt marks the item as failed.
  function RetryItem(item: SyncItem): SyncItem {
    SyncItem(item.tx, if item.attempts + 1 >= MAX_ATTEMPTS then SyncFailed else Queued, item.attempts + 1)
  }

  function SyncOne(db: Db, i: nat): Db
    requires i < |db.queue|
  {
    var item := db.queue[i];
    if item.tx !in db.txs then db.(queue := db.queue[i := RetryItem(item)])
    else
      var tx := db.txs[item.tx];
      if tx.status == Succeeded then db.(queue := db.queue[i := item.(status := Completed)])
      else
        var (registry, clean) := RegisterUntilConflict(db.registry, tx.consumed, Spend(item.tx, None));
        if clean then
          db.(registry := registry, txs := db.txs[item.tx := tx.(status := Succeeded)],
              queue := db.queue[i := item.(status := Completed)])
        else
          db.(registry := registry, txs := db.txs[item.tx := tx.(status := Failed)],
              queue := db.queue[i := item.(status := SyncFailed)])
  }

  predicate IsDue(item: SyncItem) { item.status == Queued || item.status == SyncFailed }

  predicate Matches(db: Db, item: SyncItem, wallet: Option<WalletId>) {
    wallet.Some? ==> item.tx in db.txs && db.txs[item.tx].wallet == wallet.value
  }

  // Positions of at most `limit` due items from position i on, oldest first.
  function DueItems(db: Db, wallet: Option<WalletId>, limit: nat, i: nat): (due: seq<nat>)
    requires i <= |db.queue|
    ensures |due| <= limit
    ensures forall j :: 0 <= j < |due| ==> i <= due[j] < |db.queue|
    ensures forall j, k :: 0 <= j < k < |due| ==> due[j] < due[k]
    decreases |db.queue| - i
  {
    if limit == 0 || i == |db.queue| then []
    else if IsDue(db.queue[i]) && Matches(db, db.queue[i], wallet) then [i] + DueItems(db, wallet, limit - 1, i + 1)
    else DueItems(db, wallet, limit, i + 1)
  }

  function SyncAll(db: Db, due: seq<nat>): (r: Db)
    requires forall j :: 0 <= j < |due| ==> due[j] < |db.queue|
    ensures |r.queue| == |db.queue|
    decreases |due|
  {
    if due == [] then db
    else SyncOne(SyncAll(db, due[..|due| - 1]), due[|due| - 1])
  }

  function SyncDb(db: Db, wallet: Option<WalletId>, batch: nat): Db {
    SyncAll(db, DueItems(db, wallet, batch, 0))
  }

  // ---------- steps ----------

  datatype Step =
    | CreateWalletStep(wallet: WalletId, allowance: int)
    | TopUpStep(wallet: WalletId, amount: int, allocation: int, id: TopUpId, minted: seq<MintedToken>)
    | PayOnlineStep(wallet: WalletId, merchant: MerchantId, amount: int, tx: TxId)
    | PayOfflineStep(wallet: WalletId, merchant: MerchantId, amount: int, tx: TxId, selected: Option<seq<TokenId>>)
    | LockStep(wallet: WalletId, amount: int, code: string, selected: Option<seq<TokenId>>)
    | RedeemStep(merchant: MerchantId, amount: int, code: string, payee: Option<WalletId>, rows: seq<TokenId>,
                 tx: TxId, stl: SettlementId)
    | SettleStep(proof: Proof, merchant: MerchantId, expired: bool, stl: SettlementId)
    | SyncStep(filter: Option<WalletId>, batch: nat)

  // What the request schemas and the queries guarantee about the parameters of a step.
  ghost predicate Legal(w: World, s: Step) {
    match s
    case CreateWalletStep(_, allowance) => allowance > 0
    case TopUpStep(_, amount, allocation, _, minted) =>
      && 0 <= allocation <= amount && 0 < amount
      && AllValid(minted) && Total(minted) == allocation - allocation % 500
      && "" !in MintedIds(minted)
    case PayOnlineStep(_, _, amount, _) => amount > 0
    case PayOfflineStep(wallet, _, amount, _, selected) =>
      && amount > 0
      && (selected.Some? ==>
          Spendable(w.db.tokens, wallet, selected.value) && Value(w.db.tokens, selected.value) >= amount)
    case LockStep(wallet, amount, _, selected) =>
      && amount > 0
      && (selected.Some? ==>
          Lockable(w.db.tokens, wallet, selected.value) && Value(w.db.tokens, selected.value) >= amount)
    case RedeemStep(_, amount, code, _, rows, _, _) => amount > 0 && FoundBy(w.db.tokens, rows, code)
    case SettleStep(_, _, _, _) => true
    case SyncStep(_, _) => true
  }

  ghost function OutcomeOf(w: World, s: Step): Outcome
    requires Legal(w, s)
  {
    match s
    case CreateWalletStep(wallet, _) => if wallet in w.db.wallets then Refused(IntegrityError) else Done
    case TopUpStep(wallet, amount, allocation, id, minted) => TopUpOutcome(w.db, wallet, amount, allocation, id, minted)
    case PayOnlineStep(wallet, _, amount, tx) => PayOnlineOutcome(w.db, wallet, amount, tx)
    case PayOfflineStep(wallet, _, amount, tx, selected) => PayOfflineOutcome(w, wallet, amount, tx, selected)
    case LockStep(wallet, amount, _, selected) => LockOutcome(w.db, wallet, amount, selected)
    case RedeemStep(_, amount, _, _, rows, tx, stl) => RedeemOutcome(w.db, amount, rows, tx, stl)
    case SettleStep(p, merchant, expired, stl) => SettleOutcome(w.db, p, merchant, expired, stl)
    case SyncStep(_, _) => Done
  }

  ghost function Next(w: World, s: Step): World
    requires Legal(w, s)
  {
    if s.PayOfflineStep? then PayOffline(w, s.wallet, s.merchant, s.amount, s.tx, s.selected)
    else if OutcomeOf(w, s) != Done then w
    else
      match s
      case CreateWalletStep(wallet, allowance) =>
        w.(db := w.db.(wallets := w.db.wallets[wallet := Wallet(0, 0, allowance)]))
      case TopUpStep(wallet, amount, allocation, id, minted) =>
        w.(db := TopUpDb(w.db, wallet, amount, allocation, id, minted))
      case PayOnlineStep(wallet, merchant, amount, tx) => w.(db := PayOnlineDb(w.db, wallet, merchant, amount, tx))
      case LockStep(wallet, _, code, selected) => w.(db := LockDb(w.db, wallet, selected.value, code))
      case RedeemStep(merchant, amount, code, payee, rows, tx, stl) =>
        w.(db := RedeemDb(w.db, merchant, amount, code, payee, rows, tx, stl),
           credited := w.credited + Credit(w.db, amount, payee))
      case SettleStep(p, _, _, stl) => w.(db := SettleDb(w.db, p, stl))
      case SyncStep(filter, batch) => w.(db := SyncDb(w.db, filter, batch))
  }
}
