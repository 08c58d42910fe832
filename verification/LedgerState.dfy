// The rows of the database: one map per table, keyed by the primary key.

module LedgerState {
  import opened Coins
  import opened KeyRecords

  type WalletId = string
  type TokenId = string
  type TxId = string
  type SettlementId = string
  type TopUpId = string
  type MerchantId = string

  datatype Wallet = Wallet(online: int, offline: int, allowance: int)

  datatype TokenStatus = Minted | Spent | Settled

  // The otp_code column: NULL, the code that locks the token, or that code marked as redeemed.
  datatype Otp = NoCode | Live(code: string) | Redeemed(code: string)

  datatype Token = Token(wallet: WalletId, denom: nat, status: TokenStatus, otp: Otp, spentIn: Option<TxId>)

  datatype TxMode = Online | Offline

  datatype TxStatus = Pending | Succeeded | Failed

  // consumed is empty for the transactions that record no tokens.
  datatype Tx = Tx(wallet: WalletId, merchant: MerchantId, mode: TxMode, status: TxStatus, amount: int,
                   consumed: seq<TokenId>)

  datatype Spend = Spend(tx: TxId, settlement: Option<SettlementId>)

  datatype Settlement = Settlement(payment: TxId, merchant: MerchantId, amount: int, fee: int, net: int)

  datatype SyncStatus = Queued | Completed | SyncFailed

  datatype SyncItem = SyncItem(tx: TxId, status: SyncStatus, attempts: nat)

  datatype TopUp = TopUp(wallet: WalletId, amount: int, allocation: int)

  datatype Db = Db(
    wallets: map<WalletId, Wallet>,
    tokens: map<TokenId, Token>,
    txs: map<TxId, Tx>,
    registry: map<TokenId, Spend>,
    settlements: map<SettlementId, Settlement>,
    queue: seq<SyncItem>,
    topUps: map<TopUpId, TopUp>)

  // The settlement payload handed to the customer by an offline payment.
  datatype Proof = Proof(tx: TxId, merchant: MerchantId, amount: int, tokens: seq<TokenId>)

  datatype Error =
    | WalletNotFound
    | InsufficientFunds
    | AllowanceExceeded
    | TokenSpendFailed
    | MerchantMismatch
    | ProofExpired
    | MalformedProof
    | DoubleSpend
    | InvalidCode
    | IntegrityError

  datatype Outcome = Done | Refused(error: Error)

  // ---------- row updates over a list of tokens ----------

  function MarkSpent(tokens: map<TokenId, Token>, ids: seq<TokenId>, tx: TxId): (r: map<TokenId, Token>)
    ensures r.Keys == tokens.Keys
  {
    map t | t in tokens :: if t in ids then tokens[t].(status := Spent, spentIn := Some(tx)) else tokens[t]
  }

  function Lock(tokens: map<TokenId, Token>, ids: seq<TokenId>, code: string): (r: map<TokenId, Token>)
    ensures r.Keys == tokens.Keys
  {
    map t | t in tokens :: if t in ids then tokens[t].(otp := Live(code)) else tokens[t]
  }

  function Unlock(tokens: map<TokenId, Token>, ids: seq<TokenId>): (r: map<TokenId, Token>)
    ensures r.Keys == tokens.Keys
  {
    map t | t in tokens :: if t in ids then tokens[t].(otp := NoCode) else tokens[t]
  }

  function Settle(tokens: map<TokenId, Token>, ids: seq<TokenId>): (r: map<TokenId, Token>)
    ensures r.Keys == tokens.Keys
  {
    map t | t in tokens :: if t in ids then tokens[t].(status := Settled) else tokens[t]
  }

  function Redeem(tokens: map<TokenId, Token>, ids: seq<TokenId>, code: string): (r: map<TokenId, Token>)
    ensures r.Keys == tokens.Keys
  {
    map t | t in tokens :: if t in ids then tokens[t].(status := Settled, otp := Redeemed(code)) else tokens[t]
  }

  function Register(registry: map<TokenId, Spend>, ids: seq<TokenId>, spend: Spend): map<TokenId, Spend> {
    registry + (map t | t in ids :: spend)
  }

  predicate AllIn(ids: seq<TokenId>, tokens: map<TokenId, Token>) {
    forall i :: 0 <= i < |ids| ==> ids[i] in tokens
  }

  // The value of a list of tokens.
  function Value(tokens: map<TokenId, Token>, ids: seq<TokenId>): nat
    requires AllIn(ids, tokens)
  {
    if ids == [] then 0 else Value(tokens, ids[..|ids| - 1]) + tokens[ids[|ids| - 1]].denom
  }

  // ---------- everything a run depends on ----------

  // credited counts what emergency settlements paid into payee wallets, for the books.
  datatype World = World(db: Db, keys: Keys, emitted: set<Proof>, credited: int)
}
