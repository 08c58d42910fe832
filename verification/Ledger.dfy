// The services loop by loop: requests change the database in place and roll
// it back when they fail. Each request is proved to be one step of the ledger's state machine.

module Ledger {
  import opened Lists
  import opened Coins
  import opened KeyRecords
  import opened LedgerState
  import opened LedgerSteps
  import opened LedgerSafety
  import opened LedgerSolvency
  import opened LedgerRuns
  import opened EmergencyCodes
  import opened PaymentSelection
  import CoinSelection
  import SE = SecureElement
  import Queries

  class Ledger {
    var db: Db
    const se: SE.SoftwareSecureElement
    const manager: SE.TokenManager
    // Proofs handed out and money credited to payees so far.
    ghost var emitted: set<Proof>
    ghost var credited: int

    ghost function State(): World
      reads this, se
    {
      World(db, se.View(), emitted, credited)
    }

    ghost predicate Valid()
      reads this, se
    {
      manager.se == se && se.Valid() && Safe(State())
    }

    constructor ()
      ensures Valid() && State() == EMPTY && fresh(se)
    {
      db := Db(map[], map[], map[], map[], map[], [], map[]);
      var element := new SE.SoftwareSecureElement();
      se := element;
      manager := new SE.TokenManager(element);
      emitted, credited := {}, 0;
    }

    // ---------- wallets and top-ups ----------

    method CreateWallet(wallet: WalletId, allowance: int) returns (r: Outcome, ghost s: Step)
      requires Valid() && allowance > 0
      modifies this`db
      ensures Valid() && s == CreateWalletStep(wallet, allowance)
      ensures r == OutcomeOf(old(State()), s) && State() == Next(old(State()), s)
    {
      s := CreateWalletStep(wallet, allowance);
      StepIsSafe(State(), s);
      if wallet in db.wallets { return Refused(IntegrityError), s; }
      db := db.(wallets := db.wallets[wallet := Wallet(0, 0, allowance)]);
      r := Done;
    }

    method CreateTopUp(wallet: WalletId, amount: int, allocation: int, id: TopUpId, freshId: nat -> TokenId)
      returns (r: Outcome, ghost s: Step)
      requires Valid() && 0 <= allocation <= amount && amount > 0 && forall i :: freshId(i) != ""
      modifies this`db
      ensures Valid() && s.TopUpStep? && Legal(old(State()), s)
      ensures s == TopUpStep(wallet, amount, allocation, id, s.minted)
      ensures r == OutcomeOf(old(State()), s) && State() == Next(old(State()), s)
      ensures r == Done ==> FewestForItsTotal(s.minted) && Labelled(s.minted, freshId)
    {
      ghost var minted;
      r, minted := TopUpRows(wallet, amount, allocation, id, freshId);
      s := TopUpStep(wallet, amount, allocation, id, minted);
      TopUpTaken(old(State()), s, r, State());
    }

    method TopUpRows(wallet: WalletId, amount: int, allocation: int, id: TopUpId, freshId: nat -> TokenId)
      returns (r: Outcome, ghost ids: seq<MintedToken>)
      requires allocation >= 0 && forall i :: freshId(i) != ""
      modifies this`db
      ensures AllValid(ids) && Total(ids) == allocation - allocation % 500 && "" !in MintedIds(ids)
      ensures r == TopUpOutcome(old(db), wallet, amount, allocation, id, ids)
      ensures db == if r == Done then TopUpDb(old(db), wallet, amount, allocation, id, ids) else old(db)
      ensures r == Done ==> FewestForItsTotal(ids) && Labelled(ids, freshId)
    {
      var saved := db;
      ids := SmallChange(allocation);
      if wallet !in db.wallets { return Refused(WalletNotFound), ids; }
      var w := db.wallets[wallet];
      if w.offline + allocation > w.allowance { return Refused(AllowanceExceeded), ids; }

      db := db.(wallets := db.wallets[wallet := w.(online := w.online + (amount - allocation),
                                                   offline := w.offline + allocation)]);
      var duplicate := id in db.topUps;
      db := db.(topUps := db.topUps[id := TopUp(wallet, amount, allocation)]);
      var minted := [];
      if allocation > 0 { minted := MintTokens(allocation, freshId); }
      LabelsAreNotEmpty(minted, freshId);
      ids := minted;
      var clash := AddRows(wallet, minted);
      if duplicate || clash {
        db := saved;
        return Refused(IntegrityError), ids;
      }
      r := Done;
    }

    // Insert the minted tokens one by one; clash tells that an id was taken.
    method AddRows(wallet: WalletId, minted: seq<MintedToken>) returns (clash: bool)
      modifies this`db
      ensures db == old(db).(tokens := AddTokens(old(db).tokens, wallet, minted))
      ensures clash == (!Distinct(MintedIds(minted)) || exists i :: 0 <= i < |minted| && minted[i].id in old(db).tokens)
    {
      clash := false;
      assert minted[..0] == [];
      for i := 0 to |minted|
        invariant db == old(db).(tokens := AddTokens(old(db).tokens, wallet, minted[..i]))
        invariant Taken(old(db).tokens, minted[..i], clash)
      {
        assert minted[..i + 1][..i] == minted[..i];
        OneIdMore(old(db).tokens, wallet, minted, i, clash);
        clash := clash || minted[i].id in db.tokens;
        db := db.(tokens := db.tokens[minted[i].id := Token(wallet, minted[i].denom, Minted, NoCode, None)]);
      }
      assert minted[..|minted|] == minted;
    }

    // ---------- online payment ----------

    method CreateOnlinePayment(wallet: WalletId, merchant: MerchantId, amount: int,
                               tx: TxId) returns (r: Outcome, ghost s: Step)
      requires Valid() && amount > 0
      modifies this`db
      ensures Valid() && s == PayOnlineStep(wallet, merchant, amount, tx)
      ensures r == OutcomeOf(old(State()), s) && State() == Next(old(State()), s)
    {
      s := PayOnlineStep(wallet, merchant, amount, tx);
      r := OnlineRows(wallet, merchant, amount, tx);
      PayOnlineTaken(old(State()), s, r, State());
    }

    method OnlineRows(wallet: WalletId, merchant: MerchantId, amount: int, tx: TxId) returns (r: Outcome)
      modifies this`db
      ensures r == PayOnlineOutcome(old(db), wallet, amount, tx)
      ensures db == if r == Done then PayOnlineDb(old(db), wallet, merchant, amount, tx) else old(db)
    {
      var saved := db;
      if wallet !in db.wallets { return Refused(WalletNotFound); }
      var w := db.wallets[wallet];
      if w.online < amount { return Refused(InsufficientFunds); }
      db := db.(wallets := db.wallets[wallet := w.(online := w.online - amount)]);
      if tx in db.txs {
        db := saved;
        return Refused(IntegrityError);
      }
      db := db.(txs := db.txs[tx := Tx(wallet, merchant, Online, Succeeded, amount, [])]);
      r := Done;
    }

    // ---------- offline payment ----------

    method CreateOfflinePayment(wallet: WalletId, merchant: MerchantId, amount: int, tx: TxId, draw: Draw)
      returns (r: Outcome, proof: Option<Proof>, ghost s: Step)
      requires Valid() && amount > 0
      modifies this`db, this`emitted, se
      ensures Valid() && s.PayOfflineStep? && Legal(old(State()), s)
      ensures s == PayOfflineStep(wallet, merchant, amount, tx, s.selected)
      ensures r == OutcomeOf(old(State()), s) && State() == Next(old(State()), s)
      ensures s.selected.Some? ==> BestPayment(old(db).tokens, wallet, amount, s.selected.value)
      ensures s.selected.None? && ReachesSelection(old(db), wallet, amount) ==>
                NothingCovers(old(db).tokens, wallet, amount)
      ensures proof == if r == Done then Some(Proof(tx, merchant, amount, s.selected.value)) else None
    {
      var selected;
      r, selected := OfflineRows(wallet, merchant, amount, tx, draw);
      s := PayOfflineStep(wallet, merchant, amount, tx, selected);
      proof := None;
      if r == Done {
        proof := Some(Proof(tx, merchant, amount, selected.value));
        emitted := emitted + {proof.value};
      }
      PayOfflineTaken(old(State()), s, r, State());
    }

    method OfflineRows(wallet: WalletId, merchant: MerchantId, amount: int, tx: TxId, draw: Draw)
      returns (r: Outcome, selected: Option<seq<TokenId>>)
      requires Valid() && amount > 0
      modifies this`db, se
      ensures se.Valid()
      ensures selected.Some? ==> BestPayment(old(db).tokens, wallet, amount, selected.value)
      ensures selected.None? && ReachesSelection(old(db), wallet, amount) ==>
                NothingCovers(old(db).tokens, wallet, amount)
      ensures selected.Some? ==> ReachesSelection(old(db), wallet, amount)
      ensures r == PayOfflineOutcome(old(State()), wallet, amount, tx, selected)
      ensures db == if r == Done then PayOfflineDb(old(db), wallet, merchant, amount, tx, selected.value) else old(db)
      ensures se.View() == if selected.Some? then SpendKeys(old(se.View()), selected.value).0 else old(se.View())
    {
      var saved := db;
      if wallet !in db.wallets { return Refused(WalletNotFound), None; }
      if db.wallets[wallet].offline < amount { return Refused(InsufficientFunds), None; }
      var choice := ChooseTokens(wallet, amount);
      if choice.None? { return Refused(InsufficientFunds), None; }
      var ids := MintedIds(choice.value);
      selected := Some(ids);
      var spent := SpendTokens(choice.value, draw);
      if !spent { return Refused(TokenSpendFailed), selected; }

      MarkTokens(ids, tx);
      var balance := db.wallets[wallet].offline - Total(choice.value);
      db := db.(wallets := db.wallets[wallet := db.wallets[wallet].(offline := balance)]);
      if balance < 0 || tx in db.txs {
        db := saved;
        return Refused(IntegrityError), selected;
      }
      db := db.(txs := db.txs[tx := Tx(wallet, merchant, Offline, Pending, amount, ids)]);
      db := db.(queue := db.queue + [SyncItem(tx, Queued, 0)]);
      r := Done;
    }

    // The query and the coin selection.
    method ChooseTokens(wallet: WalletId, amount: int) returns (choice: Option<seq<MintedToken>>)
      requires TokensSafe(db) && amount > 0
      ensures choice.None? ==> NothingCovers(db.tokens, wallet, amount)
      ensures choice.Some? ==> BestPayment(db.tokens, wallet, amount, MintedIds(choice.value))
      ensures choice.Some? ==> Total(choice.value) == Value(db.tokens, MintedIds(choice.value))
    {
      var rows := Queries.Rows(db.tokens, (t: Token) => t.wallet == wallet && t.status == Minted);
      assert forall i :: 0 <= i < |rows| ==> rows[i] in rows;
      var available := AsMinted(db.tokens, rows);
      var chosen := CoinSelection.SelectTokens(available, amount);
      if chosen.Err? {
        NoChoice(db.tokens, wallet, amount, rows);
        return None;
      }
      ChoiceIsBest(db, wallet, amount, rows, chosen.value, MintedIds(chosen.value));
      choice := Some(chosen.value);
    }

    // Spend every token through the secure element, in order; what is done before a failure stays done.
    method SpendTokens(tokens: seq<MintedToken>, draw: Draw) returns (ok: bool)
      requires manager.se == se && se.Valid()
      modifies se
      ensures se.Valid() && (se.View(), ok) == SpendKeys(old(se.View()), MintedIds(tokens))
    {
      ghost var ids, before := MintedIds(tokens), old(se.View());
      assert ids[0..] == ids;
      for i := 0 to |tokens|
        invariant se.Valid() && SpendKeys(before, ids) == SpendKeys(se.View(), ids[i..])
      {
        assert ids[i..][0] == tokens[i].id && ids[i..][1..] == ids[i + 1..];
        var spent := SpendOne(tokens[i], draw, i);
        if !spent { return false; }
      }
      ok := true;
    }

    method SpendOne(token: MintedToken, draw: Draw, i: nat) returns (ok: bool)
      requires manager.se == se && se.Valid()
      modifies se
      ensures se.Valid() && ok == (KeyOf(token.id) !in old(se.View()).destroyed)
      ensures var k, v := KeyOf(token.id), old(se.View());
              se.View() == if ok then Keys(v.live - {k}, v.destroyed + {k}, v.signed + [k]) else v
    {
      var keyId := KeyOf(token.id);
      var known := se.HasKey(keyId);
      if !known {
        var generated := se.GenerateKeypair(keyId, draw.key(i), true);
        if generated.Err? { return false; }
      }
      var proof := manager.SpendToken(token, draw.txHash, draw.nonce(i), draw.now);
      assert old(se.View()).live + {keyId} - {keyId} == old(se.View()).live - {keyId};
      ok := proof.Ok?;
    }

    method MarkTokens(ids: seq<TokenId>, tx: TxId)
      modifies this`db
      ensures db == old(db).(tokens := MarkSpent(old(db).tokens, ids, tx))
    {
      ghost var before := db.tokens;
      assert MarkSpent(before, [], tx) == before;
      for i := 0 to |ids|
        invariant db == old(db).(tokens := MarkSpent(before, ids[..i], tx))
      {
        assert ids[..i + 1] == ids[..i] + [ids[i]];
        if ids[i] in db.tokens {
          db := db.(tokens := db.tokens[ids[i] := db.tokens[ids[i]].(status := Spent, spentIn := Some(tx))]);
        }
        assert db.tokens == MarkSpent(before, ids[..i + 1], tx);
      }
      assert ids[..|ids|] == ids;
    }

    // ---------- emergency codes ----------

    method GenerateEmergencyCode(wallet: WalletId, amount: int, code: string) returns (r: Outcome, ghost s: Step)
      requires Valid() && amount > 0
      modifies this`db
      ensures Valid() && s.LockStep? && Legal(old(State()), s)
      ensures s == LockStep(wallet, amount, code, s.selected)
      ensures r == OutcomeOf(old(State()), s) && State() == Next(old(State()), s)
      ensures s.selected.Some? ==> FewestLocked(old(db).tokens, wallet, amount, s.selected.value)
      ensures s.selected.None? && ReachesSelection(old(db), wallet, amount) ==>
                NothingUnlockedCovers(old(db).tokens, wallet, amount)
    {
      var selected;
      r, selected := LockRows(wallet, amount, code);
      s := LockStep(wallet, amount, code, selected);
      LockTaken(old(State()), s, r, State());
    }

    method LockRows(wallet: WalletId, amount: int, code: string) returns (r: Outcome, selected: Option<seq<TokenId>>)
      modifies this`db
      ensures selected.Some? ==> FewestLocked(old(db).tokens, wallet, amount, selected.value)
      ensures selected.None? && ReachesSelection(old(db), wallet, amount) ==>
                NothingUnlockedCovers(old(db).tokens, wallet, amount)
      ensures r == LockOutcome(old(db), wallet, amount, selected)
      ensures db == if r == Done then LockDb(old(db), wallet, selected.value, code) else old(db)
    {
      var saved := db;
      if wallet !in db.wallets { return Refused(WalletNotFound), None; }
      if db.wallets[wallet].offline < amount { return Refused(InsufficientFunds), None; }
      var chosen := ChooseLocked(wallet, amount);
      if chosen.None? { return Refused(InsufficientFunds), None; }
      selected := chosen;
      var fits := LockChosen(wallet, chosen.value, code);
      if !fits {
        db := saved;
        return Refused(IntegrityError), selected;
      }
      r := Done;
    }

    // Lock the tokens and take their value out of the balance.
    method LockChosen(wallet: WalletId, ids: seq<TokenId>, code: string) returns (fits: bool)
      requires wallet in db.wallets && AllIn(ids, db.tokens)
      modifies this`db
      ensures fits == (Value(old(db).tokens, ids) <= old(db).wallets[wallet].offline)
      ensures db == LockDb(old(db), wallet, ids, code)
    {
      var balance := db.wallets[wallet].offline - Value(db.tokens, ids);
      LockTokens(ids, code);
      db := db.(wallets := db.wallets[wallet := db.wallets[wallet].(offline := balance)]);
      fits := balance >= 0;
    }

    // The greedy choice: unlocked tokens, largest first, until they cover the amount.
    method ChooseLocked(wallet: WalletId, amount: int) returns (chosen: Option<seq<TokenId>>)
      ensures chosen.Some? ==> FewestLocked(db.tokens, wallet, amount, chosen.value)
      ensures chosen.None? ==> NothingUnlockedCovers(db.tokens, wallet, amount)
    {
      var rows := Queries.Rows(db.tokens, (t: Token) => t.wallet == wallet && t.status == Minted && t.otp == NoCode);
      assert forall i :: 0 <= i < |rows| ==> rows[i] in rows;
      var sorted := SortRows(db.tokens, rows, false);
      SortIsOrdered(db.tokens, rows, false);
      var ids, rest, collected := TakeUntilCovered(db.tokens, sorted, amount);
      if collected < amount {
        NoCodeCovers(db.tokens, wallet, amount, sorted);
        return None;
      }
      FewestAreLocked(db.tokens, wallet, amount, sorted, ids);
      chosen := Some(ids);
    }

    method LockTokens(ids: seq<TokenId>, code: string)
      requires AllIn(ids, db.tokens)
      modifies this`db
      ensures db == old(db).(tokens := Lock(old(db).tokens, ids, code))
    {
      ghost var before := db.tokens;
      assert Lock(before, [], code) == before;
      for i := 0 to |ids|
        invariant db == old(db).(tokens := Lock(before, ids[..i], code))
      {
        assert ids[..i + 1] == ids[..i] + [ids[i]];
        db := db.(tokens := db.tokens[ids[i] := db.tokens[ids[i]].(otp := Live(code))]);
        assert db.tokens == Lock(before, ids[..i + 1], code);
      }
      assert ids[..|ids|] == ids;
    }

    // ---------- emergency settlement ----------

    method SettleEmergencyCode(merchant: MerchantId, amount: int, code: string, payee: Option<WalletId>, tx: TxId,
                               stl: SettlementId)
      returns (r: Outcome, ghost s: Step)
      requires Valid() && amount > 0
      modifies this`db, this`credited
      ensures Valid() && s.RedeemStep? && Legal(old(State()), s)
      ensures s == RedeemStep(merchant, amount, code, payee, s.rows, tx, stl)
      ensures r == OutcomeOf(old(State()), s) && State() == Next(old(State()), s)
    {
      ghost var rows;
      r, rows := RedeemRows(merchant, amount, code, payee, tx, stl);
      s := RedeemStep(merchant, amount, code, payee, rows, tx, stl);
      if r == Done { credited := credited + Credit(old(db), amount, payee); }
      RedeemTaken(old(State()), s, r, State());
    }

    method RedeemRows(merchant: MerchantId, amount: int, code: string, payee: Option<WalletId>, tx: TxId,
                      stl: SettlementId)
      returns (r: Outcome, ghost found: seq<TokenId>)
      modifies this`db
      ensures FoundBy(old(db).tokens, found, code) && AllIn(found, old(db).tokens)
      ensures r == RedeemOutcome(old(db), amount, found, tx, stl)
      ensures db == if r == Done then RedeemDb(old(db), merchant, amount, code, payee, found, tx, stl) else old(db)
    {
      var saved := db;
      var rows := FindByCode(code);
      found := rows;
      if rows == [] { return Refused(InvalidCode), found; }
      if Value(db.tokens, rows) < amount { return Refused(InsufficientFunds), found; }

      var payer := db.tokens[rows[0]].wallet;
      RegisteredInPrefix(db.registry, rows, Needed(db.tokens, rows, amount, 0));
      var clash := ConsumeRows(rows, amount, code, Spend(tx, Some(stl)));
      if clash || tx in db.txs || stl in db.settlements || !WalletsChecked(db.wallets) {
        db := saved;
        return Refused(IntegrityError), found;
      }
      RecordSettlement(payer, merchant, amount, payee, tx, stl);
      r := Done;
    }

    // Add the transaction and the settlement and credit the payee.
    method RecordSettlement(payer: WalletId, merchant: MerchantId, amount: int, payee: Option<WalletId>, tx: TxId,
                            stl: SettlementId)
      modifies this`db
      ensures var net := amount - Fee(amount);
              db == old(db).(txs := old(db).txs[tx := Tx(payer, merchant, Offline, Succeeded, amount, [])],
                             settlements := old(db).settlements[stl := Settlement(tx, merchant, amount,
                                                                                  Fee(amount), net)],
                             wallets := CreditWallets(old(db).wallets, payee, net))
    {
      db := db.(txs := db.txs[tx := Tx(payer, merchant, Offline, Succeeded, amount, [])]);
      var fee := Fee(amount);
      var net := amount - fee;
      db := db.(settlements := db.settlements[stl := Settlement(tx, merchant, amount, fee, net)]);
      if payee.Some? && payee.value in db.wallets {
        var balance := db.wallets[payee.value].online + net;
        db := db.(wallets := db.wallets[payee.value := db.wallets[payee.value].(online := balance)]);
      }
    }

    // Consume rows until they cover the amount, free the others and refund their value.
    method ConsumeRows(rows: seq<TokenId>, amount: int, code: string, spend: Spend) returns (clash: bool)
      requires rows != [] && AllIn(rows, db.tokens) && Distinct(rows)
      modifies this`db
      ensures var n := Needed(old(db).tokens, rows, amount, 0);
              && db == old(db).(registry := Register(old(db).registry, rows[..n], spend),
                                tokens := Unlock(Redeem(old(db).tokens, rows[..n], code), rows[n..]),
                                wallets := RefundWallets(old(db), rows, n))
              && clash == AnyRegistered(old(db).registry, rows[..n])
    {
      var consumed, unused, collected := TakeUntilCovered(db.tokens, rows, amount);
      var payer, refund := db.tokens[rows[0]].wallet, Value(db.tokens, unused);
      clash := RedeemTokens(consumed, code, spend);
      UnlockTokens(unused);
      RefundPayer(payer, refund);
    }

    method RefundPayer(payer: WalletId, refund: nat)
      modifies this`db
      ensures db == old(db).(wallets := Refunded(old(db).wallets, payer, refund))
    {
      if refund > 0 && payer in db.wallets {
        var balance := db.wallets[payer].offline + refund;
        db := db.(wallets := db.wallets[payer := db.wallets[payer].(offline := balance)]);
      }
    }

    // Register and settle the consumed rows one by one; clash tells that one was registered before.
    method RedeemTokens(ids: seq<TokenId>, code: string, spend: Spend) returns (clash: bool)
      requires AllIn(ids, db.tokens) && Distinct(ids)
      modifies this`db
      ensures db == RedeemedDb(old(db), ids, code, spend)
      ensures clash == AnyRegistered(old(db).registry, ids)
    {
      ghost var before := db;
      clash := false;
      NothingRedeemed(before, code, spend);
      for i := 0 to |ids|
        invariant db == RedeemedDb(before, ids[..i], code, spend)
        invariant clash == AnyRegistered(before.registry, ids[..i])
      {
        assert ids[..i + 1] == ids[..i] + [ids[i]];
        OneMoreRedeemed(before, ids, i, code, spend);
        clash := clash || ids[i] in db.registry;
        db := db.(registry := db.registry[ids[i] := spend],
                  tokens := db.tokens[ids[i] := db.tokens[ids[i]].(status := Settled, otp := Redeemed(code))]);
      }
      assert ids[..|ids|] == ids;
    }

    method UnlockTokens(ids: seq<TokenId>)
      requires AllIn(ids, db.tokens)
      modifies this`db
      ensures db == old(db).(tokens := Unlock(old(db).tokens, ids))
    {
      ghost var before := db.tokens;
      assert Unlock(before, []) == before;
      for i := 0 to |ids|
        invariant db == old(db).(tokens := Unlock(before, ids[..i]))
      {
        assert ids[..i + 1] == ids[..i] + [ids[i]];
        db := db.(tokens := db.tokens[ids[i] := db.tokens[ids[i]].(otp := NoCode)]);
        assert db.tokens == Unlock(before, ids[..i + 1]);
      }
      assert ids[..|ids|] == ids;
    }

    // The rows that carry the code, smallest first.
    method FindByCode(code: string) returns (rows: seq<TokenId>)
      ensures FoundBy(db.tokens, rows, code) && AllIn(rows, db.tokens)
    {
      var found := Queries.Rows(db.tokens, (t: Token) => t.status == Minted && t.otp == Live(code));
      assert forall i :: 0 <= i < |found| ==> found[i] in found;
      rows := SortRows(db.tokens, found, true);
      SortIsOrdered(db.tokens, found, true);
      SortedAreFound(db.tokens, found, rows, code);
    }

    // Take rows from the front until they cover the amount.
    static method TakeUntilCovered(tokens: map<TokenId, Token>, rows: seq<TokenId>, amount: int)
      returns (taken: seq<TokenId>, rest: seq<TokenId>, collected: int)
      requires AllIn(rows, tokens)
      ensures var n := Needed(tokens, rows, amount, 0);
              taken == rows[..n] && rest == rows[n..] && AllIn(taken, tokens) && collected == Value(tokens, taken)
    {
      taken, rest, collected := [], [], 0;
      ghost var n := Needed(tokens, rows, amount, 0);
      assert rows[0..] == rows;
      for i := 0 to |rows|
        invariant taken + rest == rows[..i] && |taken| + Needed(tokens, rows[i..], amount, collected) == n
        invariant rest != [] ==> collected >= amount
        invariant AllIn(taken, tokens) && collected == Value(tokens, taken)
      {
        assert rows[i..][1..] == rows[i + 1..] && rows[..i + 1] == rows[..i] + [rows[i]];
        if collected < amount {
          taken := taken + [rows[i]];
          collected := collected + tokens[rows[i]].denom;
        } else {
          rest := rest + [rows[i]];
        }
      }
      assert taken + rest == rows;
    }

    // ---------- proof settlement ----------

    method SettlePayment(p: Proof, merchant: MerchantId, expired: bool, stl: SettlementId)
      returns (r: Outcome, ghost s: Step)
      requires Valid()
      modifies this`db
      ensures Valid() && s == SettleStep(p, merchant, expired, stl)
      ensures r == OutcomeOf(old(State()), s) && State() == Next(old(State()), s)
    {
      s := SettleStep(p, merchant, expired, stl);
      r := SettleRows(p, merchant, expired, stl);
      SettleTaken(old(State()), s, r, State());
    }

    method SettleRows(p: Proof, merchant: MerchantId, expired: bool, stl: SettlementId) returns (r: Outcome)
      modifies this`db
      ensures r == SettleOutcome(old(db), p, merchant, expired, stl)
      ensures db == if r == Done then SettleDb(old(db), p, stl) else old(db)
    {
      var saved := db;
      if p.merchant != merchant { return Refused(MerchantMismatch); }
      if expired { return Refused(ProofExpired); }
      var problem := CheckTokens(p.tokens);
      if problem != Done { return problem; }
      NoneRegistered(db.registry, p.tokens);
      var clash := RegisterTokens(p.tokens, Spend(p.tx, Some(stl)));
      if clash || p.tx !in db.txs || stl in db.settlements {
        db := saved;
        return Refused(IntegrityError);
      }
      db := db.(txs := db.txs[p.tx := db.txs[p.tx].(status := Succeeded)]);
      var fee := Fee(p.amount);
      db := db.(settlements := db.settlements[stl := Settlement(p.tx, p.merchant, p.amount, fee, p.amount - fee)]);
      r := Done;
    }

    // Stop at the first token without an id or with a registry row.
    method CheckTokens(ids: seq<TokenId>) returns (r: Outcome)
      ensures r == FirstProblem(db.registry, ids)
    {
      assert ids[0..] == ids;
      for i := 0 to |ids|
        invariant FirstProblem(db.registry, ids[i..]) == FirstProblem(db.registry, ids)
      {
        assert ids[i..][1..] == ids[i + 1..];
        if ids[i] == "" { return Refused(MalformedProof); }
        if ids[i] in db.registry { return Refused(DoubleSpend); }
      }
      r := Done;
    }

    // Register the tokens of a proof and settle those that exist; clash tells that a row could not
    // be inserted because its token is repeated or unknown.
    method RegisterTokens(ids: seq<TokenId>, spend: Spend) returns (clash: bool)
      requires forall i :: 0 <= i < |ids| ==> ids[i] !in db.registry
      modifies this`db
      ensures db == SettledDb(old(db), ids, spend)
      ensures clash == !Insertable(ids, old(db).tokens)
    {
      ghost var before := db;
      clash := false;
      NothingSettled(before, spend);
      for i := 0 to |ids|
        invariant db == SettledDb(before, ids[..i], spend)
        invariant clash == !Insertable(ids[..i], before.tokens)
      {
        assert ids[..i + 1] == ids[..i] + [ids[i]] && ids[i] !in before.registry;
        OneMoreSettledRow(before, ids[..i], ids[i], spend);
        var bad := RegisterToken(ids[i], spend);
        clash := clash || bad;
      }
      assert ids[..|ids|] == ids;
    }

    method RegisterToken(t: TokenId, spend: Spend) returns (bad: bool)
      modifies this`db
      ensures bad == (t in old(db).registry || t !in old(db).tokens)
      ensures db == SettledRow(old(db), t, spend)
    {
      bad := t in db.registry || t !in db.tokens;
      db := db.(registry := db.registry[t := spend]);
      if t in db.tokens {
        db := db.(tokens := db.tokens[t := db.tokens[t].(status := Settled)]);
      }
    }

    // ---------- sync ----------

    method TriggerSync(filter: Option<WalletId>, batch: nat) returns (reports: seq<Report>, ghost s: Step)
      requires Valid()
      modifies this`db
      ensures Valid() && s == SyncStep(filter, batch) && State() == Next(old(State()), s)
      ensures ReportsOn(reports, db, DueItems(old(db), filter, batch, 0))
    {
      s := SyncStep(filter, batch);
      var due := DueItems(db, filter, batch, 0);
      reports := ProcessItems(due);
      SyncTaken(old(State()), s, State());
    }

    method ProcessItems(due: seq<nat>) returns (reports: seq<Report>)
      requires Distinct(due) && forall j :: 0 <= j < |due| ==> due[j] < |db.queue|
      modifies this`db
      ensures db == SyncAll(old(db), due) && ReportsOn(reports, db, due)
    {
      reports := [];
      assert SyncAll(db, due[..0]) == db;
      for i := 0 to |due|
        invariant db == SyncAll(old(db), due[..i]) && ReportsOn(reports, db, due[..i])
      {
        assert due[..i + 1][..i] == due[..i] && due[i] !in due[..i];
        ReportsStay(reports, db, due[..i], due[i]);
        var report := ProcessSyncItem(due[i]);
        reports := reports + [report];
      }
      assert due[..|due|] == due;
    }

    method ProcessSyncItem(i: nat) returns (report: Report)
      requires i < |db.queue|
      modifies this`db
      ensures db == SyncOne(old(db), i) && i < |db.queue| && report == ReportAt(db, i)
    {
      var item := db.queue[i];
      if item.tx !in db.txs {
        var attempts := item.attempts + 1;
        var status := if attempts >= MAX_ATTEMPTS then SyncFailed else Queued;
        db := db.(queue := db.queue[i := SyncItem(item.tx, status, attempts)]);
        return Report(item.tx, if status == Queued then Retryable else GivenUp);
      }
      var tx := db.txs[item.tx];
      if tx.status == Succeeded {
        db := db.(queue := db.queue[i := item.(status := Completed)]);
        return Report(item.tx, Synced);
      }
      var clean := RegisterUnspent(tx.consumed, Spend(item.tx, None));
      if !clean {
        db := db.(txs := db.txs[item.tx := tx.(status := Failed)], queue := db.queue[i := item.(status := SyncFailed)]);
        return Report(item.tx, DoubleSpendDetected);
      }
      db := db.(txs := db.txs[item.tx := tx.(status := Succeeded)], queue := db.queue[i := item.(status := Completed)]);
      report := Report(item.tx, Synced);
    }

    // Register tokens one by one; the rows before a conflict stay.
    method RegisterUnspent(ids: seq<TokenId>, spend: Spend) returns (clean: bool)
      modifies this`db
      ensures (db.registry, clean) == RegisterUntilConflict(old(db).registry, ids, spend)
      ensures db == old(db).(registry := db.registry)
    {
      assert ids[0..] == ids;
      for i := 0 to |ids|
        invariant db == old(db).(registry := db.registry)
        invariant RegisterUntilConflict(old(db).registry, ids, spend)
             == RegisterUntilConflict(db.registry, ids[i..], spend)
      {
        assert ids[i..][1..] == ids[i + 1..];
        if ids[i] in db.registry { return false; }
        db := db.(registry := db.registry[ids[i] := spend]);
      }
      clean := true;
    }
  }

  datatype Verdict = Synced | DoubleSpendDetected | Retryable | GivenUp

  datatype Report = Report(payment: TxId, verdict: Verdict)

  // What the rows say about an item that was just processed.
  function ReportAt(db: Db, i: nat): Report
    requires i < |db.queue|
  {
    var item := db.queue[i];
    Report(item.tx, if item.status == Completed then Synced
                    else if item.tx in db.txs then DoubleSpendDetected
                    else if item.status == Queued then Retryable
                    else GivenUp)
  }

  // One report for each item processed, in order, that says what became of it.
  predicate ReportsOn(reports: seq<Report>, db: Db, due: seq<nat>) {
    && |reports| == |due|
    && forall j :: 0 <= j < |due| ==> due[j] < |db.queue| && reports[j] == ReportAt(db, due[j])
  }

  // Processing another item changes no report.
  lemma ReportsStay(reports: seq<Report>, db: Db, due: seq<nat>, k: nat)
    requires ReportsOn(reports, db, due) && k < |db.queue| && k !in due
    ensures ReportsOn(reports, SyncOne(db, k), due)
  {
    var b := SyncOne(db, k);
    assert b.txs.Keys == db.txs.Keys && |b.queue| == |db.queue|;
    forall j | 0 <= j < |due| ensures b.queue[due[j]] == db.queue[due[j]] { assert due[j] in due; }
  }

  ghost predicate AnyRegistered(registry: map<TokenId, Spend>, ids: seq<TokenId>) {
    exists i :: 0 <= i < |ids| && ids[i] in registry
  }

  lemma RegisteredInPrefix(registry: map<TokenId, Spend>, rows: seq<TokenId>, n: nat)
    requires n <= |rows|
    ensures AnyRegistered(registry, rows[..n]) <==> exists i :: 0 <= i < n && rows[i] in registry
  {
    assert forall i :: 0 <= i < n ==> rows[..n][i] == rows[i];
  }

  // What the program draws for one payment: the hash it signs, new keys, nonces and the time.
  datatype Draw = Draw(txHash: SE.Bytes, key: nat -> SE.SigningKey, nonce: nat -> SE.Bytes, now: int)

  // The request gets as far as choosing tokens.
  predicate ReachesSelection(db: Db, wallet: WalletId, amount: int) {
    wallet in db.wallets && db.wallets[wallet].offline >= amount
  }

  // ---------- requests are steps ----------

  lemma TopUpTaken(w: World, s: Step, r: Outcome, b: World)
    requires Safe(w) && s.TopUpStep? && Legal(w, s)
    requires r == TopUpOutcome(w.db, s.wallet, s.amount, s.allocation, s.id, s.minted)
    requires b == w.(db := if r == Done then TopUpDb(w.db, s.wallet, s.amount, s.allocation, s.id, s.minted) else w.db)
    ensures r == OutcomeOf(w, s) && b == Next(w, s) && Safe(b)
  {
    StepIsSafe(w, s);
  }

  lemma PayOnlineTaken(w: World, s: Step, r: Outcome, b: World)
    requires Safe(w) && s.PayOnlineStep? && Legal(w, s)
    requires r == PayOnlineOutcome(w.db, s.wallet, s.amount, s.tx)
    requires b == w.(db := if r == Done then PayOnlineDb(w.db, s.wallet, s.merchant, s.amount, s.tx) else w.db)
    ensures r == OutcomeOf(w, s) && b == Next(w, s) && Safe(b)
  {
    StepIsSafe(w, s);
  }

  lemma PayOfflineTaken(w: World, s: Step, r: Outcome, b: World)
    requires Safe(w) && s.PayOfflineStep? && s.amount > 0
    requires s.selected.Some? ==> BestPayment(w.db.tokens, s.wallet, s.amount, s.selected.value)
    requires s.selected.Some? ==> ReachesSelection(w.db, s.wallet, s.amount)
    requires r == PayOfflineOutcome(w, s.wallet, s.amount, s.tx, s.selected)
    requires b.db
         == if r == Done then PayOfflineDb(w.db, s.wallet, s.merchant, s.amount, s.tx, s.selected.value) else w.db
    requires b.keys == if s.selected.Some? then SpendKeys(w.keys, s.selected.value).0 else w.keys
    requires b.emitted
         == if r == Done then w.emitted + {Proof(s.tx, s.merchant, s.amount, s.selected.value)} else w.emitted
    requires b.credited == w.credited
    ensures Legal(w, s) && r == OutcomeOf(w, s) && b == Next(w, s) && Safe(b)
  {
    StepIsSafe(w, s);
  }

  lemma LockTaken(w: World, s: Step, r: Outcome, b: World)
    requires Safe(w) && s.LockStep? && s.amount > 0
    requires s.selected.Some? ==> FewestLocked(w.db.tokens, s.wallet, s.amount, s.selected.value)
    requires r == LockOutcome(w.db, s.wallet, s.amount, s.selected)
    requires b == w.(db := if r == Done then LockDb(w.db, s.wallet, s.selected.value, s.code) else w.db)
    ensures Legal(w, s) && r == OutcomeOf(w, s) && b == Next(w, s) && Safe(b)
  {
    StepIsSafe(w, s);
  }

  lemma RedeemTaken(w: World, s: Step, r: Outcome, b: World)
    requires Safe(w) && s.RedeemStep? && s.amount > 0
    requires FoundBy(w.db.tokens, s.rows, s.code) && AllIn(s.rows, w.db.tokens)
    requires r == RedeemOutcome(w.db, s.amount, s.rows, s.tx, s.stl)
    requires b.db
         == if r == Done then RedeemDb(w.db, s.merchant, s.amount, s.code, s.payee, s.rows, s.tx, s.stl) else w.db
    requires b.keys == w.keys && b.emitted == w.emitted
    requires b.credited == if r == Done then w.credited + Credit(w.db, s.amount, s.payee) else w.credited
    ensures Legal(w, s) && r == OutcomeOf(w, s) && b == Next(w, s) && Safe(b)
  {
    StepIsSafe(w, s);
  }

  lemma SettleTaken(w: World, s: Step, r: Outcome, b: World)
    requires Safe(w) && s.SettleStep? && r == SettleOutcome(w.db, s.proof, s.merchant, s.expired, s.stl)
    requires b == w.(db := if r == Done then SettleDb(w.db, s.proof, s.stl) else w.db)
    ensures Legal(w, s) && r == OutcomeOf(w, s) && b == Next(w, s) && Safe(b)
  {
    StepIsSafe(w, s);
  }

  lemma SyncTaken(w: World, s: Step, b: World)
    requires Safe(w) && s.SyncStep? && b == w.(db := SyncDb(w.db, s.filter, s.batch))
    ensures Legal(w, s) && b == Next(w, s) && Safe(b)
  {
    StepIsSafe(w, s);
  }

  // ---------- lemmas about settled rows ----------

  function SettledDb(db: Db, ids: seq<TokenId>, spend: Spend): Db {
    db.(registry := Register(db.registry, ids, spend), tokens := Settle(db.tokens, ids))
  }

  lemma NothingSettled(db: Db, spend: Spend)
    ensures SettledDb(db, [], spend) == db
  {
    assert Settle(db.tokens, []) == db.tokens && Register(db.registry, [], spend) == db.registry;
  }

  // Registry rows for these tokens violate no key.
  predicate Insertable(ids: seq<TokenId>, tokens: map<TokenId, Token>) { Distinct(ids) && AllIn(ids, tokens) }

  function SettledRow(db: Db, t: TokenId, spend: Spend): Db {
    db.(registry := db.registry[t := spend],
        tokens := if t in db.tokens then db.tokens[t := db.tokens[t].(status := Settled)] else db.tokens)
  }

  lemma OneMoreSettledRow(db: Db, ids: seq<TokenId>, t: TokenId, spend: Spend)
    requires t !in db.registry
    ensures var a := SettledDb(db, ids, spend);
            && (t in a.registry <==> t in ids) && (t in a.tokens <==> t in db.tokens)
            && SettledDb(db, ids + [t], spend) == SettledRow(a, t, spend)
    ensures Insertable(ids + [t], db.tokens) <==> Insertable(ids, db.tokens) && t !in ids && t in db.tokens
  {
    OneMoreRegistered(db.registry, ids, t, spend);
    OneMoreStatus(db.tokens, ids, t);
    DistinctButLast(ids, t);
    AllInLast(db.tokens, ids, t);
  }

  lemma OneMoreStatus(tokens: map<TokenId, Token>, ids: seq<TokenId>, t: TokenId)
    ensures var a := Settle(tokens, ids);
            Settle(tokens, ids + [t]) == if t in a then a[t := a[t].(status := Settled)] else a
  {
  }

  lemma AllInLast(tokens: map<TokenId, Token>, ids: seq<TokenId>, t: TokenId)
    ensures AllIn(ids + [t], tokens) <==> AllIn(ids, tokens) && t in tokens
  {
    var all := ids + [t];
    forall i | 0 <= i < |ids| ensures all[i] == ids[i] { }
    assert all[|ids|] == t;
  }

  // ---------- lemmas about codes ----------

  // The unlocked rows of the wallet cover the amount with ids, in descending order, and no choice
  // of fewer rows does.
  ghost predicate FewestLocked(tokens: map<TokenId, Token>, wallet: WalletId, amount: int, ids: seq<TokenId>) {
    && Lockable(tokens, wallet, ids)
    && CoversTightly(tokens, ids, amount)
    && forall other :: Lockable(tokens, wallet, other) && AllIn(other, tokens) && Value(tokens, other) >= amount ==>
         |ids| <= |other|
  }

  ghost predicate NothingUnlockedCovers(tokens: map<TokenId, Token>, wallet: WalletId, amount: int) {
    forall other :: Lockable(tokens, wallet, other) && AllIn(other, tokens) ==> Value(tokens, other) < amount
  }

  lemma NoCodeCovers(tokens: map<TokenId, Token>, wallet: WalletId, amount: int, rows: seq<TokenId>)
    requires Distinct(rows) && AllIn(rows, tokens) && Ordered(tokens, rows, false)
    requires forall t :: t in rows <==>
              t in tokens && tokens[t].wallet == wallet && tokens[t].status == Minted && tokens[t].otp == NoCode
    requires var n := Needed(tokens, rows, amount, 0);
             AllIn(rows[..n], tokens) && Value(tokens, rows[..n]) < amount
    ensures NothingUnlockedCovers(tokens, wallet, amount)
  {
    forall other | Lockable(tokens, wallet, other) && AllIn(other, tokens) ensures Value(tokens, other) < amount {
      LargestFirst(tokens, rows, other);
      PrefixValue(tokens, rows, |other|, |rows|);
      assert rows[..|rows|] == rows;
      if Value(tokens, rows) >= amount { NeededCovers(tokens, rows, amount, 0); }
    }
  }

  lemma PrefixIsLockable(tokens: map<TokenId, Token>, wallet: WalletId, rows: seq<TokenId>, ids: seq<TokenId>)
    requires Distinct(rows) && ids <= rows
    requires forall t :: t in rows <==>
              t in tokens && tokens[t].wallet == wallet && tokens[t].status == Minted && tokens[t].otp == NoCode
    ensures Lockable(tokens, wallet, ids)
  {
    forall i | 0 <= i < |ids| ensures ids[i] in rows { assert ids[i] == rows[i]; }
  }

  lemma FewestAreLocked(tokens: map<TokenId, Token>, wallet: WalletId, amount: int, rows: seq<TokenId>,
                        ids: seq<TokenId>)
    requires Distinct(rows) && AllIn(rows, tokens) && Ordered(tokens, rows, false)
    requires forall t :: t in rows <==>
              t in tokens && tokens[t].wallet == wallet && tokens[t].status == Minted && tokens[t].otp == NoCode
    requires ids == rows[..Needed(tokens, rows, amount, 0)] && AllIn(ids, tokens) && Value(tokens, ids) >= amount
    ensures FewestLocked(tokens, wallet, amount, ids)
  {
    PrefixIsLockable(tokens, wallet, rows, ids);
    PrefixValue(tokens, rows, |ids|, |rows|);
    assert rows[..|rows|] == rows;
    GenerationCoversTightly(tokens, rows, amount, ids);
    forall other | Lockable(tokens, wallet, other) && AllIn(other, tokens) && Value(tokens, other) >= amount
      ensures |ids| <= |other|
    {
      GenerationLocksFewest(tokens, rows, amount, other);
    }
  }

  function RedeemedDb(db: Db, ids: seq<TokenId>, code: string, spend: Spend): Db {
    db.(registry := Register(db.registry, ids, spend), tokens := Redeem(db.tokens, ids, code))
  }

  lemma NothingRedeemed(db: Db, code: string, spend: Spend)
    ensures RedeemedDb(db, [], code, spend) == db
  {
    assert Redeem(db.tokens, [], code) == db.tokens && Register(db.registry, [], spend) == db.registry;
  }

  lemma OneMoreRedeemed(db: Db, ids: seq<TokenId>, n: nat, code: string, spend: Spend)
    requires AllIn(ids, db.tokens) && Distinct(ids) && n < |ids|
    ensures var a, t := RedeemedDb(db, ids[..n], code, spend), ids[n];
            && t in a.tokens && (t in a.registry <==> t in db.registry)
            && RedeemedDb(db, ids[..n + 1], code, spend)
               == a.(registry := a.registry[t := spend],
                     tokens := a.tokens[t := a.tokens[t].(status := Settled, otp := Redeemed(code))])
  {
    assert ids[..n + 1] == ids[..n] + [ids[n]];
    assert ids[n] !in ids[..n];
    OneMoreRegistered(db.registry, ids[..n], ids[n], spend);
    OneMoreSettled(db.tokens, ids[..n], ids[n], code);
  }

  lemma OneMoreRegistered(registry: map<TokenId, Spend>, ids: seq<TokenId>, t: TokenId, spend: Spend)
    ensures Register(registry, ids + [t], spend) == Register(registry, ids, spend)[t := spend]
  {
  }

  lemma OneMoreSettled(tokens: map<TokenId, Token>, ids: seq<TokenId>, t: TokenId, code: string)
    requires t in tokens && t !in ids
    ensures Redeem(tokens, ids + [t], code)
         == Redeem(tokens, ids, code)[t := tokens[t].(status := Settled, otp := Redeemed(code))]
  {
  }

  lemma SortedAreFound(tokens: map<TokenId, Token>, found: seq<TokenId>, rows: seq<TokenId>, code: string)
    requires Distinct(rows) && AllIn(rows, tokens) && Ordered(tokens, rows, true)
    requires forall t :: t in rows <==> t in found
    requires forall t :: t in found <==> t in tokens && tokens[t].status == Minted && tokens[t].otp == Live(code)
    ensures FoundBy(tokens, rows, code)
  {
    forall i | 0 <= i < |rows| ensures Carries(tokens, rows[i], code) { assert rows[i] in rows; }
    forall i, j | 0 <= i < j < |rows| ensures tokens[rows[i]].denom <= tokens[rows[j]].denom {
      assert InOrder(tokens, rows[i], rows[j], true);
    }
  }

  // ---------- lemmas about minted rows ----------

  lemma {:induction false} SmallChange(allocation: int) returns (minted: seq<MintedToken>)
    requires allocation >= 0
    ensures AllValid(minted) && Total(minted) == allocation - allocation % 500 && "" !in MintedIds(minted)
    decreases allocation
  {
    if allocation < 500 {
      minted := [];
    } else {
      var rest := SmallChange(allocation - 500);
      minted := [MintedToken("small", 500)] + rest;
      assert MintedIds(minted) == ["small"] + MintedIds(rest);
    }
  }

  lemma LabelsAreNotEmpty(minted: seq<MintedToken>, freshId: nat -> TokenId)
    requires Labelled(minted, freshId) && forall i :: freshId(i) != ""
    ensures "" !in MintedIds(minted)
  {
  }

  ghost predicate Taken(tokens: map<TokenId, Token>, minted: seq<MintedToken>, clash: bool) {
    clash <==> (!Distinct(MintedIds(minted)) || exists i :: 0 <= i < |minted| && minted[i].id in tokens)
  }

  lemma OneIdMore(tokens: map<TokenId, Token>, wallet: WalletId, minted: seq<MintedToken>, n: nat, clash: bool)
    requires n < |minted| && Taken(tokens, minted[..n], clash)
    ensures Taken(tokens, minted[..n + 1], clash || minted[n].id in AddTokens(tokens, wallet, minted[..n]))
  {
    var init := minted[..n];
    AddedKeys(tokens, wallet, init);
    assert minted[..n + 1] == init + [minted[n]];
    assert MintedIds(minted[..n + 1]) == MintedIds(init) + [minted[n].id];
    DistinctButLast(MintedIds(init), minted[n].id);
  }
}
