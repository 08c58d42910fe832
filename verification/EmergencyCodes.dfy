// The life of an emergency code: generation locks as few tokens as can cover the amount,
// redemption splits their value into what is consumed and what is refunded, and a redeemed code
// finds nothing any more.

module EmergencyCodes {
  import opened Lists
  import opened Coins
  import opened Sorting
  import opened LedgerState
  import opened LedgerSteps
  import opened LedgerSafety
  import opened LedgerAgreement
  import opened LedgerBooks
  import opened LedgerSolvency
  import opened LedgerRuns

  // ---------- rows in order of denomination ----------

  predicate InOrder(tokens: map<TokenId, Token>, s: TokenId, t: TokenId, ascending: bool)
    requires s in tokens && t in tokens
  {
    if ascending then tokens[s].denom <= tokens[t].denom else tokens[s].denom >= tokens[t].denom
  }

  predicate Ordered(tokens: map<TokenId, Token>, ids: seq<TokenId>, ascending: bool)
    requires AllIn(ids, tokens)
  {
    forall i, j :: 0 <= i < j < |ids| ==> InOrder(tokens, ids[i], ids[j], ascending)
  }

  function RowKey(tokens: map<TokenId, Token>, ascending: bool): TokenId -> int {
    (t: TokenId) => if t !in tokens then 0 else if ascending then tokens[t].denom else -(tokens[t].denom as int)
  }

  function SortRows(tokens: map<TokenId, Token>, ids: seq<TokenId>, ascending: bool): seq<TokenId> {
    SortBy(ids, RowKey(tokens, ascending))
  }

  lemma SortIsOrdered(tokens: map<TokenId, Token>, ids: seq<TokenId>, ascending: bool)
    requires AllIn(ids, tokens) && Distinct(ids)
    ensures var sorted := SortRows(tokens, ids, ascending);
            && (forall t :: t in sorted <==> t in ids) && AllIn(sorted, tokens)
            && Ordered(tokens, sorted, ascending) && Distinct(sorted)
  {
    var sorted, key := SortRows(tokens, ids, ascending), RowKey(tokens, ascending);
    SortIsSorted(ids, key);
    forall i | 0 <= i < |sorted| ensures sorted[i] in tokens { assert sorted[i] in ids; }
    forall i, j | 0 <= i < j < |sorted| ensures InOrder(tokens, sorted[i], sorted[j], ascending) {
      assert key(sorted[i]) <= key(sorted[j]);
    }
  }

  // ---------- values of lists of rows ----------

  lemma {:induction false} ValueSplit(tokens: map<TokenId, Token>, a: seq<TokenId>, b: seq<TokenId>)
    requires AllIn(a, tokens) && AllIn(b, tokens)
    ensures AllIn(a + b, tokens) && Value(tokens, a + b) == Value(tokens, a) + Value(tokens, b)
    decreases |b|
  {
    if b == [] {
      assert a + b == a;
    } else {
      var init := b[..|b| - 1];
      ValueSplit(tokens, a, init);
      assert (a + b)[..|a + b| - 1] == a + init;
    }
  }

  lemma RemoveRow(tokens: map<TokenId, Token>, ids: seq<TokenId>, t: TokenId) returns (rest: seq<TokenId>)
    requires AllIn(ids, tokens) && Distinct(ids) && t in ids
    ensures |rest| == |ids| - 1 && Distinct(rest) && AllIn(rest, tokens)
    ensures forall x :: x in rest <==> x in ids && x != t
    ensures Value(tokens, ids) == Value(tokens, rest) + tokens[t].denom
  {
    var i :| 0 <= i < |ids| && ids[i] == t;
    rest := ids[..i] + ids[i + 1..];
    ValueWithout(tokens, ids, i);
    assert ids == ids[..i] + [t] + ids[i + 1..];
  }

  lemma ValueWithout(tokens: map<TokenId, Token>, ids: seq<TokenId>, i: nat)
    requires AllIn(ids, tokens) && i < |ids|
    ensures AllIn(ids[..i] + ids[i + 1..], tokens)
    ensures Value(tokens, ids) == Value(tokens, ids[..i] + ids[i + 1..]) + tokens[ids[i]].denom
  {
    var before, after := ids[..i], ids[i + 1..];
    assert ids[..i + 1][..i] == before;
    assert ids == ids[..i + 1] + after;
    ValueSplit(tokens, before, after);
    ValueSplit(tokens, ids[..i + 1], after);
  }

  lemma {:induction false} SameRowsSameValue(tokens: map<TokenId, Token>, a: seq<TokenId>, b: seq<TokenId>)
    requires AllIn(a, tokens) && AllIn(b, tokens) && Distinct(a) && Distinct(b)
    requires forall t :: t in a <==> t in b
    ensures |a| == |b| && Value(tokens, a) == Value(tokens, b)
    decreases |a|
  {
    assert b != [] ==> b[0] in a;
    if a == [] {
    } else {
      var init, t := a[..|a| - 1], a[|a| - 1];
      var rest := RemoveRow(tokens, b, t);
      assert a == init + [t] && t !in init;
      SameRowsSameValue(tokens, init, rest);
    }
  }

  lemma {:induction false} PrefixValue(tokens: map<TokenId, Token>, ids: seq<TokenId>, m: nat, n: nat)
    requires AllIn(ids, tokens) && m <= n <= |ids|
    ensures Value(tokens, ids[..m]) <= Value(tokens, ids[..n])
  {
    ValueSplit(tokens, ids[..m], ids[m..n]);
    assert ids[..m] + ids[m..n] == ids[..n];
  }

  // ---------- generation ----------

  // Nothing shorter than the rows taken covers the amount.
  lemma {:induction false} NeededIsMinimal(tokens: map<TokenId, Token>, rows: seq<TokenId>, amount: int,
                                           collected: int, m: nat)
    requires AllIn(rows, tokens) && m < Needed(tokens, rows, amount, collected)
    ensures collected + Value(tokens, rows[..m]) < amount
    decreases |rows|
  {
    if m == 0 {
    } else {
      NeededIsMinimal(tokens, rows[1..], amount, collected + tokens[rows[0]].denom, m - 1);
      ValueFirst(tokens, rows[..m]);
      assert rows[..m][1..] == rows[1..][..m - 1];
    }
  }

  lemma OneRowMore(tokens: map<TokenId, Token>, rows: seq<TokenId>, m: nat)
    requires AllIn(rows, tokens) && Ordered(tokens, rows, false) && m < |rows|
    ensures rows[..m] == rows[..|rows| - 1][..m]
    ensures Value(tokens, rows[..m + 1]) >= Value(tokens, rows[..m]) + tokens[rows[|rows| - 1]].denom
  {
    assert rows[..m + 1][..m] == rows[..m];
    if m < |rows| - 1 { assert InOrder(tokens, rows[m], rows[|rows| - 1], false); }
  }

  // The first rows in descending order are worth as much as any other choice of that many rows.
  lemma {:induction false} LargestFirst(tokens: map<TokenId, Token>, rows: seq<TokenId>, other: seq<TokenId>)
    requires AllIn(rows, tokens) && Ordered(tokens, rows, false)
    requires Distinct(other) && (forall t :: t in other ==> t in rows) && AllIn(other, tokens)
    ensures |other| <= |rows| && Value(tokens, other) <= Value(tokens, rows[..|other|])
    decreases |rows|
  {
    assert other != [] ==> other[0] in rows;
    if rows == [] {
    } else {
      var init, x := rows[..|rows| - 1], rows[|rows| - 1];
      assert rows == init + [x];
      if x in other {
        var rest := RemoveRow(tokens, other, x);
        LargestFirst(tokens, init, rest);
        OneRowMore(tokens, rows, |rest|);
      } else {
        LargestFirst(tokens, init, other);
        assert rows[..|other|] == init[..|other|];
      }
    }
  }

  // Taking the largest rows until they cover the amount takes as few as possible.
  lemma GenerationLocksFewest(tokens: map<TokenId, Token>, rows: seq<TokenId>, amount: int, other: seq<TokenId>)
    requires AllIn(rows, tokens) && Ordered(tokens, rows, false)
    requires Distinct(other) && (forall t :: t in other ==> t in rows) && AllIn(other, tokens)
    requires Value(tokens, other) >= amount
    ensures Needed(tokens, rows, amount, 0) <= |other|
  {
    LargestFirst(tokens, rows, other);
    if |other| < Needed(tokens, rows, amount, 0) {
      NeededIsMinimal(tokens, rows, amount, 0, |other|);
    }
  }

  // What generation locks: rows in descending order that cover the amount, not without the last.
  ghost predicate CoversTightly(tokens: map<TokenId, Token>, ids: seq<TokenId>, amount: int) {
    && AllIn(ids, tokens)
    && Ordered(tokens, ids, false)
    && Value(tokens, ids) >= amount
    && (ids != [] ==> Value(tokens, ids[..|ids| - 1]) < amount)
  }

  lemma GenerationCoversTightly(tokens: map<TokenId, Token>, rows: seq<TokenId>, amount: int, ids: seq<TokenId>)
    requires AllIn(rows, tokens) && Ordered(tokens, rows, false) && Value(tokens, rows) >= amount
    requires ids == rows[..Needed(tokens, rows, amount, 0)]
    ensures CoversTightly(tokens, ids, amount)
  {
    NeededCovers(tokens, rows, amount, 0);
    if ids != [] {
      NeededIsMinimal(tokens, rows, amount, 0, |ids| - 1);
      assert ids[..|ids| - 1] == rows[..|ids| - 1];
    }
  }

  // ---------- redemption ----------

  lemma LastIsLargest(tokens: map<TokenId, Token>, rows: seq<TokenId>, t: TokenId)
    requires AllIn(rows, tokens) && Ordered(tokens, rows, true) && t in rows
    ensures tokens[t].denom <= tokens[rows[|rows| - 1]].denom
  {
    var i :| 0 <= i < |rows| && rows[i] == t;
    if i < |rows| - 1 { assert InOrder(tokens, rows[i], rows[|rows| - 1], true); }
  }

  // If all rows but the last do not cover the amount, no shorter prefix does.
  lemma PrefixBelow(tokens: map<TokenId, Token>, rows: seq<TokenId>, amount: int, n: nat)
    requires AllIn(rows, tokens) && rows != [] && Value(tokens, rows[..|rows| - 1]) < amount
    requires n <= |rows| && Value(tokens, rows[..n]) >= amount
    ensures n == |rows|
  {
    if n < |rows| {
      PrefixValue(tokens, rows, n, |rows| - 1);
      assert false;
    }
  }

  // Redeeming the generated amount needs every locked row, whichever way they are sorted.
  lemma FullRedemptionNeedsAll(tokens: map<TokenId, Token>, ids: seq<TokenId>, rows: seq<TokenId>, amount: int)
    requires CoversTightly(tokens, ids, amount) && Distinct(ids)
    requires AllIn(rows, tokens) && Distinct(rows) && Ordered(tokens, rows, true)
    requires forall t :: t in rows <==> t in ids
    ensures Needed(tokens, rows, amount, 0) == |rows| && Value(tokens, rows) >= amount
  {
    SameRowsSameValue(tokens, rows, ids);
    NeededCovers(tokens, rows, amount, 0);
    if rows != [] {
      LastIsLargest(tokens, rows, ids[|ids| - 1]);
      PrefixBelow(tokens, rows, amount, Needed(tokens, rows, amount, 0));
    }
  }

  // What is consumed and what is refunded add up to what the code locked, and the last row
  // consumed was needed.
  lemma RedemptionSplits(tokens: map<TokenId, Token>, rows: seq<TokenId>, amount: int, n: nat)
    requires AllIn(rows, tokens) && Value(tokens, rows) >= amount > 0 && n == Needed(tokens, rows, amount, 0)
    ensures 0 < n <= |rows| && AllIn(rows[..n], tokens) && AllIn(rows[n..], tokens)
    ensures Value(tokens, rows[..n]) + Value(tokens, rows[n..]) == Value(tokens, rows)
    ensures amount <= Value(tokens, rows[..n]) < amount + tokens[rows[n - 1]].denom
  {
    NeededCovers(tokens, rows, amount, 0);
    NeededIsMinimal(tokens, rows, amount, 0, n - 1);
    assert rows[..n] + rows[n..] == rows && rows[..n][..n - 1] == rows[..n - 1];
    ValueSplit(tokens, rows[..n], rows[n..]);
  }

  ghost predicate FreshIds(db: Db, tx: TxId, stl: SettlementId) { tx !in db.txs && stl !in db.settlements }

  // Redemption succeeds exactly when the code finds enough value and the refund, returned to the
  // payer's offline balance, stays within the allowance.
  lemma RedemptionSucceedsWhen(db: Db, code: string, rows: seq<TokenId>, amount: int, tx: TxId, stl: SettlementId,
                               n: nat)
    requires DbSafe(db) && FoundBy(db.tokens, rows, code) && AllIn(rows, db.tokens) && FreshIds(db, tx, stl)
    requires amount > 0
    requires n == Needed(db.tokens, rows, amount, 0)
    ensures RedeemOutcome(db, amount, rows, tx, stl) == Done <==>
            && rows != [] && Value(db.tokens, rows) >= amount
            && (var payer := db.tokens[rows[0]].wallet;
                payer in db.wallets
                && db.wallets[payer].offline + Value(db.tokens, rows[n..]) <= db.wallets[payer].allowance)
  {
    RedeemNeverCollides(db, code, rows);
    if rows != [] { RefundChecked(db, rows, n, db.tokens[rows[0]].wallet); }
  }

  lemma RefundChecked(db: Db, rows: seq<TokenId>, n: nat, payer: WalletId)
    requires WalletsChecked(db.wallets) && AllIn(rows, db.tokens) && n <= |rows| && rows != []
    requires payer == db.tokens[rows[0]].wallet && payer in db.wallets
    ensures WalletsChecked(RefundWallets(db, rows, n)) <==>
            db.wallets[payer].offline + Value(db.tokens, rows[n..]) <= db.wallets[payer].allowance
  {
    var b := RefundWallets(db, rows, n);
    assert payer in b && b[payer].offline == db.wallets[payer].offline + Value(db.tokens, rows[n..]);
  }

  // ---------- a generated code over runs ----------

  ghost predicate SameCarriers(a: map<TokenId, Token>, b: map<TokenId, Token>, code: string) {
    forall t :: Carries(a, t, code) <==> Carries(b, t, code)
  }

  // The step neither issues nor redeems the code; a refused attempt does no harm.
  ghost predicate KeepsCode(w: World, s: Step, code: string) {
    && Honest(w, s)
    && ((s.LockStep? || s.RedeemStep?) && s.code == code ==> OutcomeOf(w, s) != Done)
  }

  ghost predicate KeepsCodeRun(w: World, steps: seq<Step>, code: string)
    decreases |steps|
  {
    steps == [] || (KeepsCode(w, steps[0], code) && KeepsCodeRun(Next(w, steps[0]), steps[1..], code))
  }

  // The step is an offline payment that goes through with a token of the code.
  ghost predicate PaysWithCode(w: World, s: Step, code: string)
    requires Legal(w, s)
  {
    s.PayOfflineStep? && OutcomeOf(w, s) == Done && exists t :: t in s.selected.value && Carries(w.db.tokens, t, code)
  }

  ghost predicate RunPaysWithCode(w: World, steps: seq<Step>, code: string)
    requires LegalRun(w, steps)
    decreases |steps|
  {
    steps != [] && (PaysWithCode(w, steps[0], code) || RunPaysWithCode(Next(w, steps[0]), steps[1..], code))
  }

  lemma TopUpLeavesCode(tokens: map<TokenId, Token>, wallet: WalletId, minted: seq<MintedToken>, code: string)
    requires Distinct(MintedIds(minted)) && forall i :: 0 <= i < |minted| ==> minted[i].id !in tokens
    ensures SameCarriers(tokens, AddTokens(tokens, wallet, minted), code)
  {
    var b := AddTokens(tokens, wallet, minted);
    AddedTokens(tokens, wallet, minted);
    forall t | t in b && t !in tokens ensures b[t].otp == NoCode {
      var i :| 0 <= i < |minted| && MintedIds(minted)[i] == t;
    }
  }

  lemma RedeemLeavesCode(tokens: map<TokenId, Token>, rows: seq<TokenId>, n: nat, other: string, code: string)
    requires FoundBy(tokens, rows, other) && n <= |rows| && code != other
    ensures SameCarriers(tokens, Unlock(Redeem(tokens, rows[..n], other), rows[n..]), code)
  {
    forall t | t in rows ensures !Carries(tokens, t, code) {
      var i :| 0 <= i < |rows| && rows[i] == t;
      assert Carries(tokens, rows[i], other);
    }
    assert forall t :: t in rows[..n] || t in rows[n..] ==> t in rows;
  }

  lemma SettleLeavesCode(w: World, p: Proof, code: string)
    requires Agreed(w) && p in w.emitted
    ensures SameCarriers(w.db.tokens, Settle(w.db.tokens, p.tokens), code)
  {
    forall t | t in p.tokens ensures Gone(w.db.tokens, t) {
      var i :| 0 <= i < |p.tokens| && p.tokens[i] == t;
      assert Gone(w.db.tokens, w.db.txs[p.tx].consumed[i]);
    }
  }

  // A payment takes the tokens it spends out of the code.
  lemma PaymentLeavesCode(w: World, s: Step, code: string)
    requires s.PayOfflineStep? && Legal(w, s)
    ensures !PaysWithCode(w, s, code) ==> SameCarriers(w.db.tokens, Next(w, s).db.tokens, code)
    ensures PaysWithCode(w, s, code) ==> FewerCarriers(w.db.tokens, Next(w, s).db.tokens, code)
  {
    if OutcomeOf(w, s) == Done {
      PaidTokensLeave(w.db.tokens, s.wallet, s.selected.value, s.tx, code);
    }
  }

  ghost predicate FewerCarriers(a: map<TokenId, Token>, b: map<TokenId, Token>, code: string) {
    && (forall t :: Carries(b, t, code) ==> Carries(a, t, code))
    && exists t :: Carries(a, t, code) && !Carries(b, t, code)
  }

  lemma PaidTokensLeave(tokens: map<TokenId, Token>, wallet: WalletId, ids: seq<TokenId>, tx: TxId, code: string)
    requires Spendable(tokens, wallet, ids)
    ensures var b, paid := MarkSpent(tokens, ids, tx), exists t :: t in ids && Carries(tokens, t, code);
            && (!paid ==> SameCarriers(tokens, b, code))
            && (paid ==> FewerCarriers(tokens, b, code))
  {
    var b := MarkSpent(tokens, ids, tx);
    forall t ensures Carries(b, t, code) <==> Carries(tokens, t, code) && t !in ids { }
  }

  lemma LockLeavesCode(tokens: map<TokenId, Token>, wallet: WalletId, ids: seq<TokenId>, other: string, code: string)
    requires Lockable(tokens, wallet, ids) && code != other
    ensures SameCarriers(tokens, Lock(tokens, ids, other), code)
  {
  }

  lemma StepLeavesCode(w: World, s: Step, code: string)
    requires Agreed(w) && KeepsCode(w, s, code)
    ensures !PaysWithCode(w, s, code) ==> SameCarriers(w.db.tokens, Next(w, s).db.tokens, code)
    ensures PaysWithCode(w, s, code) ==> FewerCarriers(w.db.tokens, Next(w, s).db.tokens, code)
  {
    if s.PayOfflineStep? {
      PaymentLeavesCode(w, s, code);
    } else if OutcomeOf(w, s) == Done {
      OtherStepsLeaveCode(w, s, code);
    }
  }

  lemma OtherStepsLeaveCode(w: World, s: Step, code: string)
    requires Agreed(w) && KeepsCode(w, s, code) && !s.PayOfflineStep? && OutcomeOf(w, s) == Done
    ensures SameCarriers(w.db.tokens, Next(w, s).db.tokens, code)
  {
    match s
    case CreateWalletStep(_, _) =>
    case TopUpStep(wallet, _, _, _, minted) => TopUpLeavesCode(w.db.tokens, wallet, minted, code);
    case PayOnlineStep(_, _, _, _) =>
    case LockStep(wallet, _, other, selected) => LockLeavesCode(w.db.tokens, wallet, selected.value, other, code);
    case RedeemStep(_, amount, other, _, rows, _, _) =>
      var n := Needed(w.db.tokens, rows, amount, 0);
      RedeemStepParts(w, s, Next(w, s).db, n);
      RedeemLeavesCode(w.db.tokens, rows, n, other, code);
    case SettleStep(p, _, _, _) => SettleLeavesCode(w, p, code);
    case SyncStep(_, _) => SyncStepKeepsRows(w, s, Next(w, s).db);
  }

  // Over a run the code keeps its tokens, or loses some for good to payments.
  lemma {:induction false} RunLeavesCode(w: World, steps: seq<Step>, code: string)
    requires Sound(w) && KeepsCodeRun(w, steps, code)
    ensures LegalRun(w, steps) && Sound(After(w, steps)) && Grows(w, After(w, steps))
    ensures !RunPaysWithCode(w, steps, code) ==> SameCarriers(w.db.tokens, After(w, steps).db.tokens, code)
    ensures RunPaysWithCode(w, steps, code) ==> FewerCarriers(w.db.tokens, After(w, steps).db.tokens, code)
    decreases |steps|
  {
    if steps == [] {
    } else {
      var v := Next(w, steps[0]);
      StepIsSound(w, steps[0]);
      StepIsSafe(w, steps[0]);
      StepLeavesCode(w, steps[0], code);
      RunLeavesCode(v, steps[1..], code);
      GrowsTransitive(w, v, After(v, steps[1..]));
      CarriersCompose(w.db.tokens, v.db.tokens, After(v, steps[1..]).db.tokens, code);
    }
  }

  lemma CarriersCompose(a: map<TokenId, Token>, b: map<TokenId, Token>, c: map<TokenId, Token>, code: string)
    requires SameCarriers(a, b, code) || FewerCarriers(a, b, code)
    requires SameCarriers(b, c, code) || FewerCarriers(b, c, code)
    ensures SameCarriers(a, b, code) && SameCarriers(b, c, code) ==> SameCarriers(a, c, code)
    ensures FewerCarriers(a, b, code) || FewerCarriers(b, c, code) ==> FewerCarriers(a, c, code)
  {
    if FewerCarriers(a, b, code) {
      var t :| Carries(a, t, code) && !Carries(b, t, code);
      assert !Carries(c, t, code);
    } else if FewerCarriers(b, c, code) {
      var t :| Carries(b, t, code) && !Carries(c, t, code);
      assert Carries(a, t, code);
    }
  }

  lemma RunKeepsOrLoses(w: World, steps: seq<Step>, code: string, ids: seq<TokenId>, u: World)
    requires Sound(w) && KeepsCodeRun(w, steps, code) && LegalRun(w, steps) && u == After(w, steps)
    requires forall t :: Carries(w.db.tokens, t, code) <==> t in ids
    ensures DbSafe(u.db) && TokensAge(w.db.tokens, u.db.tokens)
    ensures forall t :: Carries(u.db.tokens, t, code) ==> t in ids
    ensures RunPaysWithCode(w, steps, code) <==> exists t :: t in ids && !Carries(u.db.tokens, t, code)
  {
    RunLeavesCode(w, steps, code);
  }

  lemma LockedCarry(w: World, s: Step, v: World)
    requires s.LockStep? && Legal(w, s) && OutcomeOf(w, s) == Done && v == Next(w, s)
    requires forall t :: !Carries(w.db.tokens, t, s.code)
    ensures s.selected.Some? && Distinct(s.selected.value) && AllIn(s.selected.value, w.db.tokens)
    ensures forall t :: Carries(v.db.tokens, t, s.code) <==> t in s.selected.value
    ensures TokensAge(w.db.tokens, v.db.tokens)
  {
    LockedCarriers(w.db.tokens, s.wallet, s.selected.value, s.code);
  }

  lemma LockedCarriers(tokens: map<TokenId, Token>, wallet: WalletId, ids: seq<TokenId>, code: string)
    requires Lockable(tokens, wallet, ids) && forall t :: !Carries(tokens, t, code)
    ensures forall t :: Carries(Lock(tokens, ids, code), t, code) <==> t in ids
  {
    var b := Lock(tokens, ids, code);
    forall t ensures Carries(b, t, code) <==> t in ids {
      assert !Carries(tokens, t, code);
      if t in ids { var i :| 0 <= i < |ids| && ids[i] == t; }
    }
  }

  lemma SameDenominations(a: map<TokenId, Token>, b: map<TokenId, Token>, ids: seq<TokenId>, amount: int)
    requires CoversTightly(a, ids, amount) && TokensAge(a, b)
    ensures CoversTightly(b, ids, amount)
  {
    SameValue(a, b, ids);
    if ids != [] { SameValue(a, b, ids[..|ids| - 1]); }
    forall i, j | 0 <= i < j < |ids| ensures InOrder(b, ids[i], ids[j], false) {
      assert InOrder(a, ids[i], ids[j], false);
    }
  }

  lemma NothingRefunded(db: Db, code: string, rows: seq<TokenId>, amount: int, tx: TxId, stl: SettlementId)
    requires DbSafe(db) && FoundBy(db.tokens, rows, code) && AllIn(rows, db.tokens) && FreshIds(db, tx, stl)
    requires amount > 0
    requires Needed(db.tokens, rows, amount, 0) == |rows| && Value(db.tokens, rows) >= amount
    ensures RedeemOutcome(db, amount, rows, tx, stl) == Done && RefundWallets(db, rows, |rows|) == db.wallets
  {
    assert rows[|rows|..] == [];
    RedemptionSucceedsWhen(db, code, rows, amount, tx, stl, |rows|);
  }

  lemma {:induction false} FewerRowsAreWorthLess(tokens: map<TokenId, Token>, rows: seq<TokenId>, ids: seq<TokenId>)
    requires AllIn(rows, tokens) && AllIn(ids, tokens) && Distinct(rows) && Distinct(ids)
    requires forall t :: t in rows ==> t in ids
    ensures Value(tokens, rows) <= Value(tokens, ids)
    decreases |rows|
  {
    if rows == [] {
    } else {
      var init, t := rows[..|rows| - 1], rows[|rows| - 1];
      assert rows == init + [t];
      var rest := RemoveRow(tokens, ids, t);
      FewerRowsAreWorthLess(tokens, init, rest);
    }
  }

  // A tight cover without one of its rows, whichever it is, does not cover the amount.
  lemma EveryRowIsNeeded(tokens: map<TokenId, Token>, ids: seq<TokenId>, rows: seq<TokenId>, amount: int, t: TokenId)
    requires CoversTightly(tokens, ids, amount) && Distinct(ids)
    requires AllIn(rows, tokens) && Distinct(rows) && (forall x :: x in rows ==> x in ids) && t in ids && t !in rows
    ensures Value(tokens, rows) < amount
  {
    var last := ids[|ids| - 1];
    var rest := RemoveRow(tokens, ids, t);
    FewerRowsAreWorthLess(tokens, rows, rest);
    var i :| 0 <= i < |ids| && ids[i] == t;
    if i < |ids| - 1 { assert InOrder(tokens, ids[i], ids[|ids| - 1], false); }
    assert Value(tokens, rest) <= Value(tokens, ids[..|ids| - 1]);
  }

  // What redeeming the generated amount leads to.
  ghost function GeneratedOutcome(rows: seq<TokenId>, paidAway: bool): Outcome {
    if !paidAway then Done else if rows == [] then Refused(InvalidCode) else Refused(InsufficientFunds)
  }

  // A fresh code, whatever requests follow, redeems the amount it was generated for exactly if no
  // offline payment spent one of its tokens. Then every locked token is consumed and nothing is
  // refunded; otherwise the code finds too little, or nothing.
  lemma GeneratedAmountRedeems(w: World, s: Step, steps: seq<Step>, u: World, rows: seq<TokenId>, tx: TxId,
                               stl: SettlementId)
    requires Sound(w) && Honest(w, s) && s.LockStep? && OutcomeOf(w, s) == Done
    requires (forall t :: !Carries(w.db.tokens, t, s.code)) && CoversTightly(w.db.tokens, s.selected.value, s.amount)
    requires KeepsCodeRun(Next(w, s), steps, s.code) && LegalRun(Next(w, s), steps) && u == After(Next(w, s), steps)
    requires FoundBy(u.db.tokens, rows, s.code) && FreshIds(u.db, tx, stl)
    ensures AllIn(rows, u.db.tokens)
    ensures RedeemOutcome(u.db, s.amount, rows, tx, stl)
         == GeneratedOutcome(rows, RunPaysWithCode(Next(w, s), steps, s.code))
    ensures !RunPaysWithCode(Next(w, s), steps, s.code) ==>
              && (forall t :: t in rows <==> t in s.selected.value)
              && Needed(u.db.tokens, rows, s.amount, 0) == |rows|
              && RefundWallets(u.db, rows, |rows|) == u.db.wallets
  {
    var v, ids := Next(w, s), s.selected.value;
    LockedCarry(w, s, v);
    StepIsSound(w, s);
    RunKeepsOrLoses(v, steps, s.code, ids, u);
    TokensKeepAging(w.db.tokens, v.db.tokens, u.db.tokens);
    SameDenominations(w.db.tokens, u.db.tokens, ids, s.amount);
    TightCodeRedeems(u.db, s.code, ids, rows, s.amount, tx, stl);
  }

  // The code was locked on ids, a tight cover, and may have lost some of them.
  lemma TightCodeRedeems(db: Db, code: string, ids: seq<TokenId>, rows: seq<TokenId>, amount: int, tx: TxId,
                         stl: SettlementId)
    requires DbSafe(db) && CoversTightly(db.tokens, ids, amount) && Distinct(ids) && amount > 0
    requires forall t :: Carries(db.tokens, t, code) ==> t in ids
    requires FoundBy(db.tokens, rows, code) && FreshIds(db, tx, stl)
    ensures AllIn(rows, db.tokens)
    ensures var lost := exists t :: t in ids && !Carries(db.tokens, t, code);
            && RedeemOutcome(db, amount, rows, tx, stl) == GeneratedOutcome(rows, lost)
            && (!lost ==>
                  && (forall t :: t in rows <==> t in ids)
                  && Needed(db.tokens, rows, amount, 0) == |rows|
                  && RefundWallets(db, rows, |rows|) == db.wallets)
  {
    FoundAreCarriers(db.tokens, rows, code);
    if t :| t in ids && !Carries(db.tokens, t, code) {
      EveryRowIsNeeded(db.tokens, ids, rows, amount, t);
    } else {
      FullRedemptionNeedsAll(db.tokens, ids, rows, amount);
      NothingRefunded(db, code, rows, amount, tx, stl);
    }
  }

  lemma TokensKeepAging(a: map<TokenId, Token>, b: map<TokenId, Token>, c: map<TokenId, Token>)
    requires TokensAge(a, b) && TokensAge(b, c)
    ensures TokensAge(a, c)
  {
  }

  lemma FoundAreCarriers(tokens: map<TokenId, Token>, rows: seq<TokenId>, code: string)
    requires FoundBy(tokens, rows, code)
    ensures AllIn(rows, tokens) && Ordered(tokens, rows, true) && Distinct(rows)
    ensures forall t :: t in rows <==> Carries(tokens, t, code)
  {
    forall t | t in rows ensures Carries(tokens, t, code) {
      var i :| 0 <= i < |rows| && rows[i] == t;
    }
  }

  // ---------- after redemption ----------

  ghost predicate NoCarriers(tokens: map<TokenId, Token>, code: string) {
    forall t :: !Carries(tokens, t, code)
  }

  lemma RedeemedTokensMove(tokens: map<TokenId, Token>, rows: seq<TokenId>, n: nat, code: string)
    requires FoundBy(tokens, rows, code) && n <= |rows|
    ensures var b := Unlock(Redeem(tokens, rows[..n], code), rows[n..]);
            && (forall i :: 0 <= i < n ==> b[rows[i]] == tokens[rows[i]].(status := Settled, otp := Redeemed(code)))
            && (forall i :: n <= i < |rows| ==> b[rows[i]] == tokens[rows[i]].(otp := NoCode))
            && (forall t :: t in tokens && t !in rows ==> b[t] == tokens[t])
            && NoCarriers(b, code)
  {
    var b := Unlock(Redeem(tokens, rows[..n], code), rows[n..]);
    FoundAreCarriers(tokens, rows, code);
    forall i | 0 <= i < n ensures rows[i] in rows[..n] && rows[i] !in rows[n..] {
      assert rows[..n][i] == rows[i];
    }
    forall i | n <= i < |rows| ensures rows[i] in rows[n..] && rows[i] !in rows[..n] {
      assert rows[n..][i - n] == rows[i];
    }
    forall t ensures !Carries(b, t, code) {
      if t in rows { var i :| 0 <= i < |rows| && rows[i] == t; }
    }
  }

  // An emergency settlement consumes the first rows, frees the others and uses the code up.
  lemma RedemptionMovesTokens(w: World, s: Step, b: Db, n: nat)
    requires s.RedeemStep? && Legal(w, s) && OutcomeOf(w, s) == Done && b == Next(w, s).db
    requires n == Needed(w.db.tokens, s.rows, s.amount, 0)
    ensures n <= |s.rows| && AllIn(s.rows, w.db.tokens) && AllIn(s.rows, b.tokens)
    ensures forall i :: 0 <= i < n ==>
              b.tokens[s.rows[i]] == w.db.tokens[s.rows[i]].(status := Settled, otp := Redeemed(s.code))
    ensures forall i :: n <= i < |s.rows| ==> b.tokens[s.rows[i]] == w.db.tokens[s.rows[i]].(otp := NoCode)
    ensures NoCarriers(b.tokens, s.code)
  {
    RedeemStepParts(w, s, b, n);
    RedeemedTokensMove(w.db.tokens, s.rows, n, s.code);
  }

  // It returns the value of the freed rows to the payer's offline balance and changes no other.
  lemma RedemptionRefunds(w: World, s: Step, b: Db, n: nat)
    requires s.RedeemStep? && Legal(w, s) && OutcomeOf(w, s) == Done && b == Next(w, s).db
    requires n == Needed(w.db.tokens, s.rows, s.amount, 0)
    ensures s.rows != [] && AllIn(s.rows, w.db.tokens) && n <= |s.rows| && b.wallets.Keys == w.db.wallets.Keys
    ensures var payer, refund := w.db.tokens[s.rows[0]].wallet, Value(w.db.tokens, s.rows[n..]);
            forall u :: u in w.db.wallets ==>
              b.wallets[u].offline == w.db.wallets[u].offline + if u == payer then refund else 0
  {
    RedeemStepParts(w, s, b, n);
    RedeemedRefunds(w.db, b, s.rows, n);
  }

  lemma RedeemedRefunds(db: Db, b: Db, rows: seq<TokenId>, n: nat)
    requires IsRedeemed(db, b, rows, n)
    ensures rows != [] && AllIn(rows, db.tokens) && n <= |rows|
    ensures b.wallets.Keys == db.wallets.Keys
    ensures var payer, refund := db.tokens[rows[0]].wallet, Value(db.tokens, rows[n..]);
            forall u :: u in db.wallets ==>
                b.wallets[u].offline == db.wallets[u].offline + if u == payer then refund else 0
  {
    var code, payee, net :| RedeemedTo(db, b, rows, n, code, payee, net);
    RefundedOnly(db, rows, n, db.tokens[rows[0]].wallet);
    CreditKeepsOffline(RefundWallets(db, rows, n), payee, net);
  }

  lemma RefundedOnly(db: Db, rows: seq<TokenId>, n: nat, payer: WalletId)
    requires AllIn(rows, db.tokens) && n <= |rows| && rows != [] && payer == db.tokens[rows[0]].wallet
    ensures RefundWallets(db, rows, n).Keys == db.wallets.Keys
    ensures var refund := Value(db.tokens, rows[n..]);
            forall u :: u in db.wallets ==>
              RefundWallets(db, rows, n)[u].offline == db.wallets[u].offline + if u == payer then refund else 0
  {
  }

  lemma CreditKeepsOffline(wallets: map<WalletId, Wallet>, payee: Option<WalletId>, net: int)
    ensures CreditWallets(wallets, payee, net).Keys == wallets.Keys
    ensures forall u :: u in wallets ==> CreditWallets(wallets, payee, net)[u].offline == wallets[u].offline
  {
  }

  ghost predicate NeverIssued(steps: seq<Step>, code: string) {
    forall i :: 0 <= i < |steps| && steps[i].LockStep? ==> steps[i].code != code
  }

  lemma StepAddsNoCarriers(w: World, s: Step, code: string)
    requires Legal(w, s) && NoCarriers(w.db.tokens, code) && (s.LockStep? ==> s.code != code)
    ensures NoCarriers(Next(w, s).db.tokens, code)
  {
    if s.PayOfflineStep? || OutcomeOf(w, s) != Done {
      PayOfflineAddsNoCarriers(w, s, code);
    } else {
      match s
      case CreateWalletStep(_, _) =>
      case TopUpStep(wallet, _, _, _, minted) => TopUpLeavesCode(w.db.tokens, wallet, minted, code);
      case PayOnlineStep(_, _, _, _) =>
      case LockStep(wallet, _, other, selected) => LockLeavesCode(w.db.tokens, wallet, selected.value, other, code);
      case RedeemStep(_, amount, other, _, rows, _, _) =>
        var n := Needed(w.db.tokens, rows, amount, 0);
        RedeemStepParts(w, s, Next(w, s).db, n);
        RedeemAddsNoCarriers(w.db.tokens, rows, n, other, code);
      case SettleStep(p, _, _, _) => SettleAddsNoCarriers(w.db.tokens, p.tokens, code);
      case SyncStep(_, _) => SyncStepKeepsRows(w, s, Next(w, s).db);
    }
  }

  lemma PayOfflineAddsNoCarriers(w: World, s: Step, code: string)
    requires Legal(w, s) && NoCarriers(w.db.tokens, code) && (s.PayOfflineStep? || OutcomeOf(w, s) != Done)
    ensures NoCarriers(Next(w, s).db.tokens, code)
  {
    var b := Next(w, s).db.tokens;
    forall t ensures !Carries(b, t, code) { assert !Carries(w.db.tokens, t, code); }
  }

  lemma RedeemAddsNoCarriers(tokens: map<TokenId, Token>, rows: seq<TokenId>, n: nat, other: string, code: string)
    requires NoCarriers(tokens, code) && n <= |rows|
    ensures NoCarriers(Unlock(Redeem(tokens, rows[..n], other), rows[n..]), code)
  {
    forall t ensures !Carries(Unlock(Redeem(tokens, rows[..n], other), rows[n..]), t, code) {
      assert !Carries(tokens, t, code);
    }
  }

  lemma SettleAddsNoCarriers(tokens: map<TokenId, Token>, ids: seq<TokenId>, code: string)
    requires NoCarriers(tokens, code)
    ensures NoCarriers(Settle(tokens, ids), code)
  {
    forall t ensures !Carries(Settle(tokens, ids), t, code) {
      assert !Carries(tokens, t, code);
    }
  }

  lemma {:induction false} RunAddsNoCarriers(w: World, steps: seq<Step>, code: string)
    requires LegalRun(w, steps) && NoCarriers(w.db.tokens, code) && NeverIssued(steps, code)
    ensures NoCarriers(After(w, steps).db.tokens, code)
    decreases |steps|
  {
    if steps == [] {
    } else {
      StepAddsNoCarriers(w, steps[0], code);
      RunAddsNoCarriers(Next(w, steps[0]), steps[1..], code);
    }
  }

  // A redeemed code is refused from then on, whatever requests follow, unless it is issued again.
  lemma RedeemedOnce(w: World, s: Step, steps: seq<Step>, u: World, amount: int, rows: seq<TokenId>, tx: TxId,
                     stl: SettlementId)
    requires Safe(w) && s.RedeemStep? && Legal(w, s) && OutcomeOf(w, s) == Done
    requires LegalRun(Next(w, s), steps) && NeverIssued(steps, s.code) && u == After(Next(w, s), steps)
    requires FoundBy(u.db.tokens, rows, s.code) && AllIn(rows, u.db.tokens)
    ensures RedeemOutcome(u.db, amount, rows, tx, stl) == Refused(InvalidCode)
  {
    var v := Next(w, s);
    RedemptionMovesTokens(w, s, v.db, Needed(w.db.tokens, s.rows, s.amount, 0));
    RunAddsNoCarriers(v, steps, s.code);
    NothingFound(u.db.tokens, rows, s.code);
  }

  lemma NothingFound(tokens: map<TokenId, Token>, rows: seq<TokenId>, code: string)
    requires NoCarriers(tokens, code) && FoundBy(tokens, rows, code)
    ensures rows == []
  {
    FoundAreCarriers(tokens, rows, code);
    SameRowsSameValue(tokens, rows, []);
  }
}
