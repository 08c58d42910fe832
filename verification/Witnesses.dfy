// Short honest runs in which the promises fail: a token charged twice, a refund refused, and a
// payment stopped by the CHECK on the balance although nothing was charged twice.

module Witnesses {
  import opened Lists
  import opened Coins
  import opened KeyRecords
  import opened LedgerState
  import opened LedgerSteps
  import opened LedgerSafety
  import opened LedgerAgreement
  import opened LedgerBooks
  import opened LedgerSolvency
  import opened LedgerRuns
  import opened EmergencyCodes
  import opened PaymentSelection
  import opened PaymentChecks
  import opened DoubleCharges
  import opened SyncConflicts

  // ---------- runs with one wallet ----------

  // One wallet, its tokens and its top-ups; nothing was paid so far.
  ghost function OneWallet(id: WalletId, v: Wallet, tokens: map<TokenId, Token>, topUps: map<TopUpId, TopUp>): World {
    World(Db(map[id := v], tokens, map[], map[], map[], [], topUps), Keys({}, {}, []), {}, 0)
  }

  lemma FirstStep(w: World, s: Step, rest: seq<Step>)
    requires Honest(w, s) && HonestRun(Next(w, s), rest)
    ensures HonestRun(w, [s] + rest) && LegalRun(w, [s] + rest) && LegalRun(Next(w, s), rest)
    ensures After(w, [s] + rest) == After(Next(w, s), rest)
  {
    assert ([s] + rest)[1..] == rest;
    HonestIsLegal(w, [s] + rest);
  }

  lemma Created(id: WalletId, allowance: int, s: Step)
    requires allowance > 0 && s == CreateWalletStep(id, allowance)
    ensures Honest(EMPTY, s) && Next(EMPTY, s) == OneWallet(id, Wallet(0, 0, allowance), map[], map[])
  {
  }

  lemma ToppedUp(id: WalletId, v: Wallet, tokens: map<TokenId, Token>, topUps: map<TopUpId, TopUp>, amount: int,
                 u: TopUpId, minted: seq<MintedToken>, s: Step)
    requires amount > 0 && v.offline + amount <= v.allowance && u !in topUps
    requires s == TopUpStep(id, amount, amount, u, minted)
    requires AllValid(minted) && Total(minted) == amount - amount % 500 && "" !in MintedIds(minted)
    requires Distinct(MintedIds(minted)) && forall i :: 0 <= i < |minted| ==> minted[i].id !in tokens
    ensures var w := OneWallet(id, v, tokens, topUps);
            && Honest(w, s)
            && Next(w, s) == OneWallet(id, v.(offline := v.offline + amount), AddTokens(tokens, id, minted),
                                       topUps[u := TopUp(id, amount, amount)])
  {
  }

  lemma Locked(id: WalletId, v: Wallet, tokens: map<TokenId, Token>, topUps: map<TopUpId, TopUp>, amount: int,
               code: string, ids: seq<TokenId>, s: Step)
    requires amount > 0 && s == LockStep(id, amount, code, Some(ids))
    requires Lockable(tokens, id, ids) && AllIn(ids, tokens) && amount <= Value(tokens, ids) <= v.offline
    requires forall t :: t in tokens ==> tokens[t].wallet == id
    ensures var w := OneWallet(id, v, tokens, topUps);
            && Honest(w, s)
            && Next(w, s) == OneWallet(id, v.(offline := v.offline - Value(tokens, ids)), Lock(tokens, ids, code),
                                       topUps)
  {
  }

  lemma MintedValue(tokens: map<TokenId, Token>, minted: seq<MintedToken>)
    requires forall i :: 0 <= i < |minted| ==> minted[i].id in tokens && tokens[minted[i].id].denom == minted[i].denom
    ensures AllIn(MintedIds(minted), tokens) && Value(tokens, MintedIds(minted)) == Total(minted)
  {
    TotalIsValue(tokens, MintedIds(minted));
    assert AsMinted(tokens, MintedIds(minted)) == minted;
  }

  // Two top-ups, with all tokens of the first locked by a code in between.
  datatype Setup = Setup(id: WalletId, allowance: int, amount: int, u: TopUpId, minted: seq<MintedToken>,
                         code: string, amount': int, u': TopUpId, minted': seq<MintedToken>)
  {
    function Steps(): seq<Step> {
      [CreateWalletStep(id, allowance)] + ([TopUpStep(id, amount, amount, u, minted)]
      + ([LockStep(id, amount, code, Some(MintedIds(minted)))] + ([TopUpStep(id, amount', amount', u', minted')] + [])))
    }

    ghost predicate Valid() {
      && 0 < amount <= allowance && 0 < amount' <= allowance && u != u'
      && AllValid(minted) && Total(minted) == amount == amount - amount % 500
      && AllValid(minted') && Total(minted') == amount' - amount' % 500
      && Distinct(MintedIds(minted) + MintedIds(minted')) && "" !in MintedIds(minted) + MintedIds(minted')
    }

    ghost function Unlocked(): map<TokenId, Token> { AddTokens(map[], id, minted) }

    ghost function Tokens(): map<TokenId, Token> { AddTokens(Lock(Unlocked(), MintedIds(minted), code), id, minted') }

    ghost function Final(): World {
      OneWallet(id, Wallet(0, amount', allowance), Tokens(),
                map[u := TopUp(id, amount, amount)][u' := TopUp(id, amount', amount')])
    }

    lemma IdsDiffer()
      requires Valid()
      ensures Distinct(MintedIds(minted)) && Distinct(MintedIds(minted')) && "" !in MintedIds(minted)
      ensures "" !in MintedIds(minted')
      ensures forall t :: t in MintedIds(minted) ==> t !in MintedIds(minted')
    {
      var xs, ys := MintedIds(minted), MintedIds(minted');
      forall i, j | 0 <= i < |xs| && 0 <= j < |ys| ensures xs[i] != ys[j] {
        assert (xs + ys)[i] != (xs + ys)[|xs| + j];
      }
      forall i, j | 0 <= i < j < |xs| ensures xs[i] != xs[j] { assert (xs + ys)[i] != (xs + ys)[j]; }
      forall i, j | 0 <= i < j < |ys| ensures ys[i] != ys[j] { assert (xs + ys)[|xs| + i] != (xs + ys)[|xs| + j]; }
    }

    // The tokens of the first top-up carry the code, those of the second are free.
    lemma TokensAre()
      requires Valid()
      ensures forall t :: t in Tokens() <==> t in MintedIds(minted) || t in MintedIds(minted')
      ensures forall i :: 0 <= i < |minted| ==>
                minted[i].id in Tokens() && Tokens()[minted[i].id]
                   == Token(id, minted[i].denom, Minted, Live(code), None)
      ensures forall i :: 0 <= i < |minted'| ==>
                minted'[i].id in Tokens() && Tokens()[minted'[i].id]
                   == Token(id, minted'[i].denom, Minted, NoCode, None)
    {
      IdsDiffer();
      AddedTokens(map[], id, minted);
      var locked := Lock(Unlocked(), MintedIds(minted), code);
      forall i | 0 <= i < |minted|
        ensures minted[i].id in MintedIds(minted)
      {
        assert MintedIds(minted)[i] == minted[i].id;
      }
      forall i | 0 <= i < |minted'| ensures minted'[i].id !in locked {
        assert MintedIds(minted')[i] == minted'[i].id;
      }
      AddedTokens(locked, id, minted');
      AddedKeys(map[], id, minted);
      AddedKeys(locked, id, minted');
    }

    lemma LocksAll()
      requires Valid()
      ensures Lockable(Unlocked(), id, MintedIds(minted)) && AllIn(MintedIds(minted), Unlocked())
      ensures Value(Unlocked(), MintedIds(minted)) == amount
      ensures forall t :: t in Unlocked() ==> Unlocked()[t].wallet == id
    {
      IdsDiffer();
      AddedTokens(map[], id, minted);
      MintedValue(Unlocked(), minted);
      forall t | t in Unlocked() ensures Unlocked()[t].wallet == id {
        var i :| 0 <= i < |minted| && MintedIds(minted)[i] == t;
      }
    }

    lemma NewIdsAreFree()
      requires Valid()
      ensures forall i :: 0 <= i < |minted'| ==> minted'[i].id !in Lock(Unlocked(), MintedIds(minted), code)
    {
      IdsDiffer();
      AddedKeys(map[], id, minted);
      forall i | 0 <= i < |minted'| ensures minted'[i].id !in Lock(Unlocked(), MintedIds(minted), code) {
        assert MintedIds(minted')[i] == minted'[i].id;
      }
    }

    lemma OnlyFirstCarry()
      requires Valid()
      ensures forall t :: Carries(Tokens(), t, code) <==> t in MintedIds(minted)
    {
      TokensAre();
      forall t ensures Carries(Tokens(), t, code) <==> t in MintedIds(minted) {
        if t in MintedIds(minted) { var i :| 0 <= i < |minted| && MintedIds(minted)[i] == t; }
        if t in MintedIds(minted') { var i :| 0 <= i < |minted'| && MintedIds(minted')[i] == t; }
      }
    }

    lemma IsReachable()
      requires Valid()
      ensures Reachable(Final())
    {
      Runs();
    }

    ghost function TopUps(): map<TopUpId, TopUp> { map[u := TopUp(id, amount, amount)] }

    // The world after the code was generated.
    ghost function Coded(): World {
      OneWallet(id, Wallet(0, 0, allowance), Lock(Unlocked(), MintedIds(minted), code), TopUps())
    }

    lemma ToppedUpAgain()
      requires Valid()
      ensures var steps := [TopUpStep(id, amount', amount', u', minted')] + [];
              HonestRun(Coded(), steps) && LegalRun(Coded(), steps) && After(Coded(), steps) == Final()
    {
      var s := TopUpStep(id, amount', amount', u', minted');
      IdsDiffer();
      NewIdsAreFree();
      ToppedUp(id, Wallet(0, 0, allowance), Coded().db.tokens, TopUps(), amount', u', minted', s);
      FirstStep(Coded(), s, []);
    }

    lemma LockedByCode()
      requires Valid()
      ensures var s := LockStep(id, amount, code, Some(MintedIds(minted)));
              var w := OneWallet(id, Wallet(0, amount, allowance), Unlocked(), TopUps());
              Honest(w, s) && Next(w, s) == Coded()
    {
      var s := LockStep(id, amount, code, Some(MintedIds(minted)));
      LocksAll();
      Locked(id, Wallet(0, amount, allowance), Unlocked(), TopUps(), amount, code, MintedIds(minted), s);
    }

    lemma Runs()
      requires Valid()
      ensures HonestRun(EMPTY, Steps()) && LegalRun(EMPTY, Steps()) && After(EMPTY, Steps()) == Final()
    {
      var v0, v1 := Wallet(0, 0, allowance), Wallet(0, amount, allowance);
      var s1, s2 := CreateWalletStep(id, allowance), TopUpStep(id, amount, amount, u, minted);
      var s3 := LockStep(id, amount, code, Some(MintedIds(minted)));
      var rest := [TopUpStep(id, amount', amount', u', minted')] + [];
      IdsDiffer();
      ToppedUpAgain();
      LockedByCode();
      Created(id, allowance, s1);
      ToppedUp(id, v0, map[], map[], amount, u, minted, s2);
      FirstStep(OneWallet(id, v1, Unlocked(), TopUps()), s3, rest);
      FirstStep(OneWallet(id, v0, map[], map[]), s2, [s3] + rest);
      FirstStep(EMPTY, s1, [s2] + ([s3] + rest));
    }
  }

  // The setups below with names filled in.
  const DUST := Setup("w", 1000, 500, "u", [MintedToken("a", 500)], "code", 400, "u2", [])
  const TWICE := Setup("w", 3000, 1000, "u", [MintedToken("a", 1000)], "code", 2000, "u2", [MintedToken("b", 2000)])
  const FULL := Setup("w", 20000, 20000, "u", [MintedToken("a", 10000), MintedToken("b", 10000)], "code",
                      20000, "u2", [MintedToken("c", 10000), MintedToken("d", 10000)])

  lemma SetupsAreValid()
    ensures DUST.Valid() && TWICE.Valid() && FULL.Valid()
  {
    assert MintedIds(DUST.minted) == ["a"] && MintedIds(DUST.minted') == [];
    assert MintedIds(TWICE.minted) == ["a"] && MintedIds(TWICE.minted') == ["b"];
    assert MintedIds(FULL.minted) == ["a", "b"] && MintedIds(FULL.minted') == ["c", "d"];
  }

  // ---------- a payment stopped by the CHECK ----------

  lemma OneRow(tokens: map<TokenId, Token>, a: TokenId)
    requires a in tokens
    ensures AllIn([a], tokens) && Value(tokens, [a]) == tokens[a].denom
  {
    assert [a][..0] == [];
  }

  // A payment with one token of the wallet.
  lemma PaysWithOne(id: WalletId, v: Wallet, tokens: map<TokenId, Token>, topUps: map<TopUpId, TopUp>, a: TokenId,
                    s: Step, w: World)
    requires s.PayOfflineStep? && s.selected == Some([a]) && s.wallet == id && w == OneWallet(id, v, tokens, topUps)
    requires a in tokens && tokens[a].wallet == id && tokens[a].status == Minted && tokens[a].denom >= s.amount > 0
    requires v.offline >= s.amount
    ensures Honest(w, s) && OutcomeOf(w, s) == if v.offline < tokens[a].denom then Refused(IntegrityError) else Done
  {
    OneRow(tokens, a);
    KeysSuffice(w.keys, [a]);
  }

  // With one token in the table every covering choice is that token.
  lemma OnlyToken(tokens: map<TokenId, Token>, id: WalletId, a: TokenId, amount: int)
    requires a in tokens && tokens[a].wallet == id && tokens[a].status == Minted && tokens[a].denom >= amount > 0
    requires forall t :: t in tokens ==> t == a
    ensures BestPayment(tokens, id, amount, [a])
  {
    OneRow(tokens, a);
    forall other | Spendable(tokens, id, other) && AllIn(other, tokens) && Value(tokens, other) >= amount
      ensures Value(tokens, other) >= tokens[a].denom && |other| >= 1
    {
      ValueFirst(tokens, other);
    }
  }

  // Top up 500, lock the token, top up 400, which mints nothing, and pay 400. The payment picks the
  // locked token, the balance of 400 does not cover it, and its key is lost.
  lemma DustCannotPay(e: Setup, a: TokenId, m: MerchantId, x: TxId, w: World, s: Step)
    requires e.Valid() && e.allowance == 1000 && e.minted == [MintedToken(a, 500)] && e.amount' == 400
    requires e.minted' == []
    requires w == e.Final() && s == PayOfflineStep(e.id, m, 400, x, Some([a]))
    ensures Reachable(w) && NeverDoubleCharged(w.db.tokens, {e.id}) && Honest(w, s)
    ensures BestPayment(w.db.tokens, e.id, 400, [a])
    ensures OutcomeOf(w, s) == Refused(IntegrityError) && IsStranded(Next(w, s), a)
  {
    e.IsReachable();
    e.TokensAre();
    assert e.minted[0].id == a && MintedIds(e.minted) == [a];
    OnlyToken(w.db.tokens, e.id, a, 400);
    PaysWithOne(e.id, w.db.wallets[e.id], w.db.tokens, w.db.topUps, a, s, w);
    ReachableIsSound(w);
    AbortedPaymentStrands(w, s);
  }

  // The code of the same token still redeems: emergency settlement does not look at keys.
  lemma StrandedTokenRedeems(e: Setup, a: TokenId, m: MerchantId, x: TxId, w: World, s: Step, z: Step)
    requires e.Valid() && e.allowance == 1000 && e.minted == [MintedToken(a, 500)] && e.amount' == 400
    requires e.minted' == []
    requires w == e.Final() && s == PayOfflineStep(e.id, m, 400, x, Some([a]))
    requires z.RedeemStep? && z.code == e.code && z.rows == [a] && z.amount == 500
    ensures Honest(w, s) && IsStranded(Next(w, s), a)
    ensures Honest(Next(w, s), z) && OutcomeOf(Next(w, s), z) == Done
  {
    DustCannotPay(e, a, m, x, w, s);
    ReachableIsSound(w);
    AbortedPaymentStrands(w, s);
    LockedOne(e, a, 500);
    RedeemsOne(Next(w, s), z, a);
  }

  lemma LockedOne(e: Setup, a: TokenId, d: nat)
    requires e.Valid() && e.minted == [MintedToken(a, d)]
    ensures a in e.Tokens() && e.Tokens()[a] == Token(e.id, d, Minted, Live(e.code), None)
    ensures forall t :: Carries(e.Tokens(), t, e.code) <==> t in [a]
  {
    e.TokensAre();
    e.OnlyFirstCarry();
    assert e.minted[0].id == a && MintedIds(e.minted) == [a];
  }

  // The only token of a code redeems its full value.
  lemma RedeemsOne(w: World, z: Step, a: TokenId)
    requires DbSafe(w.db) && z.RedeemStep? && z.rows == [a] && a in w.db.tokens && z.amount == w.db.tokens[a].denom > 0
    requires (forall t :: Carries(w.db.tokens, t, z.code) <==> t in [a]) && FreshIds(w.db, z.tx, z.stl)
    ensures Honest(w, z) && OutcomeOf(w, z) == Done
  {
    OneRow(w.db.tokens, a);
    assert a in [a] && Carries(w.db.tokens, a, z.code);
    assert [a][1..] == [];
    assert Needed(w.db.tokens, [a], z.amount, 0) == 1;
    NothingRefunded(w.db, z.code, [a], z.amount, z.tx, z.stl);
  }

  // ---------- a token charged twice ----------

  // An exact payment with one token is a best one.
  lemma ExactToken(tokens: map<TokenId, Token>, id: WalletId, a: TokenId)
    requires a in tokens && tokens[a].wallet == id && tokens[a].status == Minted && tokens[a].denom > 0
    ensures BestPayment(tokens, id, tokens[a].denom, [a])
  {
    OneRow(tokens, a);
  }

  // Top up 1000, lock the token, top up 2000 and pay 1000: the exact match takes the locked token.
  // The balance is 1000 afterwards although an unlocked token of 2000 is left.
  lemma LockedTokenIsPaid(e: Setup, a: TokenId, b: TokenId, m: MerchantId, x: TxId, w: World, s: Step)
    requires e.Valid() && e.allowance == 3000 && e.minted == [MintedToken(a, 1000)]
    requires e.amount' == 2000 && e.minted' == [MintedToken(b, 2000)]
    requires w == e.Final() && s == PayOfflineStep(e.id, m, 1000, x, Some([a]))
    ensures Reachable(w) && Honest(w, s) && BestPayment(w.db.tokens, e.id, 1000, [a])
    ensures OutcomeOf(w, s) == Done && PicksLocked(w, s, {e.id})
    ensures var v := Next(w, s).db;
            && v.wallets[e.id].offline == 1000 && v.tokens[b].denom == 2000
            && IsUnlocked(v.tokens[b]) && IsDoubleCharged(v.tokens[a])
  {
    e.IsReachable();
    e.TokensAre();
    assert e.minted[0].id == a && e.minted'[0].id == b;
    ExactToken(w.db.tokens, e.id, a);
    PaysWithOne(e.id, w.db.wallets[e.id], w.db.tokens, w.db.topUps, a, s, w);
    PaidWithOne(e.id, w.db.wallets[e.id], w.db.tokens, w.db.topUps, a, b, s, w);
  }

  lemma {:induction false} RunExtends(w: World, steps: seq<Step>, s: Step, ws: set<WalletId>)
    requires HonestRun(w, steps) && LegalRun(w, steps) && Honest(After(w, steps), s)
    ensures HonestRun(w, steps + [s]) && LegalRun(w, steps + [s])
    ensures After(w, steps + [s]) == Next(After(w, steps), s)
    ensures PicksLocked(After(w, steps), s, ws) ==> RunPicksLocked(w, steps + [s], ws)
    decreases |steps|
  {
    if steps == [] {
      assert steps + [s] == [s];
    } else {
      assert (steps + [s])[1..] == steps[1..] + [s];
      RunExtends(Next(w, steps[0]), steps[1..], s, ws);
    }
    HonestIsLegal(w, steps + [s]);
  }

  // The same as a run.
  lemma LockedTokenIsPaidInARun(e: Setup, a: TokenId, b: TokenId, m: MerchantId, x: TxId, s: Step)
    requires e.Valid() && e.allowance == 3000 && e.minted == [MintedToken(a, 1000)]
    requires e.amount' == 2000 && e.minted' == [MintedToken(b, 2000)]
    requires s == PayOfflineStep(e.id, m, 1000, x, Some([a]))
    ensures HonestRun(EMPTY, e.Steps() + [s]) && LegalRun(EMPTY, e.Steps() + [s])
    ensures RunPicksLocked(EMPTY, e.Steps() + [s], {e.id})
  {
    e.Runs();
    LockedTokenIsPaid(e, a, b, m, x, e.Final(), s);
    RunExtends(EMPTY, e.Steps(), s, {e.id});
  }

  // The code, generated for 1000, finds nothing any more.
  lemma PaidCodeIsRefused(e: Setup, a: TokenId, b: TokenId, m: MerchantId, x: TxId, w: World, s: Step,
                          rows: seq<TokenId>, tx: TxId, stl: SettlementId)
    requires e.Valid() && e.allowance == 3000 && e.minted == [MintedToken(a, 1000)]
    requires e.amount' == 2000 && e.minted' == [MintedToken(b, 2000)]
    requires w == e.Final() && s == PayOfflineStep(e.id, m, 1000, x, Some([a]))
    requires Honest(w, s) && FoundBy(Next(w, s).db.tokens, rows, e.code) && AllIn(rows, Next(w, s).db.tokens)
    ensures OutcomeOf(w, s) == Done && PaysWithCode(w, s, e.code)
    ensures RedeemOutcome(Next(w, s).db, 1000, rows, tx, stl) == Refused(InvalidCode)
  {
    LockedTokenIsPaid(e, a, b, m, x, w, s);
    e.OnlyFirstCarry();
    assert MintedIds(e.minted) == [a];
    PaidTokensLeave(w.db.tokens, e.id, [a], x, e.code);
    assert Next(w, s).db.tokens == MarkSpent(w.db.tokens, [a], x);
    assert a in [a] && Carries(w.db.tokens, a, e.code);
    assert NoCarriers(Next(w, s).db.tokens, e.code);
    NothingFound(Next(w, s).db.tokens, rows, e.code);
  }

  // The unlocked token of 2000 is left, and the CHECK stops a code for 1000 of it.
  lemma NextCodeIsStopped(e: Setup, a: TokenId, b: TokenId, m: MerchantId, x: TxId, w: World, s: Step, c: string)
    requires e.Valid() && e.allowance == 3000 && e.minted == [MintedToken(a, 1000)]
    requires e.amount' == 2000 && e.minted' == [MintedToken(b, 2000)]
    requires w == e.Final() && s == PayOfflineStep(e.id, m, 1000, x, Some([a]))
    ensures var z := LockStep(e.id, 1000, c, Some([b]));
            && Honest(w, s) && Honest(Next(w, s), z) && CoversTightly(Next(w, s).db.tokens, [b], 1000)
            && OutcomeOf(Next(w, s), z) == Refused(IntegrityError)
  {
    LockedTokenIsPaid(e, a, b, m, x, w, s);
    e.TokensAre();
    OneRow(Next(w, s).db.tokens, b);
    forall t | t in w.db.tokens ensures w.db.tokens[t].wallet == e.id {
      if t in MintedIds(e.minted) { var i :| 0 <= i < |e.minted| && MintedIds(e.minted)[i] == t; }
      if t in MintedIds(e.minted') { var i :| 0 <= i < |e.minted'| && MintedIds(e.minted')[i] == t; }
    }
    StopsAtOne(Next(w, s), e.id, b, c);
  }

  lemma StopsAtOne(w: World, id: WalletId, b: TokenId, c: string)
    requires id in w.db.wallets && w.db.wallets[id].offline == 1000
    requires b in w.db.tokens && w.db.tokens[b].denom == 2000 && IsUnlocked(w.db.tokens[b])
    requires forall t :: t in w.db.tokens ==> w.db.tokens[t].wallet == id
    ensures var z := LockStep(id, 1000, c, Some([b]));
            Honest(w, z) && CoversTightly(w.db.tokens, [b], 1000) && OutcomeOf(w, z) == Refused(IntegrityError)
  {
    OneRow(w.db.tokens, b);
    assert [b][..0] == [];
  }

  lemma PaidWithOne(id: WalletId, v: Wallet, tokens: map<TokenId, Token>, topUps: map<TopUpId, TopUp>, a: TokenId,
                    b: TokenId, s: Step, w: World)
    requires s.PayOfflineStep? && s.selected == Some([a]) && s.wallet == id && w == OneWallet(id, v, tokens, topUps)
    requires Legal(w, s) && OutcomeOf(w, s) == Done && a in tokens && b in tokens && a != b
    ensures Next(w, s).db.wallets == map[id := v.(offline := v.offline - tokens[a].denom)]
    ensures Next(w, s).db.tokens == tokens[a := tokens[a].(status := Spent, spentIn := Some(s.tx))]
  {
    OneRow(tokens, a);
  }

  // ---------- a refund refused ----------

  lemma TwoRows(tokens: map<TokenId, Token>, a: TokenId, b: TokenId, d: nat, amount: int)
    requires a in tokens && b in tokens && tokens[a].denom == tokens[b].denom == d && 0 < amount <= 2 * d
    ensures AllIn([a, b], tokens) && Value(tokens, [a, b]) == 2 * d
    ensures Needed(tokens, [a, b], amount, 0) == if amount <= d then 1 else 2
    ensures Value(tokens, [a, b][1..]) == d && Value(tokens, [a, b][2..]) == 0
  {
    assert [a, b][..1] == [a] && [a, b][1..] == [b] && [b][1..] == [] && [a, b][2..] == [];
    OneRow(tokens, a);
    OneRow(tokens, b);
  }

  // Two tokens of the wallet carry the code; redeeming at most one of them refunds the other.
  lemma RedeemsTwo(id: WalletId, v: Wallet, tokens: map<TokenId, Token>, topUps: map<TopUpId, TopUp>, a: TokenId,
                   b: TokenId, d: nat, s: Step, w: World)
    requires s.RedeemStep? && s.rows == [a, b] && a != b && w == OneWallet(id, v, tokens, topUps)
    requires 0 < s.amount <= 2 * d
    requires forall t :: Carries(tokens, t, s.code) <==> t in [a, b]
    requires a in tokens && b in tokens && tokens[a].denom == tokens[b].denom == d && tokens[a].wallet == id
    requires 0 <= v.online && 0 <= v.offline <= v.allowance && DbSafe(w.db)
    ensures Honest(w, s)
    ensures OutcomeOf(w, s) == if s.amount <= d && v.offline + d > v.allowance then Refused(IntegrityError) else Done
  {
    TwoRows(tokens, a, b, d, s.amount);
    assert Carries(tokens, a, s.code) && Carries(tokens, b, s.code);
    RedemptionSucceedsWhen(w.db, s.code, [a, b], s.amount, s.tx, s.stl, Needed(tokens, [a, b], s.amount, 0));
  }

  lemma LockedPair(e: Setup, a: TokenId, b: TokenId, d: nat)
    requires e.Valid() && e.minted == [MintedToken(a, d), MintedToken(b, d)]
    ensures a != b && a in e.Tokens() && b in e.Tokens()
    ensures e.Tokens()[a] == e.Tokens()[b] == Token(e.id, d, Minted, Live(e.code), None)
    ensures forall t :: Carries(e.Tokens(), t, e.code) <==> t in [a, b]
  {
    e.TokensAre();
    e.IdsDiffer();
    e.OnlyFirstCarry();
    assert e.minted[0].id == a && e.minted[1].id == b && MintedIds(e.minted) == [a, b];
    assert MintedIds(e.minted)[0] != MintedIds(e.minted)[1];
  }

  // Top up 20000 into an allowance of 20000, lock all of it, top up 20000 again. The code redeems
  // for 20000, but not for 10000: the refund would exceed the allowance.
  lemma RefundExceedsAllowance(e: Setup, a: TokenId, b: TokenId, w: World, s: Step)
    requires e.Valid() && e.allowance == 20000 && e.amount' == 20000
    requires e.minted == [MintedToken(a, 10000), MintedToken(b, 10000)] && w == e.Final()
    requires s.RedeemStep? && s.code == e.code && s.rows == [a, b] && (s.amount == 10000 || s.amount == 20000)
    ensures Reachable(w) && Honest(w, s)
    ensures OutcomeOf(w, s) == if s.amount == 10000 then Refused(IntegrityError) else Done
  {
    e.IsReachable();
    ReachableIsSound(w);
    LockedPair(e, a, b, 10000);
    RedeemsTwo(e.id, w.db.wallets[e.id], w.db.tokens, w.db.topUps, a, b, 10000, s, w);
  }

  // ---------- a forged proof ----------

  lemma ReachesNext(w: World, s: Step)
    requires Reachable(w) && Honest(w, s)
    ensures Reachable(Next(w, s))
  {
    var steps :| HonestRun(EMPTY, steps) && LegalRun(EMPTY, steps) && w == After(EMPTY, steps);
    RunExtends(EMPTY, steps, s, {});
  }

  // An exact payment with one token, at any point of a run.
  lemma PaysExactly(w: World, s: Step, a: TokenId)
    requires s.PayOfflineStep? && s.selected == Some([a]) && s.wallet in w.db.wallets && s.tx !in w.db.txs
    requires a in w.db.tokens && w.db.tokens[a].wallet == s.wallet && w.db.tokens[a].status == Minted
    requires w.db.wallets[s.wallet].offline >= s.amount == w.db.tokens[a].denom > 0 && KeyOf(a) !in w.keys.destroyed
    ensures Honest(w, s) && OutcomeOf(w, s) == Done
    ensures var v, b := w.db.wallets[s.wallet], Next(w, s);
            && b.db.wallets == w.db.wallets[s.wallet := v.(offline := v.offline - s.amount)]
            && b.db.tokens == w.db.tokens[a := w.db.tokens[a].(status := Spent, spentIn := Some(s.tx))]
            && b.db.txs == w.db.txs[s.tx := Tx(s.wallet, s.merchant, Offline, Pending, s.amount, [a])]
            && b.db.queue == w.db.queue + [SyncItem(s.tx, Queued, 0)]
            && b.db.settlements == w.db.settlements
            && b.keys.destroyed == w.keys.destroyed + {KeyOf(a)}
  {
    OneRow(w.db.tokens, a);
    SpendsOneKey(w.keys, a);
  }

  lemma SpendsOneKey(keys: Keys, a: TokenId)
    requires KeyOf(a) !in keys.destroyed
    ensures SpendKeys(keys, [a]).1 && SpendKeys(keys, [a]).0.destroyed == keys.destroyed + {KeyOf(a)}
  {
    var k := KeyOf(a);
    var next := Keys(keys.live - {k}, keys.destroyed + {k}, keys.signed + [k]);
    assert [a][1..] == [];
    assert SpendKeys(next, []) == (next, true);
  }

  // After two payments a proof for the second one that names the token of the first is accepted,
  // and the first can then only conflict.
  lemma ForgedProofHappens(e: Setup, c: TokenId, d: TokenId, x: TxId, y: TxId, m: MerchantId, stl: SettlementId,
                           w: World, s: Step, z: Step, p: Proof)
    requires e.Valid() && e.allowance == 20000 && e.amount' == 20000
    requires e.minted' == [MintedToken(c, 10000), MintedToken(d, 10000)] && x != y
    requires w == e.Final() && s == PayOfflineStep(e.id, m, 10000, x, Some([c]))
    requires z == PayOfflineStep(e.id, m, 10000, y, Some([d])) && p == Proof(y, m, 10000, [c])
    ensures Honest(w, s) && Honest(Next(w, s), z) && Reachable(Next(Next(w, s), z))
    ensures var v := Next(Next(w, s), z).db;
            && v.queue != [] && v.queue[0].tx == x && x in v.txs && v.txs[x].status == Pending
            && SettleOutcome(v, p, m, false, stl) == Done
            && SettleDb(v, p, stl).queue != [] && IsBlocked(SettleDb(v, p, stl), 0)
  {
    e.IsReachable();
    FreePair(e, c, d, 10000);
    PaysExactly(w, s, c);
    ReachesNext(w, s);
    if KeyOf(c) == KeyOf(d) { KeysDiffer(c, d); }
    PaysExactly(Next(w, s), z, d);
    ReachesNext(Next(w, s), z);
    ReachableIsSound(Next(Next(w, s), z));
    ForgedProofIsAccepted(Next(Next(w, s), z), x, 0, p, stl);
  }

  lemma FreePair(e: Setup, c: TokenId, d: TokenId, v: nat)
    requires e.Valid() && e.minted' == [MintedToken(c, v), MintedToken(d, v)]
    ensures c != d && c in e.Tokens() && d in e.Tokens()
    ensures e.Tokens()[c] == e.Tokens()[d] == Token(e.id, v, Minted, NoCode, None)
  {
    e.TokensAre();
    e.IdsDiffer();
    assert e.minted'[0].id == c && e.minted'[1].id == d;
    assert MintedIds(e.minted')[0] != MintedIds(e.minted')[1];
  }
}
