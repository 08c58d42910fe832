// What a conflict does to the sync queue: when an item is stuck, which request frees it again, and
// when a trigger does nothing.

module SyncConflicts {
  import opened Lists
  import opened Coins
  import opened LedgerState
  import opened LedgerSteps
  import opened LedgerSafety
  import opened LedgerAgreement
  import opened LedgerRuns

  // The first token of the payment is registered, so syncing the item can only conflict.
  ghost predicate IsBlocked(db: Db, i: nat)
    requires i < |db.queue|
  {
    var x := db.queue[i].tx;
    && x in db.txs && db.txs[x].status != Succeeded
    && db.txs[x].consumed != [] && db.txs[x].consumed[0] in db.registry
  }

  // It conflicted already.
  ghost predicate IsStuck(db: Db, i: nat)
    requires i < |db.queue|
  {
    IsBlocked(db, i) && db.queue[i].status == SyncFailed && db.txs[db.queue[i].tx].status == Failed
  }

  // One queue item a transaction: tx_id is unique.
  ghost predicate KeyedQueue(db: Db) {
    forall i, j :: 0 <= i < j < |db.queue| ==> db.queue[i].tx != db.queue[j].tx
  }

  // ---------- conflicts ----------

  lemma BlockedConflicts(db: Db, i: nat)
    requires i < |db.queue| && IsBlocked(db, i)
    ensures var x := db.queue[i].tx;
            SyncOne(db, i) == db.(txs := db.txs[x := db.txs[x].(status := Failed)],
                                  queue := db.queue[i := db.queue[i].(status := SyncFailed)])
  {
  }

  // A conflict leaves the tokens before it registered, and with them the item stuck.
  lemma ConflictSticks(db: Db, i: nat)
    requires i < |db.queue| && db.queue[i].tx in db.txs
    requires SyncOne(db, i).queue[i].status == SyncFailed
    ensures IsStuck(SyncOne(db, i), i)
  {
    var tx := db.txs[db.queue[i].tx];
    RegisteredUntilConflict(db.registry, tx.consumed, Spend(db.queue[i].tx, None));
    FirstIsRegistered(db.registry, tx.consumed, Spend(db.queue[i].tx, None));
  }

  lemma FirstIsRegistered(registry: map<TokenId, Spend>, ids: seq<TokenId>, spend: Spend)
    requires !RegisterUntilConflict(registry, ids, spend).1
    ensures ids != [] && ids[0] in RegisterUntilConflict(registry, ids, spend).0
  {
    if ids[0] !in registry { RegisteredUntilConflict(registry[ids[0] := spend], ids[1..], spend); }
  }

  // ---------- what frees a stuck item ----------

  // The step is an accepted settlement of x.
  ghost predicate Settles(w: World, s: Step, x: TxId)
    requires Legal(w, s)
  {
    s.SettleStep? && OutcomeOf(w, s) == Done && s.proof.tx == x
  }

  ghost predicate RunSettles(w: World, steps: seq<Step>, x: TxId)
    requires LegalRun(w, steps)
    decreases |steps|
  {
    steps != [] && (Settles(w, steps[0], x) || RunSettles(Next(w, steps[0]), steps[1..], x))
  }

  // The rows that decide whether item i is blocked are the same, up to more registry rows.
  ghost predicate SameItem(a: Db, b: Db, i: nat)
    requires i < |a.queue|
  {
    && i < |b.queue| && b.queue[i] == a.queue[i]
    && (a.queue[i].tx in a.txs ==> a.queue[i].tx in b.txs && b.txs[a.queue[i].tx] == a.txs[a.queue[i].tx])
    && Extends(a.registry, b.registry)
  }

  lemma SyncOneElsewhere(db: Db, i: nat, k: nat)
    requires i < |db.queue| && k < |db.queue| && KeyedQueue(db) && i != k
    ensures SameItem(db, SyncOne(db, k), i)
  {
    var x := db.queue[k].tx;
    if x in db.txs { RegisteredUntilConflict(db.registry, db.txs[x].consumed, Spend(x, None)); }
  }

  lemma SyncOneKeepsQueue(db: Db, k: nat)
    requires k < |db.queue|
    ensures var b := SyncOne(db, k);
            && |b.queue| == |db.queue|
            && (forall i :: 0 <= i < |b.queue| ==> b.queue[i].tx == db.queue[i].tx)
            && (KeyedQueue(db) ==> KeyedQueue(b))
  {
    SyncOneMovesOn(db, k);
  }

  // A sync leaves blocked items blocked and stuck items stuck, and makes those it takes stuck.
  lemma SyncOneOnBlocked(db: Db, i: nat, k: nat)
    requires i < |db.queue| && k < |db.queue| && KeyedQueue(db) && IsBlocked(db, i)
    ensures var b := SyncOne(db, k);
            IsBlocked(b, i) && (IsStuck(db, i) || i == k ==> IsStuck(b, i))
  {
    if i == k { BlockedConflicts(db, i); } else { SyncOneElsewhere(db, i, k); }
  }

  lemma {:induction false} SyncAllOnBlocked(db: Db, due: seq<nat>, i: nat)
    requires i < |db.queue| && KeyedQueue(db) && IsBlocked(db, i)
    requires forall j :: 0 <= j < |due| ==> due[j] < |db.queue|
    ensures var b := SyncAll(db, due);
            IsBlocked(b, i) && (IsStuck(db, i) || i in due ==> IsStuck(b, i))
    ensures KeyedQueue(SyncAll(db, due)) && SyncAll(db, due).queue[i].tx == db.queue[i].tx
    decreases |due|
  {
    if due == [] {
    } else {
      var init, k := due[..|due| - 1], due[|due| - 1];
      assert due == init + [k];
      SyncAllOnBlocked(db, init, i);
      SyncOneOnBlocked(SyncAll(db, init), i, k);
      SyncOneKeepsQueue(SyncAll(db, init), k);
    }
  }

  lemma {:induction false} SyncAllKeepsQueue(db: Db, due: seq<nat>)
    requires forall j :: 0 <= j < |due| ==> due[j] < |db.queue|
    ensures var b := SyncAll(db, due);
            (forall i :: 0 <= i < |b.queue| ==> b.queue[i].tx == db.queue[i].tx) && (KeyedQueue(db) ==> KeyedQueue(b))
    decreases |due|
  {
    if due == [] {
    } else {
      SyncAllKeepsQueue(db, due[..|due| - 1]);
      SyncOneKeepsQueue(SyncAll(db, due[..|due| - 1]), due[|due| - 1]);
    }
  }

  // No step removes a queue item or adds a second one for a transaction.
  lemma StepKeepsQueue(w: World, s: Step)
    requires Safe(w) && KeyedQueue(w.db) && Legal(w, s)
    ensures var b := Next(w, s).db;
            && KeyedQueue(b) && |b.queue| >= |w.db.queue|
            && forall i :: 0 <= i < |w.db.queue| ==> b.queue[i].tx == w.db.queue[i].tx
  {
    if s.SyncStep? {
      SyncAllKeepsQueue(w.db, DueItems(w.db, s.filter, s.batch, 0));
    } else {
      OtherStepsQueue(w, s);
    }
  }

  lemma OtherStepsQueue(w: World, s: Step)
    requires Legal(w, s) && !s.SyncStep?
    ensures var b := Next(w, s).db;
            || b.queue == w.db.queue
            || (s.PayOfflineStep? && s.tx !in w.db.txs && b.queue == w.db.queue + [SyncItem(s.tx, Queued, 0)])
  {
  }

  // Apart from syncs and settlements of its payment, no step touches the rows of an item.
  lemma OtherStepsKeepItem(w: World, s: Step, i: nat)
    requires Safe(w) && Legal(w, s) && !s.SyncStep? && i < |w.db.queue| && !Settles(w, s, w.db.queue[i].tx)
    ensures SameItem(w.db, Next(w, s).db, i)
  {
    StepIsSafe(w, s);
    OtherStepsQueue(w, s);
    OtherStepsKeepTx(w, s, w.db.queue[i].tx);
  }

  lemma OtherStepsKeepTx(w: World, s: Step, x: TxId)
    requires Legal(w, s) && !s.SyncStep? && x in w.db.txs && !Settles(w, s, x)
    ensures x in Next(w, s).db.txs && Next(w, s).db.txs[x] == w.db.txs[x]
  {
  }

  lemma SettledTx(w: World, s: Step, x: TxId)
    requires Legal(w, s) && Settles(w, s, x)
    ensures x in Next(w, s).db.txs && Next(w, s).db.txs[x].status == Succeeded
  {
  }

  // A stuck item is freed by an accepted settlement of its payment and by nothing else.
  lemma StuckUnlessSettled(w: World, s: Step, i: nat)
    requires Safe(w) && KeyedQueue(w.db) && Legal(w, s) && i < |w.db.queue| && IsStuck(w.db, i)
    ensures i < |Next(w, s).db.queue| && (IsStuck(Next(w, s).db, i) <==> !Settles(w, s, w.db.queue[i].tx))
  {
    StepKeepsQueue(w, s);
    if s.SyncStep? {
      SyncAllOnBlocked(w.db, DueItems(w.db, s.filter, s.batch, 0), i);
    } else if Settles(w, s, w.db.queue[i].tx) {
      SettledTx(w, s, w.db.queue[i].tx);
    } else {
      OtherStepsKeepItem(w, s, i);
    }
  }

  // Over any run an item stays stuck exactly if no settlement of its payment is accepted.
  lemma {:induction false} StuckInRuns(w: World, steps: seq<Step>, i: nat)
    requires Safe(w) && KeyedQueue(w.db) && LegalRun(w, steps) && i < |w.db.queue| && IsStuck(w.db, i)
    ensures i < |After(w, steps).db.queue|
    ensures IsStuck(After(w, steps).db, i) <==> !RunSettles(w, steps, w.db.queue[i].tx)
    ensures After(w, steps).db.queue[i].tx == w.db.queue[i].tx
    decreases |steps|
  {
    if steps == [] {
    } else {
      var v := Next(w, steps[0]);
      StepIsSafe(w, steps[0]);
      StepKeepsQueue(w, steps[0]);
      StuckUnlessSettled(w, steps[0], i);
      if IsStuck(v.db, i) {
        StuckInRuns(v, steps[1..], i);
      } else {
        SettledTx(w, steps[0], w.db.queue[i].tx);
        RunsAreSafe(v, steps[1..]);
        RunsKeepQueue(v, steps[1..]);
      }
    }
  }

  lemma {:induction false} RunsKeepQueue(w: World, steps: seq<Step>)
    requires Safe(w) && KeyedQueue(w.db) && LegalRun(w, steps)
    ensures var b := After(w, steps).db;
            && KeyedQueue(b) && |b.queue| >= |w.db.queue|
            && forall i :: 0 <= i < |w.db.queue| ==> b.queue[i].tx == w.db.queue[i].tx
    decreases |steps|
  {
    if steps == [] {
    } else {
      StepIsSafe(w, steps[0]);
      StepKeepsQueue(w, steps[0]);
      RunsKeepQueue(Next(w, steps[0]), steps[1..]);
    }
  }

  // ---------- honest continuations ----------

  lemma StepKeepsEmitted(w: World, s: Step)
    requires Safe(w) && EmittedAgreed(w) && Legal(w, s)
    ensures EmittedAgreed(Next(w, s))
  {
    StepIsSafe(w, s);
    if s.PayOfflineStep? { PaymentIsEmitted(w, s); } else { EmittedKept(w, Next(w, s)); }
  }

  lemma PaymentIsEmitted(w: World, s: Step)
    requires EmittedAgreed(w) && s.PayOfflineStep? && Legal(w, s)
    ensures EmittedAgreed(Next(w, s))
  {
  }

  // The proof that was emitted for a blocked payment is refused.
  lemma EmittedProofIsBlocked(w: World, s: Step, i: nat)
    requires EmittedAgreed(w) && Honest(w, s) && i < |w.db.queue| && IsBlocked(w.db, i)
    ensures !Settles(w, s, w.db.queue[i].tx)
  {
    if s.SettleStep? && s.proof.tx == w.db.queue[i].tx { NoneRegistered(w.db.registry, s.proof.tokens); }
  }

  lemma {:induction false} HonestRunsNeverFree(w: World, steps: seq<Step>, i: nat)
    requires Safe(w) && KeyedQueue(w.db) && EmittedAgreed(w) && HonestRun(w, steps)
    requires i < |w.db.queue| && IsStuck(w.db, i)
    ensures LegalRun(w, steps) && i < |After(w, steps).db.queue| && IsStuck(After(w, steps).db, i)
    decreases |steps|
  {
    HonestIsLegal(w, steps);
    if steps == [] {
    } else {
      EmittedProofIsBlocked(w, steps[0], i);
      StepIsSafe(w, steps[0]);
      StepKeepsQueue(w, steps[0]);
      StepKeepsEmitted(w, steps[0]);
      StuckUnlessSettled(w, steps[0], i);
      HonestRunsNeverFree(Next(w, steps[0]), steps[1..], i);
    }
  }

  // Settlement accepts a proof without tokens for any payment and amount. It frees a stuck item:
  // the next sync completes it.
  lemma EmptyProofFrees(db: Db, i: nat, p: Proof, stl: SettlementId)
    requires i < |db.queue| && IsStuck(db, i) && p.tx == db.queue[i].tx && p.tokens == [] && stl !in db.settlements
    ensures SettleOutcome(db, p, p.merchant, false, stl) == Done
    ensures SyncOne(SettleDb(db, p, stl), i).queue[i].status == Completed
    ensures SyncOne(SettleDb(db, p, stl), i).txs[p.tx].status == Succeeded
  {
  }

  // ---------- a forged proof ----------

  // Settlement accepts a proof that names the tokens of another payment x, still pending.
  lemma ForgedProofIsAccepted(w: World, x: TxId, i: nat, p: Proof, stl: SettlementId)
    requires Agreed(w) && x in w.db.txs && w.db.txs[x].status == Pending && i < |w.db.queue| && w.db.queue[i].tx == x
    requires p.tx in w.db.txs && p.tx != x && p.tokens == w.db.txs[x].consumed && stl !in w.db.settlements
    ensures SettleOutcome(w.db, p, p.merchant, false, stl) == Done
    ensures var b := SettleDb(w.db, p, stl); b.queue == w.db.queue && IsBlocked(b, i)
  {
    assert TxAgreed(w.db, x);
    forall j | 0 <= j < |p.tokens| ensures p.tokens[j] != "" && p.tokens[j] in w.db.tokens {
      assert Gone(w.db.tokens, w.db.txs[x].consumed[j]);
    }
    NoneRegistered(w.db.registry, p.tokens);
    assert p.tokens[0] in p.tokens;
  }

  // A trigger that takes the item of x then fails x, and no honest request repairs that.
  lemma ForgedProofFailsTheSync(w: World, x: TxId, i: nat, p: Proof, stl: SettlementId, filter: Option<WalletId>,
                                batch: nat, v: World, steps: seq<Step>)
    requires Agreed(w) && x in w.db.txs && w.db.txs[x].status == Pending && i < |w.db.queue| && w.db.queue[i].tx == x
    requires p.tx in w.db.txs && p.tx != x && p.tokens == w.db.txs[x].consumed && stl !in w.db.settlements
    requires v == Next(w, SettleStep(p, p.merchant, false, stl)) && i in DueItems(v.db, filter, batch, 0)
    requires HonestRun(Next(v, SyncStep(filter, batch)), steps)
    ensures LegalRun(Next(v, SyncStep(filter, batch)), steps)
    ensures var u := After(Next(v, SyncStep(filter, batch)), steps).db;
            i < |u.queue| && u.queue[i].tx == x && IsStuck(u, i)
  {
    var s, z := SettleStep(p, p.merchant, false, stl), Next(v, SyncStep(filter, batch));
    ForgedProofIsAccepted(w, x, i, p, stl);
    StepIsSafe(w, s);
    StepKeepsEmitted(w, s);
    SyncAllOnBlocked(v.db, DueItems(v.db, filter, batch, 0), i);
    StepIsSafe(v, SyncStep(filter, batch));
    StepKeepsEmitted(v, SyncStep(filter, batch));
    HonestRunsNeverFree(z, steps, i);
    StuckInRuns(z, steps, i);
  }

  // ---------- triggers that do nothing ----------

  function Rank(s: TxStatus): nat {
    match s
    case Pending => 0
    case Failed => 1
    case Succeeded => 2
  }

  // Rows are only added to the registry, and a transaction only moves from pending to failed to
  // succeeded.
  ghost predicate MovesOn(a: Db, b: Db) {
    && Extends(a.registry, b.registry)
    && a.txs.Keys == b.txs.Keys
    && (forall x :: x in a.txs ==>
        b.txs[x] == a.txs[x].(status := b.txs[x].status) && Rank(a.txs[x].status) <= Rank(b.txs[x].status))
    && b.(registry := a.registry, txs := a.txs, queue := a.queue) == a
  }

  lemma MovesOnAndBack(a: Db, b: Db, c: Db)
    requires MovesOn(a, b) && MovesOn(b, c) && c == a && b.queue == a.queue
    ensures b == a
  {
    forall x | x in a.txs ensures a.txs[x] == b.txs[x] {
      assert Rank(a.txs[x].status) == Rank(b.txs[x].status);
    }
    assert a.txs == b.txs;
    forall t | t in b.registry ensures t in a.registry && a.registry[t] == b.registry[t] { }
    assert a.registry == b.registry;
  }

  lemma RowsMoveOn(db: Db, registry: map<TokenId, Spend>, x: TxId, status: TxStatus, queue: seq<SyncItem>)
    requires Extends(db.registry, registry) && x in db.txs && Rank(db.txs[x].status) <= Rank(status)
    ensures MovesOn(db, db.(registry := registry, txs := db.txs[x := db.txs[x].(status := status)], queue := queue))
  {
  }

  lemma SyncOneMovesOn(db: Db, k: nat)
    requires k < |db.queue|
    ensures MovesOn(db, SyncOne(db, k))
    ensures |SyncOne(db, k).queue| == |db.queue| && SyncOne(db, k).queue[k].tx == db.queue[k].tx
    ensures forall j :: 0 <= j < |db.queue| && j != k ==> SyncOne(db, k).queue[j] == db.queue[j]
  {
    var item, b := db.queue[k], SyncOne(db, k);
    if item.tx in db.txs && db.txs[item.tx].status != Succeeded {
      var tx := db.txs[item.tx];
      RegisteredUntilConflict(db.registry, tx.consumed, Spend(item.tx, None));
      RowsMoveOn(db, b.registry, item.tx, b.txs[item.tx].status, b.queue);
    }
  }

  lemma {:induction false} SyncAllMovesOn(db: Db, due: seq<nat>)
    requires forall j :: 0 <= j < |due| ==> due[j] < |db.queue|
    ensures MovesOn(db, SyncAll(db, due))
    ensures forall j :: 0 <= j < |db.queue| && j !in due ==> SyncAll(db, due).queue[j] == db.queue[j]
    decreases |due|
  {
    if due == [] {
    } else {
      var init, k := due[..|due| - 1], due[|due| - 1];
      assert due == init + [k];
      SyncAllMovesOn(db, init);
      SyncOneMovesOn(SyncAll(db, init), k);
    }
  }

  // Processing a due item changes nothing exactly if it is stuck.
  lemma OnlyStuckItemsStay(db: Db, k: nat)
    requires k < |db.queue| && IsDue(db.queue[k])
    ensures SyncOne(db, k) == db <==> IsStuck(db, k)
  {
    if IsStuck(db, k) {
      StuckItemStays(db, k);
    } else if SyncOne(db, k) == db {
      ConflictSticks(db, k);
      assert false;
    }
  }

  lemma StuckItemStays(db: Db, k: nat)
    requires k < |db.queue| && IsStuck(db, k)
    ensures SyncOne(db, k) == db
  {
    var x := db.queue[k].tx;
    BlockedConflicts(db, k);
    assert db.txs[x := db.txs[x].(status := Failed)] == db.txs;
    assert db.queue[k := db.queue[k].(status := SyncFailed)] == db.queue;
  }

  lemma {:induction false} OnlyStuckListsStay(db: Db, due: seq<nat>)
    requires Distinct(due) && forall j :: 0 <= j < |due| ==> due[j] < |db.queue| && IsDue(db.queue[due[j]])
    ensures SyncAll(db, due) == db <==> forall j :: 0 <= j < |due| ==> IsStuck(db, due[j])
    decreases |due|
  {
    if due == [] {
    } else {
      var init, k := due[..|due| - 1], due[|due| - 1];
      assert due == init + [k] && k !in init;
      OnlyStuckListsStay(db, init);
      OnlyStuckItemsStay(db, k);
      if SyncAll(db, due) == db { PrefixStays(db, init, k); }
    }
  }

  lemma PrefixStays(db: Db, init: seq<nat>, k: nat)
    requires k < |db.queue| && k !in init && forall j :: 0 <= j < |init| ==> init[j] < |db.queue|
    requires SyncOne(SyncAll(db, init), k) == db
    ensures SyncAll(db, init) == db
  {
    var a := SyncAll(db, init);
    SyncAllMovesOn(db, init);
    SyncOneMovesOn(a, k);
    forall j | 0 <= j < |db.queue| ensures a.queue[j] == db.queue[j] { }
    assert a.queue == db.queue;
    MovesOnAndBack(db, a, SyncOne(a, k));
  }

  lemma {:induction false} DueItemsAreDue(db: Db, filter: Option<WalletId>, limit: nat, i: nat)
    requires i <= |db.queue|
    ensures forall k :: k in DueItems(db, filter, limit, i) ==> k < |db.queue| && IsDue(db.queue[k])
    decreases |db.queue| - i
  {
    if limit > 0 && i < |db.queue| {
      if IsDue(db.queue[i]) && Matches(db, db.queue[i], filter) {
        DueItemsAreDue(db, filter, limit - 1, i + 1);
      } else {
        DueItemsAreDue(db, filter, limit, i + 1);
      }
    }
  }

  // Failed items are fetched again by every trigger. A trigger does nothing exactly if all items it
  // takes are stuck, whatever else waits behind them.
  lemma StuckItemsBlock(db: Db, filter: Option<WalletId>, batch: nat)
    ensures SyncDb(db, filter, batch) == db <==>
            forall k :: k in DueItems(db, filter, batch, 0) ==> k < |db.queue| && IsStuck(db, k)
  {
    var due := DueItems(db, filter, batch, 0);
    DueItemsAreDue(db, filter, batch, 0);
    forall j | 0 <= j < |due| ensures due[j] in due { }
    OnlyStuckListsStay(db, due);
  }
}
