// The merchant lock over whole runs. What a transaction records never changes apart from its
// status, so the merchant that a settlement pays is the one that the customer paid.

module MerchantLock {
  import opened LedgerState
  import opened LedgerSteps
  import opened LedgerSafety
  import opened LedgerBooks
  import opened LedgerSolvency
  import opened LedgerRuns
  import opened Requests

  // ---------- transactions are immutable but for their status ----------

  ghost predicate OnlyStatusMoves(a: map<TxId, Tx>, b: map<TxId, Tx>) {
    forall x :: x in a ==> x in b && b[x].(status := a[x].status) == a[x]
  }

  lemma {:induction false} SyncMovesStatus(db: Db, due: seq<nat>)
    requires forall j :: 0 <= j < |due| ==> due[j] < |db.queue|
    ensures var b := SyncAll(db, due);
            OnlyStatusMoves(db.txs, b.txs) && b.txs.Keys == db.txs.Keys && b.settlements == db.settlements
    decreases |due|
  {
    if due == [] {
    } else {
      SyncMovesStatus(db, due[..|due| - 1]);
      var status := SyncOneTxs(SyncAll(db, due[..|due| - 1]), due[|due| - 1]);
    }
  }

  lemma StepMovesStatus(w: World, s: Step)
    requires Legal(w, s)
    ensures OnlyStatusMoves(w.db.txs, Next(w, s).db.txs)
  {
    if s.SyncStep? {
      SyncMovesStatus(w.db, DueItems(w.db, s.filter, s.batch, 0));
    } else if s.SettleStep? {
      if OutcomeOf(w, s) == Done { SettlementAdds(w, s, Next(w, s).db); }
    } else if s.RedeemStep? {
      if OutcomeOf(w, s) == Done { RedemptionRecords(w, s, Next(w, s).db); }
    } else {
      OtherStepsMoveStatus(w, s);
    }
  }

  lemma OtherStepsMoveStatus(w: World, s: Step)
    requires Legal(w, s) && !s.SyncStep? && !s.SettleStep? && !s.RedeemStep?
    ensures OnlyStatusMoves(w.db.txs, Next(w, s).db.txs)
  {
  }

  // In every legal run: who pays, whom, how much and with which tokens stays as recorded.
  lemma {:induction false} RunsMoveStatus(w: World, steps: seq<Step>)
    requires LegalRun(w, steps)
    ensures OnlyStatusMoves(w.db.txs, After(w, steps).db.txs)
    decreases |steps|
  {
    if steps == [] {
    } else {
      StepMovesStatus(w, steps[0]);
      RunsMoveStatus(Next(w, steps[0]), steps[1..]);
    }
  }

  // ---------- settlements pay the merchant that was paid ----------

  ghost predicate IsFor(txs: map<TxId, Tx>, x: TxId, merchant: MerchantId, amount: int) {
    x in txs && txs[x].merchant == merchant && txs[x].amount == amount
  }

  ghost predicate SettlementsMatch(db: Db) {
    forall u :: u in db.settlements ==>
      IsFor(db.txs, db.settlements[u].payment, db.settlements[u].merchant, db.settlements[u].amount)
  }

  ghost predicate ProofsMatch(w: World) {
    forall p :: p in w.emitted ==> IsFor(w.db.txs, p.tx, p.merchant, p.amount)
  }

  lemma MatchKept(a: Db, b: Db)
    requires SettlementsMatch(a) && OnlyStatusMoves(a.txs, b.txs) && b.settlements == a.settlements
    ensures SettlementsMatch(b)
  {
  }

  lemma MatchAdded(a: Db, b: Db, u: SettlementId)
    requires SettlementsMatch(a) && OnlyStatusMoves(a.txs, b.txs) && NewRow(a.settlements, b.settlements, u)
    ensures SettlementsMatch(b) <==>
              IsFor(b.txs, b.settlements[u].payment, b.settlements[u].merchant, b.settlements[u].amount)
  {
    forall v | v in a.settlements
      ensures v in b.settlements
      ensures var row := a.settlements[v]; IsFor(b.txs, row.payment, row.merchant, row.amount)
    {
      assert IsFor(a.txs, a.settlements[v].payment, a.settlements[v].merchant, a.settlements[v].amount);
    }
  }

  // If the step is an accepted proof, it names the merchant and the amount of its payment.
  ghost predicate AcceptedProofMatches(w: World, s: Step)
    requires Legal(w, s)
  {
    s.SettleStep? && OutcomeOf(w, s) == Done ==> IsFor(w.db.txs, s.proof.tx, s.proof.merchant, s.proof.amount)
  }

  // Settlements keep matching their payments exactly if the accepted proof names the merchant and
  // the amount of its payment. The lock compares the proof with the submitter only.
  lemma MatchKeptWhen(w: World, s: Step)
    requires SettlementsMatch(w.db) && Legal(w, s)
    ensures SettlementsMatch(Next(w, s).db) <==> AcceptedProofMatches(w, s)
  {
    var b := Next(w, s).db;
    StepMovesStatus(w, s);
    if s.SettleStep? {
      if OutcomeOf(w, s) == Done {
        SettlementAdds(w, s, b);
        SettlementAccepts(w, s);
        MatchAdded(w.db, b, s.stl);
      }
    } else if s.RedeemStep? {
      if OutcomeOf(w, s) == Done { RedemptionMatches(w, s, b); }
    } else if s.SyncStep? {
      SyncMovesStatus(w.db, DueItems(w.db, s.filter, s.batch, 0));
      MatchKept(w.db, b);
    } else {
      OtherStepsKeepRows(w, s, b);
      MatchKept(w.db, b);
    }
  }

  lemma RedemptionMatches(w: World, s: Step, b: Db)
    requires SettlementsMatch(w.db) && s.RedeemStep? && Legal(w, s) && OutcomeOf(w, s) == Done && b == Next(w, s).db
    requires OnlyStatusMoves(w.db.txs, b.txs)
    ensures SettlementsMatch(b)
  {
    RedemptionRecords(w, s, b);
    RedemptionSettles(w, s, b);
    MatchAdded(w.db, b, s.stl);
  }

  // ---------- every run ----------

  ghost predicate AcceptedProofsMatch(w: World, steps: seq<Step>)
    requires LegalRun(w, steps)
    decreases |steps|
  {
    steps == [] || (AcceptedProofMatches(w, steps[0]) && AcceptedProofsMatch(Next(w, steps[0]), steps[1..]))
  }

  ghost predicate PaymentsOnRecord(db: Db) {
    forall u :: u in db.settlements ==> db.settlements[u].payment in db.txs
  }

  lemma OnRecordKept(w: World, s: Step)
    requires PaymentsOnRecord(w.db) && Legal(w, s)
    ensures PaymentsOnRecord(Next(w, s).db)
  {
    var b := Next(w, s).db;
    StepMovesStatus(w, s);
    if s.SettleStep? {
      if OutcomeOf(w, s) == Done { SettlementAdds(w, s, b); }
    } else if s.RedeemStep? {
      if OutcomeOf(w, s) == Done {
        RedemptionRecords(w, s, b);
        RedemptionSettles(w, s, b);
      }
    } else if s.SyncStep? {
      SyncMovesStatus(w.db, DueItems(w.db, s.filter, s.batch, 0));
    } else {
      OtherStepsKeepRows(w, s, b);
    }
  }

  lemma MismatchStays(a: Db, b: Db)
    requires PaymentsOnRecord(a) && !SettlementsMatch(a)
    requires OnlyStatusMoves(a.txs, b.txs) && Extends(a.settlements, b.settlements)
    ensures !SettlementsMatch(b)
  {
    var u :| u in a.settlements
             && !IsFor(a.txs, a.settlements[u].payment, a.settlements[u].merchant, a.settlements[u].amount);
    assert !IsFor(b.txs, b.settlements[u].payment, b.settlements[u].merchant, b.settlements[u].amount);
  }

  // After any run all settlements match their payments exactly if all accepted proofs did.
  lemma {:induction false} RunMatchesWhen(w: World, steps: seq<Step>)
    requires Safe(w) && PaymentsOnRecord(w.db) && SettlementsMatch(w.db) && LegalRun(w, steps)
    ensures SettlementsMatch(After(w, steps).db) <==> AcceptedProofsMatch(w, steps)
    decreases |steps|
  {
    if steps == [] {
    } else {
      var v := Next(w, steps[0]);
      StepIsSafe(w, steps[0]);
      OnRecordKept(w, steps[0]);
      MatchKeptWhen(w, steps[0]);
      if SettlementsMatch(v.db) {
        RunMatchesWhen(v, steps[1..]);
      } else {
        RunsAreSafe(v, steps[1..]);
        RunsMoveStatus(v, steps[1..]);
        MismatchStays(v.db, After(v, steps[1..]).db);
      }
    }
  }

  // ---------- honest runs ----------

  lemma ProofsKept(a: World, b: World)
    requires ProofsMatch(a) && OnlyStatusMoves(a.db.txs, b.db.txs) && b.emitted == a.emitted
    ensures ProofsMatch(b)
  {
    forall p | p in b.emitted ensures IsFor(b.db.txs, p.tx, p.merchant, p.amount) {
      assert IsFor(a.db.txs, p.tx, p.merchant, p.amount);
    }
  }

  // Every emitted proof names the merchant and the amount of its payment, whatever requests come.
  lemma ProofsStayTrue(w: World, s: Step)
    requires ProofsMatch(w) && Legal(w, s)
    ensures ProofsMatch(Next(w, s))
  {
    StepMovesStatus(w, s);
    if s.PayOfflineStep? && OutcomeOf(w, s) == Done {
      OfflinePaymentMoves(w, s);
      var b := Next(w, s);
      forall p | p in b.emitted ensures IsFor(b.db.txs, p.tx, p.merchant, p.amount) {
        assert p in w.emitted ==> IsFor(w.db.txs, p.tx, p.merchant, p.amount);
      }
    } else {
      OtherStepsEmitNothing(w, s);
      ProofsKept(w, Next(w, s));
    }
  }

  lemma OtherStepsEmitNothing(w: World, s: Step)
    requires Legal(w, s) && (s.PayOfflineStep? ==> OutcomeOf(w, s) != Done)
    ensures Next(w, s).emitted == w.emitted
  {
  }

  // In honest runs every settlement pays the merchant of its payment, and the amount paid.
  lemma {:induction false} RunsMatch(w: World, steps: seq<Step>)
    requires SettlementsMatch(w.db) && ProofsMatch(w) && HonestRun(w, steps)
    ensures LegalRun(w, steps) && SettlementsMatch(After(w, steps).db) && ProofsMatch(After(w, steps))
    decreases |steps|
  {
    HonestIsLegal(w, steps);
    if steps == [] {
    } else {
      MatchKeptWhen(w, steps[0]);
      ProofsStayTrue(w, steps[0]);
      RunsMatch(Next(w, steps[0]), steps[1..]);
    }
  }

  lemma SettlementsPayTheMerchant(w: World, u: SettlementId)
    requires Reachable(w) && u in w.db.settlements
    ensures var row := w.db.settlements[u];
            && row.payment in w.db.txs && row.merchant == w.db.txs[row.payment].merchant
            && row.amount == w.db.txs[row.payment].amount
  {
    var steps :| HonestRun(EMPTY, steps) && LegalRun(EMPTY, steps) && w == After(EMPTY, steps);
    RunsMatch(EMPTY, steps);
    assert IsFor(w.db.txs, w.db.settlements[u].payment, w.db.settlements[u].merchant, w.db.settlements[u].amount);
  }
}
