// What one trigger takes from the queue and what it leaves alone, for any queue and any filter, and
// exactly what happens to an item it takes.

module SyncFilters {
  import opened Coins
  import opened LedgerState
  import opened LedgerSteps
  import opened LedgerSafety
  import opened SyncDrain
  import opened SyncConflicts
  import Ledger

  // ---------- which items are taken ----------

  // Item k is waiting or has failed before and, under a filter, its payment is on record for that wallet.
  ghost predicate Eligible(db: Db, filter: Option<WalletId>, k: int) {
    && 0 <= k < |db.queue|
    && db.queue[k].status != Completed
    && (filter.None? || exists x :: x in db.txs && x == db.queue[k].tx && db.txs[x].wallet == filter.value)
  }

  // How many items from position i on are eligible.
  ghost function EligibleFrom(db: Db, filter: Option<WalletId>, i: nat): nat
    requires i <= |db.queue|
    decreases |db.queue| - i
  {
    if i == |db.queue| then 0
    else (if Eligible(db, filter, i) then 1 else 0) + EligibleFrom(db, filter, i + 1)
  }

  // Eligible items only, and every eligible one from position i on that is older than one of them.
  ghost predicate OldestEligible(db: Db, filter: Option<WalletId>, due: seq<nat>, i: nat) {
    && (forall k :: k in due ==> k >= i && Eligible(db, filter, k))
    && forall j, k :: i <= j < k && k in due && Eligible(db, filter, j) ==> j in due
  }

  // A trigger takes the oldest eligible items, as many as its batch allows.
  lemma {:induction false} DueAreOldestEligible(db: Db, filter: Option<WalletId>, limit: nat, i: nat)
    requires i <= |db.queue|
    ensures OldestEligible(db, filter, DueItems(db, filter, limit, i), i)
    ensures |DueItems(db, filter, limit, i)| == Min(limit, EligibleFrom(db, filter, i))
    decreases |db.queue| - i
  {
    if limit == 0 || i == |db.queue| {
    } else {
      EligibleIsDue(db, filter, i);
      if Eligible(db, filter, i) {
        DueAreOldestEligible(db, filter, limit - 1, i + 1);
        OneMoreDue(db, filter, i, DueItems(db, filter, limit - 1, i + 1));
      } else {
        DueAreOldestEligible(db, filter, limit, i + 1);
        NoMoreDue(db, filter, i, DueItems(db, filter, limit, i + 1));
      }
    }
  }

  lemma EligibleIsDue(db: Db, filter: Option<WalletId>, i: nat)
    requires i < |db.queue|
    ensures Eligible(db, filter, i) <==> IsDue(db.queue[i]) && Matches(db, db.queue[i], filter)
  {
  }

  lemma OneMoreDue(db: Db, filter: Option<WalletId>, i: nat, due: seq<nat>)
    requires Eligible(db, filter, i) && OldestEligible(db, filter, due, i + 1)
    ensures OldestEligible(db, filter, [i] + due, i)
  {
  }

  lemma NoMoreDue(db: Db, filter: Option<WalletId>, i: nat, due: seq<nat>)
    requires !Eligible(db, filter, i) && OldestEligible(db, filter, due, i + 1)
    ensures OldestEligible(db, filter, due, i)
  {
  }

  // ---------- what happens to one item ----------

  // The payment is gone: one attempt more, and the tenth attempt gives up.
  lemma MissingPayment(db: Db, i: nat)
    requires i < |db.queue| && db.queue[i].tx !in db.txs
    ensures var b := SyncOne(db, i);
            && b == db.(queue := b.queue) && |b.queue| == |db.queue|
            && (forall k :: 0 <= k < |b.queue| && k != i ==> b.queue[k] == db.queue[k])
            && b.queue[i].tx == db.queue[i].tx && b.queue[i].attempts == db.queue[i].attempts + 1
            && (b.queue[i].status == SyncFailed <==> db.queue[i].attempts >= 9)
            && (b.queue[i].status == Queued <==> db.queue[i].attempts < 9)
  {
  }

  // The tokens before position n are registered by the sync and position n, if any, conflicts.
  ghost predicate ConflictsAt(registry: map<TokenId, Spend>, ids: seq<TokenId>, n: nat) {
    && n <= |ids|
    && (forall j :: 0 <= j < n ==> ids[j] !in registry && ids[j] !in ids[..j])
    && (n < |ids| ==> ids[n] in registry || ids[n] in ids[..n])
  }

  lemma {:induction false} RegistersUpTo(registry: map<TokenId, Spend>, ids: seq<TokenId>, spend: Spend)
    returns (n: nat)
    ensures ConflictsAt(registry, ids, n)
    ensures RegisterUntilConflict(registry, ids, spend) == (Register(registry, ids[..n], spend), n == |ids|)
    decreases |ids|
  {
    if ids == [] || ids[0] in registry {
      n := 0;
      RegistersNothing(registry, ids, spend);
    } else {
      var m := RegistersUpTo(registry[ids[0] := spend], ids[1..], spend);
      n := m + 1;
      ShiftedConflict(registry, ids, spend, m);
      OneMoreRegistered(registry, ids, spend, m);
    }
  }

  lemma RegistersNothing(registry: map<TokenId, Spend>, ids: seq<TokenId>, spend: Spend)
    requires ids == [] || ids[0] in registry
    ensures RegisterUntilConflict(registry, ids, spend) == (Register(registry, ids[..0], spend), ids == [])
  {
    assert Register(registry, ids[..0], spend) == registry;
  }

  lemma OneMoreRegistered(registry: map<TokenId, Spend>, ids: seq<TokenId>, spend: Spend, m: nat)
    requires ids != [] && ids[0] !in registry && m <= |ids| - 1
    requires RegisterUntilConflict(registry[ids[0] := spend], ids[1..], spend)
          == (Register(registry[ids[0] := spend], ids[1..][..m], spend), m == |ids| - 1)
    ensures RegisterUntilConflict(registry, ids, spend) == (Register(registry, ids[..m + 1], spend), m + 1 == |ids|)
  {
    assert ids[..m + 1] == [ids[0]] + ids[1..][..m];
    FirstRegistered(registry, ids[0], ids[1..][..m], spend);
  }

  lemma FirstRegistered(registry: map<TokenId, Spend>, t: TokenId, rest: seq<TokenId>, spend: Spend)
    ensures Register(registry, [t] + rest, spend) == Register(registry[t := spend], rest, spend)
  {
    var a, b := Register(registry, [t] + rest, spend), Register(registry[t := spend], rest, spend);
    forall u ensures u in a <==> u in b { }
  }

  lemma ShiftedConflict(registry: map<TokenId, Spend>, ids: seq<TokenId>, spend: Spend, m: nat)
    requires ids != [] && ids[0] !in registry && ConflictsAt(registry[ids[0] := spend], ids[1..], m)
    ensures ConflictsAt(registry, ids, m + 1)
  {
    forall j | 0 < j <= |ids| ensures ids[..j] == [ids[0]] + ids[1..][..j - 1] { }
    forall j | 0 < j < |ids| ensures ids[j] == ids[1..][j - 1] { }
  }

  ghost predicate OnlyItemMoves(a: Db, b: Db, i: nat, item: SyncStatus, payment: TxStatus)
    requires i < |a.queue| && a.queue[i].tx in a.txs
  {
    && b == a.(registry := b.registry, txs := b.txs, queue := b.queue)
    && |b.queue| == |a.queue| && b.txs.Keys == a.txs.Keys
    && (forall k :: 0 <= k < |b.queue| ==> b.queue[k] == if k == i then a.queue[k].(status := item) else a.queue[k])
    && (forall x :: x in a.txs ==>
          b.txs[x] == if x == a.queue[i].tx then a.txs[x].(status := payment) else a.txs[x])
  }

  // A settled payment completes without registering anything.
  lemma SettledPayment(db: Db, i: nat)
    requires i < |db.queue| && db.queue[i].tx in db.txs && db.txs[db.queue[i].tx].status == Succeeded
    ensures OnlyItemMoves(db, SyncOne(db, i), i, Completed, Succeeded) && SyncOne(db, i).registry == db.registry
  {
  }

  // Any other payment registers its tokens in order, up to the first that is registered already:
  // without such a token it succeeds, with one it fails and the tokens before stay registered.
  lemma UnsettledPayment(db: Db, i: nat) returns (n: nat)
    requires i < |db.queue| && db.queue[i].tx in db.txs && db.txs[db.queue[i].tx].status != Succeeded
    ensures var ids, b := db.txs[db.queue[i].tx].consumed, SyncOne(db, i);
            && ConflictsAt(db.registry, ids, n)
            && b.registry == Register(db.registry, ids[..n], Spend(db.queue[i].tx, None))
            && if n == |ids| then OnlyItemMoves(db, b, i, Completed, Succeeded)
               else OnlyItemMoves(db, b, i, SyncFailed, Failed)
  {
    var x := db.queue[i].tx;
    n := RegistersUpTo(db.registry, db.txs[x].consumed, Spend(x, None));
    MovedItem(db, SyncOne(db, i), i, n == |db.txs[x].consumed|);
  }

  lemma MovedItem(db: Db, b: Db, i: nat, clean: bool)
    requires i < |db.queue| && db.queue[i].tx in db.txs && db.txs[db.queue[i].tx].status != Succeeded
    requires b == SyncOne(db, i)
    requires clean == RegisterUntilConflict(db.registry, db.txs[db.queue[i].tx].consumed, Spend(db.queue[i].tx, None)).1
    ensures if clean then OnlyItemMoves(db, b, i, Completed, Succeeded) else OnlyItemMoves(db, b, i, SyncFailed, Failed)
  {
  }

  // ---------- what a filtered trigger leaves alone ----------

  // Only rows of the filtered wallet differ: queue items and payments of other wallets stay, and every
  // new registry row names a payment of this one.
  ghost predicate LeavesOthers(a: Db, b: Db, wallet: WalletId) {
    && b == a.(registry := b.registry, txs := b.txs, queue := b.queue)
    && |b.queue| == |a.queue| && b.txs.Keys == a.txs.Keys
    && (forall x :: x in a.txs ==> b.txs[x].(status := a.txs[x].status) == a.txs[x])
    && (forall x :: x in a.txs && a.txs[x].wallet != wallet ==> b.txs[x] == a.txs[x])
    && (forall k :: 0 <= k < |a.queue| ==> b.queue[k].tx == a.queue[k].tx)
    && (forall k :: 0 <= k < |a.queue| && !IsOf(a, k, wallet) ==> b.queue[k] == a.queue[k])
    && Extends(a.registry, b.registry)
    && (forall t :: t in b.registry && t !in a.registry ==> RegisteredFor(a, b.registry[t], t, wallet))
  }

  ghost predicate IsOf(db: Db, k: nat, wallet: WalletId)
    requires k < |db.queue|
  {
    db.queue[k].tx in db.txs && db.txs[db.queue[k].tx].wallet == wallet
  }

  // The row is for a payment of the wallet that consumed the token, and no settlement made it.
  ghost predicate RegisteredFor(db: Db, row: Spend, t: TokenId, wallet: WalletId) {
    && row.tx in db.txs && db.txs[row.tx].wallet == wallet && t in db.txs[row.tx].consumed
    && row.settlement.None?
  }

  lemma {:induction false} LeavesTransitive(a: Db, b: Db, c: Db, wallet: WalletId)
    requires LeavesOthers(a, b, wallet) && LeavesOthers(b, c, wallet)
    ensures LeavesOthers(a, c, wallet)
  {
    forall k | 0 <= k < |a.queue| && !IsOf(a, k, wallet) ensures c.queue[k] == a.queue[k] {
      assert !IsOf(b, k, wallet);
    }
    forall t | t in c.registry && t !in a.registry ensures RegisteredFor(a, c.registry[t], t, wallet) {
      if t in b.registry {
        assert RegisteredFor(a, b.registry[t], t, wallet);
      } else {
        assert RegisteredFor(b, c.registry[t], t, wallet);
      }
    }
  }

  lemma MoveLeavesOthers(a: Db, b: Db, i: nat, item: SyncStatus, payment: TxStatus, ids: seq<TokenId>,
                         wallet: WalletId)
    requires i < |a.queue| && IsOf(a, i, wallet) && OnlyItemMoves(a, b, i, item, payment)
    requires b.registry == Register(a.registry, ids, Spend(a.queue[i].tx, None))
    requires forall t :: t in ids ==> t in a.txs[a.queue[i].tx].consumed && t !in a.registry
    ensures LeavesOthers(a, b, wallet)
  {
  }

  lemma OneLeavesOthers(db: Db, i: nat, wallet: WalletId)
    requires i < |db.queue| && IsOf(db, i, wallet)
    ensures LeavesOthers(db, SyncOne(db, i), wallet)
  {
    var tx := db.txs[db.queue[i].tx];
    if tx.status == Succeeded {
      SettledPayment(db, i);
      MoveLeavesOthers(db, SyncOne(db, i), i, Completed, Succeeded, [], wallet);
    } else {
      var n := UnsettledPayment(db, i);
      if n == |tx.consumed| {
        MoveLeavesOthers(db, SyncOne(db, i), i, Completed, Succeeded, tx.consumed[..n], wallet);
      } else {
        MoveLeavesOthers(db, SyncOne(db, i), i, SyncFailed, Failed, tx.consumed[..n], wallet);
      }
    }
  }

  lemma {:induction false} AllLeaveOthers(db: Db, due: seq<nat>, wallet: WalletId)
    requires forall j :: 0 <= j < |due| ==> due[j] < |db.queue| && IsOf(db, due[j], wallet)
    ensures LeavesOthers(db, SyncAll(db, due), wallet)
    decreases |due|
  {
    if due == [] {
    } else {
      var init, i := due[..|due| - 1], due[|due| - 1];
      AllLeaveOthers(db, init, wallet);
      OneLeavesOthers(SyncAll(db, init), i, wallet);
      LeavesTransitive(db, SyncAll(db, init), SyncAll(db, due), wallet);
    }
  }

  // A trigger for one wallet takes the oldest eligible items of that wallet, as many as the batch
  // allows; it changes no other item, no other wallet's payment, and no registry row that exists.
  lemma FilteredTrigger(db: Db, wallet: WalletId, batch: nat)
    ensures var b, due := SyncDb(db, Some(wallet), batch), DueItems(db, Some(wallet), batch, 0);
            && |due| == Min(batch, EligibleFrom(db, Some(wallet), 0))
            && (forall k :: k in due ==> IsOf(db, k, wallet) && db.queue[k].status != Completed)
            && (forall j, k :: 0 <= j < k && k in due && Eligible(db, Some(wallet), j) ==> j in due)
            && (forall k :: 0 <= k < |b.queue| && k !in due ==> b.queue[k] == db.queue[k])
            && LeavesOthers(db, b, wallet)
  {
    var due := DueItems(db, Some(wallet), batch, 0);
    DueAreOldestEligible(db, Some(wallet), batch, 0);
    forall j | 0 <= j < |due| ensures due[j] < |db.queue| && IsOf(db, due[j], wallet) {
      assert Eligible(db, Some(wallet), due[j]);
    }
    SyncAllMovesOn(db, due);
    AllLeaveOthers(db, due, wallet);
  }

  // Without a filter every item that is not completed is eligible.
  lemma UnfilteredTrigger(db: Db, batch: nat)
    ensures var b, due := SyncDb(db, None, batch), DueItems(db, None, batch, 0);
            && |due| == Min(batch, EligibleFrom(db, None, 0))
            && (forall k :: k in due ==> db.queue[k].status != Completed)
            && (forall j, k :: 0 <= j < k && k in due && db.queue[j].status != Completed ==> j in due)
            && (forall k :: 0 <= k < |b.queue| && k !in due ==> b.queue[k] == db.queue[k])
  {
    DueAreOldestEligible(db, None, batch, 0);
    SyncAllMovesOn(db, DueItems(db, None, batch, 0));
    forall j | 0 <= j < |db.queue| && db.queue[j].status != Completed ensures Eligible(db, None, j) { }
  }

  // Items are processed in the order taken, so the older of two payments that share a token wins.
  lemma {:induction false} TakenInOrder(db: Db, first: seq<nat>, last: seq<nat>)
    requires forall j :: 0 <= j < |first| ==> first[j] < |db.queue|
    requires forall j :: 0 <= j < |last| ==> last[j] < |db.queue|
    ensures (forall j :: 0 <= j < |first + last| ==> (first + last)[j] < |db.queue|)
    ensures SyncAll(db, first + last) == SyncAll(SyncAll(db, first), last)
    decreases |last|
  {
    if last == [] {
      assert first + last == first;
    } else {
      var init := last[..|last| - 1];
      TakenInOrder(db, first, init);
      assert (first + last)[..|first + last| - 1] == first + init;
    }
  }

  // ---------- reports ----------

  // Each report names the payment of its item and says what became of it.
  lemma MissingIsReported(db: Db, i: nat)
    requires i < |db.queue| && db.queue[i].tx !in db.txs
    ensures Ledger.ReportAt(SyncOne(db, i), i)
         == Ledger.Report(db.queue[i].tx, if db.queue[i].attempts >= 9 then Ledger.GivenUp else Ledger.Retryable)
  {
    MissingPayment(db, i);
  }

  lemma RecordedIsReported(db: Db, i: nat)
    requires i < |db.queue| && db.queue[i].tx in db.txs
    ensures var tx, report := db.txs[db.queue[i].tx], Ledger.ReportAt(SyncOne(db, i), i);
            && report.payment == db.queue[i].tx
            && report.verdict == if tx.status == Succeeded || ConflictsAt(db.registry, tx.consumed, |tx.consumed|)
                                 then Ledger.Synced else Ledger.DoubleSpendDetected
  {
    var tx := db.txs[db.queue[i].tx];
    if tx.status == Succeeded {
      SettledPayment(db, i);
    } else {
      var n := UnsettledPayment(db, i);
      forall m | ConflictsAt(db.registry, tx.consumed, m) ensures m == n { }
    }
  }
}
