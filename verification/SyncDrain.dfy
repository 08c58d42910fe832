// Draining the sync queue. While merchants submit only emitted proofs, every trigger completes as
// many waiting payments as its batch allows.

module SyncDrain {
  import opened Lists
  import opened Coins
  import opened LedgerState
  import opened LedgerSteps
  import opened LedgerSafety
  import opened LedgerAgreement
  import opened LedgerSolvency
  import opened LedgerRuns

  function Min(a: nat, b: nat): nat { if a <= b then a else b }

  // The number of items that still wait.
  function Waiting(queue: seq<SyncItem>): nat {
    if queue == [] then 0 else (if queue[0].status == Queued then 1 else 0) + Waiting(queue[1..])
  }

  // ---------- which items a trigger takes ----------

  ghost predicate QueuedOrCompleted(queue: seq<SyncItem>) {
    forall i :: 0 <= i < |queue| ==> queue[i].status == Queued || queue[i].status == Completed
  }

  lemma WaitingStep(queue: seq<SyncItem>, i: nat)
    requires i < |queue|
    ensures Waiting(queue[i..]) == (if queue[i].status == Queued then 1 else 0) + Waiting(queue[i + 1..])
  {
    assert queue[i..][1..] == queue[i + 1..];
  }

  // A trigger without a wallet filter takes the oldest waiting items, as many as the limit allows.
  lemma {:induction false} DueAreOldest(db: Db, limit: nat, i: nat)
    requires QueuedOrCompleted(db.queue) && i <= |db.queue|
    ensures |DueItems(db, None, limit, i)| == Min(limit, Waiting(db.queue[i..]))
    ensures forall k :: k in DueItems(db, None, limit, i) ==> db.queue[k].status == Queued
    ensures forall j, k :: i <= j < k && k in DueItems(db, None, limit, i) && db.queue[j].status == Queued ==>
              j in DueItems(db, None, limit, i)
    decreases |db.queue| - i
  {
    if limit > 0 && i < |db.queue| {
      WaitingStep(db.queue, i);
      if db.queue[i].status == Queued {
        DueAreOldest(db, limit - 1, i + 1);
      } else {
        DueAreOldest(db, limit, i + 1);
      }
    }
  }

  // ---------- what a trigger does to the queue ----------

  lemma {:induction false} WaitingAfter(queue: seq<SyncItem>, i: nat, item: SyncItem)
    requires i < |queue| && queue[i].status == Queued && item.status != Queued
    ensures Waiting(queue[i := item]) == Waiting(queue) - 1
  {
    if i > 0 {
      WaitingAfter(queue[1..], i - 1, item);
      assert queue[i := item][1..] == queue[1..][i - 1 := item];
    } else {
      assert queue[i := item][1..] == queue[1..];
    }
  }

  ghost predicate CompletesExactly(a: seq<SyncItem>, b: seq<SyncItem>, due: seq<nat>) {
    && |b| == |a|
    && (forall k :: 0 <= k < |b| ==> b[k] == if k in due then a[k].(status := Completed) else a[k])
    && Waiting(b) == Waiting(a) - |due|
  }

  lemma OneMore(a: seq<SyncItem>, b: seq<SyncItem>, due: seq<nat>, i: nat)
    requires CompletesExactly(a, b, due) && i < |a| && i !in due && a[i].status == Queued
    ensures CompletesExactly(a, b[i := b[i].(status := Completed)], due + [i])
  {
    WaitingAfter(b, i, b[i].(status := Completed));
  }

  ghost predicate QueuedAt(queue: seq<SyncItem>, due: seq<nat>) {
    Distinct(due) && forall j :: 0 <= j < |due| ==> due[j] < |queue| && queue[due[j]].status == Queued
  }

  // In agreement every item taken completes, and the others stay as they are.
  lemma {:induction false} SyncCompletesDue(db: Db, due: seq<nat>)
    requires DbSafe(db) && TxsAgreed(db) && QueueAgreed(db) && SettlementsAgreed(db) && QueuedAt(db.queue, due)
    ensures CompletesExactly(db.queue, SyncAll(db, due).queue, due)
    decreases |due|
  {
    if due == [] {
    } else {
      var init, i := due[..|due| - 1], due[|due| - 1];
      assert i !in init;
      SyncCompletesDue(db, init);
      SyncAllSafe(db, init);
      SyncAllAgrees(db, init);
      SyncOneCompletes(SyncAll(db, init), i);
      OneMore(db.queue, SyncAll(db, init).queue, init, i);
      assert due == init + [i];
    }
  }

  // Each trigger completes the oldest waiting items, as many as its batch allows.
  lemma TriggerCompletes(w: World, batch: nat)
    requires Agreed(w)
    ensures var a, b, due := w.db, SyncDb(w.db, None, batch), DueItems(w.db, None, batch, 0);
            && |due| == Min(batch, Waiting(a.queue))
            && Waiting(b.queue) == Waiting(a.queue) - |due|
            && (forall k :: k in due ==> a.queue[k].status == Queued && b.queue[k].status == Completed)
            && (forall k :: 0 <= k < |a.queue| && k !in due ==> b.queue[k] == a.queue[k])
            && (forall j, k :: 0 <= j < k && k in due && a.queue[j].status == Queued ==> j in due)
  {
    var due := DueItems(w.db, None, batch, 0);
    assert w.db.queue[0..] == w.db.queue;
    DueAreOldest(w.db, batch, 0);
    forall j | 0 <= j < |due| ensures due[j] < |w.db.queue| && w.db.queue[due[j]].status == Queued {
      assert due[j] in due;
    }
    SyncCompletesDue(w.db, due);
  }

  // ---------- draining ----------

  // What m triggers leave of n waiting items.
  function Left(n: nat, m: nat, batch: nat): nat
    decreases m
  {
    if m == 0 then n else Left(n - Min(batch, n), m - 1, batch)
  }

  lemma {:induction false} LeftIsDifference(n: nat, m: nat, batch: nat)
    ensures Left(n, m, batch) == if m * batch >= n then 0 else n - m * batch
    decreases m
  {
    if m == 0 {
    } else {
      assert m * batch == (m - 1) * batch + batch;
      assert (m - 1) * batch >= 0;
      LeftIsDifference(n - Min(batch, n), m - 1, batch);
    }
  }

  function Triggers(batch: nat, m: nat): seq<Step> {
    seq(m, _ => SyncStep(None, batch))
  }

  lemma {:induction false} WaitingIsZero(queue: seq<SyncItem>)
    requires Waiting(queue) == 0
    ensures forall i :: 0 <= i < |queue| ==> queue[i].status != Queued
  {
    if queue == [] {
    } else {
      WaitingIsZero(queue[1..]);
      forall i | 0 <= i < |queue| ensures queue[i].status != Queued {
        if i > 0 { assert queue[i] == queue[1..][i - 1]; }
      }
    }
  }

  // An empty queue leaves no payment pending.
  lemma NothingPending(w: World)
    requires Agreed(w) && Waiting(w.db.queue) == 0
    ensures forall x :: x in w.db.txs ==> w.db.txs[x].status == Succeeded
  {
    WaitingIsZero(w.db.queue);
    forall x | x in w.db.txs ensures w.db.txs[x].status == Succeeded {
      assert TxAgreed(w.db, x);
      assert w.db.txs[x].status == Pending ==> IsQueued(w.db.queue, x);
    }
  }

  function Repeated<W>(next: W -> W, w: W, m: nat): W
    decreases m
  {
    if m == 0 then w else Repeated(next, next(w), m - 1)
  }

  // If every step keeps the invariant and serves one batch, m steps serve m batches.
  lemma {:induction false} BatchesServed<W(!new)>(inv: W -> bool, next: W -> W, waiting: W -> nat, w: W, batch: nat,
                                           m: nat)
    requires inv(w)
    requires forall v {:trigger next(v)} :: inv(v) ==>
              inv(next(v)) && waiting(next(v)) == waiting(v) - Min(batch, waiting(v))
    ensures inv(Repeated(next, w, m)) && waiting(Repeated(next, w, m)) == Left(waiting(w), m, batch)
    decreases m
  {
    if m == 0 {
    } else {
      BatchesServed(inv, next, waiting, next(w), batch, m - 1);
    }
  }

  function Trigger(batch: nat): World -> World {
    (w: World) => w.(db := SyncDb(w.db, None, batch))
  }

  lemma {:induction false} TriggersAreRuns(w: World, batch: nat, m: nat)
    ensures HonestRun(w, Triggers(batch, m)) && LegalRun(w, Triggers(batch, m))
    ensures After(w, Triggers(batch, m)) == Repeated(Trigger(batch), w, m)
    decreases m
  {
    if m == 0 {
    } else {
      assert Triggers(batch, m)[0] == SyncStep(None, batch) && Triggers(batch, m)[1..] == Triggers(batch, m - 1);
      TriggersAreRuns(Trigger(batch)(w), batch, m - 1);
    }
  }

  lemma BatchServed(w: World, batch: nat)
    requires Agreed(w)
    ensures Waiting(SyncDb(w.db, None, batch).queue) == Waiting(w.db.queue) - Min(batch, Waiting(w.db.queue))
  {
    TriggerCompletes(w, batch);
  }

  lemma TriggerIsStep(w: World, batch: nat, s: Step)
    requires s == SyncStep(None, batch)
    ensures Honest(w, s) && Trigger(batch)(w) == Next(w, s)
  {
  }

  lemma TriggerServes(w: World, batch: nat)
    requires Sound(w)
    ensures Sound(Trigger(batch)(w))
    ensures Waiting(Trigger(batch)(w).db.queue) == Waiting(w.db.queue) - Min(batch, Waiting(w.db.queue))
  {
    var s := SyncStep(None, batch);
    TriggerIsStep(w, batch, s);
    StepIsSound(w, s);
    BatchServed(w, batch);
  }

  lemma TriggersServe(w: World, batch: nat, m: nat, v: World)
    requires Sound(w) && v == Repeated(Trigger(batch), w, m)
    ensures Agreed(v) && Waiting(v.db.queue) == Left(Waiting(w.db.queue), m, batch)
  {
    var inv := (v: World) => Sound(v);
    forall v: World {:trigger Trigger(batch)(v)} | inv(v)
      ensures inv(Trigger(batch)(v))
      ensures Waiting(Trigger(batch)(v).db.queue) == Waiting(v.db.queue) - Min(batch, Waiting(v.db.queue))
    {
      TriggerServes(v, batch);
    }
    BatchesServed(inv, Trigger(batch), (v: World) => Waiting(v.db.queue), w, batch, m);
  }

  // Ceiling division says how many triggers empty the queue, and one fewer does not do. An empty
  // queue means that every payment has succeeded.
  lemma TriggersDrain(w: World, batch: nat, m: nat, v: World)
    requires Sound(w) && batch > 0
    requires LegalRun(w, Triggers(batch, m)) && v == After(w, Triggers(batch, m))
    ensures Waiting(v.db.queue) == 0 <==> m >= (Waiting(w.db.queue) + batch - 1) / batch
    ensures Waiting(v.db.queue) == 0 ==> forall x :: x in v.db.txs ==> v.db.txs[x].status == Succeeded
  {
    TriggersAreRuns(w, batch, m);
    IteratedTriggersDrain(w, batch, m, v);
  }

  lemma IteratedTriggersDrain(w: World, batch: nat, m: nat, v: World)
    requires Sound(w) && batch > 0 && v == Repeated(Trigger(batch), w, m)
    ensures Waiting(v.db.queue) == 0 <==> m >= (Waiting(w.db.queue) + batch - 1) / batch
    ensures Waiting(v.db.queue) == 0 ==> forall x :: x in v.db.txs ==> v.db.txs[x].status == Succeeded
  {
    CountServed(w, batch, m, v);
    NothingLeft(Waiting(w.db.queue), batch, m);
    if Waiting(v.db.queue) == 0 { DrainedIsDone(w, batch, m, v); }
  }

  lemma CountServed(w: World, batch: nat, m: nat, v: World)
    requires Sound(w) && v == Repeated(Trigger(batch), w, m)
    ensures Waiting(v.db.queue) == Left(Waiting(w.db.queue), m, batch)
  {
    TriggersServe(w, batch, m, v);
  }

  lemma DrainedIsDone(w: World, batch: nat, m: nat, v: World)
    requires Sound(w) && v == Repeated(Trigger(batch), w, m) && Waiting(v.db.queue) == 0
    ensures forall x :: x in v.db.txs ==> v.db.txs[x].status == Succeeded
  {
    TriggersServe(w, batch, m, v);
    NothingPending(v);
  }

  lemma NothingLeft(n: nat, batch: nat, m: nat)
    requires batch > 0
    ensures Left(n, m, batch) == 0 <==> m >= (n + batch - 1) / batch
  {
    LeftIsDifference(n, m, batch);
    CeilingDivision(n, batch, m, m * batch);
  }

  lemma CeilingDivision(n: nat, batch: nat, m: nat, served: nat)
    requires batch > 0 && served == m * batch
    ensures served >= n <==> m >= (n + batch - 1) / batch
  {
    var q := (n + batch - 1) / batch;
    assert q * batch <= n + batch - 1 < q * batch + batch;
    if m >= q {
      assert served >= q * batch;
    } else {
      assert (m + 1) * batch <= q * batch;
    }
  }
}
