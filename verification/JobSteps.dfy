/**
 One step of the job service. Each transaction that a worker, an operator or
 recovery runs keeps the invariants, with whatever snapshot it is given, and none
 of them ever aborts on a constraint of the tables. The lemmas follow the
 transactions: what a transaction is made of, then the transaction itself.
 */
module JobSteps {
  import opened Wrappers
  import opened JobTables
  import opened JobRuns
  import opened JobInvariants

  lemma SubmitKeeps(s: System, id: JobId, sub: Submission, now: Time)
    requires Inv(s) && id !in s.db.jobs && sub.root.None?
    ensures Inv(System(Submit(s.db, id, sub, now).db, s.issued))
  {
    if sub.key.EmptyKey? || !KeyTaken(s.db, sub.key) {
      var key := if sub.key.EmptyKey? then None else Some(sub.key);
      InsertKeeps(s, NewJob(id, sub, id, key, now));
    }
  }

  lemma RowEffects(row: Job, now: Time)
    ensures CancelledOrFlagged(row, row) && CancelledOrFlagged(row, FlaggedRow(row, now))
    ensures Queued(row.status) || row.status.Waiting? ==> CancelledOrFlagged(row, CancelledRow(row, now))
  {
  }

  lemma CancelTreeCancelsSome(db: Db, root: JobId, now: Time)
    ensures CancelsSome(db, CancelTree(db, root, now))
  {
    forall id | id in db.jobs ensures CancelledOrFlagged(db.jobs[id], CancelTree(db, root, now).jobs[id]) {
      RowEffects(db.jobs[id], now);
    }
  }

  lemma UpdateCancelsSome(db: Db, id: JobId, row': Job)
    requires id in db.jobs && CancelledOrFlagged(db.jobs[id], row')
    ensures CancelsSome(db, db.(jobs := db.jobs[id := row']))
  {
    forall other | other in db.jobs ensures CancelledOrFlagged(db.jobs[other], db.jobs[id := row'][other]) {
      RowEffects(db.jobs[other], 0);
    }
  }

  lemma NothingCancelled(db: Db)
    ensures CancelsSome(db, db)
  {
    forall id | id in db.jobs ensures CancelledOrFlagged(db.jobs[id], db.jobs[id]) {
      RowEffects(db.jobs[id], 0);
    }
  }

  lemma CancelStepCancelsSome(db: Db, id: JobId, now: Time)
    ensures CancelsSome(db, Cancel(db, id, now).db)
  {
    NothingCancelled(db);
    if id in db.jobs {
      var row := db.jobs[id];
      RowEffects(row, now);
      if Queued(row.status) {
        UpdateCancelsSome(db, id, CancelledRow(row, now));
      } else if row.status.Running? {
        UpdateCancelsSome(db, id, FlaggedRow(row, now));
      } else if row.status.Waiting? {
        CancelTreeCancelsSome(db, row.root, now);
      }
    }
  }

  lemma HeartbeatCancelsNothing(db: Db, snapshot: Job, now: Time, lease: Time)
    requires Rows(db)
    ensures CancelsSome(db, Heartbeat(db, snapshot, now, lease).db)
  {
    var db' := Heartbeat(db, snapshot, now, lease).db;
    forall id | id in db.jobs ensures CancelledOrFlagged(db.jobs[id], db'.jobs[id]) {
      RowEffects(db.jobs[id], now);
      assert RowOk(id, db.jobs[id]);
    }
  }

  lemma {:induction false} InsertChildrenKeeps(s: System, parent: Job, children: seq<Child>, now: Time)
    requires Inv(s) && RootOpen(s.db, parent.root) && FreshChildren(s.db, children)
    ensures var db' := InsertChildren(s.db, parent, children, now);
            Inv(System(db', s.issued)) && RootOpen(db', parent.root)
    decreases |children|
  {
    if children != [] {
      var child := children[0];
      var row := ChildRow(parent, child, now);
      var db1 := InsertChild(s.db, parent, child, now);
      if !KeyTaken(s.db, child.submission.key) {
        InsertKeeps(s, row);
      }
      assert FreshChildren(db1, children[1..]);
      InsertChildrenKeeps(System(db1, s.issued), parent, children[1..], now);
    }
  }

  lemma FinalizeAfterKeeps(s: System, before: Db, job: Job, status: Status, now: Time)
    requires Inv(s) && Inv(System(before, s.issued)) && IsRoot(s.db, job.root)
    ensures var tx := FinalizeAfter(before, s.db, job, status, now);
            tx.outcome.Done? && Inv(System(tx.db, s.issued))
  {
    if Terminal(status) && job.id != job.root {
      FinalizeKeeps(s, job.root, now);
    }
  }

  /** The tree that a running job belongs to can take its children once the job is closed. */
  lemma OpenAfterClose(db: Db, snapshot: Job, c: Closing, now: Time)
    requires Rows(db) && Trees(db) && Describes(db, snapshot) && (c.status.DeadLettered? ==> c.error.Some?)
    requires snapshot.id == snapshot.root ==> c.status.Waiting?
    ensures RootOpen(Close(db, snapshot, c, now), snapshot.root)
  {
    if snapshot.id != snapshot.root {
      assert RowOk(snapshot.id, db.jobs[snapshot.id]);
      ActiveBelowOpenRoot(db, snapshot.id);
    }
  }

  lemma RootAfterClose(db: Db, snapshot: Job, c: Closing, now: Time)
    requires Rows(db) && Describes(db, snapshot) && (c.status.DeadLettered? ==> c.error.Some?)
    ensures IsRoot(Close(db, snapshot, c, now), snapshot.root)
  {
    assert IsRoot(db, db.jobs[snapshot.id].root);
  }

  lemma HeldDescribes(s: System, token: Token)
    requires Inv(s) && token in s.issued && Holds(s.db, s.issued[token])
    ensures Describes(s.db, s.issued[token]) && s.db.jobs[s.issued[token].id].id == s.issued[token].id
  {
    var snapshot := s.issued[token];
    assert SnapshotOk(s.db, token, snapshot) && RowOk(snapshot.id, s.db.jobs[snapshot.id]);
    HoldsDescribes(s, token);
  }

  lemma CompleteKeeps(s: System, token: Token, children: seq<Child>, now: Time)
    requires Inv(s) && token in s.issued && FreshChildren(s.db, children)
    ensures var tx := Complete(s.db, s.issued[token], children, now);
            Inv(System(tx.db, s.issued)) && (tx.outcome.Done? || tx.outcome.LeaseLost?)
  {
    var snapshot := s.issued[token];
    if Holds(s.db, snapshot) {
      HeldDescribes(s, token);
      var c := Completion(snapshot, children);
      var s1 := System(Close(s.db, snapshot, c, now), s.issued);
      CloseKeeps(s, snapshot, c, now);
      RootAfterClose(s.db, snapshot, c, now);
      if children != [] {
        OpenAfterClose(s.db, snapshot, c, now);
        InsertChildrenKeeps(s1, snapshot, children, now);
      }
      var s2 := System(InsertChildren(s1.db, snapshot, children, now), s.issued);
      FinalizeAfterKeeps(s2, s.db, snapshot, CompletionStatus(snapshot, children), now);
    }
  }

  lemma FailKeeps(s: System, token: Token, kind: ErrorKind, message: string, retryAt: Time, now: Time)
    requires Inv(s) && token in s.issued
    ensures var tx := Fail(s.db, s.issued[token], kind, message, retryAt, now);
            Inv(System(tx.db, s.issued)) && (tx.outcome.Done? || tx.outcome.LeaseLost?)
  {
    var snapshot := s.issued[token];
    if Holds(s.db, snapshot) {
      HeldDescribes(s, token);
      var c := Failing(snapshot, kind, message, retryAt);
      assert RowOk(snapshot.id, s.db.jobs[snapshot.id]);
      CloseKeeps(s, snapshot, c, now);
      RootAfterClose(s.db, snapshot, c, now);
      FinalizeAfterKeeps(System(Close(s.db, snapshot, c, now), s.issued), s.db, snapshot,
        FailureStatus(snapshot, kind), now);
    }
  }

  lemma ReclaimOneKeeps(s: System, row: Job, now: Time)
    requires Inv(s) && Describes(s.db, row)
    ensures var tx := ReclaimOne(s.db, row, now); tx.outcome.Done? && Inv(System(tx.db, s.issued))
  {
    assert RowOk(row.id, s.db.jobs[row.id]);
    CloseKeeps(s, row, Recovery(row), now);
    RootAfterClose(s.db, row, Recovery(row), now);
    FinalizeAfterKeeps(System(Close(s.db, row, Recovery(row), now), s.issued), s.db, row, RecoveredStatus(row), now);
  }

  /** Recovering one row leaves the other running rows as they were read. */
  lemma ReclaimOneFrame(db: Db, row: Job, other: Job, now: Time)
    requires row.id in db.jobs && Describes(db, other) && other.id != row.id
    ensures Describes(ReclaimOne(db, row, now).db, other)
  {
  }

  /** Rows read before recovery starts, all of them running and distinct. */
  predicate Recoverable(db: Db, rows: seq<Job>) {
    && (forall i :: 0 <= i < |rows| ==> rows[i].id in db.jobs && Describes(db, rows[i]))
    && (forall i, j :: 0 <= i < j < |rows| ==> rows[i].id != rows[j].id)
  }

  lemma RestRecoverable(db: Db, rows: seq<Job>, now: Time)
    requires Recoverable(db, rows) && rows != []
    ensures Recoverable(ReclaimOne(db, rows[0], now).db, rows[1..])
  {
    forall i | 0 <= i < |rows[1..]|
      ensures rows[1..][i].id in ReclaimOne(db, rows[0], now).db.jobs
              && Describes(ReclaimOne(db, rows[0], now).db, rows[1..][i])
    {
      ReclaimOneFrame(db, rows[0], rows[i + 1], now);
    }
  }

  lemma {:induction false} ReclaimKeeps(s: System, rows: seq<Job>, now: Time)
    requires Inv(s) && Recoverable(s.db, rows)
    ensures var tx := Reclaim(s.db, rows, now); tx.outcome.Done? && Inv(System(tx.db, s.issued))
    decreases |rows|
  {
    if rows != [] {
      ReclaimOneKeeps(s, rows[0], now);
      RestRecoverable(s.db, rows, now);
      ReclaimKeeps(System(ReclaimOne(s.db, rows[0], now).db, s.issued), rows[1..], now);
    }
  }

  lemma ExpiredRecoverable(s: System, ids: seq<JobId>, now: Time)
    requires Rows(s.db) && Enabled(s, DoReclaim(ids, now))
    ensures Recoverable(s.db, RowsOf(s.db, ids))
  {
    forall i | 0 <= i < |ids| ensures s.db.jobs[ids[i]].id == ids[i] {
      assert RowOk(ids[i], s.db.jobs[ids[i]]);
    }
  }

  lemma HeartbeatKeeps(s: System, snapshot: Job, now: Time, lease: Time)
    requires Inv(s)
    ensures Inv(System(Heartbeat(s.db, snapshot, now, lease).db, s.issued))
  {
    HeartbeatCancelsNothing(s.db, snapshot, now, lease);
    CancelKeeps(s, Heartbeat(s.db, snapshot, now, lease).db);
  }

  lemma CancelStepKeeps(s: System, id: JobId, now: Time)
    requires Inv(s)
    ensures Inv(System(Cancel(s.db, id, now).db, s.issued))
  {
    CancelStepCancelsSome(s.db, id, now);
    CancelKeeps(s, Cancel(s.db, id, now).db);
  }

  lemma ReclaimStepKeeps(s: System, ids: seq<JobId>, now: Time)
    requires Inv(s) && Enabled(s, DoReclaim(ids, now))
    ensures var tx := Reclaim(s.db, RowsOf(s.db, ids), now); tx.outcome.Done? && Inv(System(tx.db, s.issued))
  {
    ExpiredRecoverable(s, ids, now);
    ReclaimKeeps(s, RowsOf(s.db, ids), now);
  }

  lemma RetryKeeps(s: System, source: JobId, id: JobId, maxAttempts: nat, now: Time)
    requires Inv(s) && id !in s.db.jobs
    ensures Inv(System(Retry(s.db, source, id, maxAttempts, now).db, s.issued))
  {
    if source in s.db.jobs {
      SubmitKeeps(s, id, RetrySubmission(s.db.jobs[source], maxAttempts), now);
    }
  }

  /** The steps that workers and recovery take. */
  lemma WorkerTxKeeps(s: System, step: Step)
    requires Inv(s) && Enabled(s, step)
    requires step.DoHeartbeat? || step.DoComplete? || step.DoFail? || step.DoReclaim?
    ensures Inv(System(TxOf(s, step).db, s.issued)) && !TxOf(s, step).outcome.Aborted?
  {
    match step
    case DoHeartbeat(token, now, lease) =>
      HeartbeatKeeps(s, s.issued[token], now, lease);
    case DoComplete(token, children, now) => CompleteKeeps(s, token, children, now);
    case DoFail(token, kind, message, retryAt, now) => FailKeeps(s, token, kind, message, retryAt, now);
    case DoReclaim(ids, now) =>
      ReclaimStepKeeps(s, ids, now);
  }

  /** The steps that operators take. */
  lemma OperatorTxKeeps(s: System, step: Step)
    requires Inv(s) && Enabled(s, step)
    requires step.DoSubmit? || step.DoCancel? || step.DoRetry? || step.DoReplay?
    ensures Inv(System(TxOf(s, step).db, s.issued)) && !TxOf(s, step).outcome.Aborted?
  {
    match step
    case DoSubmit(id, sub, now) => SubmitKeeps(s, id, sub, now);
    case DoCancel(id, now) =>
      CancelStepKeeps(s, id, now);
    case DoRetry(source, id, maxAttempts, now) =>
      RetryKeeps(s, source, id, maxAttempts, now);
    case DoReplay(entry, id, maxAttempts, now) => ReplayKeeps(s, entry, id, maxAttempts, now);
  }

  // ----- Finished jobs never change, and leases only vanish -----

  /** Rows in a terminal state are the same after, and no row gained a lease. */
  ghost predicate Calm(db: Db, db': Db) {
    && (forall id :: id in db.jobs ==> id in db'.jobs)
    && (forall id :: id in db.jobs && Terminal(db.jobs[id].status) ==> db'.jobs[id] == db.jobs[id])
    && (forall id :: id in db'.jobs && db'.jobs[id].leaseToken.Some? ==>
          id in db.jobs && db'.jobs[id].leaseToken == db.jobs[id].leaseToken)
  }

  lemma CalmTransitive(a: Db, b: Db, c: Db)
    requires Calm(a, b) && Calm(b, c)
    ensures Calm(a, c)
  {
  }

  lemma CalmClose(db: Db, snapshot: Job, c: Closing, now: Time)
    requires Describes(db, snapshot) && (c.status.DeadLettered? ==> c.error.Some?)
    ensures Calm(db, Close(db, snapshot, c, now))
  {
  }

  lemma CalmFinalize(db: Db, root: JobId, now: Time)
    requires root in db.jobs
    ensures Calm(db, FinalizeRoot(db, root, now))
  {
  }

  lemma CalmChild(db: Db, parent: Job, child: Child, now: Time)
    requires child.id !in db.jobs
    ensures Calm(db, InsertChild(db, parent, child, now))
  {
  }

  lemma StillFresh(db: Db, parent: Job, children: seq<Child>, now: Time)
    requires FreshChildren(db, children) && children != []
    ensures FreshChildren(InsertChild(db, parent, children[0], now), children[1..])
  {
  }

  lemma {:induction false} CalmChildren(db: Db, parent: Job, children: seq<Child>, now: Time)
    requires FreshChildren(db, children)
    ensures Calm(db, InsertChildren(db, parent, children, now))
    decreases |children|
  {
    if children != [] {
      var db1 := InsertChild(db, parent, children[0], now);
      assert Calm(db, db1) by { CalmChild(db, parent, children[0], now); }
      assert FreshChildren(db1, children[1..]) by { StillFresh(db, parent, children, now); }
      CalmChildren(db1, parent, children[1..], now);
      CalmTransitive(db, db1, InsertChildren(db, parent, children, now));
    }
  }

  lemma CalmFinalizeAfter(before: Db, after: Db, job: Job, status: Status, now: Time)
    requires Calm(before, after)
    ensures Calm(before, FinalizeAfter(before, after, job, status, now).db)
  {
    if Terminal(status) && job.id != job.root && job.root in after.jobs {
      CalmFinalize(after, job.root, now);
      CalmTransitive(before, after, FinalizeRoot(after, job.root, now));
    }
  }

  lemma CalmComplete(s: System, token: Token, children: seq<Child>, now: Time)
    requires Inv(s) && token in s.issued && FreshChildren(s.db, children)
    ensures Calm(s.db, Complete(s.db, s.issued[token], children, now).db)
  {
    var snapshot := s.issued[token];
    if Holds(s.db, snapshot) {
      HeldDescribes(s, token);
      var closed := Close(s.db, snapshot, Completion(snapshot, children), now);
      CalmClose(s.db, snapshot, Completion(snapshot, children), now);
      CalmChildren(closed, snapshot, children, now);
      CalmTransitive(s.db, closed, InsertChildren(closed, snapshot, children, now));
      CalmFinalizeAfter(s.db, InsertChildren(closed, snapshot, children, now), snapshot,
        CompletionStatus(snapshot, children), now);
    }
  }

  lemma CalmFail(s: System, token: Token, kind: ErrorKind, message: string, retryAt: Time, now: Time)
    requires Inv(s) && token in s.issued
    ensures Calm(s.db, Fail(s.db, s.issued[token], kind, message, retryAt, now).db)
  {
    var snapshot := s.issued[token];
    if Holds(s.db, snapshot) {
      HeldDescribes(s, token);
      var c := Failing(snapshot, kind, message, retryAt);
      CalmClose(s.db, snapshot, c, now);
      CalmFinalizeAfter(s.db, Close(s.db, snapshot, c, now), snapshot, FailureStatus(snapshot, kind), now);
    }
  }

  lemma {:induction false} CalmReclaim(db: Db, rows: seq<Job>, now: Time)
    requires Recoverable(db, rows)
    ensures Calm(db, Reclaim(db, rows, now).db)
    decreases |rows|
  {
    if rows != [] {
      var row := rows[0];
      CalmClose(db, row, Recovery(row), now);
      CalmFinalizeAfter(db, Close(db, row, Recovery(row), now), row, RecoveredStatus(row), now);
      var db1 := ReclaimOne(db, row, now).db;
      if ReclaimOne(db, row, now).outcome.Done? {
        RestRecoverable(db, rows, now);
        CalmReclaim(db1, rows[1..], now);
        CalmTransitive(db, db1, Reclaim(db, rows, now).db);
      }
    }
  }

  lemma CalmHeartbeat(s: System, snapshot: Job, now: Time, lease: Time)
    ensures Calm(s.db, Heartbeat(s.db, snapshot, now, lease).db)
  {
  }

  lemma CalmInsert(db: Db, db': Db, row: Job)
    requires row.id !in db.jobs && row.leaseToken.None? && db'.jobs == Insert(db, row).jobs
    ensures Calm(db, db')
  {
  }

  lemma CalmCancelTree(db: Db, root: JobId, now: Time)
    ensures Calm(db, CancelTree(db, root, now))
  {
  }

  lemma CalmCancel(db: Db, id: JobId, now: Time)
    ensures Calm(db, Cancel(db, id, now).db)
  {
    if id in db.jobs && db.jobs[id].status.Waiting? {
      CalmCancelTree(db, db.jobs[id].root, now);
    }
  }

  lemma CalmOperator(s: System, step: Step)
    requires Enabled(s, step) && (step.DoSubmit? || step.DoCancel? || step.DoRetry? || step.DoReplay?)
    ensures Calm(s.db, TxOf(s, step).db)
  {
    if step.DoCancel? {
      CalmCancel(s.db, step.id, step.now);
    } else {
      var db' := TxOf(s, step).db;
      if db' != s.db {
        CalmInsert(s.db, db', db'.jobs[step.id]);
      }
    }
  }

  lemma CalmStep(s: System, step: Step)
    requires Inv(s) && Enabled(s, step) && !step.DoClaim?
    ensures Calm(s.db, TxOf(s, step).db)
  {
    match step
    case DoHeartbeat(token, now, lease) => CalmHeartbeat(s, s.issued[token], now, lease);
    case DoComplete(token, children, now) => CalmComplete(s, token, children, now);
    case DoFail(token, kind, message, retryAt, now) => CalmFail(s, token, kind, message, retryAt, now);
    case DoReclaim(ids, now) =>
      ExpiredRecoverable(s, ids, now);
      CalmReclaim(s.db, RowsOf(s.db, ids), now);
    case _ => CalmOperator(s, step);
  }
}
