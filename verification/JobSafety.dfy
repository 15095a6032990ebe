/** Job safety over whole runs. */
module JobSafety {
  // The invariants in every reachable state, immutable finished jobs, and fencing of
  // stale workers.

  import opened Wrappers
  import opened JobTables
  import opened JobRuns
  import opened JobInvariants
  import opened JobSteps

  // ----- Every run keeps the invariants -----

  /** Every step keeps the invariant, and no step can abort. */
  lemma StepKeeps(s: System, step: Step)
    requires Inv(s) && Enabled(s, step)
    ensures Inv(Next(s, step)) && !TxOf(s, step).outcome.Aborted?
  {
    if step.DoClaim? {
      ClaimNeverAborts(s.db, step.id, step.worker, step.token, step.now, step.lease);
      ClaimKeeps(s, step.id, step.worker, step.token, step.now, step.lease);
    } else if step.DoHeartbeat? || step.DoComplete? || step.DoFail? || step.DoReclaim? {
      WorkerTxKeeps(s, step);
    } else {
      OperatorTxKeeps(s, step);
    }
  }

  /** Every reachable state satisfies the invariant. */
  lemma {:induction false} ReachableInv(states: seq<System>, steps: seq<Step>, i: nat)
    requires Run(states, steps) && i < |states|
    ensures Inv(states[i])
  {
    if i > 0 {
      ReachableInv(states, steps, i - 1);
      assert Transition(states, steps, i - 1);
      StepKeeps(states[i - 1], steps[i - 1]);
    }
  }

  /** In every reachable state a dead-lettered job without descendants has used all its attempts. */
  lemma DeadOnlyWhenExhausted(states: seq<System>, steps: seq<Step>, i: nat, id: JobId)
    requires Run(states, steps) && i < |states|
    requires id in states[i].db.jobs && states[i].db.jobs[id].status.DeadLettered? && !HasBelow(states[i].db, id)
    ensures states[i].db.jobs[id].attempts == states[i].db.jobs[id].maxAttempts
  {
    ReachableInv(states, steps, i);
    var db := states[i].db;
    assert RowOk(id, db.jobs[id]);
    if db.jobs[id].root == id {
      assert IsRoot(db, id) && RootOk(db, id);
    }
  }

  // ----- Finished jobs never change -----

  /** A finished job is immutable: no step changes any column of its row. */
  lemma FinishedRowsImmutable(s: System, step: Step, id: JobId)
    requires Inv(s) && Enabled(s, step) && id in s.db.jobs && Terminal(s.db.jobs[id].status)
    ensures id in Next(s, step).db.jobs && Next(s, step).db.jobs[id] == s.db.jobs[id]
  {
    if !step.DoClaim? {
      CalmStep(s, step);
    }
  }

  /** ... and so it is unchanged for the rest of the run. */
  lemma {:induction false} FinishedForever(states: seq<System>, steps: seq<Step>, i: nat, j: nat, id: JobId)
    requires Run(states, steps) && i <= j < |states|
    requires id in states[i].db.jobs && Terminal(states[i].db.jobs[id].status)
    ensures id in states[j].db.jobs && states[j].db.jobs[id] == states[i].db.jobs[id]
  {
    if i < j {
      FinishedForever(states, steps, i, j - 1, id);
      FinishedOneStep(states, steps, j - 1, id);
    }
  }

  lemma FinishedOneStep(states: seq<System>, steps: seq<Step>, i: nat, id: JobId)
    requires Run(states, steps) && i < |steps| && id in states[i].db.jobs && Terminal(states[i].db.jobs[id].status)
    ensures id in states[i + 1].db.jobs && states[i + 1].db.jobs[id] == states[i].db.jobs[id]
  {
    ReachableInv(states, steps, i);
    assert Transition(states, steps, i);
    FinishedRowsImmutable(states[i], steps[i], id);
  }

  // ----- Fencing -----

  /** The snapshot's row is no longer leased to it: completed, failed, reclaimed or claimed again. */
  predicate Retired(s: System, token: Token) {
    token in s.issued && s.issued[token].id in s.db.jobs && s.db.jobs[s.issued[token].id].leaseToken != Some(token)
  }

  /** The writes that process() makes with the snapshot it was given. */
  predicate WritesWith(step: Step, token: Token) {
    (step.DoHeartbeat? || step.DoComplete? || step.DoFail?) && step.token == token
  }

  predicate Settles(s: System, step: Step, token: Token)
    requires Enabled(s, step)
  {
    (step.DoComplete? || step.DoFail?) && step.token == token && TxOf(s, step).outcome.Done?
  }

  lemma RetiredStepKeeps(s: System, step: Step, token: Token)
    requires Inv(s) && Enabled(s, step) && Retired(s, token)
    ensures Retired(Next(s, step), token)
  {
    var id := s.issued[token].id;
    if !step.DoClaim? {
      CalmStep(s, step);
    }
  }

  /** Once a token is retired it stays retired. */
  lemma {:induction false} RetiredForever(states: seq<System>, steps: seq<Step>, i: nat, j: nat, token: Token)
    requires Run(states, steps) && i <= j < |states| && Retired(states[i], token)
    ensures Retired(states[j], token)
  {
    if i < j {
      RetiredForever(states, steps, i, j - 1, token);
      RetiredOneStep(states, steps, j - 1, token);
    }
  }

  lemma RetiredOneStep(states: seq<System>, steps: seq<Step>, i: nat, token: Token)
    requires Run(states, steps) && i < |steps| && Retired(states[i], token)
    ensures Retired(states[i + 1], token)
  {
    ReachableInv(states, steps, i);
    assert Transition(states, steps, i);
    RetiredStepKeeps(states[i], steps[i], token);
  }

  /** A write made with a retired token loses its lease. */
  lemma RetiredWriteIsLost(s: System, step: Step, token: Token)
    requires Inv(s) && Enabled(s, step) && Retired(s, token) && WritesWith(step, token)
    ensures TxOf(s, step) == Tx(s.db, LeaseLost)
  {
    assert SnapshotOk(s.db, token, s.issued[token]);
  }

  /** A stale worker changes nothing, whatever it tries and however late. */
  lemma StaleWritesChangeNothing(states: seq<System>, steps: seq<Step>, i: nat, j: nat, token: Token)
    requires Run(states, steps) && i <= j < |steps| && Retired(states[i], token) && WritesWith(steps[j], token)
    ensures states[j + 1] == states[j]
  {
    RetiredForever(states, steps, i, j, token);
    ReachableInv(states, steps, j);
    assert Transition(states, steps, j);
    RetiredWriteIsLost(states[j], steps[j], token);
  }

  /** The closed row keeps no lease through the insertions and the finalization that follow. */
  lemma ClosedStaysReleased(db: Db, snapshot: Job, c: Closing, children: seq<Child>, now: Time)
    requires snapshot.id in db.jobs && (c.status.DeadLettered? ==> c.error.Some?) && FreshChildren(db, children)
    ensures var after := InsertChildren(Close(db, snapshot, c, now), snapshot, children, now);
            var db' := FinalizeAfter(db, after, snapshot, c.status, now);
            db'.outcome.Done? ==> snapshot.id in db'.db.jobs && db'.db.jobs[snapshot.id].leaseToken.None?
  {
    var closed := Close(db, snapshot, c, now);
    assert closed.jobs[snapshot.id].leaseToken.None?;
    assert FreshChildren(closed, children);
    CalmChildren(closed, snapshot, children, now);
    var after := InsertChildren(closed, snapshot, children, now);
    assert after.jobs[snapshot.id].leaseToken.None?;
    if snapshot.root in after.jobs {
      CalmFinalize(after, snapshot.root, now);
    }
  }

  lemma SettledRetires(s: System, step: Step, token: Token)
    requires Inv(s) && Enabled(s, step) && Settles(s, step, token)
    ensures Retired(Next(s, step), token)
  {
    var snapshot := s.issued[token];
    if step.DoComplete? {
      ClosedStaysReleased(s.db, snapshot, Completion(snapshot, step.children), step.children, step.now);
    } else {
      ClosedStaysReleased(s.db, snapshot, Failing(snapshot, step.kind, step.message, step.retryAt), [], step.now);
    }
  }

  /** Each claim gets at most one successful Complete or Fail. */
  lemma AtMostOneSettlement(states: seq<System>, steps: seq<Step>, i: nat, j: nat, token: Token)
    requires Run(states, steps) && i < j < |steps|
    requires Enabled(states[i], steps[i]) && Settles(states[i], steps[i], token)
    requires Enabled(states[j], steps[j])
    ensures !Settles(states[j], steps[j], token)
  {
    assert Retired(states[i + 1], token) by {
      ReachableInv(states, steps, i);
      assert Transition(states, steps, i);
      SettledRetires(states[i], steps[i], token);
    }
    RetiredForever(states, steps, i + 1, j, token);
    if Settles(states[j], steps[j], token) {
      ReachableInv(states, steps, j);
      RetiredWriteIsLost(states[j], steps[j], token);
      assert false;
    }
  }

  /** Recovery retires the lease of every row it takes back. */
  lemma RecoveryRetires(s: System, ids: seq<JobId>, now: Time, k: nat, token: Token)
    requires Inv(s) && Enabled(s, DoReclaim(ids, now)) && k < |ids| && s.db.jobs[ids[k]].leaseToken == Some(token)
    ensures Retired(Next(s, DoReclaim(ids, now)), token)
  {
    var id := ids[k];
    assert RowOk(id, s.db.jobs[id]);
    var slot := Slot(id, s.db.jobs[id].attempts);
    assert slot in s.db.ledger && SlotOk(s.db, slot) && SlotIssued(s, slot);
    ExpiredRecoverable(s, ids, now);
    ReclaimStepKeeps(s, ids, now);
    ReclaimReleases(s.db, RowsOf(s.db, ids), now, k);
  }

  lemma ReclaimOneReleases(db: Db, row: Job, now: Time)
    requires row.id in db.jobs
    ensures var tx := ReclaimOne(db, row, now);
            tx.outcome.Done? ==> row.id in tx.db.jobs && tx.db.jobs[row.id].leaseToken.None?
  {
    ClosedStaysReleased(db, row, Recovery(row), [], now);
  }

  lemma {:induction false} ReclaimReleases(db: Db, rows: seq<Job>, now: Time, k: nat)
    requires Recoverable(db, rows) && k < |rows| && Reclaim(db, rows, now).outcome.Done?
    ensures var db' := Reclaim(db, rows, now).db; rows[k].id in db'.jobs && db'.jobs[rows[k].id].leaseToken.None?
    decreases |rows|
  {
    RestRecoverable(db, rows, now);
    ReclaimOneReleases(db, rows[0], now);
    var db1 := ReclaimOne(db, rows[0], now).db;
    if k == 0 {
      CalmReclaim(db1, rows[1..], now);
    } else {
      ReclaimReleases(db1, rows[1..], now, k - 1);
    }
  }

  // ----- Dead letters -----

  /** No dead-letter entry is ever replayed into two jobs. */
  lemma ReplayedAtMostOnce(db: Db, a: JobId, b: JobId)
    requires DeadLetters(db) && Replays(db) && a in db.jobs && b in db.jobs
    requires db.jobs[a].replayedFrom.Some? && db.jobs[a].replayedFrom == db.jobs[b].replayedFrom
    ensures a == b
  {
    var source := db.jobs[a].replayedFrom.value;
    assert ReplayedInto(db, source, a) && ReplayedInto(db, source, b);
  }
}
