/** The store as an object whose methods run the transactions on its tables. */
module JobStore {
  // Each method updates the tables row by row and is proved to
  // leave exactly the database that the corresponding function of JobTables describes,
  // and to keep the object valid: the invariant of every reachable state.

  import opened Wrappers
  import opened Ordering
  import T = JobTables
  import opened JobTables
  import opened JobRuns
  import opened JobInvariants
  import opened JobSteps
  import opened JobOutcomes

  /** ORDER BY scheduled_at, created_at, id. */
  function CompareDue(a: Job, b: Job): int {
    if a.scheduledAt != b.scheduledAt then CompareInt(a.scheduledAt, b.scheduledAt)
    else if a.createdAt != b.createdAt then CompareInt(a.createdAt, b.createdAt)
    else CompareText(a.id, b.id)
  }

  /** Due earlier, or created earlier, or with the smaller id. */
  predicate DueFirst(a: Job, b: Job) {
    || a.scheduledAt < b.scheduledAt
    || (a.scheduledAt == b.scheduledAt && a.createdAt < b.createdAt)
    || (a.scheduledAt == b.scheduledAt && a.createdAt == b.createdAt && CompareText(a.id, b.id) <= 0)
  }

  lemma CompareDueTransitive(a: Job, b: Job, c: Job)
    requires CompareDue(a, b) <= 0 && CompareDue(b, c) <= 0
    ensures CompareDue(a, c) <= 0
  {
    TextIsTotalOrder();
    assert CompareText(a.id, b.id) <= 0 && CompareText(b.id, c.id) <= 0 ==> CompareText(a.id, c.id) <= 0;
  }

  lemma CompareDueTotal(a: Job, b: Job)
    ensures CompareDue(a, b) < 0 <==> CompareDue(b, a) > 0
    ensures CompareDue(b, a) < 0 <==> CompareDue(a, b) > 0
    ensures CompareDue(a, a) == 0
  {
    TextIsTotalOrder();
    assert CompareText(a.id, b.id) < 0 <==> CompareText(b.id, a.id) > 0;
    assert CompareText(b.id, a.id) < 0 <==> CompareText(a.id, b.id) > 0;
  }

  /** UPDATE of the rows of a tree that are queued or waiting. */
  function CancelIdle(jobs: map<JobId, Job>, root: JobId, now: Time): map<JobId, Job> {
    map k | k in jobs ::
      if jobs[k].root == root && (Queued(jobs[k].status) || jobs[k].status.Waiting?)
      then CancelledRow(jobs[k], now) else jobs[k]
  }

  /** UPDATE of the rows of a tree that are running. */
  function FlagRunning(jobs: map<JobId, Job>, root: JobId, now: Time): map<JobId, Job> {
    map k | k in jobs :: if jobs[k].root == root && jobs[k].status.Running? then FlaggedRow(jobs[k], now) else jobs[k]
  }

  lemma CancelThenFlag(db: Db, root: JobId, now: Time)
    ensures FlagRunning(CancelIdle(db.jobs, root, now), root, now) == CancelTree(db, root, now).jobs
  {
    forall k | k in db.jobs
      ensures FlagRunning(CancelIdle(db.jobs, root, now), root, now)[k] == CancelTree(db, root, now).jobs[k]
    {
    }
  }

  /** Failing with a snapshot that was issued. */
  lemma FailReport(s: System, snapshot: Job, kind: ErrorKind, message: string, retryAt: Time, now: Time)
    requires Inv(s) && snapshot in s.issued.Values
    ensures var tx := T.Fail(s.db, snapshot, kind, message, retryAt, now);
            && Inv(System(tx.db, s.issued)) && !tx.outcome.Aborted?
            && (tx.outcome.Done? ==> FailedAs(s.db, tx.db, snapshot.id, kind, message, retryAt, now))
  {
    var token :| token in s.issued && s.issued[token] == snapshot;
    FailKeeps(s, token, kind, message, retryAt, now);
    if Holds(s.db, snapshot) {
      FailOutcome(s, token, kind, message, retryAt, now);
    }
  }

  /** Recovering the expired rows of a valid state. */
  lemma ReclaimReport(s: System, ids: seq<JobId>, now: Time)
    requires Inv(s) && Enabled(s, DoReclaim(ids, now))
    ensures var tx := Reclaim(s.db, RowsOf(s.db, ids), now);
            && Inv(System(tx.db, s.issued)) && tx.outcome.Done?
            && forall id :: id in ids ==> RecoveredAs(s.db, tx.db, id, now)
  {
    ReclaimStepKeeps(s, ids, now);
    forall id | id in ids ensures RecoveredAs(s.db, Reclaim(s.db, RowsOf(s.db, ids), now).db, id, now) {
      ReclaimOutcome(s, ids, now, id);
    }
  }

  class Store {
    var jobs: map<JobId, Job>
    var ledger: map<Slot, Attempt>
    var dlq: seq<DlqEntry>

    /** Every snapshot that Claim has handed out, under its token. */
    ghost var issued: map<Token, Job>

    function Contents(): Db
      reads this
    {
      Db(jobs, ledger, dlq)
    }

    ghost function State(): System
      reads this
    {
      System(Contents(), issued)
    }

    ghost predicate Valid()
      reads this
    {
      Inv(State())
    }

    constructor ()
      ensures State() == INIT && Valid()
    {
      jobs, ledger, dlq, issued := map[], map[], [], map[];
    }

    /** Undoes a transaction that returned an error. */
    method Rollback(db: Db)
      modifies this
      ensures Contents() == db && issued == old(issued)
    {
      jobs, ledger, dlq := db.jobs, db.ledger, db.dlq;
    }

    method Submit(id: JobId, s: Submission, now: Time) returns (outcome: Outcome, stored: Option<Job>, created: bool)
      requires id !in jobs
      modifies this
      ensures Tx(Contents(), outcome) == T.Submit(old(Contents()), id, s, now)
      ensures created <==> id in jobs
      ensures outcome.Done? <==> stored.Some?
      ensures stored.Some? && created ==> stored.value == jobs[id]
      ensures stored.Some? && !created ==>
              stored.value in jobs.Values && stored.value.key == Some(s.key) && stored.value.hash == Some(HashOf(s))
      ensures issued == old(issued)
      ensures SubmittedAs(old(Contents()), Contents(), outcome, id, s, now)
      ensures old(Valid()) && s.root.None? ==> Valid()
    {
      SubmitOutcome(Contents(), id, s, now);
      if Valid() && s.root.None? {
        SubmitKeeps(State(), id, s, now);
      }
      stored, created := None, false;
      if s.key != EmptyKey && KeyTaken(Contents(), s.key) {
        if existing :| existing in jobs && jobs[existing].key == Some(s.key) && jobs[existing].hash == Some(HashOf(s)) {
          return Done, Some(jobs[existing]), false;
        }
        return IdempotencyConflict, None, false;
      }
      var root := if s.root.Some? then s.root.value else id;
      var key := if s.key.EmptyKey? then None else Some(s.key);
      jobs := jobs[id := NewJob(id, s, root, key, now)];
      return Done, Some(jobs[id]), true;
    }

    /** The first due row in claim order, skipping rows that other transactions hold. */
    method NextDue(now: Time, locked: set<JobId>) returns (due: Option<JobId>)
      ensures due.None? <==> forall id :: id in jobs && id !in locked ==> !IsDue(Contents(), id, now)
      ensures due.Some? ==> due.value !in locked && IsDue(Contents(), due.value, now)
      ensures due.Some? ==> forall id :: id in jobs && id !in locked && IsDue(Contents(), id, now) ==>
                                           DueFirst(jobs[due.value], jobs[id])
    {
      due := None;
      var left := jobs.Keys - locked;
      while left != {}
        invariant left <= jobs.Keys - locked
        invariant due.None? ==> forall id :: id in jobs.Keys - locked - left ==> !Claimable(Contents(), id, now)
        invariant due.Some? ==> due.value !in locked && Claimable(Contents(), due.value, now)
        invariant due.Some? ==> forall id :: id in jobs.Keys - locked - left && Claimable(Contents(), id, now) ==>
                                               CompareDue(jobs[due.value], jobs[id]) <= 0
        decreases |left|
      {
        var id :| id in left;
        left := left - {id};
        if Claimable(Contents(), id, now) {
          CompareDueTotal(jobs[id], jobs[id]);
          if due.None? {
            due := Some(id);
          } else {
            CompareDueTotal(jobs[due.value], jobs[id]);
            if CompareDue(jobs[id], jobs[due.value]) < 0 {
              forall k | k in jobs.Keys - locked - left && Claimable(Contents(), k, now)
                ensures CompareDue(jobs[id], jobs[k]) <= 0
              {
                if k != id {
                  CompareDueTransitive(jobs[id], jobs[due.value], jobs[k]);
                }
              }
              due := Some(id);
            }
          }
        }
      }
      assert forall id :: IsDue(Contents(), id, now) <==> Claimable(Contents(), id, now);
    }

    /** The lease, and the attempt row that the unique constraint may refuse. */
    method Lease(id: JobId, worker: WorkerId, token: Token, now: Time, lease: Time)
        returns (outcome: Outcome, claimed: Option<Job>)
      requires Claimable(Contents(), id, now)
      modifies this
      ensures Tx(Contents(), outcome) == T.Claim(old(Contents()), id, worker, token, now, lease)
      ensures claimed == if outcome.Done? then Some(Leased(old(jobs)[id], worker, token, now, lease)) else None
      ensures outcome.Done? ==> ClaimedAs(old(Contents()), Contents(), id, worker, token, now, lease)
      ensures issued == if outcome.Done? then old(issued)[token := claimed.value] else old(issued)
      ensures old(Valid()) && FreshToken(old(State()), token) ==> Valid() && !outcome.Aborted?
      ensures !outcome.NotFound?
    {
      var row := Leased(jobs[id], worker, token, now, lease);
      var slot := Slot(id, row.attempts);
      outcome, claimed := Aborted, None;
      if slot !in ledger {
        issued := issued[token := row];
        jobs := jobs[id := row];
        ledger := ledger[slot := Attempt(worker, token, InProgress, None, None, None)];
        outcome, claimed := Done, Some(row);
      }
      assert Tx(Contents(), outcome) == T.Claim(old(Contents()), id, worker, token, now, lease);
      if outcome.Done? {
        ClaimOutcome(old(Contents()), id, worker, token, now, lease);
      }
      assert old(Valid()) && FreshToken(old(State()), token) ==> Valid() && !outcome.Aborted? by {
        if old(Valid()) && FreshToken(old(State()), token) {
          ClaimNeverAborts(old(Contents()), id, worker, token, now, lease);
          ClaimKeeps(old(State()), id, worker, token, now, lease);
        }
      }
    }

    /** The row that Claim takes. */
    ghost predicate IsNextDue(db: Db, now: Time, locked: set<JobId>, id: JobId) {
      && id !in locked && IsDue(db, id, now)
      && forall other :: other in db.jobs && other !in locked && IsDue(db, other, now) ==>
           DueFirst(db.jobs[id], db.jobs[other])
    }

    method Claim(worker: WorkerId, token: Token, now: Time, lease: Time, locked: set<JobId>)
      returns (outcome: Outcome, claimed: Option<Job>)
      modifies this
      ensures outcome.NotFound? <==> forall id :: id in old(jobs) && id !in locked ==>
              !IsDue(old(Contents()), id, now)
      ensures outcome.NotFound? ==> claimed.None? && Contents() == old(Contents())
      ensures !outcome.NotFound? ==>
        exists id ::
          && IsNextDue(old(Contents()), now, locked, id)
          && Tx(Contents(), outcome) == T.Claim(old(Contents()), id, worker, token, now, lease)
          && (outcome.Done? ==> ClaimedAs(old(Contents()), Contents(), id, worker, token, now, lease))
          && claimed == if outcome.Done? then Some(Leased(old(jobs)[id], worker, token, now, lease)) else None
      ensures issued == if outcome.Done? then old(issued)[token := claimed.value] else old(issued)
      ensures old(Valid()) && FreshToken(old(State()), token) ==> Valid() && !outcome.Aborted?
    {
      var due := NextDue(now, locked);
      if due.None? {
        return NotFound, None;
      }
      assert IsNextDue(old(Contents()), now, locked, due.value);
      outcome, claimed := Lease(due.value, worker, token, now, lease);
    }

    method Heartbeat(snapshot: Job, now: Time, lease: Time) returns (owned: bool)
      modifies this
      ensures Tx(Contents(), if owned then Done else LeaseLost) == T.Heartbeat(old(Contents()), snapshot, now, lease)
      ensures issued == old(issued)
      ensures BeatAs(old(Contents()), Contents(), owned, snapshot, now, lease)
      ensures old(Valid()) ==> Valid()
    {
      HeartbeatOutcome(Contents(), snapshot, now, lease);
      if Valid() {
        HeartbeatKeeps(State(), snapshot, now, lease);
      }
      owned := Holds(Contents(), snapshot) && jobs[snapshot.id].cancelRequestedAt.None?;
      if owned {
        jobs := jobs[snapshot.id := jobs[snapshot.id].(lockedUntil := Some(now + lease), heartbeatAt := Some(now))];
      }
    }

    /** The updates of jobs, job_attempts and dlq that end an attempt. */
    method CloseAttempt(snapshot: Job, c: Closing, now: Time)
      requires snapshot.id in jobs && (c.status.DeadLettered? ==> c.error.Some?)
      modifies this
      ensures Contents() == Close(old(Contents()), snapshot, c, now)
      ensures issued == old(issued)
    {
      jobs := jobs[snapshot.id := ClosedRow(jobs[snapshot.id], c, now)];
      var slot := Slot(snapshot.id, snapshot.attempts);
      if slot in ledger && (c.fenced ==> Some(ledger[slot].token) == snapshot.leaseToken) {
        ledger := ledger[slot := ClosedAttempt(ledger[slot], c, now)];
      }
      if c.status.DeadLettered? {
        dlq := dlq + [DeadEntry(snapshot, c.error.value.0, c.error.value.1)];
      }
    }

    method FinalizeRoot(root: JobId, now: Time)
      requires root in jobs
      modifies this
      ensures Contents() == T.FinalizeRoot(old(Contents()), root, now)
      ensures FinalizedAs(old(Contents()), Contents(), root, now)
      ensures issued == old(issued)
    {
      FinalizeOutcome(Contents(), root, now);
      if SomeBelow(Contents(), root, ACTIVE) {
        return;
      }
      var status := FinalStatus(Contents(), root);
      if !jobs[root].status.Waiting? {
        return;
      }
      jobs := jobs[root := FinalizedRow(jobs[root], status, now)];
      if status.DeadLettered? {
        dlq := dlq + [DeadEntry(jobs[root], Transient, ExhaustedMessage(jobs[root].task)).(parent := None)];
      }
    }

    method InsertChild(parent: Job, child: Child, now: Time)
      modifies this
      ensures Contents() == T.InsertChild(old(Contents()), parent, child, now)
      ensures issued == old(issued)
    {
      if !KeyTaken(Contents(), child.submission.key) {
        jobs := jobs[child.id := ChildRow(parent, child, now)];
      }
    }

    method InsertAll(parent: Job, children: seq<Child>, now: Time)
      modifies this
      ensures Contents() == InsertChildren(old(Contents()), parent, children, now) && issued == old(issued)
    {
      for i := 0 to |children|
        invariant issued == old(issued)
        invariant InsertChildren(Contents(), parent, children[i..], now) ==
                  InsertChildren(old(Contents()), parent, children, now)
      {
        InsertChild(parent, children[i], now);
        assert children[i..][1..] == children[i + 1..];
      }
    }

    method Complete(snapshot: Job, children: seq<Child>, now: Time) returns (outcome: Outcome)
      requires FreshChildren(Contents(), children)
      modifies this
      ensures Tx(Contents(), outcome) == T.Complete(old(Contents()), snapshot, children, now)
      ensures issued == old(issued)
      ensures outcome.LeaseLost? <==> !OwnsLease(old(Contents()), snapshot)
      ensures old(Valid()) && snapshot in old(issued).Values ==> Valid() && !outcome.Aborted?
      ensures old(Valid()) && snapshot in old(issued).Values && outcome.Done? ==>
                CompletedAs(old(Contents()), Contents(), snapshot.id, children, now)
    {
      var before := Contents();
      outcome := LeaseLost;
      if Holds(before, snapshot) {
        var c := Completion(snapshot, children);
        outcome := Done;
        CloseAttempt(snapshot, c, now);
        InsertAll(snapshot, children, now);
        if c.status.Completed? && snapshot.id != snapshot.root {
          if snapshot.root in jobs {
            FinalizeRoot(snapshot.root, now);
          } else {
            Rollback(before);
            outcome := Aborted;
          }
        }
      }
      assert Tx(Contents(), outcome) == T.Complete(old(Contents()), snapshot, children, now);
      assert old(Valid()) && snapshot in old(issued).Values ==> Valid() && !outcome.Aborted? by {
        if old(Valid()) && snapshot in old(issued).Values {
          var token :| token in old(issued) && old(issued)[token] == snapshot;
          CompleteKeeps(old(State()), token, children, now);
        }
      }
      if old(Valid()) && snapshot in old(issued).Values && outcome.Done? {
        var token :| token in old(issued) && old(issued)[token] == snapshot;
        CompleteOutcome(old(State()), token, children, now);
      }
    }

    method Fail(snapshot: Job, kind: ErrorKind, message: string, retryAt: Time, now: Time) returns (outcome: Outcome)
      modifies this
      ensures Tx(Contents(), outcome) == T.Fail(old(Contents()), snapshot, kind, message, retryAt, now)
      ensures issued == old(issued)
      ensures outcome.LeaseLost? <==> !OwnsLease(old(Contents()), snapshot)
      ensures old(Valid()) && snapshot in old(issued).Values ==> Valid() && !outcome.Aborted?
      ensures old(Valid()) && snapshot in old(issued).Values && outcome.Done? ==>
                FailedAs(old(Contents()), Contents(), snapshot.id, kind, message, retryAt, now)
    {
      var before := Contents();
      var c := Failing(snapshot, kind, message, retryAt);
      outcome := LeaseLost;
      if Holds(before, snapshot) {
        outcome := Done;
        CloseAttempt(snapshot, c, now);
        if !c.status.RetryScheduled? && snapshot.id != snapshot.root {
          if snapshot.root in jobs {
            FinalizeRoot(snapshot.root, now);
          } else {
            Rollback(before);
            outcome := Aborted;
          }
        }
      }
      assert Tx(Contents(), outcome) == T.Fail(old(Contents()), snapshot, kind, message, retryAt, now);
      if old(Valid()) && snapshot in old(issued).Values {
        FailReport(old(State()), snapshot, kind, message, retryAt, now);
      }
    }

    /** The expired rows that no other transaction holds, as they are before any of them is changed. */
    method ExpiredRows(now: Time, locked: set<JobId>) returns (ids: seq<JobId>)
      ensures forall id :: id in ids <==> id !in locked && Expired(Contents(), id, now)
      ensures forall i, j :: 0 <= i < j < |ids| ==> ids[i] != ids[j]
    {
      ids := [];
      var left := jobs.Keys - locked;
      while left != {}
        invariant left <= jobs.Keys - locked
        invariant forall id :: id in ids <==> id in jobs.Keys - locked - left && Expired(Contents(), id, now)
        invariant forall i, j :: 0 <= i < j < |ids| ==> ids[i] != ids[j]
        decreases |left|
      {
        var id :| id in left;
        left := left - {id};
        if Expired(Contents(), id, now) {
          ids := ids + [id];
        }
      }
    }

    /** Recovers rows that were read before, one by one; an error undoes all of it. */
    method RecoverRows(rows: seq<Job>, now: Time) returns (outcome: Outcome)
      requires forall k :: 0 <= k < |rows| ==> rows[k].id in jobs
      modifies this
      ensures issued == old(issued)
      ensures outcome == Reclaim(old(Contents()), rows, now).outcome
      ensures Contents() == if outcome.Done? then Reclaim(old(Contents()), rows, now).db else old(Contents())
    {
      var before := Contents();
      for i := 0 to |rows|
        invariant issued == old(issued)
        invariant forall k :: 0 <= k < |rows| ==> rows[k].id in jobs
        invariant Reclaim(Contents(), rows[i..], now) == Reclaim(before, rows, now)
      {
        assert rows[i..][1..] == rows[i + 1..] && rows[i..][0] == rows[i];
        var done := RecoverRow(rows[i], now);
        if !done {
          Rollback(before);
          return Aborted;
        }
      }
      return Done;
    }

    method RecoverRow(row: Job, now: Time) returns (done: bool)
      requires row.id in jobs
      modifies this
      ensures issued == old(issued) && (forall id :: id in old(jobs) ==> id in jobs)
      ensures done <==> ReclaimOne(old(Contents()), row, now).outcome.Done?
      ensures done ==> Contents() == ReclaimOne(old(Contents()), row, now).db
    {
      var c := Recovery(row);
      CloseAttempt(row, c, now);
      done := true;
      if Terminal(c.status) && row.id != row.root {
        if row.root !in jobs {
          return false;
        }
        FinalizeRoot(row.root, now);
      }
    }

    method ReclaimExpired(now: Time, locked: set<JobId>) returns (outcome: Outcome, ids: seq<JobId>)
      modifies this
      ensures Enabled(old(State()), DoReclaim(ids, now))
      ensures forall id :: id in ids <==> id !in locked && HasExpired(old(Contents()), id, now)
      ensures outcome == Reclaim(old(Contents()), RowsOf(old(Contents()), ids), now).outcome
      ensures Contents() == if outcome.Done? then Reclaim(old(Contents()), RowsOf(old(Contents()), ids), now).db
              else old(Contents())
      ensures issued == old(issued)
      ensures old(Valid()) ==> Valid() && outcome.Done?
      ensures old(Valid()) ==> forall id :: id in ids ==> RecoveredAs(old(Contents()), Contents(), id, now)
    {
      ids := ExpiredRows(now, locked);
      assert forall i :: 0 <= i < |ids| ==> ids[i] in ids;
      outcome := RecoverRows(RowsOf(Contents(), ids), now);
      if old(Valid()) {
        ReclaimReport(old(State()), ids, now);
      }
    }

    /** Cancels what is queued or waiting in a tree, and asks what is running to stop. */
    method CancelAll(root: JobId, now: Time)
      modifies this
      ensures Contents() == CancelTree(old(Contents()), root, now) && issued == old(issued)
    {
      CancelThenFlag(Contents(), root, now);
      jobs := CancelIdle(jobs, root, now);
      jobs := FlagRunning(jobs, root, now);
    }

    method Cancel(id: JobId, now: Time) returns (outcome: Outcome)
      modifies this
      ensures Tx(Contents(), outcome) == T.Cancel(old(Contents()), id, now)
      ensures CancelledAs(old(Contents()), Contents(), outcome, id, now)
      ensures issued == old(issued)
      ensures old(Valid()) ==> Valid()
    {
      outcome := NotFound;
      if id in jobs {
        var row := jobs[id];
        outcome := Done;
        match row.status {
          case Pending | RetryScheduled =>
            jobs := jobs[id := CancelledRow(row, now)];
          case Running =>
            jobs := jobs[id := FlaggedRow(row, now)];
          case Waiting =>
            CancelAll(row.root, now);
          case Cancelled =>
          case _ =>
            outcome := Conflict;
        }
      }
      assert Tx(Contents(), outcome) == T.Cancel(old(Contents()), id, now);
      CancelOutcome(old(Contents()), id, now);
      assert old(Valid()) ==> Valid() by {
        if old(Valid()) {
          CancelStepKeeps(old(State()), id, now);
        }
      }
    }

    method Retry(source: JobId, id: JobId, maxAttempts: nat, now: Time) returns (outcome: Outcome)
      requires id !in jobs
      modifies this
      ensures Tx(Contents(), outcome) == T.Retry(old(Contents()), source, id, maxAttempts, now)
      ensures issued == old(issued)
      ensures old(Valid()) ==> Valid()
      ensures old(Valid()) ==> RetriedAs(old(Contents()), Contents(), outcome, source, id, maxAttempts, now)
    {
      if Valid() {
        assert source in jobs ==> RowOk(source, jobs[source]);
        RetryOutcome(Contents(), source, id, maxAttempts, now);
      }
      if source !in jobs {
        return NotFound;
      }
      if !jobs[source].status.Failed? && !jobs[source].status.DeadLettered? {
        return Conflict;
      }
      var stored, created;
      outcome, stored, created := Submit(id, RetrySubmission(jobs[source], maxAttempts), now);
    }

    method ReplayDLQ(entry: nat, id: JobId, maxAttempts: nat, now: Time) returns (outcome: Outcome)
      requires id !in jobs
      modifies this
      ensures Tx(Contents(), outcome) == T.ReplayDLQ(old(Contents()), entry, id, maxAttempts, now)
      ensures issued == old(issued)
      ensures old(Valid()) ==> Valid()
      ensures ReplayedAs(old(Contents()), Contents(), outcome, entry, id, maxAttempts, now)
    {
      ReplayOutcome(Contents(), entry, id, maxAttempts, now);
      if Valid() {
        ReplayKeeps(State(), entry, id, maxAttempts, now);
      }
      if entry >= |dlq| || dlq[entry].job !in jobs || jobs[dlq[entry].job].internal {
        return NotFound;
      }
      if dlq[entry].replayedAs.Some? {
        return Conflict;
      }
      jobs := jobs[id := ReplayedRow(dlq[entry], id, maxAttempts, now)];
      dlq := dlq[entry := dlq[entry].(replayedAs := Some(id), replayedAt := Some(now))];
      return Done;
    }
  }
}
