/** Outcomes, by column. */
module JobOutcomes {
  // The transactions of JobTables are built from shared pieces. Here each one is stated
  // again by what an observer of the tables sees, without those pieces.

  import opened Wrappers
  import opened JobTables
  import opened JobRuns
  import opened JobInvariants
  import opened JobSteps

  // ----- Comparing tables -----

  /** The lease is gone, and only the columns that an ending attempt may write have changed. */
  predicate LeaseEnded(row: Job, row': Job) {
    && row'.lockedBy.None? && row'.leaseToken.None? && row'.lockedUntil.None? && row'.heartbeatAt.None?
    && row' == row.(status := row'.status, scheduledAt := row'.scheduledAt, lastErrorKind := row'.lastErrorKind,
                    lastError := row'.lastError, completedAt := row'.completedAt,
                    lockedBy := None, leaseToken := None, lockedUntil := None, heartbeatAt := None)
  }

  predicate EndedIn(row: Job, row': Job, status: Status, now: Time) {
    row'.status == status && row'.completedAt == Some(now) && row'.scheduledAt == row.scheduledAt
  }

  /** Old DLQ entries stay in place. */
  predicate KeepsEntries(db: Db, db': Db) {
    |db.dlq| <= |db'.dlq| && db'.dlq[..|db.dlq|] == db.dlq
  }

  predicate NoNewEntry(db: Db, db': Db, id: JobId) {
    forall i :: |db.dlq| <= i < |db'.dlq| ==> db'.dlq[i].job != id
  }

  predicate EntryFor(e: DlqEntry, row: Job, kind: ErrorKind, text: string) {
    && e.job == row.id && e.task == row.task && e.attempts == row.attempts && e.errorKind == kind && e.error == text
    && e.root == row.root && e.replayedAs.None?
  }

  /** Exactly one new entry for the job. */
  ghost predicate OneNewEntry(db: Db, db': Db, row: Job, kind: ErrorKind, text: string) {
    exists i :: |db.dlq| <= i < |db'.dlq| && EntryFor(db'.dlq[i], row, kind, text) &&
                forall j :: |db.dlq| <= j < |db'.dlq| && j != i ==> db'.dlq[j].job != row.id
  }

  /** Rows other than the two named are as they were. */
  predicate OthersKept(db: Db, db': Db, id: JobId, root: JobId) {
    forall other :: other in db.jobs && other != id && other != root ==>
      other in db'.jobs && db'.jobs[other] == db.jobs[other]
  }

  /** The attempt has ended with that status, and with the error if there is one. */
  predicate AttemptEnded(db: Db, db': Db, slot: Slot, status: AttemptStatus, error: Option<(ErrorKind, string)>,
                         now: Time)
  {
    && slot in db.ledger && slot in db'.ledger
    && var a := db'.ledger[slot];
       && a == db.ledger[slot].(status := status, finishedAt := Some(now), errorKind := a.errorKind, error := a.error)
       && (error.Some? ==> a.errorKind == Some(error.value.0) && a.error == Some(error.value.1))
  }

  // ----- Finalization writes a waiting root and nothing else -----

  lemma FinalizeFrame(db: Db, root: JobId, now: Time, id: JobId)
    requires root in db.jobs && db.jobs[root].id == root && id in db.jobs
    requires id != root || !db.jobs[id].status.Waiting?
    ensures var db' := FinalizeRoot(db, root, now);
            && id in db'.jobs && db'.jobs[id] == db.jobs[id] && db'.ledger == db.ledger
            && KeepsEntries(db, db') && NoNewEntry(db, db', id)
  {
  }

  lemma FinalizeAfterFrame(before: Db, after: Db, job: Job, status: Status, now: Time, id: JobId)
    requires id in after.jobs && job.root in after.jobs && after.jobs[job.root].id == job.root
    requires Terminal(status) && job.id != job.root ==> id != job.root || !after.jobs[id].status.Waiting?
    ensures var db' := FinalizeAfter(before, after, job, status, now).db;
            && id in db'.jobs && db'.jobs[id] == after.jobs[id] && db'.ledger == after.ledger
            && KeepsEntries(after, db') && NoNewEntry(after, db', id)
    ensures !Terminal(status) || job.id == job.root ==> FinalizeAfter(before, after, job, status, now).db == after
  {
    if Terminal(status) && job.id != job.root {
      FinalizeFrame(after, job.root, now, id);
    }
  }

  /** A descendant failed or was cancelled. */
  ghost predicate SomeGaveUp(db: Db, root: JobId) {
    exists id :: Below(db, root, id) && (db.jobs[id].status.Failed? || db.jobs[id].status.Cancelled?)
  }

  /** A waiting root whose descendants have all ended takes their verdict. */
  ghost predicate FinalizedAs(db: Db, db': Db, root: JobId, now: Time)
    requires root in db.jobs
  {
    var row := db.jobs[root];
    if !row.status.Waiting? || exists id :: Below(db, root, id) && Active(db.jobs[id].status) then db' == db
    else
      && db'.jobs.Keys == db.jobs.Keys && db'.ledger == db.ledger && OthersKept(db, db', root, root)
      && var row' := db'.jobs[root];
         && row'.completedAt == Some(now) && row'.attempts == row.attempts && row'.task == row.task
         && if exists id :: Below(db, root, id) && db.jobs[id].status.DeadLettered? then
              && row'.status.DeadLettered? && row'.lastErrorKind == Some(Transient)
              && |db'.dlq| == |db.dlq| + 1 && db'.dlq[..|db.dlq|] == db.dlq && db'.dlq[|db.dlq|].job == row.id
            else if SomeGaveUp(db, root) then
              row'.status.Failed? && row'.lastErrorKind == Some(Permanent) && db'.dlq == db.dlq
            else
              row'.status.Completed? && row'.lastErrorKind.None? && row'.lastError.None? && db'.dlq == db.dlq
  }

  lemma SomeBelowMeans(db: Db, root: JobId)
    ensures SomeBelow(db, root, ACTIVE) <==> exists id :: Below(db, root, id) && Active(db.jobs[id].status)
    ensures SomeBelow(db, root, {DeadLettered}) <==>
            exists id :: Below(db, root, id) && db.jobs[id].status.DeadLettered?
    ensures SomeBelow(db, root, {Failed, DeadLettered, Cancelled}) <==>
            (exists id :: Below(db, root, id) && db.jobs[id].status.DeadLettered?)
            || SomeGaveUp(db, root)
  {
    assert forall s: Status :: s in ACTIVE <==> Active(s);
  }

  lemma FinalizeOutcome(db: Db, root: JobId, now: Time)
    requires root in db.jobs
    ensures FinalizedAs(db, FinalizeRoot(db, root, now), root, now)
  {
    SomeBelowMeans(db, root);
  }

  // ----- Failing -----

  /**
   A failure is retried at the given time while attempts are left, and otherwise
   ends the job: dead-lettered, failed or cancelled by the kind of its error.
   */
  ghost predicate FailedAs(db: Db, db': Db, id: JobId, kind: ErrorKind, message: string, retryAt: Time, now: Time)
    requires id in db.jobs
  {
    var row, text := db.jobs[id], if |message| > 2048 then message[..2048] else message;
    && id in db'.jobs
    && var row' := db'.jobs[id];
       && LeaseEnded(row, row') && row'.lastErrorKind == Some(kind) && row'.lastError == Some(text)
       && AttemptEnded(db, db', Slot(id, row.attempts), Finished(row'.status), Some((kind, text)), now)
       && KeepsEntries(db, db') && OthersKept(db, db', id, row.root)
       && match kind
          case Cancellation => EndedIn(row, row', Cancelled, now) && NoNewEntry(db, db', id)
          case Permanent => EndedIn(row, row', Failed, now) && NoNewEntry(db, db', id)
          case Transient =>
            if row.attempts < row.maxAttempts then
              row'.status.RetryScheduled? && row'.scheduledAt == retryAt && row'.completedAt.None? && db'.dlq == db.dlq
            else EndedIn(row, row', DeadLettered, now) && OneNewEntry(db, db', row, Transient, text)
  }

  /** What closing the attempt of a held job writes. */
  lemma CloseWrites(db: Db, snapshot: Job, c: Closing, now: Time)
    requires Rows(db) && Ledger(db) && Describes(db, snapshot) && snapshot.leaseToken.Some?
    requires c.status.DeadLettered? ==> c.error.Some?
    ensures var db', slot := Close(db, snapshot, c, now), Slot(snapshot.id, snapshot.attempts);
            && db'.jobs == db.jobs[snapshot.id := ClosedRow(db.jobs[snapshot.id], c, now)]
            && slot in db.ledger && slot in db'.ledger && db'.ledger[slot] == ClosedAttempt(db.ledger[slot], c, now)
            && KeepsEntries(db, db') && |db'.dlq| == |db.dlq| + (if c.status.DeadLettered? then 1 else 0)
            && (c.status.DeadLettered? ==> db'.dlq[|db.dlq|] == DeadEntry(snapshot, c.error.value.0, c.error.value.1))
  {
    var slot := Slot(snapshot.id, snapshot.attempts);
    assert RowOk(snapshot.id, db.jobs[snapshot.id]);
    assert slot in db.ledger && SlotOk(db, slot);
  }

  lemma FailOutcome(s: System, token: Token, kind: ErrorKind, message: string, retryAt: Time, now: Time)
    requires Inv(s) && token in s.issued && Holds(s.db, s.issued[token])
    ensures var tx := Fail(s.db, s.issued[token], kind, message, retryAt, now);
            tx.outcome.Done? && FailedAs(s.db, tx.db, s.issued[token].id, kind, message, retryAt, now)
  {
    var db, snapshot := s.db, s.issued[token];
    HeldDescribes(s, token);
    var id, c := snapshot.id, Failing(snapshot, kind, message, retryAt);
    var after := Close(db, snapshot, c, now);
    CloseWrites(db, snapshot, c, now);
    assert IsRoot(db, db.jobs[id].root) && RowOk(id, db.jobs[id]) && RowOk(snapshot.root, db.jobs[snapshot.root]);
    FinalizeAfterFrame(db, after, snapshot, c.status, now, id);
    var db' := FinalizeAfter(db, after, snapshot, c.status, now).db;
    forall other | other in db.jobs && other != id && other != snapshot.root
      ensures other in db'.jobs && db'.jobs[other] == db.jobs[other]
    {
      FinalizeAfterFrame(db, after, snapshot, c.status, now, other);
    }
    EntriesAfterClose(db, after, db', snapshot, c, db'.jobs[id]);
  }

  /** The entries of the closing stay the only ones for the job. */
  lemma EntriesAfterClose(db: Db, after: Db, db': Db, snapshot: Job, c: Closing, row: Job)
    requires KeepsEntries(db, after) && KeepsEntries(after, db') && NoNewEntry(after, db', snapshot.id)
    requires c.status.DeadLettered? ==> c.error.Some?
    requires |after.dlq| == |db.dlq| + (if c.status.DeadLettered? then 1 else 0)
    requires c.status.DeadLettered? ==> after.dlq[|db.dlq|] == DeadEntry(snapshot, c.error.value.0, c.error.value.1)
    requires row.id == snapshot.id && row.task == snapshot.task && row.attempts == snapshot.attempts
    requires row.root == snapshot.root
    ensures KeepsEntries(db, db')
    ensures if c.status.DeadLettered? then OneNewEntry(db, db', row, c.error.value.0, c.error.value.1)
            else NoNewEntry(db, db', row.id)
  {
    assert db'.dlq[..|db.dlq|] == db'.dlq[..|after.dlq|][..|db.dlq|];
    if c.status.DeadLettered? {
      assert db'.dlq[|db.dlq|] == db'.dlq[..|after.dlq|][|db.dlq|];
      assert EntryFor(db'.dlq[|db.dlq|], row, c.error.value.0, c.error.value.1);
    }
  }

  // ----- Recovering -----

  /**
   A job whose lease expired is queued again while attempts are left, unless its
   cancellation was asked for; otherwise it is dead-lettered.
   */
  ghost predicate RecoveredAs(db: Db, db': Db, id: JobId, now: Time)
    requires id in db.jobs
  {
    var row := db.jobs[id];
    && id in db'.jobs
    && var row' := db'.jobs[id];
       && LeaseEnded(row, row') && row'.lastErrorKind == Some(Transient)
          && row'.lastError == Some("worker lease expired")
       && KeepsEntries(db, db')
       && if row.cancelRequestedAt.Some? then EndedIn(row, row', Cancelled, now) && NoNewEntry(db, db', id)
          else if row.attempts < row.maxAttempts then
            && row'.status.Pending? && row'.scheduledAt == row.scheduledAt && row'.completedAt.None?
            && NoNewEntry(db, db', id) && forall t :: t >= row.scheduledAt ==> IsDue(db', id, t)
          else EndedIn(row, row', DeadLettered, now) && OneNewEntry(db, db', row', Transient, "worker lease expired")
  }

  /** The row is as it was, and got no entry. */
  ghost predicate Untouched(db: Db, db': Db, id: JobId)
    requires id in db.jobs
  {
    id in db'.jobs && db'.jobs[id] == db.jobs[id] && KeepsEntries(db, db') && NoNewEntry(db, db', id)
  }

  lemma UntouchedTransitive(a: Db, b: Db, c: Db, id: JobId)
    requires id in a.jobs && Untouched(a, b, id) && Untouched(b, c, id)
    ensures Untouched(a, c, id)
  {
    assert c.dlq[..|a.dlq|] == c.dlq[..|b.dlq|][..|a.dlq|];
    forall i | |a.dlq| <= i < |c.dlq| ensures c.dlq[i].job != id {
      if i < |b.dlq| {
        assert c.dlq[i] == c.dlq[..|b.dlq|][i];
      }
    }
  }

  lemma RecoveredSince(a: Db, b: Db, c: Db, id: JobId, now: Time)
    requires id in a.jobs && a.jobs[id].id == id && Untouched(a, b, id) && RecoveredAs(b, c, id, now)
    ensures RecoveredAs(a, c, id, now)
  {
    var row := c.jobs[id];
    assert c.dlq[..|a.dlq|] == c.dlq[..|b.dlq|][..|a.dlq|];
    forall i | |a.dlq| <= i < |b.dlq| ensures c.dlq[i].job != id {
      assert c.dlq[i] == c.dlq[..|b.dlq|][i];
    }
    if row.status.DeadLettered? {
      var i :| |b.dlq| <= i < |c.dlq| && EntryFor(c.dlq[i], row, Transient, "worker lease expired") &&
               forall j :: |b.dlq| <= j < |c.dlq| && j != i ==> c.dlq[j].job != row.id;
      assert forall j :: |a.dlq| <= j < |c.dlq| && j != i ==> c.dlq[j].job != row.id;
    }
  }

  lemma StaysRecovered(a: Db, b: Db, c: Db, id: JobId, now: Time)
    requires id in a.jobs && a.jobs[id].id == id && RecoveredAs(a, b, id, now) && Untouched(b, c, id)
    ensures RecoveredAs(a, c, id, now)
  {
    var row := b.jobs[id];
    assert c.dlq[..|a.dlq|] == c.dlq[..|b.dlq|][..|a.dlq|];
    if row.status.DeadLettered? {
      var i :| |a.dlq| <= i < |b.dlq| && EntryFor(b.dlq[i], row, Transient, "worker lease expired") &&
               forall j :: |a.dlq| <= j < |b.dlq| && j != i ==> b.dlq[j].job != row.id;
      assert forall j :: 0 <= j < |b.dlq| ==> c.dlq[j] == c.dlq[..|b.dlq|][j] == b.dlq[j];
      assert EntryFor(c.dlq[i], row, Transient, "worker lease expired");
    } else {
      assert forall j :: 0 <= j < |b.dlq| ==> c.dlq[j] == c.dlq[..|b.dlq|][j] == b.dlq[j];
    }
  }

  lemma ReclaimOneOutcome(db: Db, row: Job, now: Time)
    requires Rows(db) && Ledger(db) && Describes(db, row) && row == db.jobs[row.id]
    ensures var db' := ReclaimOne(db, row, now).db;
            && RecoveredAs(db, db', row.id, now)
            && AttemptEnded(db, db', Slot(row.id, row.attempts), Abandoned,
                            Some((Transient, "worker lease expired")), now)
  {
    var c := Recovery(row);
    var after := Close(db, row, c, now);
    assert RowOk(row.id, row) && IsRoot(db, row.root) && RowOk(row.root, db.jobs[row.root]);
    CloseWrites(db, row, c, now);
    FinalizeAfterFrame(db, after, row, c.status, now, row.id);
    var db' := FinalizeAfter(db, after, row, c.status, now).db;
    EntriesAfterClose(db, after, db', row, c, db'.jobs[row.id]);
  }

  lemma ReclaimOneLeaves(db: Db, row: Job, now: Time, id: JobId)
    requires Rows(db) && Describes(db, row) && id in db.jobs && id != row.id && !db.jobs[id].status.Waiting?
    ensures Untouched(db, ReclaimOne(db, row, now).db, id)
  {
    var c := Recovery(row);
    var after := Close(db, row, c, now);
    assert IsRoot(db, db.jobs[row.id].root) && RowOk(row.root, db.jobs[row.root]) && RowOk(row.id, db.jobs[row.id]);
    assert Untouched(db, after, id);
    FinalizeAfterFrame(db, after, row, c.status, now, id);
    UntouchedTransitive(db, after, ReclaimOne(db, row, now).db, id);
  }

  lemma {:induction false} ReclaimLeaves(s: System, rows: seq<Job>, now: Time, id: JobId)
    requires Inv(s) && Recoverable(s.db, rows) && id in s.db.jobs && !s.db.jobs[id].status.Waiting?
    requires forall i :: 0 <= i < |rows| ==> rows[i].id != id
    ensures Untouched(s.db, Reclaim(s.db, rows, now).db, id)
    decreases |rows|
  {
    if rows != [] {
      var next := System(ReclaimOne(s.db, rows[0], now).db, s.issued);
      ReclaimOneLeaves(s.db, rows[0], now, id);
      ReclaimOneKeeps(s, rows[0], now);
      RestRecoverable(s.db, rows, now);
      ReclaimLeaves(next, rows[1..], now, id);
      UntouchedTransitive(s.db, next.db, Reclaim(s.db, rows, now).db, id);
    }
  }

  lemma FirstRecovered(s: System, rows: seq<Job>, now: Time)
    requires Inv(s) && Recoverable(s.db, rows) && rows != [] && rows[0] == s.db.jobs[rows[0].id]
    ensures RecoveredAs(s.db, Reclaim(s.db, rows, now).db, rows[0].id, now)
  {
    var next, id := System(ReclaimOne(s.db, rows[0], now).db, s.issued), rows[0].id;
    ReclaimOneKeeps(s, rows[0], now);
    RestRecoverable(s.db, rows, now);
    assert RecoveredAs(s.db, next.db, id, now) by { ReclaimOneOutcome(s.db, rows[0], now); }
    assert Untouched(next.db, Reclaim(next.db, rows[1..], now).db, id) by { ReclaimLeaves(next, rows[1..], now, id); }
    StaysRecovered(s.db, next.db, Reclaim(next.db, rows[1..], now).db, id, now);
  }

  /** The state in which the k-th row's turn comes. */
  lemma {:induction false} ReachRow(s: System, rows: seq<Job>, now: Time, k: nat, id: JobId) returns (turn: System)
    requires Inv(s) && Recoverable(s.db, rows) && k < |rows| && id == rows[k].id && rows[k] == s.db.jobs[id]
    ensures Inv(turn) && Recoverable(turn.db, rows[k..]) && Untouched(s.db, turn.db, id)
    ensures Reclaim(turn.db, rows[k..], now) == Reclaim(s.db, rows, now)
    decreases |rows|
  {
    if k == 0 {
      assert rows[0..] == rows;
      turn := s;
    } else {
      var next := System(ReclaimOne(s.db, rows[0], now).db, s.issued);
      ReclaimOneKeeps(s, rows[0], now);
      RestRecoverable(s.db, rows, now);
      ReclaimOneLeaves(s.db, rows[0], now, id);
      turn := ReachRow(next, rows[1..], now, k - 1, id);
      assert rows[1..][k - 1..] == rows[k..];
      UntouchedTransitive(s.db, next.db, turn.db, id);
    }
  }

  lemma RowRecovered(s: System, rows: seq<Job>, now: Time, k: nat, id: JobId)
    requires Inv(s) && Recoverable(s.db, rows) && k < |rows| && id == rows[k].id && rows[k] == s.db.jobs[id]
    ensures RecoveredAs(s.db, Reclaim(s.db, rows, now).db, id, now)
  {
    var turn := ReachRow(s, rows, now, k, id);
    FirstRecovered(turn, rows[k..], now);
    RecoveredSince(s.db, turn.db, Reclaim(turn.db, rows[k..], now).db, id, now);
  }

  lemma ReclaimOutcome(s: System, ids: seq<JobId>, now: Time, id: JobId)
    requires Inv(s) && Enabled(s, DoReclaim(ids, now)) && id in ids
    ensures RecoveredAs(s.db, Reclaim(s.db, RowsOf(s.db, ids), now).db, id, now)
  {
    var rows := RowsOf(s.db, ids);
    ExpiredRecoverable(s, ids, now);
    var k :| 0 <= k < |ids| && ids[k] == id;
    assert RowOk(id, s.db.jobs[id]);
    RowRecovered(s, rows, now, k, id);
  }

  // ----- Cancelling -----

  /** Queued and waiting rows of a tree are cancelled, running ones asked to stop, and nothing else is changed. */
  ghost predicate TreeCancelled(db: Db, db': Db, root: JobId, now: Time) {
    && db'.jobs.Keys == db.jobs.Keys && db'.ledger == db.ledger && db'.dlq == db.dlq
    && forall k :: k in db.jobs ==>
         var row, row' := db.jobs[k], db'.jobs[k];
         if row.root != root then row' == row
         else
           match row.status
           case Running => AskedToStop(row, row')
           case Pending => CancelledIn(row, row', now)
           case RetryScheduled => CancelledIn(row, row', now)
           case Waiting => CancelledIn(row, row', now)
           case _ => row' == row
  }

  predicate CancelledIn(row: Job, row': Job, now: Time) {
    && row'.status.Cancelled? && row'.completedAt == Some(now) && row'.cancelRequestedAt == Some(now)
    && row' == row.(status := Cancelled, completedAt := row'.completedAt, cancelRequestedAt := row'.cancelRequestedAt)
  }

  /** The lease stays, and the request with the time it was first made. */
  predicate AskedToStop(row: Job, row': Job) {
    && row'.cancelRequestedAt.Some? && (row.cancelRequestedAt.Some? ==> row'.cancelRequestedAt == row.cancelRequestedAt)
    && row' == row.(cancelRequestedAt := row'.cancelRequestedAt)
  }

  ghost predicate CancelledAs(db: Db, db': Db, outcome: Outcome, id: JobId, now: Time) {
    if id !in db.jobs then outcome.NotFound? && db' == db
    else
      match db.jobs[id].status
      case Waiting => outcome.Done? && TreeCancelled(db, db', db.jobs[id].root, now)
      case Running =>
        && outcome.Done? && id in db'.jobs && AskedToStop(db.jobs[id], db'.jobs[id])
        && db' == db.(jobs := db.jobs[id := db'.jobs[id]])
      case Cancelled => outcome.Done? && db' == db
      case Completed => outcome.Conflict? && db' == db
      case Failed => outcome.Conflict? && db' == db
      case DeadLettered => outcome.Conflict? && db' == db
      case _ =>
        && outcome.Done? && id in db'.jobs && CancelledIn(db.jobs[id], db'.jobs[id], now)
        && db' == db.(jobs := db.jobs[id := db'.jobs[id]])
  }

  lemma CancelTreeOutcome(db: Db, root: JobId, now: Time)
    ensures TreeCancelled(db, CancelTree(db, root, now), root, now)
  {
  }

  lemma CancelOutcome(db: Db, id: JobId, now: Time)
    ensures CancelledAs(db, Cancel(db, id, now).db, Cancel(db, id, now).outcome, id, now)
  {
    if id in db.jobs && db.jobs[id].status.Waiting? {
      CancelTreeOutcome(db, db.jobs[id].root, now);
    }
  }

  /** After its cancellation nothing of a tree can be claimed, and every worker on it loses its next heartbeat. */
  lemma CancelledTreeStops(db: Db, db': Db, root: JobId, now: Time, snapshot: Job, t: Time, lease: Time)
    requires TreeCancelled(db, db', root, now) && snapshot.id in db.jobs && db.jobs[snapshot.id].root == root
    ensures !IsDue(db', snapshot.id, t) && Heartbeat(db', snapshot, t, lease).outcome.LeaseLost?
  {
    var row, row' := db.jobs[snapshot.id], db'.jobs[snapshot.id];
    match row.status {
      case Running => assert AskedToStop(row, row');
      case Pending => assert CancelledIn(row, row', now);
      case RetryScheduled => assert CancelledIn(row, row', now);
      case Waiting => assert CancelledIn(row, row', now);
      case _ => assert row' == row;
    }
  }

  lemma CancelledJobStops(db: Db, id: JobId, now: Time, snapshot: Job, t: Time, lease: Time)
    requires id in db.jobs && snapshot.id == id && !Terminal(db.jobs[id].status)
    ensures var db' := Cancel(db, id, now).db;
            !IsDue(db', id, t)
            && Heartbeat(db', snapshot, t, lease).outcome.LeaseLost?
  {
    CancelOutcome(db, id, now);
    if db.jobs[id].status.Waiting? {
      CancelledTreeStops(db, Cancel(db, id, now).db, db.jobs[id].root, now, snapshot, t, lease);
    }
  }

  // ----- Submitting, retrying, replaying -----

  /** A new row that has never run: queued now, with its defaults. */
  predicate IsNew(row: Job, id: JobId, task: Task, attempts: nat, root: JobId, now: Time) {
    && row.id == id && row.task == task && row.status.Pending? && row.attempts == 0 && row.root == root
    && row.maxAttempts == (if attempts == 0 then 5 else attempts) && row.scheduledAt == now && row.createdAt == now
    && row.lockedBy.None? && row.leaseToken.None? && row.lockedUntil.None? && row.heartbeatAt.None?
    && row.cancelRequestedAt.None? && row.lastErrorKind.None? && row.lastError.None?
    && row.startedAt.None? && row.completedAt.None?
  }

  /** Only the row of that id is new. */
  predicate Adds(db: Db, db': Db, id: JobId) {
    id in db'.jobs && db'.jobs == db.jobs[id := db'.jobs[id]] && db'.ledger == db.ledger
  }

  ghost predicate SubmittedAs(db: Db, db': Db, outcome: Outcome, id: JobId, sub: Submission, now: Time) {
    var hash := if sub.hash.Some? then Given(sub.hash.value)
                else Computed(sub.task, if sub.maxAttempts == 0 then 5 else sub.maxAttempts);
    if !sub.key.EmptyKey? && exists k :: k in db.jobs && db.jobs[k].key == Some(sub.key) then
      && db' == db
      && if exists k :: k in db.jobs && db.jobs[k].key == Some(sub.key) && db.jobs[k].hash == Some(hash)
         then outcome.Done? else outcome.IdempotencyConflict?
    else
      && outcome.Done? && Adds(db, db', id) && db'.dlq == db.dlq
      && var row := db'.jobs[id];
         && IsNew(row, id, sub.task, sub.maxAttempts, if sub.root.Some? then sub.root.value else id, now)
         && row.key == (if sub.key.EmptyKey? then None else Some(sub.key)) && row.hash == Some(hash)
         && row.parent == sub.parent && row.internal == sub.internal
         && row.retriedFrom == sub.retriedFrom && row.replayedFrom.None?
  }

  lemma SubmitOutcome(db: Db, id: JobId, sub: Submission, now: Time)
    ensures SubmittedAs(db, Submit(db, id, sub, now).db, Submit(db, id, sub, now).outcome, id, sub, now)
  {
  }

  /** A failed or dead-lettered job runs again as a new root of its own; the old row stays. */
  ghost predicate RetriedAs(db: Db, db': Db, outcome: Outcome, source: JobId, id: JobId, attempts: nat, now: Time) {
    if source !in db.jobs then outcome.NotFound? && db' == db
    else if !(db.jobs[source].status.Failed? || db.jobs[source].status.DeadLettered?)
      then outcome.Conflict? && db' == db
    else
      var limit := if attempts == 0 then db.jobs[source].maxAttempts else attempts;
      && outcome.Done? && Adds(db, db', id) && db'.dlq == db.dlq
      && var row := db'.jobs[id];
         && IsNew(row, id, db.jobs[source].task, limit, id, now)
         && row.retriedFrom == Some(source) && row.replayedFrom.None?
         && row.key.None? && row.parent.None? && !row.internal
  }

  lemma RetryOutcome(db: Db, source: JobId, id: JobId, attempts: nat, now: Time)
    requires source in db.jobs ==> db.jobs[source].id == source
    ensures RetriedAs(db, Retry(db, source, id, attempts, now).db, Retry(db, source, id, attempts, now).outcome,
                      source, id, attempts, now)
  {
  }

  /** An entry of a job that is not internal runs again as a new root, once, and is marked with it. */
  ghost predicate ReplayedAs(db: Db, db': Db, outcome: Outcome, entry: nat, id: JobId, attempts: nat, now: Time) {
    if entry >= |db.dlq| || db.dlq[entry].job !in db.jobs || db.jobs[db.dlq[entry].job].internal then
      outcome.NotFound? && db' == db
    else if db.dlq[entry].replayedAs.Some? then outcome.Conflict? && db' == db
    else
      && outcome.Done? && Adds(db, db', id) && |db'.dlq| == |db.dlq|
      && db'.dlq[entry] == db.dlq[entry].(replayedAs := Some(id), replayedAt := Some(now))
      && (forall i :: 0 <= i < |db.dlq| && i != entry ==> db'.dlq[i] == db.dlq[i])
      && var row := db'.jobs[id];
         && IsNew(row, id, db.dlq[entry].task, attempts, id, now)
         && row.replayedFrom == Some(db.dlq[entry].job) && row.retriedFrom.None?
         && row.key.None? && row.hash.None? && row.parent.None? && !row.internal
  }

  lemma ReplayOutcome(db: Db, entry: nat, id: JobId, attempts: nat, now: Time)
    ensures ReplayedAs(db, ReplayDLQ(db, entry, id, attempts, now).db, ReplayDLQ(db, entry, id, attempts, now).outcome,
                       entry, id, attempts, now)
  {
  }

  /** The same submission again is accepted and changes nothing; another task under its key is refused. */
  lemma SubmittedTwice(db: Db, id: JobId, sub: Submission, now: Time, again: JobId, other: Submission, later: Time)
    requires !sub.key.EmptyKey? && Submit(db, id, sub, now).outcome.Done? && !KeyTaken(db, sub.key)
    requires other.key == sub.key && other.hash.None? && sub.hash.None?
    ensures var db' := Submit(db, id, sub, now).db;
            && Submit(db', again, sub, later) == Tx(db', Done)
            && (other.task != sub.task ==> Submit(db', again, other, later) == Tx(db', IdempotencyConflict))
  {
    var db' := Submit(db, id, sub, now).db;
    assert db'.jobs[id].key == Some(sub.key);
  }

  // ----- Claiming and keeping a lease -----

  /** Queued, or to be retried, and the time has come. */
  predicate IsDue(db: Db, id: JobId, now: Time) {
    && id in db.jobs && (db.jobs[id].status.Pending? || db.jobs[id].status.RetryScheduled?)
    && db.jobs[id].scheduledAt <= now
  }

  /** Running on a lease that has ended. */
  predicate HasExpired(db: Db, id: JobId, now: Time) {
    id in db.jobs && db.jobs[id].status.Running? && db.jobs[id].lockedUntil.Some? && db.jobs[id].lockedUntil.value < now
  }

  /** The row runs its next attempt under the new lease, and the attempt is on record. */
  ghost predicate ClaimedAs(db: Db, db': Db, id: JobId, worker: WorkerId, token: Token, now: Time, lease: Time)
    requires id in db.jobs
  {
    && id in db'.jobs
    && var row, row' := db.jobs[id], db'.jobs[id];
       && row'.status.Running? && row'.attempts == row.attempts + 1
       && row'.lockedBy == Some(worker) && row'.leaseToken == Some(token)
       && row'.lockedUntil == Some(now + lease) && row'.heartbeatAt == Some(now)
       && row'.startedAt == (if row.startedAt.Some? then row.startedAt else Some(now))
       && row' == row.(status := row'.status, attempts := row'.attempts, lockedBy := row'.lockedBy,
                       leaseToken := row'.leaseToken, lockedUntil := row'.lockedUntil,
                       heartbeatAt := row'.heartbeatAt, startedAt := row'.startedAt)
       && db'.jobs == db.jobs[id := row'] && db'.dlq == db.dlq
       && Slot(id, row'.attempts) !in db.ledger
       && db'.ledger == db.ledger[Slot(id, row'.attempts) := Attempt(worker, token, InProgress, None, None, None)]
  }

  lemma ClaimOutcome(db: Db, id: JobId, worker: WorkerId, token: Token, now: Time, lease: Time)
    requires id in db.jobs && Claim(db, id, worker, token, now, lease).outcome.Done?
    ensures ClaimedAs(db, Claim(db, id, worker, token, now, lease).db, id, worker, token, now, lease)
  {
  }

  /** The row is running under the worker and the token of the snapshot. */
  predicate OwnsLease(db: Db, snapshot: Job) {
    && snapshot.id in db.jobs && snapshot.lockedBy.Some? && snapshot.leaseToken.Some?
    && db.jobs[snapshot.id].status.Running?
    && db.jobs[snapshot.id].lockedBy == snapshot.lockedBy && db.jobs[snapshot.id].leaseToken == snapshot.leaseToken
  }

  /** A heartbeat extends the lease of a worker that owns it and was not asked to stop, and fails for any other. */
  ghost predicate BeatAs(db: Db, db': Db, owned: bool, snapshot: Job, now: Time, lease: Time) {
    && (owned <==> OwnsLease(db, snapshot) && db.jobs[snapshot.id].cancelRequestedAt.None?)
    && if !owned then db' == db
       else
         && snapshot.id in db'.jobs && db' == db.(jobs := db.jobs[snapshot.id := db'.jobs[snapshot.id]])
         && var row, row' := db.jobs[snapshot.id], db'.jobs[snapshot.id];
            row'.lockedUntil == Some(now + lease) && row'.heartbeatAt == Some(now) &&
            row' == row.(lockedUntil := row'.lockedUntil, heartbeatAt := row'.heartbeatAt)
  }

  lemma HeartbeatOutcome(db: Db, snapshot: Job, now: Time, lease: Time)
    ensures var tx := Heartbeat(db, snapshot, now, lease); BeatAs(db, tx.db, tx.outcome.Done?, snapshot, now, lease)
  {
  }

  // ----- Completing -----

  /** A child's row: internal, under its parent and root, as it was submitted. */
  predicate IsChildRow(row: Job, parent: Job, child: Child, now: Time) {
    var sub := child.submission;
    && IsNew(row, child.id, sub.task, sub.maxAttempts, parent.root, now)
    && row.internal && row.parent == Some(parent.id) && row.key == Some(sub.key)
    && row.hash == Some(if sub.hash.Some? then Given(sub.hash.value)
                        else Computed(sub.task, if sub.maxAttempts == 0 then 5 else sub.maxAttempts))
    && row.retriedFrom.None? && row.replayedFrom.None?
  }

  /** Each child whose key nobody had is inserted, and of children with one key the first. */
  ghost predicate ChildrenInserted(db: Db, db': Db, parent: Job, children: seq<Child>, now: Time) {
    forall i :: 0 <= i < |children| ==>
      && (children[i].id in db'.jobs <==>
            !KeyTaken(db, children[i].submission.key) &&
            forall j :: 0 <= j < i ==> children[j].submission.key != children[i].submission.key)
      && (children[i].id in db'.jobs ==> IsChildRow(db'.jobs[children[i].id], parent, children[i], now))
  }

  /** A root that found children waits for them; any other job is completed. */
  ghost predicate CompletedAs(db: Db, db': Db, id: JobId, children: seq<Child>, now: Time)
    requires id in db.jobs
  {
    var row := db.jobs[id];
    && id in db'.jobs
    && var row' := db'.jobs[id];
       && LeaseEnded(row, row') && row'.lastErrorKind == row.lastErrorKind && row'.lastError == row.lastError
       && row'.scheduledAt == row.scheduledAt
       && (if |children| > 0 && row.root == id then row'.status.Waiting? && row'.completedAt.None?
           else row'.status.Completed? && row'.completedAt == Some(now))
       && AttemptEnded(db, db', Slot(id, row.attempts), Finished(Completed), None, now)
       && KeepsEntries(db, db') && NoNewEntry(db, db', id) && OthersKept(db, db', id, row.root)
       && ChildrenInserted(db, db', row, children, now)
  }

  lemma InsertFrame(db: Db, parent: Job, children: seq<Child>, now: Time)
    requires FreshChildren(db, children)
    ensures var db' := InsertChildren(db, parent, children, now);
            && db'.ledger == db.ledger && db'.dlq == db.dlq
            && forall id :: id in db.jobs ==> id in db'.jobs && db'.jobs[id] == db.jobs[id]
    decreases |children|
  {
    if children != [] {
      var next := InsertChild(db, parent, children[0], now);
      assert FreshChildren(next, children[1..]);
      InsertFrame(next, parent, children[1..], now);
    }
  }

  lemma NewIsChild(db: Db, parent: Job, children: seq<Child>, now: Time, id: JobId)
    requires FreshChildren(db, children) && id in InsertChildren(db, parent, children, now).jobs
    ensures id in db.jobs || exists i :: 0 <= i < |children| && children[i].id == id
    decreases |children|
  {
    if children != [] {
      var next := InsertChild(db, parent, children[0], now);
      assert FreshChildren(next, children[1..]);
      NewIsChild(next, parent, children[1..], now, id);
      if id !in next.jobs {
        var i :| 0 <= i < |children[1..]| && children[1..][i].id == id;
        assert children[i + 1].id == id;
      }
    }
  }

  lemma KeysAfterChild(db: Db, parent: Job, child: Child, now: Time, key: Key)
    requires child.id !in db.jobs
    ensures KeyTaken(InsertChild(db, parent, child, now), key) <==> KeyTaken(db, key) || key == child.submission.key
  {
    var db' := InsertChild(db, parent, child, now);
    if KeyTaken(db, key) {
      var id :| id in db.jobs && db.jobs[id].key == Some(key);
      assert id in db'.jobs && db'.jobs[id].key == Some(key);
    }
    if key == child.submission.key && !KeyTaken(db, key) {
      assert db'.jobs[child.id].key == Some(key);
    }
  }

  lemma {:induction false} ChildInserted(db: Db, parent: Job, children: seq<Child>, now: Time, i: nat)
    requires FreshChildren(db, children) && i < |children|
    ensures var db' := InsertChildren(db, parent, children, now);
            && (children[i].id in db'.jobs <==>
                  !KeyTaken(db, children[i].submission.key) &&
                  forall j :: 0 <= j < i ==> children[j].submission.key != children[i].submission.key)
            && (children[i].id in db'.jobs ==> IsChildRow(db'.jobs[children[i].id], parent, children[i], now))
    decreases |children|
  {
    var next, rest, key := InsertChild(db, parent, children[0], now), children[1..], children[i].submission.key;
    assert FreshChildren(next, rest);
    if i == 0 {
      InsertFrame(next, parent, rest, now);
      if KeyTaken(db, key) && children[0].id in InsertChildren(next, parent, rest, now).jobs {
        NewIsChild(next, parent, rest, now, children[0].id);
        assert false;
      }
    } else {
      ChildInserted(next, parent, rest, now, i - 1);
      KeysAfterChild(db, parent, children[0], now, key);
      assert forall j :: 0 < j < i ==> children[j] == rest[j - 1];
      assert forall j :: 0 <= j < i - 1 ==> rest[j] == children[j + 1];
    }
  }

  lemma AllInserted(db: Db, parent: Job, children: seq<Child>, now: Time)
    requires FreshChildren(db, children)
    ensures ChildrenInserted(db, InsertChildren(db, parent, children, now), parent, children, now)
  {
    forall i | 0 <= i < |children| ensures
      var db' := InsertChildren(db, parent, children, now);
      && (children[i].id in db'.jobs <==>
            !KeyTaken(db, children[i].submission.key) &&
            forall j :: 0 <= j < i ==> children[j].submission.key != children[i].submission.key)
      && (children[i].id in db'.jobs ==> IsChildRow(db'.jobs[children[i].id], parent, children[i], now))
    {
      ChildInserted(db, parent, children, now, i);
    }
  }

  lemma SameKeys(db: Db, db': Db, key: Key)
    requires db'.jobs.Keys == db.jobs.Keys && forall id :: id in db.jobs ==> db'.jobs[id].key == db.jobs[id].key
    ensures KeyTaken(db, key) <==> KeyTaken(db', key)
  {
  }

  /** Inserted into the closed tables, and kept by finalization, is inserted into the tables as they were. */
  lemma InsertedThroughout(db: Db, closed: Db, after: Db, db': Db, snapshot: Job, row: Job, children: seq<Child>,
                           now: Time)
    requires closed.jobs.Keys == db.jobs.Keys && forall id :: id in db.jobs ==> closed.jobs[id].key == db.jobs[id].key
    requires ChildrenInserted(closed, after, snapshot, children, now) && row.id == snapshot.id
             && row.root == snapshot.root
    requires after.jobs.Keys == db'.jobs.Keys
    requires forall i :: 0 <= i < |children| && children[i].id in after.jobs ==>
               db'.jobs[children[i].id] == after.jobs[children[i].id]
    ensures ChildrenInserted(db, db', row, children, now)
  {
    forall i | 0 <= i < |children| ensures KeyTaken(db, children[i].submission.key) <==>
      KeyTaken(closed, children[i].submission.key) {
      SameKeys(db, closed, children[i].submission.key);
    }
  }

  lemma CompleteEntries(db: Db, snapshot: Job, children: seq<Child>, now: Time, db': Db)
    requires Rows(db) && Ledger(db) && Describes(db, snapshot) && snapshot.leaseToken.Some?
    requires var after := Settling(db, snapshot, children, now);
             KeepsEntries(after, db')
             && NoNewEntry(after, db', snapshot.id)
    requires FreshChildren(db, children)
    ensures KeepsEntries(db, db') && NoNewEntry(db, db', snapshot.id)
  {
    var c := Completion(snapshot, children);
    var closed := Close(db, snapshot, c, now);
    CloseWrites(db, snapshot, c, now);
    assert FreshChildren(closed, children);
    InsertFrame(closed, snapshot, children, now);
    assert closed.dlq == db.dlq;
  }

  /** The tables once the attempt is closed and its children are inserted. */
  function Settling(db: Db, snapshot: Job, children: seq<Child>, now: Time): Db
    requires snapshot.id in db.jobs
  {
    InsertChildren(Close(db, snapshot, Completion(snapshot, children), now), snapshot, children, now)
  }

  lemma SettlingRows(db: Db, snapshot: Job, children: seq<Child>, now: Time)
    requires Rows(db) && Ledger(db) && Describes(db, snapshot) && snapshot.leaseToken.Some?
             && FreshChildren(db, children)
    ensures var c, after := Completion(snapshot, children), Settling(db, snapshot, children, now);
            && (forall id :: id in db.jobs ==>
                  id in after.jobs && after.jobs[id] == if id == snapshot.id then ClosedRow(db.jobs[id], c, now)
                    else db.jobs[id])
            && AttemptEnded(db, after, Slot(snapshot.id, snapshot.attempts), Finished(Completed), None, now)
  {
    var c := Completion(snapshot, children);
    var closed := Close(db, snapshot, c, now);
    CloseWrites(db, snapshot, c, now);
    assert FreshChildren(closed, children);
    InsertFrame(closed, snapshot, children, now);
  }

  lemma SettlingChildren(db: Db, snapshot: Job, children: seq<Child>, now: Time, db': Db)
    requires Describes(db, snapshot) && FreshChildren(db, children)
    requires var after := Settling(db, snapshot, children, now);
             && after.jobs.Keys == db'.jobs.Keys
             && forall id :: id in after.jobs && id !in db.jobs ==> db'.jobs[id] == after.jobs[id]
    requires db.jobs[snapshot.id].id == snapshot.id
    ensures ChildrenInserted(db, db', db.jobs[snapshot.id], children, now)
  {
    var closed := Close(db, snapshot, Completion(snapshot, children), now);
    assert FreshChildren(closed, children);
    AllInserted(closed, snapshot, children, now);
    InsertedThroughout(db, closed, Settling(db, snapshot, children, now), db', snapshot, db.jobs[snapshot.id],
      children, now);
  }

  lemma CompleteOutcome(s: System, token: Token, children: seq<Child>, now: Time)
    requires Inv(s) && token in s.issued && Holds(s.db, s.issued[token]) && FreshChildren(s.db, children)
    ensures var tx := Complete(s.db, s.issued[token], children, now);
            tx.outcome.Done? && CompletedAs(s.db, tx.db, s.issued[token].id, children, now)
  {
    var db, snapshot := s.db, s.issued[token];
    HeldDescribes(s, token);
    var id, status := snapshot.id, CompletionStatus(snapshot, children);
    var after := Settling(db, snapshot, children, now);
    var db' := FinalizeAfter(db, after, snapshot, status, now).db;
    assert IsRoot(db, db.jobs[id].root) && RowOk(id, db.jobs[id]) && RowOk(snapshot.root, db.jobs[snapshot.root]);
    SettlingRows(db, snapshot, children, now);
    FinalizeAfterFrame(db, after, snapshot, status, now, id);
    forall other | other in after.jobs && other != snapshot.root
      ensures other in db'.jobs && db'.jobs[other] == after.jobs[other]
    {
      FinalizeAfterFrame(db, after, snapshot, status, now, other);
    }
    assert after.jobs.Keys == db'.jobs.Keys;
    SettlingChildren(db, snapshot, children, now, db');
    CompleteEntries(db, snapshot, children, now, db');
  }
}
