/**
 What every reachable state of the job service satisfies, and the proof that
 each transaction keeps it. The transactions are built from six primitive
 changes (insert, lease, close, finalize, cancel, replay), so the proof is one
 lemma per primitive.
 */
module JobInvariants {
  import opened Wrappers
  import opened JobTables
  import opened JobRuns

  // ----- The invariants -----

  /**
   Lease columns are set exactly while running, completed_at exactly when terminal,
   and a descendant is dead-lettered only after its last attempt.
   */
  predicate RowOk(id: JobId, row: Job) {
    && row.id == id
    && row.attempts <= row.maxAttempts
    && (Queued(row.status) ==> row.attempts < row.maxAttempts)
    && (row.status.Running? ==> row.attempts >= 1)
    && (row.status.Running? <==> row.leaseToken.Some?)
    && (row.status.Running? <==> row.lockedBy.Some?)
    && (row.status.Running? <==> row.lockedUntil.Some?)
    && (row.status.Running? <==> row.heartbeatAt.Some?)
    && (Terminal(row.status) <==> row.completedAt.Some?)
    && (row.status.Waiting? ==> row.root == id)
    && (row.status.DeadLettered? && row.root != id ==> row.attempts == row.maxAttempts)
  }

  ghost predicate Rows(db: Db) {
    && (forall id {:trigger RowOk(id, db.jobs[id])} :: id in db.jobs ==> RowOk(id, db.jobs[id]))
    && (forall id {:trigger IsRoot(db, db.jobs[id].root)} :: id in db.jobs ==> IsRoot(db, db.jobs[id].root))
  }

  predicate IsRoot(db: Db, id: JobId) {
    id in db.jobs && db.jobs[id].root == id
  }

  /** An attempt row that is in progress is the running job's last one and carries its lease. */
  predicate SlotOk(db: Db, slot: Slot)
    requires slot in db.ledger
  {
    && slot.job in db.jobs
    && 1 <= slot.attempt <= db.jobs[slot.job].attempts
    && (db.ledger[slot].status.InProgress? <==>
          db.jobs[slot.job].status.Running? && slot.attempt == db.jobs[slot.job].attempts)
    && (db.ledger[slot].status.InProgress? ==>
          db.jobs[slot.job].leaseToken == Some(db.ledger[slot].token)
            && db.jobs[slot.job].lockedBy == Some(db.ledger[slot].worker))
  }

  /** Each job's attempt rows are numbered exactly 1..attempts. */
  ghost predicate Ledger(db: Db) {
    && (forall slot {:trigger SlotOk(db, slot)} :: slot in db.ledger ==> SlotOk(db, slot))
    && (forall id, n :: id in db.jobs && 1 <= n <= db.jobs[id].attempts ==> Slot(id, n) in db.ledger)
  }

  ghost predicate HasEntry(db: Db, id: JobId) {
    exists i :: 0 <= i < |db.dlq| && db.dlq[i].job == id
  }

  /** Exactly the dead-lettered jobs have a DLQ entry, and each has one. */
  ghost predicate DeadLetters(db: Db) {
    && (forall i :: 0 <= i < |db.dlq| ==>
          && db.dlq[i].job in db.jobs
          && db.jobs[db.dlq[i].job].status.DeadLettered?
          && db.dlq[i].task == db.jobs[db.dlq[i].job].task)
    && (forall i, k :: 0 <= i < k < |db.dlq| ==> db.dlq[i].job != db.dlq[k].job)
    && (forall id :: id in db.jobs && db.jobs[id].status.DeadLettered? ==> HasEntry(db, id))
  }

  ghost predicate ReplayedInto(db: Db, source: JobId, id: JobId) {
    exists i :: 0 <= i < |db.dlq| && db.dlq[i].job == source && db.dlq[i].replayedAs == Some(id)
  }

  ghost predicate Replays(db: Db) {
    && (forall i :: 0 <= i < |db.dlq| && db.dlq[i].replayedAs.Some? ==>
          var id := db.dlq[i].replayedAs.value;
          && id in db.jobs && db.jobs[id].root == id && db.jobs[id].task == db.dlq[i].task
          && db.jobs[id].replayedFrom == Some(db.dlq[i].job))
    && (forall id :: id in db.jobs && db.jobs[id].replayedFrom.Some? ==>
          ReplayedInto(db, db.jobs[id].replayedFrom.value, id))
  }

  predicate AllBelow(db: Db, root: JobId, statuses: set<Status>) {
    forall id :: id in db.jobs && Below(db, root, id) ==> db.jobs[id].status in statuses
  }

  predicate HasBelow(db: Db, root: JobId) {
    exists id :: id in db.jobs && Below(db, root, id)
  }

  const TERMINAL := {Completed, Failed, DeadLettered, Cancelled}

  /**
   How a root's status relates to its descendants'. A root without any is dead-lettered
   only after its last attempt. Waiting and cancelled roots promise nothing here.
   */
  predicate RootOk(db: Db, root: JobId)
    requires root in db.jobs
  {
    match db.jobs[root].status
    case Pending => !HasBelow(db, root)
    case RetryScheduled => !HasBelow(db, root)
    case Running => !HasBelow(db, root)
    case Completed => AllBelow(db, root, {Completed})
    case DeadLettered =>
      if HasBelow(db, root) then AllBelow(db, root, TERMINAL) && SomeBelow(db, root, {DeadLettered})
      else db.jobs[root].attempts == db.jobs[root].maxAttempts
    case Failed => HasBelow(db, root) ==>
                     && AllBelow(db, root, TERMINAL - {DeadLettered})
                     && SomeBelow(db, root, {Failed, Cancelled})
    case _ => true
  }

  ghost predicate Trees(db: Db) {
    forall id {:trigger RootOk(db, id)} :: IsRoot(db, id) ==> RootOk(db, id)
  }

  ghost predicate DbInv(db: Db) {
    Rows(db) && Ledger(db) && DeadLetters(db) && Replays(db) && Trees(db)
  }

  /** A snapshot names the attempt row that its Claim inserted, and the columns that never change. */
  predicate SnapshotOk(db: Db, token: Token, snapshot: Job) {
    && snapshot.leaseToken == Some(token) && snapshot.lockedBy.Some?
    && snapshot.id in db.jobs
    && (var row := db.jobs[snapshot.id];
       && snapshot.task == row.task && snapshot.root == row.root && snapshot.parent == row.parent
       && snapshot.maxAttempts == row.maxAttempts && snapshot.internal == row.internal && snapshot.key == row.key)
    && var slot := Slot(snapshot.id, snapshot.attempts);
       slot in db.ledger && db.ledger[slot].token == token && Some(db.ledger[slot].worker) == snapshot.lockedBy
  }

  /** An attempt row's token was issued for that row, so no two rows share a token. */
  predicate SlotIssued(s: System, slot: Slot)
    requires slot in s.db.ledger
  {
    var token := s.db.ledger[slot].token;
    token in s.issued && Slot(s.issued[token].id, s.issued[token].attempts) == slot
  }

  ghost predicate Snapshots(s: System) {
    && (forall token {:trigger SnapshotOk(s.db, token, s.issued[token])} :: token in s.issued ==>
          SnapshotOk(s.db, token, s.issued[token]))
    && (forall slot {:trigger SlotIssued(s, slot)} :: slot in s.db.ledger ==> SlotIssued(s, slot))
  }

  ghost predicate Inv(s: System) {
    DbInv(s.db) && Snapshots(s)
  }

  // ----- Frames: what a transaction leaves alone -----

  /** Rows survive with the columns that never change; new rows are plain pending ones. */
  ghost predicate Grows(db: Db, db': Db) {
    && (forall id :: id in db.jobs ==> id in db'.jobs)
    && (forall id :: id in db.jobs ==>
          && db'.jobs[id].task == db.jobs[id].task && db'.jobs[id].root == db.jobs[id].root
          && db'.jobs[id].parent == db.jobs[id].parent && db'.jobs[id].maxAttempts == db.jobs[id].maxAttempts
          && db'.jobs[id].internal == db.jobs[id].internal && db'.jobs[id].key == db.jobs[id].key
          && db'.jobs[id].replayedFrom == db.jobs[id].replayedFrom)
    && (forall id :: id in db'.jobs && id !in db.jobs ==> db'.jobs[id].status.Pending? && db'.jobs[id].attempts == 0)
  }

  lemma DlqFrame(db: Db, db': Db)
    requires DeadLetters(db) && Replays(db)
    requires Grows(db, db') && db'.dlq == db.dlq
    requires forall id :: id in db.jobs ==> (db'.jobs[id].status.DeadLettered? <==> db.jobs[id].status.DeadLettered?)
    requires forall id :: id in db'.jobs && id !in db.jobs ==> db'.jobs[id].replayedFrom.None?
    ensures DeadLetters(db') && Replays(db')
  {
    forall id | id in db'.jobs && db'.jobs[id].status.DeadLettered? ensures HasEntry(db', id) {
      assert HasEntry(db, id);
    }
    forall id | id in db'.jobs && db'.jobs[id].replayedFrom.Some?
      ensures ReplayedInto(db', db'.jobs[id].replayedFrom.value, id)
    {
      assert ReplayedInto(db, db.jobs[id].replayedFrom.value, id);
    }
  }

  lemma EntriesAfterAppend(db: Db, db': Db, dead: DlqEntry, id: JobId)
    requires db'.dlq == db.dlq + [dead] && (id == dead.job || HasEntry(db, id))
    ensures HasEntry(db', id)
  {
    if id == dead.job {
      assert db'.dlq[|db.dlq|].job == id;
    } else {
      var i :| 0 <= i < |db.dlq| && db.dlq[i].job == id;
      assert db'.dlq[i].job == id;
    }
  }

  lemma ReplayAfterAppend(db: Db, db': Db, dead: DlqEntry, source: JobId, id: JobId)
    requires db'.dlq == db.dlq + [dead] && ReplayedInto(db, source, id)
    ensures ReplayedInto(db', source, id)
  {
    var i :| 0 <= i < |db.dlq| && db.dlq[i].job == source && db.dlq[i].replayedAs == Some(id);
    assert db'.dlq[i] == db.dlq[i];
  }

  /** One job was dead-lettered, and its entry appended. */
  ghost predicate Appends(db: Db, db': Db, dead: DlqEntry) {
    && Grows(db, db') && db'.jobs.Keys == db.jobs.Keys && db'.dlq == db.dlq + [dead] && dead.replayedAs.None?
    && dead.job in db.jobs && !db.jobs[dead.job].status.DeadLettered? && db'.jobs[dead.job].status.DeadLettered?
    && dead.task == db.jobs[dead.job].task
    && forall id :: id in db.jobs && id != dead.job ==>
       (db'.jobs[id].status.DeadLettered? <==> db.jobs[id].status.DeadLettered?)
  }

  /** A newly dead-lettered job gets the entry that is appended for it. */
  lemma DeadLettersAfterAppend(db: Db, db': Db, dead: DlqEntry)
    requires DeadLetters(db) && Appends(db, db', dead)
    ensures DeadLetters(db')
  {
    forall id | id in db'.jobs && db'.jobs[id].status.DeadLettered? ensures HasEntry(db', id) {
      EntriesAfterAppend(db, db', dead, id);
    }
  }

  lemma ReplaysAfterAppend(db: Db, db': Db, dead: DlqEntry)
    requires Replays(db) && Appends(db, db', dead)
    ensures Replays(db')
  {
    forall id | id in db'.jobs && db'.jobs[id].replayedFrom.Some?
      ensures ReplayedInto(db', db'.jobs[id].replayedFrom.value, id)
    {
      ReplayAfterAppend(db, db', dead, db.jobs[id].replayedFrom.value, id);
    }
  }

  lemma DlqAppend(db: Db, db': Db, dead: DlqEntry)
    requires DeadLetters(db) && Replays(db) && Appends(db, db', dead)
    ensures DeadLetters(db') && Replays(db')
  {
    DeadLettersAfterAppend(db, db', dead);
    ReplaysAfterAppend(db, db', dead);
  }

  lemma LedgerFrame(db: Db, db': Db)
    requires Ledger(db) && Grows(db, db') && db'.ledger == db.ledger
    requires forall id :: id in db.jobs ==>
               && db'.jobs[id].attempts == db.jobs[id].attempts
               && (db'.jobs[id].status.Running? <==> db.jobs[id].status.Running?)
               && db'.jobs[id].leaseToken == db.jobs[id].leaseToken
               && db'.jobs[id].lockedBy == db.jobs[id].lockedBy
    ensures Ledger(db')
  {
    forall slot | slot in db'.ledger ensures SlotOk(db', slot) {
      assert SlotOk(db, slot);
    }
  }

  /** Snapshots stay good while attempt rows keep their worker and token. */
  lemma SnapshotFrame(s: System, db': Db)
    requires Snapshots(s) && Grows(s.db, db') && db'.ledger.Keys == s.db.ledger.Keys
    requires forall slot :: slot in s.db.ledger ==>
               db'.ledger[slot].token == s.db.ledger[slot].token && db'.ledger[slot].worker == s.db.ledger[slot].worker
    ensures Snapshots(System(db', s.issued))
  {
    forall token | token in s.issued ensures SnapshotOk(db', token, s.issued[token]) {
      assert SnapshotOk(s.db, token, s.issued[token]);
    }
    forall slot | slot in db'.ledger ensures SlotIssued(System(db', s.issued), slot) {
      assert SlotIssued(s, slot);
    }
  }

  /** Two states that agree on a tree agree on its root's invariant. */
  lemma SameTree(db: Db, db': Db, root: JobId)
    requires root in db.jobs && root in db'.jobs && db.jobs[root].status == db'.jobs[root].status
    requires db.jobs[root].attempts == db'.jobs[root].attempts
             && db.jobs[root].maxAttempts == db'.jobs[root].maxAttempts
    requires forall id :: Below(db, root, id) <==> Below(db', root, id)
    requires forall id :: Below(db, root, id) && id in db'.jobs ==> db.jobs[id].status == db'.jobs[id].status
    ensures RootOk(db, root) <==> RootOk(db', root)
  {
    assert forall id :: Below(db, root, id) ==> id in db'.jobs && Below(db', root, id);
    assert forall id :: Below(db', root, id) ==> id in db.jobs && Below(db, root, id);
    assert HasBelow(db, root) <==> HasBelow(db', root);
    forall statuses: set<Status>
      ensures AllBelow(db, root, statuses) <==> AllBelow(db', root, statuses)
      ensures SomeBelow(db, root, statuses) <==> SomeBelow(db', root, statuses)
    {
    }
  }

  // ----- Insert -----

  /** A root under which new descendants may still appear. */
  predicate RootOpen(db: Db, root: JobId) {
    IsRoot(db, root) && (db.jobs[root].status.Waiting? || db.jobs[root].status.Cancelled?)
  }

  predicate Insertable(db: Db, row: Job) {
    && row.id !in db.jobs && RowOk(row.id, row) && row.status.Pending? && row.attempts == 0
    && (row.root == row.id || RootOpen(db, row.root))
  }

  lemma TreesAfterInsert(db: Db, row: Job)
    requires Rows(db) && Trees(db) && Insertable(db, row)
    ensures Rows(Insert(db, row)) && Trees(Insert(db, row))
  {
    var db' := Insert(db, row);
    forall id | id in db.jobs
      ensures db'.jobs[id] == db.jobs[id] && db.jobs[id].root != row.id && IsRoot(db', db'.jobs[id].root)
    {
      assert IsRoot(db, db.jobs[id].root);
    }
    forall root | IsRoot(db', root) ensures RootOk(db', root) {
      if root == row.id {
        assert !HasBelow(db', root);
      } else if row.root != root {
        SameTree(db, db', root);
      }
    }
  }

  lemma GrowsByInsert(db: Db, row: Job)
    requires row.id !in db.jobs && row.status.Pending? && row.attempts == 0
    ensures Grows(db, Insert(db, row))
  {
  }

  lemma LedgerAfterInsert(db: Db, row: Job)
    requires Ledger(db) && row.id !in db.jobs && row.attempts == 0
    ensures Ledger(Insert(db, row))
  {
    forall slot | slot in db.ledger ensures SlotOk(Insert(db, row), slot) {
      assert SlotOk(db, slot);
    }
  }

  lemma DlqAfterInsert(db: Db, row: Job)
    requires DeadLetters(db) && Replays(db) && row.id !in db.jobs && row.status.Pending? && row.attempts == 0
    requires row.replayedFrom.None?
    ensures DeadLetters(Insert(db, row)) && Replays(Insert(db, row))
  {
    GrowsByInsert(db, row);
    DlqFrame(db, Insert(db, row));
  }

  lemma InsertKeeps(s: System, row: Job)
    requires Inv(s) && Insertable(s.db, row) && row.replayedFrom.None?
    ensures Inv(System(Insert(s.db, row), s.issued))
  {
    var db' := Insert(s.db, row);
    GrowsByInsert(s.db, row);
    assert Rows(db') && Trees(db') by { TreesAfterInsert(s.db, row); }
    assert DeadLetters(db') && Replays(db') by { DlqAfterInsert(s.db, row); }
    assert Ledger(db') by { LedgerAfterInsert(s.db, row); }
    assert Snapshots(System(db', s.issued)) by { SnapshotFrame(s, db'); }
  }

  // ----- Updating one row -----

  /** A descendant that has not ended is under a waiting or cancelled root. */
  lemma ActiveBelowOpenRoot(db: Db, id: JobId)
    requires Rows(db) && Trees(db) && id in db.jobs && db.jobs[id].root != id && Active(db.jobs[id].status)
    ensures RootOpen(db, db.jobs[id].root)
  {
    var root := db.jobs[id].root;
    assert IsRoot(db, root) && RootOk(db, root) && Below(db, root, id);
  }

  lemma RowsAfterUpdate(db: Db, db': Db, id: JobId, row: Job)
    requires Rows(db) && Trees(db) && id in db.jobs && db'.jobs == db.jobs[id := row]
    requires RowOk(id, row) && row.root == db.jobs[id].root
    requires row.root != id ==> RootOpen(db, row.root)
    requires row.root == id ==> RootOk(db', id)
    ensures Rows(db') && Trees(db')
  {
    forall other | other in db'.jobs ensures IsRoot(db', db'.jobs[other].root) {
      assert IsRoot(db, db.jobs[other].root);
    }
    forall root | IsRoot(db', root) ensures RootOk(db', root) {
      assert IsRoot(db, root);
      if root != row.root {
        SameTree(db, db', root);
      }
    }
  }

  lemma GrowsByUpdate(db: Db, db': Db, id: JobId, row: Job)
    requires id in db.jobs && db'.jobs == db.jobs[id := row]
    requires row.task == db.jobs[id].task && row.root == db.jobs[id].root && row.parent == db.jobs[id].parent
    requires row.maxAttempts == db.jobs[id].maxAttempts && row.internal == db.jobs[id].internal
    requires row.key == db.jobs[id].key && row.replayedFrom == db.jobs[id].replayedFrom
    ensures Grows(db, db') && db'.jobs.Keys == db.jobs.Keys
  {
  }

  /** A root that no descendant hangs under stays so whatever its own status becomes. */
  lemma ChildlessAfterUpdate(db: Db, db': Db, root: JobId, row: Job)
    requires root in db.jobs && db'.jobs == db.jobs[root := row] && row.root == root && !HasBelow(db, root)
    requires row.status.DeadLettered? ==> row.attempts == row.maxAttempts
    ensures !HasBelow(db', root) && RootOk(db', root)
  {
    assert forall id :: Below(db', root, id) ==> id in db.jobs && Below(db, root, id);
  }

  // ----- Claim -----

  /** The unique constraint never fires: attempt numbers run from 1 to attempts without a gap. */
  lemma ClaimNeverAborts(db: Db, id: JobId, worker: WorkerId, token: Token, now: Time, lease: Time)
    requires Ledger(db) && Claimable(db, id, now)
    ensures Claim(db, id, worker, token, now, lease).outcome.Done?
  {
    var slot := Slot(id, db.jobs[id].attempts + 1);
    assert slot in db.ledger ==> SlotOk(db, slot);
  }

  lemma LedgerAfterClaim(db: Db, id: JobId, worker: WorkerId, token: Token, now: Time, lease: Time)
    requires Rows(db) && Ledger(db) && Claimable(db, id, now)
    ensures Ledger(Claim(db, id, worker, token, now, lease).db)
  {
    ClaimNeverAborts(db, id, worker, token, now, lease);
    var db' := Claim(db, id, worker, token, now, lease).db;
    forall slot | slot in db'.ledger ensures SlotOk(db', slot) {
      if slot != Slot(id, db.jobs[id].attempts + 1) {
        assert SlotOk(db, slot);
      }
    }
  }

  lemma RowsAfterClaim(db: Db, id: JobId, worker: WorkerId, token: Token, now: Time, lease: Time)
    requires Rows(db) && Trees(db) && Claimable(db, id, now)
    requires Claim(db, id, worker, token, now, lease).outcome.Done?
    ensures var db' := Claim(db, id, worker, token, now, lease).db; Rows(db') && Trees(db')
  {
    var db' := Claim(db, id, worker, token, now, lease).db;
    var row := Leased(db.jobs[id], worker, token, now, lease);
    assert RowOk(id, db.jobs[id]);
    if row.root == id {
      assert IsRoot(db, id) && RootOk(db, id);
      ChildlessAfterUpdate(db, db', id, row);
    } else {
      ActiveBelowOpenRoot(db, id);
    }
    RowsAfterUpdate(db, db', id, row);
  }

  lemma SnapshotsAfterClaim(s: System, id: JobId, worker: WorkerId, token: Token, now: Time, lease: Time)
    requires Snapshots(s) && Claimable(s.db, id, now) && FreshToken(s, token) && s.db.jobs[id].id == id
    requires Claim(s.db, id, worker, token, now, lease).outcome.Done?
    ensures var db' := Claim(s.db, id, worker, token, now, lease).db;
            Snapshots(System(db', s.issued[token := db'.jobs[id]]))
  {
    var db' := Claim(s.db, id, worker, token, now, lease).db;
    var issued := s.issued[token := db'.jobs[id]];
    forall t | t in issued ensures SnapshotOk(db', t, issued[t]) {
      if t != token {
        assert SnapshotOk(s.db, t, s.issued[t]);
      }
    }
    forall slot | slot in db'.ledger ensures SlotIssued(System(db', issued), slot) {
      assert slot in s.db.ledger ==> SlotIssued(s, slot);
    }
  }

  lemma ClaimKeeps(s: System, id: JobId, worker: WorkerId, token: Token, now: Time, lease: Time)
    requires Inv(s) && Claimable(s.db, id, now) && FreshToken(s, token)
    ensures var db' := Claim(s.db, id, worker, token, now, lease).db;
            && id in db'.jobs && Inv(System(db', s.issued[token := db'.jobs[id]]))
  {
    ClaimNeverAborts(s.db, id, worker, token, now, lease);
    var db' := Claim(s.db, id, worker, token, now, lease).db;
    GrowsByUpdate(s.db, db', id, Leased(s.db.jobs[id], worker, token, now, lease));
    assert s.db.jobs[id].id == id by { assert RowOk(id, s.db.jobs[id]); }
    assert Rows(db') && Trees(db') by { RowsAfterClaim(s.db, id, worker, token, now, lease); }
    assert DeadLetters(db') && Replays(db') by { DlqFrame(s.db, db'); }
    assert Ledger(db') by { LedgerAfterClaim(s.db, id, worker, token, now, lease); }
    SnapshotsAfterClaim(s, id, worker, token, now, lease);
  }

  // ----- Ending an attempt -----

  /** The snapshot describes the attempt that the row is running right now. */
  predicate Describes(db: Db, snapshot: Job) {
    && snapshot.id in db.jobs
    && var row := db.jobs[snapshot.id];
       && row.status.Running? && snapshot.attempts == row.attempts && snapshot.leaseToken == row.leaseToken
       && snapshot.task == row.task && snapshot.root == row.root && snapshot.maxAttempts == row.maxAttempts
  }

  /** Fencing: a row that still holds a snapshot's token is still on the snapshot's attempt and worker. */
  lemma HoldsDescribes(s: System, token: Token)
    requires Inv(s) && token in s.issued && s.issued[token].id in s.db.jobs
    requires s.db.jobs[s.issued[token].id].leaseToken == Some(token)
    ensures Describes(s.db, s.issued[token]) && Holds(s.db, s.issued[token])
  {
    var snapshot := s.issued[token];
    var row := s.db.jobs[snapshot.id];
    assert RowOk(snapshot.id, row) && SnapshotOk(s.db, token, snapshot);
    var now := Slot(snapshot.id, row.attempts);
    assert now in s.db.ledger && SlotOk(s.db, now) && SlotIssued(s, now);
  }

  /** A closing puts the row into a state that its attempt count allows. */
  predicate ClosingFits(row: Job, c: Closing) {
    && !c.status.Running? && !c.attempt.InProgress?
    && (c.status.DeadLettered? ==> c.error.Some?)
    && (Queued(c.status) ==> row.attempts < row.maxAttempts)
    && (c.status.DeadLettered? ==> row.attempts == row.maxAttempts)
    && (c.status.Waiting? ==> row.root == row.id)
  }

  /** Ending the last attempt of a running job. */
  lemma LedgerCloses(db: Db, db': Db, last: Slot, ended: Attempt)
    requires Ledger(db) && last in db.ledger && db'.ledger == db.ledger[last := ended]
    requires ended.token == db.ledger[last].token && !ended.status.InProgress?
    requires last.job in db.jobs && db'.jobs.Keys == db.jobs.Keys
    requires db.jobs[last.job].status.Running? && last.attempt == db.jobs[last.job].attempts
    requires db'.jobs[last.job].attempts == last.attempt && !db'.jobs[last.job].status.Running?
    requires forall id :: id in db.jobs && id != last.job ==> db'.jobs[id] == db.jobs[id]
    ensures Ledger(db')
  {
    forall slot | slot in db'.ledger ensures SlotOk(db', slot) {
      assert SlotOk(db, slot);
    }
  }

  lemma LedgerAfterClose(db: Db, snapshot: Job, c: Closing, now: Time)
    requires Rows(db) && Ledger(db) && Describes(db, snapshot) && ClosingFits(db.jobs[snapshot.id], c)
    ensures var last := Slot(snapshot.id, snapshot.attempts);
            last in db.ledger
              && Close(db, snapshot, c, now).ledger == db.ledger[last := ClosedAttempt(db.ledger[last], c, now)]
    ensures Ledger(Close(db, snapshot, c, now))
  {
    var last := Slot(snapshot.id, snapshot.attempts);
    assert RowOk(snapshot.id, db.jobs[snapshot.id]);
    assert last in db.ledger && SlotOk(db, last);
    LedgerCloses(db, Close(db, snapshot, c, now), last, ClosedAttempt(db.ledger[last], c, now));
  }

  lemma RowsAfterClose(db: Db, snapshot: Job, c: Closing, now: Time)
    requires Rows(db) && Trees(db) && Describes(db, snapshot) && ClosingFits(db.jobs[snapshot.id], c)
    ensures Rows(Close(db, snapshot, c, now)) && Trees(Close(db, snapshot, c, now))
  {
    var id, db' := snapshot.id, Close(db, snapshot, c, now);
    var row := ClosedRow(db.jobs[id], c, now);
    assert RowOk(id, db.jobs[id]);
    if row.root == id {
      assert IsRoot(db, id) && RootOk(db, id);
      ChildlessAfterUpdate(db, db', id, row);
    } else {
      ActiveBelowOpenRoot(db, id);
    }
    RowsAfterUpdate(db, db', id, row);
  }

  lemma DlqAfterClose(db: Db, snapshot: Job, c: Closing, now: Time)
    requires DeadLetters(db) && Replays(db) && Describes(db, snapshot) && ClosingFits(db.jobs[snapshot.id], c)
    ensures DeadLetters(Close(db, snapshot, c, now)) && Replays(Close(db, snapshot, c, now))
  {
    var db' := Close(db, snapshot, c, now);
    GrowsByUpdate(db, db', snapshot.id, ClosedRow(db.jobs[snapshot.id], c, now));
    if c.status.DeadLettered? {
      DlqAppend(db, db', DeadEntry(snapshot, c.error.value.0, c.error.value.1));
    } else {
      DlqFrame(db, db');
    }
  }

  lemma CloseKeepsTokens(db: Db, snapshot: Job, c: Closing, now: Time)
    requires snapshot.id in db.jobs && (c.status.DeadLettered? ==> c.error.Some?)
    ensures var ledger := Close(db, snapshot, c, now).ledger;
            && ledger.Keys == db.ledger.Keys
            && forall slot :: slot in db.ledger ==>
                 ledger[slot].token == db.ledger[slot].token && ledger[slot].worker == db.ledger[slot].worker
  {
  }

  lemma SnapshotsAfterClose(s: System, snapshot: Job, c: Closing, now: Time)
    requires Snapshots(s) && snapshot.id in s.db.jobs && (c.status.DeadLettered? ==> c.error.Some?)
    ensures Snapshots(System(Close(s.db, snapshot, c, now), s.issued))
  {
    var db' := Close(s.db, snapshot, c, now);
    assert Grows(s.db, db') by { GrowsByUpdate(s.db, db', snapshot.id, ClosedRow(s.db.jobs[snapshot.id], c, now)); }
    CloseKeepsTokens(s.db, snapshot, c, now);
    SnapshotFrame(s, db');
  }

  lemma CloseKeeps(s: System, snapshot: Job, c: Closing, now: Time)
    requires Inv(s) && Describes(s.db, snapshot) && ClosingFits(s.db.jobs[snapshot.id], c)
    ensures Inv(System(Close(s.db, snapshot, c, now), s.issued))
    ensures Grows(s.db, Close(s.db, snapshot, c, now))
  {
    var db' := Close(s.db, snapshot, c, now);
    GrowsByUpdate(s.db, db', snapshot.id, ClosedRow(s.db.jobs[snapshot.id], c, now));
    assert Rows(db') && Trees(db') by { RowsAfterClose(s.db, snapshot, c, now); }
    assert DeadLetters(db') && Replays(db') by { DlqAfterClose(s.db, snapshot, c, now); }
    LedgerAfterClose(s.db, snapshot, c, now);
    SnapshotsAfterClose(s, snapshot, c, now);
  }

  // ----- Finalizing -----

  lemma StatusSplit(status: Status)
    ensures status in ACTIVE <==> status !in TERMINAL
  {
  }

  /** The computed status is the one that the descendants' statuses call for. */
  lemma FinalRootOk(db: Db, db': Db, root: JobId, row: Job)
    requires root in db.jobs && db'.jobs == db.jobs[root := row] && row.root == root
    requires !SomeBelow(db, root, ACTIVE) && row.status == FinalStatus(db, root)
    ensures RootOk(db', root)
  {
    forall id | id in db'.jobs && Below(db', root, id)
      ensures id in db.jobs && Below(db, root, id) && db'.jobs[id] == db.jobs[id]
      ensures db'.jobs[id].status in TERMINAL
      ensures !row.status.DeadLettered? ==> db'.jobs[id].status in TERMINAL - {DeadLettered}
      ensures row.status.Completed? ==> db'.jobs[id].status in {Completed}
    {
      StatusSplit(db.jobs[id].status);
      assert row.status.Completed? ==> db.jobs[id].status !in {Failed, DeadLettered, Cancelled};
    }
    if !row.status.Completed? {
      var some := if row.status.DeadLettered? then {DeadLettered} else {Failed, DeadLettered, Cancelled};
      var id :| id in db.jobs && Below(db, root, id) && db.jobs[id].status in some;
      assert id in db'.jobs && Below(db', root, id);
    }
  }

  lemma RowsAfterFinalize(db: Db, root: JobId, now: Time)
    requires Rows(db) && Trees(db) && IsRoot(db, root)
    ensures Rows(FinalizeRoot(db, root, now)) && Trees(FinalizeRoot(db, root, now))
  {
    var db' := FinalizeRoot(db, root, now);
    if db' != db {
      var row := FinalizedRow(db.jobs[root], FinalStatus(db, root), now);
      assert RowOk(root, db.jobs[root]);
      FinalRootOk(db, db', root, row);
      RowsAfterUpdate(db, db', root, row);
    }
  }

  lemma GrowsByFinalize(db: Db, root: JobId, now: Time)
    requires root in db.jobs
    ensures Grows(db, FinalizeRoot(db, root, now)) && FinalizeRoot(db, root, now).jobs.Keys == db.jobs.Keys
  {
    if FinalizeRoot(db, root, now) != db {
      GrowsByUpdate(db, FinalizeRoot(db, root, now), root, FinalizedRow(db.jobs[root], FinalStatus(db, root), now));
    }
  }

  lemma DlqAfterFinalize(db: Db, root: JobId, now: Time)
    requires DeadLetters(db) && Replays(db) && root in db.jobs && db.jobs[root].id == root
    ensures DeadLetters(FinalizeRoot(db, root, now)) && Replays(FinalizeRoot(db, root, now))
  {
    var db' := FinalizeRoot(db, root, now);
    if db' != db {
      var status := FinalStatus(db, root);
      var row := FinalizedRow(db.jobs[root], status, now);
      GrowsByFinalize(db, root, now);
      if status.DeadLettered? {
        DlqAppend(db, db', DeadEntry(row, Transient, ExhaustedMessage(row.task)).(parent := None));
      } else {
        DlqFrame(db, db');
      }
    }
  }

  lemma LedgerAfterFinalize(db: Db, root: JobId, now: Time)
    requires Ledger(db) && root in db.jobs
    ensures Ledger(FinalizeRoot(db, root, now))
  {
    GrowsByFinalize(db, root, now);
    LedgerFrame(db, FinalizeRoot(db, root, now));
  }

  lemma SnapshotsAfterFinalize(s: System, root: JobId, now: Time)
    requires Snapshots(s) && root in s.db.jobs
    ensures Snapshots(System(FinalizeRoot(s.db, root, now), s.issued))
  {
    GrowsByFinalize(s.db, root, now);
    SnapshotFrame(s, FinalizeRoot(s.db, root, now));
  }

  lemma FinalizeKeeps(s: System, root: JobId, now: Time)
    requires Inv(s) && IsRoot(s.db, root)
    ensures Inv(System(FinalizeRoot(s.db, root, now), s.issued))
  {
    var db' := FinalizeRoot(s.db, root, now);
    GrowsByFinalize(s.db, root, now);
    assert s.db.jobs[root].id == root by { assert RowOk(root, s.db.jobs[root]); }
    assert Rows(db') && Trees(db') by { RowsAfterFinalize(s.db, root, now); }
    assert DeadLetters(db') && Replays(db') by { DlqAfterFinalize(s.db, root, now); }
    assert Ledger(db') by { LedgerAfterFinalize(s.db, root, now); }
    SnapshotsAfterFinalize(s, root, now);
  }

  // ----- Flags, cancellation and replay -----

  /** Changing only when a lease ends, or whether cancellation was asked for, keeps everything. */
  predicate SameButFlags(row: Job, row': Job) {
    && row' == row.(lockedUntil := row'.lockedUntil, heartbeatAt := row'.heartbeatAt,
                    cancelRequestedAt := row'.cancelRequestedAt)
    && (row'.lockedUntil.Some? <==> row.lockedUntil.Some?) && (row'.heartbeatAt.Some? <==> row.heartbeatAt.Some?)
  }

  /** A queued or waiting row turned into a cancelled one, and otherwise rows that only changed flags. */
  predicate CancelledOrFlagged(row: Job, row': Job) {
    || SameButFlags(row, row')
    || ((Queued(row.status) || row.status.Waiting?) &&
        row' ==
          row.(status := Cancelled, cancelRequestedAt := row'.cancelRequestedAt, completedAt := row'.completedAt) &&
        row'.completedAt.Some?)
  }

  ghost predicate CancelsSome(db: Db, db': Db) {
    && db'.jobs.Keys == db.jobs.Keys && db'.ledger == db.ledger && db'.dlq == db.dlq
    && (forall id :: id in db.jobs ==> CancelledOrFlagged(db.jobs[id], db'.jobs[id]))
  }

  lemma CancelledRowOk(id: JobId, row: Job, row': Job)
    requires RowOk(id, row) && CancelledOrFlagged(row, row')
    ensures RowOk(id, row') && row'.root == row.root
    ensures row'.attempts == row.attempts && row'.maxAttempts == row.maxAttempts
    ensures row'.status == row.status || (Active(row.status) && row'.status.Cancelled?)
  {
  }

  /** Statuses move from active to cancelled, and nothing else. */
  ghost predicate OnlyCancels(db: Db, db': Db) {
    && db'.jobs.Keys == db.jobs.Keys
    && (forall id :: id in db.jobs ==>
          && db'.jobs[id].root == db.jobs[id].root && db'.jobs[id].attempts == db.jobs[id].attempts
          && db'.jobs[id].maxAttempts == db.jobs[id].maxAttempts)
    && (forall id :: id in db.jobs ==>
          db'.jobs[id].status == db.jobs[id].status || (Active(db.jobs[id].status) && db'.jobs[id].status.Cancelled?))
  }

  lemma SameBelow(db: Db, db': Db, root: JobId)
    requires OnlyCancels(db, db')
    ensures forall id :: Below(db', root, id) <==> Below(db, root, id)
    ensures HasBelow(db', root) <==> HasBelow(db, root)
  {
    assert forall id :: Below(db', root, id) ==> id in db.jobs && Below(db, root, id);
    assert forall id :: Below(db, root, id) ==> id in db'.jobs && Below(db', root, id);
  }

  lemma FinalBelow(db: Db, root: JobId)
    requires IsRoot(db, root) && RootOk(db, root) && HasBelow(db, root) && !RootOpen(db, root)
    ensures forall id :: Below(db, root, id) ==> Terminal(db.jobs[id].status)
    ensures Terminal(db.jobs[root].status)
  {
    assert forall id :: id in db.jobs && Below(db, root, id) ==> Terminal(db.jobs[id].status);
  }

  lemma RootAfterCancel(db: Db, db': Db, root: JobId)
    requires OnlyCancels(db, db') && IsRoot(db, root) && RootOk(db, root)
    ensures root in db'.jobs && RootOk(db', root)
  {
    SameBelow(db, db', root);
    if HasBelow(db, root) && !RootOpen(db, root) {
      FinalBelow(db, root);
      SameTree(db, db', root);
    }
  }

  lemma TreesAfterCancel(db: Db, db': Db)
    requires Trees(db) && OnlyCancels(db, db')
    ensures Trees(db')
  {
    forall root | IsRoot(db', root) ensures RootOk(db', root) {
      assert IsRoot(db, root) && RootOk(db, root);
      RootAfterCancel(db, db', root);
    }
  }

  lemma RowsAfterCancel(db: Db, db': Db)
    requires Rows(db) && Trees(db) && CancelsSome(db, db')
    ensures Rows(db') && Trees(db')
  {
    forall id | id in db.jobs
      ensures RowOk(id, db'.jobs[id]) && db'.jobs[id].root == db.jobs[id].root
      ensures db'.jobs[id].attempts == db.jobs[id].attempts && db'.jobs[id].maxAttempts == db.jobs[id].maxAttempts
      ensures db'.jobs[id].status == db.jobs[id].status
              || (Active(db.jobs[id].status) && db'.jobs[id].status.Cancelled?)
    {
      CancelledRowOk(id, db.jobs[id], db'.jobs[id]);
    }
    forall id | id in db'.jobs ensures IsRoot(db', db'.jobs[id].root) {
      assert IsRoot(db, db.jobs[id].root);
    }
    TreesAfterCancel(db, db');
  }

  /** A cancelled or flagged row keeps the columns that never change, and its attempts and lease. */
  lemma CancelledRowKeeps(row: Job, row': Job)
    requires CancelledOrFlagged(row, row')
    ensures row'.task == row.task && row'.root == row.root && row'.parent == row.parent
            && row'.maxAttempts == row.maxAttempts
    ensures row'.internal == row.internal && row'.key == row.key && row'.replayedFrom == row.replayedFrom
    ensures row'.attempts == row.attempts && row'.leaseToken == row.leaseToken && row'.lockedBy == row.lockedBy
    ensures row'.status.Running? <==> row.status.Running?
    ensures row'.status.DeadLettered? <==> row.status.DeadLettered?
  {
  }

  /** The two tables have the same jobs, with equal columns except for statuses and flags. */
  ghost predicate SameColumns(db: Db, db': Db) {
    && Grows(db, db')
    && forall id :: id in db.jobs ==>
         && db'.jobs[id].attempts == db.jobs[id].attempts && db'.jobs[id].leaseToken == db.jobs[id].leaseToken
         && db'.jobs[id].lockedBy == db.jobs[id].lockedBy
         && (db'.jobs[id].status.Running? <==> db.jobs[id].status.Running?)
         && (db'.jobs[id].status.DeadLettered? <==> db.jobs[id].status.DeadLettered?)
  }

  lemma SameColumnsAfterCancel(db: Db, db': Db)
    requires CancelsSome(db, db')
    ensures SameColumns(db, db')
  {
    forall id | id in db.jobs ensures CancelledOrFlagged(db.jobs[id], db'.jobs[id]) {
    }
    forall id | id in db.jobs
      ensures db'.jobs[id].task == db.jobs[id].task && db'.jobs[id].root == db.jobs[id].root
      ensures db'.jobs[id].parent == db.jobs[id].parent && db'.jobs[id].maxAttempts == db.jobs[id].maxAttempts
      ensures db'.jobs[id].internal == db.jobs[id].internal && db'.jobs[id].key == db.jobs[id].key
      ensures db'.jobs[id].replayedFrom == db.jobs[id].replayedFrom && db'.jobs[id].attempts == db.jobs[id].attempts
      ensures db'.jobs[id].leaseToken == db.jobs[id].leaseToken && db'.jobs[id].lockedBy == db.jobs[id].lockedBy
      ensures db'.jobs[id].status.Running? <==> db.jobs[id].status.Running?
      ensures db'.jobs[id].status.DeadLettered? <==> db.jobs[id].status.DeadLettered?
    {
      CancelledRowKeeps(db.jobs[id], db'.jobs[id]);
    }
  }

  lemma GrowsByCancel(db: Db, db': Db)
    requires CancelsSome(db, db')
    ensures Grows(db, db')
  {
    SameColumnsAfterCancel(db, db');
  }

  lemma CancelKeeps(s: System, db': Db)
    requires Inv(s) && CancelsSome(s.db, db')
    ensures Inv(System(db', s.issued))
  {
    SameColumnsAfterCancel(s.db, db');
    assert Rows(db') && Trees(db') by { RowsAfterCancel(s.db, db'); }
    assert DeadLetters(db') && Replays(db') by { DlqAfterCancel(s.db, db'); }
    assert Ledger(db') by { LedgerAfterCancel(s.db, db'); }
    SnapshotFrame(s, db');
  }

  lemma ReplayRows(db: Db, entry: nat, id: JobId, maxAttempts: nat, now: Time)
    requires Rows(db) && Trees(db) && Ledger(db) && id !in db.jobs
    requires ReplayDLQ(db, entry, id, maxAttempts, now).outcome.Done?
    ensures var db' := ReplayDLQ(db, entry, id, maxAttempts, now).db;
            && Rows(db') && Trees(db') && Ledger(db') && Grows(db, db') && db'.ledger == db.ledger
  {
    var row := ReplayedRow(db.dlq[entry], id, maxAttempts, now);
    var db1, db' := Insert(db, row), ReplayDLQ(db, entry, id, maxAttempts, now).db;
    GrowsByInsert(db, row);
    assert Rows(db') && Trees(db') by {
      TreesAfterInsert(db, row);
      SameJobs(db1, db');
    }
    assert Ledger(db') by {
      LedgerAfterInsert(db, row);
      SameJobs(db1, db');
    }
  }

  /** Rows, trees, keys and the ledger do not mention the dead-letter queue. */
  lemma SameJobs(db: Db, db': Db)
    requires db'.jobs == db.jobs && db'.ledger == db.ledger
    ensures Rows(db) ==> Rows(db')
    ensures Trees(db) ==> Trees(db')
    ensures Ledger(db) ==> Ledger(db')
  {
    assert forall id :: IsRoot(db', id) <==> IsRoot(db, id);
    if Trees(db) {
      forall root | IsRoot(db', root) ensures RootOk(db', root) {
        SameTree(db, db', root);
      }
    }
    if Ledger(db) {
      forall slot | slot in db'.ledger ensures SlotOk(db', slot) {
        assert SlotOk(db, slot);
      }
    }
  }

  lemma ReplayKeeps(s: System, entry: nat, id: JobId, maxAttempts: nat, now: Time)
    requires Inv(s) && id !in s.db.jobs
    ensures Inv(System(ReplayDLQ(s.db, entry, id, maxAttempts, now).db, s.issued))
  {
    var tx := ReplayDLQ(s.db, entry, id, maxAttempts, now);
    if tx.outcome.Done? {
      ReplayRows(s.db, entry, id, maxAttempts, now);
      assert DeadLetters(tx.db) && Replays(tx.db) by { DlqAfterReplay(s.db, entry, id, maxAttempts, now); }
      SnapshotFrame(s, tx.db);
    }
  }

  lemma DlqAfterReplay(db: Db, entry: nat, id: JobId, maxAttempts: nat, now: Time)
    requires DeadLetters(db) && Replays(db) && id !in db.jobs
    requires ReplayDLQ(db, entry, id, maxAttempts, now).outcome.Done?
    ensures var db' := ReplayDLQ(db, entry, id, maxAttempts, now).db; DeadLetters(db') && Replays(db')
  {
    DeadLettersAfterReplay(db, entry, id, maxAttempts, now);
    ReplaysAfterReplay(db, entry, id, maxAttempts, now);
  }

  lemma DeadLettersAfterReplay(db: Db, entry: nat, id: JobId, maxAttempts: nat, now: Time)
    requires DeadLetters(db) && id !in db.jobs && ReplayDLQ(db, entry, id, maxAttempts, now).outcome.Done?
    ensures DeadLetters(ReplayDLQ(db, entry, id, maxAttempts, now).db)
  {
    var db' := ReplayDLQ(db, entry, id, maxAttempts, now).db;
    assert forall i :: 0 <= i < |db.dlq| ==> db'.dlq[i].job == db.dlq[i].job && db'.dlq[i].task == db.dlq[i].task;
    forall j | j in db'.jobs && db'.jobs[j].status.DeadLettered? ensures HasEntry(db', j) {
      assert HasEntry(db, j);
      var i :| 0 <= i < |db.dlq| && db.dlq[i].job == j;
      assert db'.dlq[i].job == j;
    }
  }

  lemma ReplaysAfterReplay(db: Db, entry: nat, id: JobId, maxAttempts: nat, now: Time)
    requires Replays(db) && id !in db.jobs && ReplayDLQ(db, entry, id, maxAttempts, now).outcome.Done?
    ensures Replays(ReplayDLQ(db, entry, id, maxAttempts, now).db)
  {
    var db' := ReplayDLQ(db, entry, id, maxAttempts, now).db;
    forall j | j in db'.jobs && db'.jobs[j].replayedFrom.Some?
      ensures ReplayedInto(db', db'.jobs[j].replayedFrom.value, j)
    {
      if j == id {
        assert db'.dlq[entry].job == db.dlq[entry].job && db'.dlq[entry].replayedAs == Some(j);
      } else {
        var source := db.jobs[j].replayedFrom.value;
        assert ReplayedInto(db, source, j);
        var i :| 0 <= i < |db.dlq| && db.dlq[i].job == source && db.dlq[i].replayedAs == Some(j);
        assert i != entry && db'.dlq[i] == db.dlq[i];
      }
    }
  }

  lemma DlqAfterCancel(db: Db, db': Db)
    requires DeadLetters(db) && Replays(db) && db'.jobs.Keys == db.jobs.Keys && db'.dlq == db.dlq
             && SameColumns(db, db')
    ensures DeadLetters(db') && Replays(db')
  {
    DlqFrame(db, db');
  }

  lemma LedgerAfterCancel(db: Db, db': Db)
    requires Ledger(db) && db'.ledger == db.ledger && SameColumns(db, db')
    ensures Ledger(db')
  {
    LedgerFrame(db, db');
  }
}
