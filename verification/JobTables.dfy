/**
 The PostgreSQL tables behind the job service, and every transaction that
 internal/store/postgres/service.go runs on them as a function from one
 database state to the next. Generated identifiers, lease tokens and the
 clock are parameters.
 */
module JobTables {
  import opened Wrappers

  type JobId = string
  type Token = string
  type WorkerId = string
  type Time = int

  const DEFAULT_MAX_ATTEMPTS := 5

  datatype Status =
    | Pending | Running | Waiting | RetryScheduled
    | Completed | Failed | DeadLettered | Cancelled

  predicate Queued(s: Status) { s.Pending? || s.RetryScheduled? }

  predicate Active(s: Status) { Queued(s) || s.Running? || s.Waiting? }

  predicate Terminal(s: Status) { !Active(s) }

  datatype ErrorKind = Transient | Permanent | Cancellation

  /** One package range in one ecosystem, the unit that the workloads expand. */
  datatype Coordinate = Coordinate(ecosystem: string, name: string, range: string)

  /** What a job tree can contain below its root. */
  datatype Node = AuditNode(coordinate: Coordinate) | UpdateNode(coordinate: Coordinate)

  /** A job's type together with its decoded payload. */
  datatype Task =
    | Demo(body: string)
    | DependencyAudit(repository: string, ref: string)
    | UpdateScan(repository: string, ref: string)
    | AuditPackage(coordinate: Coordinate, parentName: string, parentVersion: string)
    | UpdateCheck(coordinate: Coordinate)
    | Undecodable(jobType: string, body: string)

  /** Idempotency keys. A child key hashes the root and the node; the hash is taken to be injective. */
  datatype Key = EmptyKey | ClientKey(text: string) | ChildKey(root: JobId, node: Node)

  datatype RequestHash = Given(text: string) | Computed(task: Task, maxAttempts: nat)

  datatype Submission = Submission(
    task: Task, maxAttempts: nat, key: Key, hash: Option<string>,
    root: Option<JobId>, parent: Option<JobId>, internal: bool, retriedFrom: Option<JobId>)

  datatype Job = Job(
    id: JobId, task: Task, status: Status, attempts: nat, maxAttempts: nat, scheduledAt: Time,
    root: JobId, parent: Option<JobId>, internal: bool, key: Option<Key>, hash: Option<RequestHash>,
    lockedBy: Option<WorkerId>, leaseToken: Option<Token>, lockedUntil: Option<Time>,
    heartbeatAt: Option<Time>, cancelRequestedAt: Option<Time>,
    lastErrorKind: Option<ErrorKind>, lastError: Option<string>,
    createdAt: Time, startedAt: Option<Time>, completedAt: Option<Time>,
    retriedFrom: Option<JobId>, replayedFrom: Option<JobId>)

  /** The unique key of job_attempts. */
  datatype Slot = Slot(job: JobId, attempt: nat)

  datatype AttemptStatus = InProgress | Finished(status: Status) | Abandoned

  datatype Attempt = Attempt(
    worker: WorkerId, token: Token, status: AttemptStatus, finishedAt: Option<Time>,
    errorKind: Option<ErrorKind>, error: Option<string>)

  datatype DlqEntry = DlqEntry(
    job: JobId, task: Task, attempts: nat, errorKind: ErrorKind, error: string,
    root: JobId, parent: Option<JobId>, replayedAs: Option<JobId>, replayedAt: Option<Time>)

  /** The tables. A DLQ entry's serial id is its position. */
  datatype Db = Db(jobs: map<JobId, Job>, ledger: map<Slot, Attempt>, dlq: seq<DlqEntry>)

  datatype Outcome = Done | LeaseLost | NotFound | Conflict | IdempotencyConflict | Aborted

  datatype Tx = Tx(db: Db, outcome: Outcome)

  // ----- Inserting jobs -----

  function Attempts(requested: nat): nat {
    if requested == 0 then DEFAULT_MAX_ATTEMPTS else requested
  }

  function HashOf(s: Submission): RequestHash {
    if s.hash.Some? then Given(s.hash.value) else Computed(s.task, Attempts(s.maxAttempts))
  }

  predicate KeyTaken(db: Db, key: Key) {
    exists id :: id in db.jobs && db.jobs[id].key == Some(key)
  }

  /** A freshly inserted row. */
  function NewJob(id: JobId, s: Submission, root: JobId, key: Option<Key>, now: Time): Job {
    Job(id, s.task, Pending, 0, Attempts(s.maxAttempts), now, root, s.parent, s.internal, key, Some(HashOf(s)),
        None, None, None, None, None, None, None, now, None, None, s.retriedFrom, None)
  }

  function Insert(db: Db, row: Job): Db {
    db.(jobs := db.jobs[row.id := row])
  }

  function Submit(db: Db, id: JobId, s: Submission, now: Time): Tx {
    if s.key != EmptyKey && KeyTaken(db, s.key) then
      var same := exists id :: id in db.jobs && db.jobs[id].key == Some(s.key) && db.jobs[id].hash == Some(HashOf(s));
      Tx(db, if same then Done else IdempotencyConflict)
    else
      var root := if s.root.Some? then s.root.value else id;
      var key := if s.key.EmptyKey? then None else Some(s.key);
      Tx(Insert(db, NewJob(id, s, root, key, now)), Done)
  }

  // ----- Leases -----

  predicate Claimable(db: Db, id: JobId, now: Time) {
    id in db.jobs && Queued(db.jobs[id].status) && db.jobs[id].scheduledAt <= now
  }

  /** The row as Claim leaves it, which is also the snapshot the worker receives. */
  function Leased(row: Job, worker: WorkerId, token: Token, now: Time, lease: Time): Job {
    row.(status := Running, attempts := row.attempts + 1,
         startedAt := if row.startedAt.None? then Some(now) else row.startedAt,
         lockedBy := Some(worker), leaseToken := Some(token),
         lockedUntil := Some(now + lease), heartbeatAt := Some(now))
  }

  /** Aborts if the unique constraint on (job_id, attempt) fires. */
  function Claim(db: Db, id: JobId, worker: WorkerId, token: Token, now: Time, lease: Time): Tx
    requires id in db.jobs
  {
    var row := Leased(db.jobs[id], worker, token, now, lease);
    var slot := Slot(id, row.attempts);
    if slot in db.ledger then Tx(db, Aborted)
    else Tx(db.(jobs := db.jobs[id := row],
                ledger := db.ledger[slot := Attempt(worker, token, InProgress, None, None, None)]), Done)
  }

  /** The guard of every write that a worker makes with the snapshot it claimed. */
  predicate Holds(db: Db, snapshot: Job) {
    && snapshot.id in db.jobs
    && snapshot.lockedBy.Some? && snapshot.leaseToken.Some?
    && var row := db.jobs[snapshot.id];
       row.status.Running? && row.lockedBy == snapshot.lockedBy && row.leaseToken == snapshot.leaseToken
  }

  function Heartbeat(db: Db, snapshot: Job, now: Time, lease: Time): Tx {
    if Holds(db, snapshot) && db.jobs[snapshot.id].cancelRequestedAt.None? then
      var row := db.jobs[snapshot.id];
      Tx(db.(jobs := db.jobs[snapshot.id := row.(lockedUntil := Some(now + lease), heartbeatAt := Some(now))]), Done)
    else Tx(db, LeaseLost)
  }

  /** How a running attempt ends. */
  datatype Closing = Closing(
    status: Status, attempt: AttemptStatus, error: Option<(ErrorKind, string)>, retryAt: Time, fenced: bool)

  function ClosedRow(row: Job, c: Closing, now: Time): Job {
    row.(status := c.status,
         scheduledAt := if c.status.RetryScheduled? then c.retryAt else row.scheduledAt,
         lockedBy := None, leaseToken := None, lockedUntil := None, heartbeatAt := None,
         lastErrorKind := if c.error.Some? then Some(c.error.value.0) else row.lastErrorKind,
         lastError := if c.error.Some? then Some(c.error.value.1) else row.lastError,
         completedAt := if Terminal(c.status) then Some(now) else None)
  }

  function ClosedAttempt(a: Attempt, c: Closing, now: Time): Attempt {
    a.(status := c.attempt, finishedAt := Some(now),
       errorKind := if c.error.Some? then Some(c.error.value.0) else a.errorKind,
       error := if c.error.Some? then Some(c.error.value.1) else a.error)
  }

  function DeadEntry(job: Job, kind: ErrorKind, message: string): DlqEntry {
    DlqEntry(job.id, job.task, job.attempts, kind, message, job.root, job.parent, None, None)
  }

  /** Ends the attempt that the snapshot describes: jobs, job_attempts and, when exhausted, dlq. */
  function Close(db: Db, snapshot: Job, c: Closing, now: Time): Db
    requires snapshot.id in db.jobs
    requires c.status.DeadLettered? ==> c.error.Some?
  {
    var slot := Slot(snapshot.id, snapshot.attempts);
    Db(db.jobs[snapshot.id := ClosedRow(db.jobs[snapshot.id], c, now)],
       if slot in db.ledger && (c.fenced ==> Some(db.ledger[slot].token) == snapshot.leaseToken)
       then db.ledger[slot := ClosedAttempt(db.ledger[slot], c, now)] else db.ledger,
       if c.status.DeadLettered?
       then db.dlq + [DeadEntry(snapshot, c.error.value.0, c.error.value.1)] else db.dlq)
  }

  // ----- Finalizing a root -----

  predicate Below(db: Db, root: JobId, id: JobId) {
    id in db.jobs && id != root && db.jobs[id].root == root
  }

  predicate SomeBelow(db: Db, root: JobId, statuses: set<Status>) {
    exists id :: id in db.jobs && Below(db, root, id) && db.jobs[id].status in statuses
  }

  const ACTIVE := {Pending, Running, RetryScheduled, Waiting}

  function FinalStatus(db: Db, root: JobId): Status {
    if SomeBelow(db, root, {DeadLettered}) then DeadLettered
    else if SomeBelow(db, root, {Failed, DeadLettered, Cancelled}) then Failed
    else Completed
  }

  function FailureMessage(task: Task): string {
    if task.UpdateScan? then "one or more update checks failed" else "one or more audit tasks failed"
  }

  function ExhaustedMessage(task: Task): string {
    if task.UpdateScan? then "one or more update checks exhausted retries"
    else "one or more audit tasks exhausted retries"
  }

  function FinalizedRow(row: Job, status: Status, now: Time): Job {
    row.(status := status, completedAt := Some(now),
         lastError := if status.Completed? then None else Some(FailureMessage(row.task)),
         lastErrorKind := match status
                          case DeadLettered => Some(Transient)
                          case Failed => Some(Permanent)
                          case _ => None)
  }

  function FinalizeRoot(db: Db, root: JobId, now: Time): Db
    requires root in db.jobs
  {
    if SomeBelow(db, root, ACTIVE) || !db.jobs[root].status.Waiting? then db
    else
      var status := FinalStatus(db, root);
      var row := FinalizedRow(db.jobs[root], status, now);
      db.(jobs := db.jobs[root := row],
          dlq := if status.DeadLettered?
                 then db.dlq + [DeadEntry(row, Transient, ExhaustedMessage(row.task)).(parent := None)] else db.dlq)
  }

  /** Finalization as the last act of a transaction that made a descendant terminal. */
  function FinalizeAfter(before: Db, after: Db, job: Job, status: Status, now: Time): Tx {
    if Terminal(status) && job.id != job.root then
      if job.root in after.jobs then Tx(FinalizeRoot(after, job.root, now), Done) else Tx(before, Aborted)
    else Tx(after, Done)
  }

  // ----- Completing and failing -----

  datatype Child = Child(id: JobId, submission: Submission)

  /** A child as Complete rewrites it before inserting. */
  function ChildRow(parent: Job, child: Child, now: Time): Job {
    NewJob(child.id, child.submission.(parent := Some(parent.id), internal := true, retriedFrom := None),
           parent.root, Some(child.submission.key), now)
  }

  function InsertChild(db: Db, parent: Job, child: Child, now: Time): Db {
    if KeyTaken(db, child.submission.key) then db else Insert(db, ChildRow(parent, child, now))
  }

  function InsertChildren(db: Db, parent: Job, children: seq<Child>, now: Time): Db
    decreases |children|
  {
    if children == [] then db
    else InsertChildren(InsertChild(db, parent, children[0], now), parent, children[1..], now)
  }

  function CompletionStatus(snapshot: Job, children: seq<Child>): Status {
    if |children| > 0 && snapshot.id == snapshot.root then Waiting else Completed
  }

  function Completion(snapshot: Job, children: seq<Child>): Closing {
    Closing(CompletionStatus(snapshot, children), Finished(Completed), None, 0, true)
  }

  function Complete(db: Db, snapshot: Job, children: seq<Child>, now: Time): Tx {
    if !Holds(db, snapshot) then Tx(db, LeaseLost)
    else
      var closed := Close(db, snapshot, Completion(snapshot, children), now);
      FinalizeAfter(db, InsertChildren(closed, snapshot, children, now), snapshot,
                    CompletionStatus(snapshot, children), now)
  }

  function Bounded(message: string): string {
    if |message| > 2048 then message[..2048] else message
  }

  function FailureStatus(snapshot: Job, kind: ErrorKind): Status {
    match kind
    case Cancellation => Cancelled
    case Permanent => Failed
    case Transient => if snapshot.attempts < snapshot.maxAttempts then RetryScheduled else DeadLettered
  }

  function Failing(snapshot: Job, kind: ErrorKind, message: string, retryAt: Time): Closing {
    var status := FailureStatus(snapshot, kind);
    Closing(status, Finished(status), Some((kind, Bounded(message))), retryAt, true)
  }

  function Fail(db: Db, snapshot: Job, kind: ErrorKind, message: string, retryAt: Time, now: Time): Tx {
    if !Holds(db, snapshot) then Tx(db, LeaseLost)
    else
      FinalizeAfter(db, Close(db, snapshot, Failing(snapshot, kind, message, retryAt), now), snapshot,
                    FailureStatus(snapshot, kind), now)
  }

  // ----- Recovering expired leases -----

  predicate Expired(db: Db, id: JobId, now: Time) {
    id in db.jobs && db.jobs[id].status.Running? &&
    db.jobs[id].lockedUntil.Some? && db.jobs[id].lockedUntil.value < now
  }

  function RecoveredStatus(row: Job): Status {
    if row.cancelRequestedAt.Some? then Cancelled
    else if row.attempts >= row.maxAttempts then DeadLettered
    else Pending
  }

  const LEASE_EXPIRED := "worker lease expired"

  function Recovery(row: Job): Closing {
    Closing(RecoveredStatus(row), Abandoned, Some((Transient, LEASE_EXPIRED)), 0, false)
  }

  function ReclaimOne(db: Db, row: Job, now: Time): Tx
    requires row.id in db.jobs
  {
    FinalizeAfter(db, Close(db, row, Recovery(row), now), row, RecoveredStatus(row), now)
  }

  /** One recovery transaction over the rows it managed to lock, read before any of them is changed. */
  function Reclaim(db: Db, rows: seq<Job>, now: Time): Tx
    requires forall i :: 0 <= i < |rows| ==> rows[i].id in db.jobs
    decreases |rows|
  {
    if rows == [] then Tx(db, Done)
    else
      var first := ReclaimOne(db, rows[0], now);
      if first.outcome != Done then first else Reclaim(first.db, rows[1..], now)
  }

  // ----- Cancelling -----

  function CancelledRow(row: Job, now: Time): Job {
    row.(status := Cancelled, cancelRequestedAt := Some(now), completedAt := Some(now))
  }

  function FlaggedRow(row: Job, now: Time): Job {
    row.(cancelRequestedAt := if row.cancelRequestedAt.None? then Some(now) else row.cancelRequestedAt)
  }

  /** The two updates that cancel a whole tree from its waiting root. */
  function CancelTree(db: Db, root: JobId, now: Time): Db {
    db.(jobs := map id | id in db.jobs ::
          var row := db.jobs[id];
          if row.root != root then row
          else if Queued(row.status) || row.status.Waiting? then CancelledRow(row, now)
          else if row.status.Running? then FlaggedRow(row, now)
          else row)
  }

  function Cancel(db: Db, id: JobId, now: Time): Tx {
    if id !in db.jobs then Tx(db, NotFound)
    else
      var row := db.jobs[id];
      match row.status
      case Pending => Tx(db.(jobs := db.jobs[id := CancelledRow(row, now)]), Done)
      case RetryScheduled => Tx(db.(jobs := db.jobs[id := CancelledRow(row, now)]), Done)
      case Running => Tx(db.(jobs := db.jobs[id := FlaggedRow(row, now)]), Done)
      case Waiting => Tx(CancelTree(db, row.root, now), Done)
      case Cancelled => Tx(db, Done)
      case _ => Tx(db, Conflict)
  }

  // ----- Running a finished job again -----

  function RetrySubmission(row: Job, maxAttempts: nat): Submission {
    Submission(row.task, if maxAttempts == 0 then row.maxAttempts else maxAttempts, EmptyKey, None,
               None, None, false, Some(row.id))
  }

  function Retry(db: Db, source: JobId, id: JobId, maxAttempts: nat, now: Time): Tx {
    if source !in db.jobs then Tx(db, NotFound)
    else if !db.jobs[source].status.Failed? && !db.jobs[source].status.DeadLettered? then Tx(db, Conflict)
    else Submit(db, id, RetrySubmission(db.jobs[source], maxAttempts), now)
  }

  function ReplayedRow(e: DlqEntry, id: JobId, maxAttempts: nat, now: Time): Job {
    NewJob(id, Submission(e.task, maxAttempts, EmptyKey, None, None, None, false, None), id, None, now)
      .(hash := None, replayedFrom := Some(e.job))
  }

  function ReplayDLQ(db: Db, entry: nat, id: JobId, maxAttempts: nat, now: Time): Tx {
    if entry >= |db.dlq| || db.dlq[entry].job !in db.jobs || db.jobs[db.dlq[entry].job].internal then Tx(db, NotFound)
    else if db.dlq[entry].replayedAs.Some? then Tx(db, Conflict)
    else
      var e := db.dlq[entry];
      Tx(Insert(db, ReplayedRow(e, id, maxAttempts, now))
           .(dlq := db.dlq[entry := e.(replayedAs := Some(id), replayedAt := Some(now))]), Done)
  }
}
