/** Runs of the job service. */
module JobRuns {
  // A system state is the database together with every
  // snapshot that a Claim has ever handed to a worker. Workers may crash, stall and
  // come back at any time: a snapshot can be presented to the store again in any
  // later state, and a crash is simply a step that never happens.

  import opened Wrappers
  import opened JobTables

  datatype System = System(db: Db, issued: map<Token, Job>)

  const INIT := System(Db(map[], map[], []), map[])

  datatype Step =
    | DoSubmit(id: JobId, submission: Submission, now: Time)
    | DoClaim(id: JobId, worker: WorkerId, token: Token, now: Time, lease: Time)
    | DoHeartbeat(token: Token, now: Time, lease: Time)
    | DoComplete(token: Token, children: seq<Child>, now: Time)
    | DoFail(token: Token, kind: ErrorKind, message: string, retryAt: Time, now: Time)
    | DoCancel(id: JobId, now: Time)
    | DoReclaim(ids: seq<JobId>, now: Time)
    | DoRetry(source: JobId, id: JobId, maxAttempts: nat, now: Time)
    | DoReplay(entry: nat, id: JobId, maxAttempts: nat, now: Time)

  /** What the public API may submit: a root of its own, never keyed as a child. */
  predicate PublicSubmission(s: Submission) {
    s.root.None? && s.parent.None? && !s.internal && s.retriedFrom.None? && !s.key.ChildKey?
  }

  predicate FreshChildren(db: Db, children: seq<Child>) {
    && (forall i :: 0 <= i < |children| ==> children[i].id !in db.jobs)
    && (forall i, j :: 0 <= i < j < |children| ==> children[i].id != children[j].id)
  }

  predicate FreshToken(s: System, token: Token) {
    token !in s.issued && forall slot :: slot in s.db.ledger ==> s.db.ledger[slot].token != token
  }

  /** Generated identifiers are new, workers present snapshots they were given, recovery sees expired rows. */
  predicate Enabled(s: System, step: Step) {
    match step
    case DoSubmit(id, submission, _) => id !in s.db.jobs && PublicSubmission(submission)
    case DoClaim(id, _, token, now, _) => Claimable(s.db, id, now) && FreshToken(s, token)
    case DoHeartbeat(token, _, _) => token in s.issued
    case DoComplete(token, children, _) => token in s.issued && FreshChildren(s.db, children)
    case DoFail(token, _, _, _, _) => token in s.issued
    case DoCancel(_, _) => true
    case DoReclaim(ids, now) =>
      && (forall i :: 0 <= i < |ids| ==> Expired(s.db, ids[i], now))
      && (forall i, j :: 0 <= i < j < |ids| ==> ids[i] != ids[j])
    case DoRetry(_, id, _, _) => id !in s.db.jobs
    case DoReplay(_, id, _, _) => id !in s.db.jobs
  }

  /** The rows stored under the given primary keys. */
  function RowsOf(db: Db, ids: seq<JobId>): (rows: seq<Job>)
    requires forall i :: 0 <= i < |ids| ==> ids[i] in db.jobs
    ensures |rows| == |ids| && forall i :: 0 <= i < |ids| ==> rows[i] == db.jobs[ids[i]].(id := ids[i])
  {
    seq(|ids|, i requires 0 <= i < |ids| => db.jobs[ids[i]].(id := ids[i]))
  }

  /** The transaction that a step runs. */
  function TxOf(s: System, step: Step): Tx
    requires Enabled(s, step)
  {
    match step
    case DoSubmit(id, submission, now) => Submit(s.db, id, submission, now)
    case DoClaim(id, worker, token, now, lease) => Claim(s.db, id, worker, token, now, lease)
    case DoHeartbeat(token, now, lease) => Heartbeat(s.db, s.issued[token], now, lease)
    case DoComplete(token, children, now) => Complete(s.db, s.issued[token], children, now)
    case DoFail(token, kind, message, retryAt, now) => Fail(s.db, s.issued[token], kind, message, retryAt, now)
    case DoCancel(id, now) => Cancel(s.db, id, now)
    case DoReclaim(ids, now) => Reclaim(s.db, RowsOf(s.db, ids), now)
    case DoRetry(source, id, maxAttempts, now) => Retry(s.db, source, id, maxAttempts, now)
    case DoReplay(entry, id, maxAttempts, now) => ReplayDLQ(s.db, entry, id, maxAttempts, now)
  }

  function Next(s: System, step: Step): System
    requires Enabled(s, step)
  {
    var tx := TxOf(s, step);
    System(tx.db,
           if step.DoClaim? && tx.outcome.Done? && step.id in tx.db.jobs
           then s.issued[step.token := tx.db.jobs[step.id]] else s.issued)
  }

  ghost predicate Transition(states: seq<System>, steps: seq<Step>, i: nat)
    requires |states| == |steps| + 1 && i < |steps|
  {
    Enabled(states[i], steps[i]) && states[i + 1] == Next(states[i], steps[i])
  }

  /** A run from the empty database: states[i + 1] follows states[i] by steps[i]. */
  ghost predicate Run(states: seq<System>, steps: seq<Step>) {
    && |states| == |steps| + 1 && states[0] == INIT
    && forall i :: 0 <= i < |steps| ==> Transition(states, steps, i)
  }
}
