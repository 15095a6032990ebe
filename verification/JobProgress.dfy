/** Bounded work, and waiting roots that can still finish. */
module JobProgress {
  import opened Wrappers
  import opened JobTables
  import opened JobRuns
  import opened JobInvariants
  import opened JobSteps
  import opened JobSafety
  import opened JobClosure

  // ----- Waiting roots -----

  /** A waiting root has a descendant that is still active. */
  predicate Lively(db: Db, root: JobId) {
    IsRoot(db, root) && db.jobs[root].status.Waiting? ==> SomeBelow(db, root, ACTIVE)
  }

  ghost predicate NoneStranded(db: Db) {
    forall root {:trigger Lively(db, root)} :: Lively(db, root)
  }

  predicate OtherActive(db: Db, root: JobId, id: JobId) {
    exists other :: other in db.jobs && other != id && Below(db, root, other) && db.jobs[other].status in ACTIVE
  }

  /**
   Cancelling the last active descendant while it is queued: the one step that ends a descendant
   without finalizing.
   */
  predicate Strands(s: System, step: Step) {
    && step.DoCancel? && step.id in s.db.jobs && Queued(s.db.jobs[step.id].status)
    && var root := s.db.jobs[step.id].root;
       && root != step.id && IsRoot(s.db, root) && s.db.jobs[root].status.Waiting? && !OtherActive(s.db, root, step.id)
  }

  /** A root keeps its active descendant if the step leaves that descendant active and in the tree. */
  lemma LivelyFrame(db: Db, db': Db, root: JobId)
    requires Lively(db, root)
    requires IsRoot(db', root) && db'.jobs[root].status.Waiting? ==> IsRoot(db, root) && db.jobs[root].status.Waiting?
    requires forall id :: Below(db, root, id) && db.jobs[id].status in ACTIVE ==>
                            Below(db', root, id) && db'.jobs[id].status in ACTIVE
    ensures Lively(db', root)
  {
    if IsRoot(db', root) && db'.jobs[root].status.Waiting? {
      var id :| id in db.jobs && Below(db, root, id) && db.jobs[id].status in ACTIVE;
      assert id in db'.jobs && Below(db', root, id);
    }
  }

  lemma FinalizeLively(db: Db, root: JobId, now: Time)
    requires root in db.jobs
    ensures Lively(FinalizeRoot(db, root, now), root)
  {
  }

  /** Finalizing one root leaves the other trees alone. */
  lemma FinalizeOthers(db: Db, root: JobId, other: JobId, now: Time)
    requires root in db.jobs && IsRoot(db, root) && other != root && Lively(db, other)
    ensures Lively(FinalizeRoot(db, root, now), other)
  {
    var db' := FinalizeRoot(db, root, now);
    assert forall id :: Below(db, other, id) ==> id != root && Below(db', other, id) && db'.jobs[id] == db.jobs[id];
    LivelyFrame(db, db', other);
  }

  /** Closing a job, then inserting under its root, leaves the other trees alone. */
  lemma CloseOthers(db: Db, after: Db, snapshot: Job, other: JobId)
    requires Describes(db, snapshot) && other != snapshot.root && Lively(db, other)
    requires forall id :: id in db.jobs && id != snapshot.id ==> id in after.jobs && after.jobs[id] == db.jobs[id]
    requires snapshot.id in after.jobs && after.jobs[snapshot.id].root == snapshot.root
    requires forall id :: id in after.jobs && id !in db.jobs ==> !after.jobs[id].status.Waiting?
    ensures Lively(after, other)
  {
    LivelyFrame(db, after, other);
  }

  lemma {:induction false} ChildrenFrame(db: Db, parent: Job, children: seq<Child>, now: Time)
    requires FreshChildren(db, children)
    ensures OnlyInserts(db, InsertChildren(db, parent, children, now))
    decreases |children|
  {
    if children != [] {
      ChildrenFrame(InsertChild(db, parent, children[0], now), parent, children[1..], now);
    }
  }

  /** The transaction that ends an attempt, in one view: what closing, inserting and finalizing leave. */
  lemma SettleNoneStranded(db: Db, snapshot: Job, c: Closing, children: seq<Child>, now: Time)
    requires Rows(db) && NoneStranded(db) && Describes(db, snapshot) && FreshChildren(db, children)
    requires !c.status.Running? && (c.status.DeadLettered? ==> c.error.Some?)
    requires c.status.Waiting? ==>
               snapshot.id == snapshot.root &&
               SomeBelow(InsertChildren(Close(db, snapshot, c, now), snapshot, children, now), snapshot.root, ACTIVE)
    ensures var after := InsertChildren(Close(db, snapshot, c, now), snapshot, children, now);
            NoneStranded(FinalizeAfter(db, after, snapshot, c.status, now).db)
  {
    var closed := Close(db, snapshot, c, now);
    var after := InsertChildren(closed, snapshot, children, now);
    assert FreshChildren(closed, children);
    ChildrenFrame(closed, snapshot, children, now);
    var db' := FinalizeAfter(db, after, snapshot, c.status, now).db;
    assert IsRoot(db, db.jobs[snapshot.id].root);
    assert IsRoot(after, snapshot.root);
    forall other ensures Lively(db', other) {
      assert Lively(db, other);
      if other != snapshot.root {
        CloseOthers(db, after, snapshot, other);
        if db' != after {
          FinalizeOthers(after, snapshot.root, other, now);
        }
      } else if Terminal(c.status) && snapshot.id != snapshot.root {
        FinalizeLively(after, snapshot.root, now);
      } else if snapshot.id != snapshot.root {
        StillActive(after, snapshot, c.status);
      }
    }
  }

  lemma StillActive(db: Db, snapshot: Job, status: Status)
    requires snapshot.id in db.jobs && db.jobs[snapshot.id].root == snapshot.root && snapshot.id != snapshot.root
    requires db.jobs[snapshot.id].status == status && Active(status)
    ensures SomeBelow(db, snapshot.root, ACTIVE)
  {
    assert Below(db, snapshot.root, snapshot.id) && status in ACTIVE;
  }

  /** A running root has no descendants, and closing it adds none. */
  lemma NoneBelowClosed(db: Db, snapshot: Job, c: Closing, now: Time)
    requires Rows(db) && Trees(db) && Describes(db, snapshot) && snapshot.id == snapshot.root
    requires c.status.DeadLettered? ==> c.error.Some?
    ensures !HasBelow(Close(db, snapshot, c, now), snapshot.root)
  {
    assert IsRoot(db, snapshot.id) && RootOk(db, snapshot.id);
    assert forall id :: Below(Close(db, snapshot, c, now), snapshot.root, id) ==> Below(db, snapshot.root, id);
  }

  lemma NewBelowIsActive(db: Db, db': Db, root: JobId, task: Task)
    requires !HasBelow(db, root) && OnlyInserts(db, db') && Present(db', root, task) && NodeOf(task).Some?
    ensures SomeBelow(db', root, ACTIVE)
  {
    var id :| id in db'.jobs && Below(db', root, id);
    assert id in db.jobs ==> Below(db, root, id);
    assert db'.jobs[id].status in ACTIVE;
  }

  /** A root that completes with children has an active one. */
  lemma FirstChildrenActive(w: World, db: Db, snapshot: Job, children: seq<Child>, now: Time)
    requires Rows(db) && Trees(db) && TreeInv(w, db, {}) && Describes(db, snapshot) && FreshChildren(db, children)
    requires HandlerChildren(w, snapshot, children) && children != [] && snapshot.id == snapshot.root
    ensures SomeBelow(Expanding(db, snapshot, children, now), snapshot.root, ACTIVE)
  {
    var c, task := Completion(snapshot, children), children[0].submission.task;
    NoneBelowClosed(db, snapshot, c, now);
    ClosedThenInserted(w, db, snapshot, children, now);
    assert HandlerChild(w, snapshot, children[0].submission);
    NewBelowIsActive(Close(db, snapshot, c, now), Expanding(db, snapshot, children, now), snapshot.root, task);
  }

  lemma {:induction false} ReclaimNoneStranded(s: System, rows: seq<Job>, now: Time)
    requires Inv(s) && NoneStranded(s.db) && Recoverable(s.db, rows)
    ensures NoneStranded(Reclaim(s.db, rows, now).db)
    decreases |rows|
  {
    if rows != [] {
      SettleNoneStranded(s.db, rows[0], Recovery(rows[0]), [], now);
      ReclaimOneKeeps(s, rows[0], now);
      RestRecoverable(s.db, rows, now);
      ReclaimNoneStranded(System(ReclaimOne(s.db, rows[0], now).db, s.issued), rows[1..], now);
    }
  }

  /** Steps that leave active descendants active and make no root waiting. */
  lemma QuietNoneStranded(db: Db, db': Db)
    requires NoneStranded(db)
    requires forall id :: id in db.jobs ==> id in db'.jobs && db'.jobs[id].root == db.jobs[id].root
    requires forall id :: id in db'.jobs && db'.jobs[id].status.Waiting? ==>
             id in db.jobs && db.jobs[id].status.Waiting?
    requires forall root, id | IsRoot(db', root) && db'.jobs[root].status.Waiting? && Below(db, root, id) ::
               db.jobs[id].status in ACTIVE ==> db'.jobs[id].status in ACTIVE
    ensures NoneStranded(db')
  {
    forall root ensures Lively(db', root) {
      assert Lively(db, root);
      if IsRoot(db', root) && db'.jobs[root].status.Waiting? {
        LivelyFrame(db, db', root);
      }
    }
  }

  lemma CancelQueued(s: System, id: JobId, now: Time)
    requires Rows(s.db) && NoneStranded(s.db) && id in s.db.jobs && Queued(s.db.jobs[id].status)
    ensures NoneStranded(Cancel(s.db, id, now).db) <==> !Strands(s, DoCancel(id, now))
  {
    var db, db', root := s.db, Cancel(s.db, id, now).db, s.db.jobs[id].root;
    assert IsRoot(db, root);
    assert forall other :: Below(db', root, other) <==> Below(db, root, other);
    if Strands(s, DoCancel(id, now)) {
      assert !Lively(db', root);
    } else {
      forall other ensures Lively(db', other) {
        assert Lively(db, other);
        if other != root {
          LivelyFrame(db, db', other);
        } else if root != id && db.jobs[root].status.Waiting? {
          var k :| k in db.jobs && k != id && Below(db, root, k) && db.jobs[k].status in ACTIVE;
          assert k in db'.jobs && Below(db', root, k) && db'.jobs[k].status in ACTIVE;
        }
      }
    }
  }

  lemma CancelOther(s: System, id: JobId, now: Time)
    requires Rows(s.db) && NoneStranded(s.db) && id in s.db.jobs && !Queued(s.db.jobs[id].status)
    ensures NoneStranded(Cancel(s.db, id, now).db)
  {
    assert RowOk(id, s.db.jobs[id]);
    var db, db' := s.db, Cancel(s.db, id, now).db;
    if db.jobs[id].status.Waiting? {
      forall root ensures Lively(db', root) {
        assert Lively(db, root);
        if root != id {
          LivelyFrame(db, db', root);
        }
      }
    } else if db.jobs[id].status.Running? {
      QuietNoneStranded(db, db');
    }
  }

  lemma OperatorNoneStranded(s: System, step: Step)
    requires NoneStranded(s.db) && Enabled(s, step) && (step.DoSubmit? || step.DoRetry? || step.DoReplay?)
    ensures NoneStranded(TxOf(s, step).db)
  {
    var db' := TxOf(s, step).db;
    if db' != s.db {
      assert db'.jobs == s.db.jobs[step.id := db'.jobs[step.id]] && db'.jobs[step.id].status.Pending?;
      QuietNoneStranded(s.db, db');
    }
  }

  lemma LeaseNoneStranded(s: System, step: Step)
    requires NoneStranded(s.db) && Enabled(s, step) && (step.DoClaim? || step.DoHeartbeat?)
    ensures NoneStranded(TxOf(s, step).db)
  {
    QuietNoneStranded(s.db, TxOf(s, step).db);
  }

  lemma CompleteNoneStranded(w: World, s: System, token: Token, children: seq<Child>, now: Time)
    requires Inv(s) && TreeInv(w, s.db, {}) && NoneStranded(s.db) && token in s.issued && FreshChildren(s.db, children)
    requires HandlerChildren(w, s.issued[token], children)
    ensures NoneStranded(Complete(s.db, s.issued[token], children, now).db)
  {
    var snapshot := s.issued[token];
    if Holds(s.db, snapshot) {
      HeldDescribes(s, token);
      if children != [] && snapshot.id == snapshot.root {
        FirstChildrenActive(w, s.db, snapshot, children, now);
      }
      SettleNoneStranded(s.db, snapshot, Completion(snapshot, children), children, now);
    }
  }

  /** A step leaves a waiting root without active descendants exactly when it cancels the last one while queued. */
  lemma StepStrandsNone(w: World, s: System, step: Step)
    requires Inv(s) && TreeInv(w, s.db, {}) && NoneStranded(s.db)
    requires Enabled(s, step) && Honest(w, s, step)
    ensures NoneStranded(Next(s, step).db) <==> !Strands(s, step)
  {
    match step
    case DoClaim(_, _, _, _, _) => LeaseNoneStranded(s, step);
    case DoHeartbeat(_, _, _) => LeaseNoneStranded(s, step);
    case DoComplete(token, children, now) => CompleteNoneStranded(w, s, token, children, now);
    case DoFail(token, kind, message, retryAt, now) =>
      if Holds(s.db, s.issued[token]) {
        HeldDescribes(s, token);
        SettleNoneStranded(s.db, s.issued[token], Failing(s.issued[token], kind, message, retryAt), [], now);
      }
    case DoCancel(id, now) =>
      if id in s.db.jobs {
        if Queued(s.db.jobs[id].status) {
          CancelQueued(s, id, now);
        } else {
          CancelOther(s, id, now);
        }
      }
    case DoReclaim(ids, now) =>
      ExpiredRecoverable(s, ids, now);
      ReclaimNoneStranded(s, RowsOf(s.db, ids), now);
    case _ => OperatorNoneStranded(s, step);
  }

  /**
   So in runs of whole transactions that never do that, and in particular in runs that
   cancel only roots, every waiting root still has work under it. The transactions are
   serial here. Where they overlap this holds exactly for the roots whose finalizers
   lock them, by RootLock.NoStrandingIffRootLocked.
   */
  lemma {:induction false} WaitingRootsHaveWork(w: World, states: seq<System>, steps: seq<Step>, i: nat)
    requires HonestRun(w, states, steps) && i < |states|
    requires forall k {:trigger Strands(states[k], steps[k])} :: 0 <= k < i ==> !Strands(states[k], steps[k])
    ensures NoneStranded(states[i].db)
  {
    if i > 0 {
      WaitingRootsHaveWork(w, states, steps, i - 1);
      assert Inv(states[i - 1]) by { ReachableInv(states, steps, i - 1); }
      assert TreeInv(w, states[i - 1].db, {}) by { ReachableTree(w, states, steps, i - 1); }
      HonestStep(w, states, steps, i - 1);
      StepStrandsNone(w, states[i - 1], steps[i - 1]);
    }
  }

  ghost predicate Quiet(db: Db) {
    forall id :: id in db.jobs ==> !Queued(db.jobs[id].status) && !db.jobs[id].status.Running?
  }

  /** What keeps a waiting root alive is queued or running, since only roots wait. */
  lemma WorkUnderWaiting(db: Db, root: JobId) returns (id: JobId)
    requires Rows(db) && NoneStranded(db) && root in db.jobs && db.jobs[root].status.Waiting?
    ensures id in db.jobs && (Queued(db.jobs[id].status) || db.jobs[id].status.Running?)
  {
    assert RowOk(root, db.jobs[root]) && Lively(db, root);
    id :| id in db.jobs && Below(db, root, id) && db.jobs[id].status in ACTIVE;
    assert RowOk(id, db.jobs[id]);
  }

  lemma QuietAndLivelyIsFinished(db: Db)
    requires Rows(db) && NoneStranded(db) && Quiet(db)
    ensures forall id :: id in db.jobs ==> Terminal(db.jobs[id].status)
  {
    forall id | id in db.jobs ensures Terminal(db.jobs[id].status) {
      if db.jobs[id].status.Waiting? {
        var work := WorkUnderWaiting(db, id);
        assert false;
      }
    }
  }

  /** When nothing is queued or running any more, every tree is finished: no root is left waiting. */
  lemma QuietMeansFinished(w: World, states: seq<System>, steps: seq<Step>, i: nat)
    requires HonestRun(w, states, steps) && i < |states| && Quiet(states[i].db)
    requires forall k {:trigger Strands(states[k], steps[k])} :: 0 <= k < i ==> !Strands(states[k], steps[k])
    ensures forall id :: id in states[i].db.jobs ==> Terminal(states[i].db.jobs[id].status)
  {
    WaitingRootsHaveWork(w, states, steps, i);
    ReachableInv(states, steps, i);
    QuietAndLivelyIsFinished(states[i].db);
  }

  // ----- Bounded work -----

  /** The attempt rows of one tree. Each successful claim inserts one, and none is ever deleted. */
  function AttemptsUnder(db: Db, root: JobId): set<Slot> {
    set slot | slot in db.ledger && slot.job in db.jobs && db.jobs[slot.job].root == root
  }

  predicate ClaimsUnder(s: System, step: Step, root: JobId) {
    step.DoClaim? && step.id in s.db.jobs && s.db.jobs[step.id].root == root
  }

  /** The number of claims in the first i steps that leased a job of the root's tree. */
  ghost function ClaimCount(states: seq<System>, steps: seq<Step>, i: nat, root: JobId): nat
    requires i <= |steps| && i <= |states|
  {
    if i == 0 then 0
    else ClaimCount(states, steps, i - 1, root) + if ClaimsUnder(states[i - 1], steps[i - 1], root) then 1 else 0
  }

  /** Every job stays in its tree, with its task and its attempt limit. */
  ghost predicate KeepsJobs(db: Db, db': Db) {
    forall id :: id in db.jobs ==>
      && id in db'.jobs && db'.jobs[id].root == db.jobs[id].root
      && db'.jobs[id].task == db.jobs[id].task && db'.jobs[id].maxAttempts == db.jobs[id].maxAttempts
  }

  /** Attempt rows stay and none is added. */
  ghost predicate KeepsSlots(db: Db, db': Db) {
    db'.ledger.Keys == db.ledger.Keys && KeepsJobs(db, db')
  }

  lemma FinalizeKeepsSlots(db: Db, root: JobId, now: Time)
    requires root in db.jobs
    ensures KeepsSlots(db, FinalizeRoot(db, root, now))
  {
    GrowsByFinalize(db, root, now);
  }

  lemma SettleKeepsSlots(db: Db, snapshot: Job, c: Closing, children: seq<Child>, now: Time)
    requires snapshot.id in db.jobs && (c.status.DeadLettered? ==> c.error.Some?) && FreshChildren(db, children)
    ensures var after := InsertChildren(Close(db, snapshot, c, now), snapshot, children, now);
            KeepsSlots(db, FinalizeAfter(db, after, snapshot, c.status, now).db)
  {
    var closed := Close(db, snapshot, c, now);
    assert KeepsSlots(db, closed) by { CloseKeepsTokens(db, snapshot, c, now); }
    assert FreshChildren(closed, children);
    var after := InsertChildren(closed, snapshot, children, now);
    assert KeepsSlots(closed, after) by {
      ChildrenFrame(closed, snapshot, children, now);
      ChildrenKeepLedger(closed, snapshot, children, now);
    }
    assert KeepsSlots(db, after);
    if snapshot.root in after.jobs {
      FinalizeKeepsSlots(after, snapshot.root, now);
    }
  }

  lemma OperatorKeepsSlots(s: System, step: Step)
    requires Enabled(s, step) && (step.DoSubmit? || step.DoRetry? || step.DoReplay?)
    ensures KeepsSlots(s.db, TxOf(s, step).db)
  {
    var db' := TxOf(s, step).db;
    assert db'.ledger == s.db.ledger && (db'.jobs == s.db.jobs || db'.jobs == s.db.jobs[step.id := db'.jobs[step.id]]);
  }

  lemma CancelKeepsSlots(db: Db, db': Db)
    requires CancelsSome(db, db')
    ensures KeepsSlots(db, db')
  {
    GrowsByCancel(db, db');
  }

  /** Only a claim adds an attempt row. */
  lemma StepKeepsSlots(s: System, step: Step)
    requires Rows(s.db) && Enabled(s, step) && !step.DoClaim?
    ensures KeepsSlots(s.db, TxOf(s, step).db)
  {
    match step
    case DoComplete(token, children, now) =>
      if Holds(s.db, s.issued[token]) {
        SettleKeepsSlots(s.db, s.issued[token], Completion(s.issued[token], children), children, now);
      }
    case DoFail(token, kind, message, retryAt, now) =>
      if Holds(s.db, s.issued[token]) {
        SettleKeepsSlots(s.db, s.issued[token], Failing(s.issued[token], kind, message, retryAt), [], now);
      }
    case DoReclaim(ids, now) =>
      ExpiredRecoverable(s, ids, now);
      ReclaimKeepsSlots(s.db, RowsOf(s.db, ids), now);
    case DoHeartbeat(token, now, lease) =>
      HeartbeatCancelsNothing(s.db, s.issued[token], now, lease);
      CancelKeepsSlots(s.db, TxOf(s, step).db);
    case DoCancel(id, now) =>
      CancelStepCancelsSome(s.db, id, now);
      CancelKeepsSlots(s.db, TxOf(s, step).db);
    case _ => OperatorKeepsSlots(s, step);
  }

  lemma {:induction false} ChildrenKeepLedger(db: Db, parent: Job, children: seq<Child>, now: Time)
    ensures InsertChildren(db, parent, children, now).ledger == db.ledger
    decreases |children|
  {
    if children != [] {
      ChildrenKeepLedger(InsertChild(db, parent, children[0], now), parent, children[1..], now);
    }
  }

  lemma {:induction false} ReclaimKeepsSlots(db: Db, rows: seq<Job>, now: Time)
    requires Recoverable(db, rows)
    ensures KeepsSlots(db, Reclaim(db, rows, now).db)
    decreases |rows|
  {
    if rows != [] {
      SettleKeepsSlots(db, rows[0], Recovery(rows[0]), [], now);
      if ReclaimOne(db, rows[0], now).outcome.Done? {
        RestRecoverable(db, rows, now);
        ReclaimKeepsSlots(ReclaimOne(db, rows[0], now).db, rows[1..], now);
      }
    }
  }

  lemma SameAttempts(db: Db, db': Db, root: JobId)
    requires Ledger(db) && KeepsSlots(db, db')
    ensures AttemptsUnder(db', root) == AttemptsUnder(db, root)
  {
    forall slot | slot in db.ledger ensures slot.job in db.jobs {
      assert SlotOk(db, slot);
    }
  }

  lemma ClaimAddsAttempt(db: Db, id: JobId, worker: WorkerId, token: Token, now: Time, lease: Time, root: JobId)
    requires Ledger(db) && Claimable(db, id, now)
    ensures |AttemptsUnder(Claim(db, id, worker, token, now, lease).db, root)| ==
            |AttemptsUnder(db, root)| + if db.jobs[id].root == root then 1 else 0
  {
    ClaimNeverAborts(db, id, worker, token, now, lease);
    AddedAttempt(db, Claim(db, id, worker, token, now, lease).db, Slot(id, db.jobs[id].attempts + 1), root);
  }

  lemma AddedAttempt(db: Db, db': Db, added: Slot, root: JobId)
    requires added !in db.ledger && db'.ledger.Keys == db.ledger.Keys + {added} && added.job in db.jobs
    requires db'.jobs.Keys == db.jobs.Keys && forall id :: id in db.jobs ==> db'.jobs[id].root == db.jobs[id].root
    ensures |AttemptsUnder(db', root)| == |AttemptsUnder(db, root)| + if db.jobs[added.job].root == root then 1 else 0
  {
    forall slot
      ensures slot in AttemptsUnder(db', root) <==>
              slot in AttemptsUnder(db, root) || (slot == added && db.jobs[added.job].root == root)
    {
    }
    if db.jobs[added.job].root == root {
      assert AttemptsUnder(db', root) == AttemptsUnder(db, root) + {added};
    } else {
      assert AttemptsUnder(db', root) == AttemptsUnder(db, root);
    }
  }

  /** One step adds an attempt row to the tree exactly when it claims under the root. */
  lemma StepCounts(s: System, step: Step, root: JobId)
    requires Inv(s) && Enabled(s, step)
    ensures |AttemptsUnder(Next(s, step).db, root)| ==
            |AttemptsUnder(s.db, root)| + if ClaimsUnder(s, step, root) then 1 else 0
  {
    if step.DoClaim? {
      ClaimAddsAttempt(s.db, step.id, step.worker, step.token, step.now, step.lease, root);
    } else {
      StepKeepsSlots(s, step);
      SameAttempts(s.db, TxOf(s, step).db, root);
    }
  }

  lemma {:induction false} ClaimsAreAttempts(states: seq<System>, steps: seq<Step>, i: nat, root: JobId)
    requires Run(states, steps) && i <= |steps|
    ensures ClaimCount(states, steps, i, root) == |AttemptsUnder(states[i].db, root)|
  {
    if i == 0 {
      assert AttemptsUnder(states[0].db, root) == {};
    } else {
      ClaimsAreAttempts(states, steps, i - 1, root);
      RunStepCounts(states, steps, i - 1, root);
    }
  }

  lemma RunStepCounts(states: seq<System>, steps: seq<Step>, i: nat, root: JobId)
    requires Run(states, steps) && i < |steps|
    ensures |AttemptsUnder(states[i + 1].db, root)| ==
            |AttemptsUnder(states[i].db, root)| + if ClaimsUnder(states[i], steps[i], root) then 1 else 0
  {
    ReachableInv(states, steps, i);
    assert Transition(states, steps, i);
    StepCounts(states[i], steps[i], root);
  }

  lemma {:induction false} InjectionCardinality<A, B>(a: set<A>, b: set<B>, f: A -> B)
    requires forall x :: x in a ==> f(x) in b
    requires forall x, y :: x in a && y in a && f(x) == f(y) ==> x == y
    ensures |a| <= |b|
  {
    if a != {} {
      var x :| x in a;
      InjectionCardinality(a - {x}, b - {f(x)}, f);
    }
  }

  /** Places that a tree offers to attempts: one row of numbers for the root and one for each node. */
  function Places(nodes: set<Node>, max: nat): set<(Option<Node>, nat)> {
    set n, k | n in OptionalNodes(nodes) && 1 <= k <= max :: (n, k)
  }

  function OptionalNodes(nodes: set<Node>): set<Option<Node>> {
    {None} + set n | n in nodes :: Some(n)
  }

  lemma {:induction false} OptionalCardinality(nodes: set<Node>)
    ensures |OptionalNodes(nodes)| == 1 + |nodes|
  {
    if nodes == {} {
      assert OptionalNodes(nodes) == {None};
    } else {
      var n :| n in nodes;
      OptionalCardinality(nodes - {n});
      assert OptionalNodes(nodes) == OptionalNodes(nodes - {n}) + {Some(n)};
    }
  }

  lemma OneMoreColumn(nodes: set<Node>, max: nat)
    ensures |Places(nodes, max + 1)| == |Places(nodes, max)| + |OptionalNodes(nodes)|
  {
    var next: nat := max + 1;
    var last := set n | n in OptionalNodes(nodes) :: (n, next);
    LastColumn(OptionalNodes(nodes), next);
    assert Places(nodes, max + 1) == Places(nodes, max) + last;
    assert Places(nodes, max) !! last;
  }

  lemma {:induction false} PlacesCardinality(nodes: set<Node>, max: nat)
    ensures |Places(nodes, max)| == max * (1 + |nodes|)
  {
    if max == 0 {
      assert Places(nodes, max) == {};
    } else {
      PlacesCardinality(nodes, max - 1);
      OneMoreColumn(nodes, max - 1);
      OptionalCardinality(nodes);
    }
  }

  lemma {:induction false} LastColumn(options: set<Option<Node>>, max: nat)
    ensures |set n | n in options :: (n, max)| == |options|
  {
    if options != {} {
      var n :| n in options;
      LastColumn(options - {n}, max);
      assert (set m | m in options :: (m, max)) == (set m | m in options - {n} :: (m, max)) + {(n, max)};
    }
  }

  function PlaceOf(db: Db, root: JobId, slot: Slot): (Option<Node>, nat) {
    (if slot.job == root || slot.job !in db.jobs then None else NodeOf(db.jobs[slot.job].task), slot.attempt)
  }

  /** Distinct attempts of a tree have distinct places among the reachable nodes and the root's attempt limit. */
  lemma AttemptsFitPlaces(w: World, s: System, root: JobId, nodes: set<Node>)
    requires Inv(s) && TreeInv(w, s.db, {}) && IsRoot(s.db, root)
    requires Covers(w, s.db.jobs[root].task, iset n | n in nodes)
    ensures |AttemptsUnder(s.db, root)| <= s.db.jobs[root].maxAttempts * (1 + |nodes|)
  {
    var db := s.db;
    var max := db.jobs[root].maxAttempts;
    var slots := AttemptsUnder(db, root);
    var place := slot => PlaceOf(db, root, slot);
    forall slot | slot in slots
      ensures place(slot) in Places(nodes, max) && (slot.job != root ==> Below(db, root, slot.job))
    {
      assert SlotOk(db, slot) && RowOk(slot.job, db.jobs[slot.job]);
      if slot.job != root {
        assert KeyOk(db, slot.job) && Sound(w, db, slot.job);
        assert NodeOf(db.jobs[slot.job].task).value in (iset n | n in nodes);
      }
    }
    TreeHasOneJobPerNode(w, db, root);
    forall a, b | a in slots && b in slots && place(a) == place(b) ensures a == b {
      assert a.job != root ==> KeyOk(db, a.job);
      assert b.job != root ==> KeyOk(db, b.job);
    }
    InjectionCardinality(slots, Places(nodes, max), place);
    PlacesCardinality(nodes, max);
  }

  /**
   Total work under one root is bounded: over any honest run, the claims in its
   tree number at most its attempt limit times one plus the nodes it can reach.
   */
  lemma WorkIsBounded(w: World, states: seq<System>, steps: seq<Step>, i: nat, root: JobId, nodes: set<Node>)
    requires HonestRun(w, states, steps) && i <= |steps| && IsRoot(states[i].db, root)
    requires Covers(w, states[i].db.jobs[root].task, iset n | n in nodes)
    ensures ClaimCount(states, steps, i, root) <= states[i].db.jobs[root].maxAttempts * (1 + |nodes|)
  {
    ClaimsAreAttempts(states, steps, i, root);
    ReachableInv(states, steps, i);
    ReachableTree(w, states, steps, i);
    AttemptsFitPlaces(w, states[i], root, nodes);
  }

  lemma StepKeepsJobs(s: System, step: Step)
    requires Rows(s.db) && Enabled(s, step)
    ensures KeepsJobs(s.db, Next(s, step).db)
  {
    if !step.DoClaim? {
      StepKeepsSlots(s, step);
    }
  }

  /** The attempts that the tree of a root may still use. */
  ghost function Left(db: Db, root: JobId, nodes: set<Node>): int
    requires root in db.jobs
  {
    db.jobs[root].maxAttempts * (1 + |nodes|) - |AttemptsUnder(db, root)|
  }

  /** A measure that never drops below zero, falls with every claim under the root, and rises with no step. */
  lemma ClaimsSpendTheBudget(w: World, s: System, step: Step, root: JobId, nodes: set<Node>)
    requires Inv(s) && TreeInv(w, s.db, {}) && Enabled(s, step) && Honest(w, s, step) && IsRoot(s.db, root)
    requires Covers(w, s.db.jobs[root].task, iset n | n in nodes)
    ensures root in Next(s, step).db.jobs
    ensures var left, left' := Left(s.db, root, nodes), Left(Next(s, step).db, root, nodes);
            0 <= left' && if ClaimsUnder(s, step, root) then left' < left else left' == left
  {
    var s' := Next(s, step);
    StepKeepsJobs(s, step);
    StepCounts(s, step, root);
    StepKeeps(s, step);
    StepKeepsTree(w, s, step);
    AttemptsFitPlaces(w, s', root, nodes);
  }
}
