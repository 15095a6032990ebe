/** Overlapping finalizers. */
module RootLock {
  // One root and its descendants,
  // with open transactions under READ COMMITTED: a transaction sees the committed
  // rows and its own writes, and holds the locks of the rows it wrote until it ends.
  // finalizeRoot counts active descendants under such a view. For an update scan it
  // locks the root row first; for the other roots it does not.

  import opened Wrappers
  import opened JobTables

  type RowId = nat
  type TxnId = nat

  /** Where a transaction stands between making a descendant terminal and being able to commit. */
  datatype Phase = Ready | MustLock | MustCount | MustTally | MustWrite(status: Status)

  datatype Txn = Txn(locks: set<RowId>, writes: map<RowId, Status>, rootWrite: Option<Status>, phase: Phase)

  /** Committed statuses, the holder of the root row's lock, and the open transactions. */
  datatype State = State(root: Status, rows: map<RowId, Status>, rootLock: Option<TxnId>, txns: map<TxnId, Txn>)

  datatype Action =
    | Begin(t: TxnId)
    | Expand(t: TxnId, children: set<RowId>)
    | LockRow(t: TxnId, row: RowId)
    | WriteRow(t: TxnId, row: RowId, status: Status, children: set<RowId>)
    | LockRoot(t: TxnId)
    | Count(t: TxnId)
    | Tally(t: TxnId)
    | WriteRoot(t: TxnId)
    | CancelRoot(t: TxnId)
    | CancelRow(t: TxnId, row: RowId)
    | Commit(t: TxnId)
    | Abort(t: TxnId)

  function View(s: State, t: TxnId): map<RowId, Status>
    requires t in s.txns
  {
    s.rows + s.txns[t].writes
  }

  predicate AnyActive(view: map<RowId, Status>) {
    exists d :: d in view && Active(view[d])
  }

  function Verdict(view: map<RowId, Status>): Status {
    if exists d :: d in view && view[d].DeadLettered? then DeadLettered
    else if exists d :: d in view && (view[d].Failed? || view[d].Cancelled?) then Failed
    else Completed
  }

  predicate RootFree(s: State, t: TxnId) { s.rootLock.None? || s.rootLock == Some(t) }

  predicate FreshRows(s: State, children: set<RowId>) {
    && (forall d :: d in children ==> d !in s.rows)
    && (forall t :: t in s.txns ==> s.txns[t].writes.Keys !! children)
  }

  predicate Enabled(s: State, a: Action) {
    if a.Begin? then a.t !in s.txns
    else
      a.t in s.txns && var txn := s.txns[a.t];
      match a
      case Expand(t, children) => txn.phase.Ready? && txn.rootWrite.None? && s.root.Running? && RootFree(s, t)
        && children != {} && FreshRows(s, children)
      case LockRow(t, row) => txn.phase.Ready? && row in s.rows && forall u :: u in s.txns && u != t ==>
        row !in s.txns[u].locks
      case WriteRow(t, row, status, children) =>
        && txn.phase.Ready? && txn.rootWrite.None? && row in txn.locks && row in s.rows && Active(View(s, t)[row])
        && !status.Waiting? && FreshRows(s, children)
      case LockRoot(t) => txn.phase.MustLock? && RootFree(s, t)
      case Count(t) => txn.phase.MustCount?
      case Tally(t) => txn.phase.MustTally?
      case WriteRoot(t) => txn.phase.MustWrite? && RootFree(s, t)
      case CancelRoot(t) => txn.phase.Ready? && txn.writes == map[] && RootFree(s, t) && s.root.Waiting?
      case CancelRow(t, row) => txn.rootWrite == Some(Cancelled) && txn.phase.Ready? && row in txn.locks
        && row in s.rows && Queued(View(s, t)[row])
      case Commit(t) => txn.phase.Ready?
      case Abort(_) => true
  }

  function With(s: State, t: TxnId, txn: Txn): State {
    s.(txns := s.txns[t := txn])
  }

  function End(s: State, t: TxnId): State {
    s.(txns := s.txns - {t}, rootLock := if s.rootLock == Some(t) then None else s.rootLock)
  }

  function NewRows(children: set<RowId>): map<RowId, Status> {
    map d | d in children :: Pending
  }

  /** Whether finalizeRoot locks the root first is decided by the root's type. */
  function Apply(locking: bool, s: State, a: Action): State
    requires Enabled(s, a)
  {
    if a.Begin? then With(s, a.t, Txn({}, map[], None, Ready))
    else
      var txn := s.txns[a.t];
      match a
      case Expand(t, children) =>
        With(s, t, txn.(writes := txn.writes + NewRows(children), rootWrite := Some(Waiting))).(rootLock := Some(t))
      case LockRow(t, row) => With(s, t, txn.(locks := txn.locks + {row}))
      case WriteRow(t, row, status, children) =>
        With(s, t, txn.(writes := txn.writes[row := status] + NewRows(children),
                        phase := if !Terminal(status) then Ready else if locking then MustLock else MustCount))
      case LockRoot(t) => With(s, t, txn.(phase := MustCount)).(rootLock := Some(t))
      case Count(t) => With(s, t, txn.(phase := if AnyActive(View(s, t)) then Ready else MustTally))
      case Tally(t) => With(s, t, txn.(phase := MustWrite(Verdict(View(s, t)))))
      case WriteRoot(t) =>
        With(s, t, txn.(phase := Ready,
                        rootWrite := if txn.rootWrite.None? && s.root.Waiting? then Some(txn.phase.status)
                          else txn.rootWrite))
          .(rootLock := Some(t))
      case CancelRoot(t) => With(s, t, txn.(rootWrite := Some(Cancelled))).(rootLock := Some(t))
      case CancelRow(t, row) => With(s, t, txn.(writes := txn.writes[row := Cancelled]))
      case Commit(t) =>
        End(s, t).(rows := View(s, t), root := if txn.rootWrite.Some? then txn.rootWrite.value else s.root)
      case Abort(t) => End(s, t)
  }

  const INIT := State(Running, map[], None, map[])

  predicate ValidRun(locking: bool, s: State, actions: seq<Action>)
    decreases |actions|
  {
    actions == [] || (Enabled(s, actions[0]) && ValidRun(locking, Apply(locking, s, actions[0]), actions[1..]))
  }

  function After(locking: bool, s: State, actions: seq<Action>): State
    requires ValidRun(locking, s, actions)
    decreases |actions|
  {
    if actions == [] then s else After(locking, Apply(locking, s, actions[0]), actions[1..])
  }

  // ----- What holds with and without the lock -----

  /** Writes go to locked, still active rows, or to rows that the transaction is inserting. */
  predicate TxnOk(s: State, t: TxnId)
    requires t in s.txns
  {
    var txn := s.txns[t];
    && (forall d :: d in txn.writes && d in s.rows ==> d in txn.locks && Active(s.rows[d]))
    && (forall d :: d in txn.writes && d !in s.rows ==> txn.writes[d].Pending?)
    && (txn.rootWrite.Some? ==> s.rootLock == Some(t) && !txn.rootWrite.value.Running?)
    && (txn.rootWrite == Some(Waiting) ==> s.root.Running? && txn.phase.Ready? && AnyActive(txn.writes))
    && (txn.rootWrite != Some(Waiting) && txn.writes != map[] ==> exists d :: d in txn.writes && d in s.rows)
    && (!txn.phase.Ready? ==> txn.rootWrite.None? && txn.writes != map[])
  }

  predicate Apart(s: State, t: TxnId, u: TxnId)
    requires t in s.txns && u in s.txns
  {
    s.txns[t].locks !! s.txns[u].locks && s.txns[t].writes.Keys !! s.txns[u].writes.Keys
  }

  /** A transaction that saw no active descendant, or wrote the verdict, still sees none, and the verdict stands. */
  predicate SettledOk(s: State, t: TxnId)
    requires t in s.txns
  {
    var txn := s.txns[t];
    && (txn.phase.MustTally? || txn.phase.MustWrite? ==> txn.rootWrite.None? && !AnyActive(View(s, t)))
    && (txn.phase.MustWrite? ==> txn.phase.status == Verdict(View(s, t)))
    && (txn.rootWrite.Some? && txn.rootWrite != Some(Waiting) && txn.rootWrite != Some(Cancelled) ==>
          txn.phase.Ready? && !AnyActive(View(s, t)) && txn.rootWrite.value == Verdict(View(s, t)))
  }

  ghost predicate Safe(s: State) {
    && (forall t {:trigger TxnOk(s, t)} :: t in s.txns ==> TxnOk(s, t))
    && (forall t {:trigger SettledOk(s, t)} :: t in s.txns ==> SettledOk(s, t))
    && (forall t, u {:trigger Apart(s, t, u)} :: t in s.txns && u in s.txns && t != u ==> Apart(s, t, u))
    && (s.rootLock.Some? ==> s.rootLock.value in s.txns)
    && (s.root.Running? ==> s.rows == map[])
    && (s.root in {Running, Waiting, Cancelled} || (!AnyActive(s.rows) && s.root == Verdict(s.rows)))
  }

  /** An action that changes one transaction and not the committed rows. */
  lemma LocalStep(s: State, s': State, t: TxnId)
    requires Safe(s) && t in s'.txns && s'.txns == s.txns[t := s'.txns[t]] && s'.root == s.root && s'.rows == s.rows
    requires s'.rootLock == s.rootLock || (RootFree(s, t) && s'.rootLock == Some(t))
    requires TxnOk(s', t) && SettledOk(s', t)
    requires forall u :: u in s.txns && u != t ==> Apart(s', t, u)
    ensures Safe(s')
  {
    forall u | u in s'.txns ensures TxnOk(s', u) && SettledOk(s', u) {
      if u != t {
        assert TxnOk(s, u) && SettledOk(s, u);
        assert View(s', u) == View(s, u);
      }
    }
    forall u, v | u in s'.txns && v in s'.txns && u != v ensures Apart(s', u, v) {
      if u != t && v != t {
        assert Apart(s, u, v);
      } else if u == t {
        assert Apart(s', t, v);
      } else {
        assert Apart(s', t, u);
      }
    }
  }

  lemma SafeWriteRow(locking: bool, s: State, t: TxnId, row: RowId, status: Status, children: set<RowId>)
    requires Safe(s) && Enabled(s, WriteRow(t, row, status, children))
    ensures Safe(Apply(locking, s, WriteRow(t, row, status, children)))
  {
    var s' := Apply(locking, s, WriteRow(t, row, status, children));
    assert TxnOk(s, t) && SettledOk(s, t);
    assert row in s'.txns[t].writes;
    assert Active(s.rows[row]);
    assert TxnOk(s', t) && SettledOk(s', t);
    forall u | u in s.txns && u != t ensures Apart(s', t, u) {
      assert Apart(s, t, u) && TxnOk(s, u);
      assert row !in s.txns[u].writes;
      assert s'.txns[u] == s.txns[u];
      assert s'.txns[t].writes.Keys == s.txns[t].writes.Keys + {row} + children;
      assert s.txns[u].writes.Keys !! children;
    }
    LocalStep(s, s', t);
  }

  lemma SafeCancelRow(locking: bool, s: State, t: TxnId, row: RowId)
    requires Safe(s) && Enabled(s, CancelRow(t, row))
    ensures Safe(Apply(locking, s, CancelRow(t, row)))
  {
    var s' := Apply(locking, s, CancelRow(t, row));
    assert TxnOk(s, t) && SettledOk(s, t);
    assert row in s'.txns[t].writes && Active(s.rows[row]);
    forall u | u in s.txns && u != t ensures Apart(s', t, u) {
      assert Apart(s, t, u) && TxnOk(s, u);
      assert row !in s.txns[u].writes;
      assert s'.txns[t].writes.Keys == s.txns[t].writes.Keys + {row};
    }
    LocalStep(s, s', t);
  }

  lemma SafeExpand(locking: bool, s: State, t: TxnId, children: set<RowId>)
    requires Safe(s) && Enabled(s, Expand(t, children))
    ensures Safe(Apply(locking, s, Expand(t, children)))
  {
    var s' := Apply(locking, s, Expand(t, children));
    assert TxnOk(s, t) && SettledOk(s, t);
    assert s.txns[t].writes == map[];
    var child :| child in children;
    assert s'.txns[t].writes == NewRows(children) && s'.txns[t].writes[child].Pending?;
    forall u | u in s.txns && u != t ensures Apart(s', t, u) {
      assert Apart(s, t, u);
      assert s'.txns[t].writes.Keys == children;
      assert s.txns[u].writes.Keys !! children;
    }
    LocalStep(s, s', t);
  }

  lemma SafeBegin(locking: bool, s: State, t: TxnId)
    requires Safe(s) && Enabled(s, Begin(t))
    ensures Safe(Apply(locking, s, Begin(t)))
  {
    var s' := Apply(locking, s, Begin(t));
    assert TxnOk(s', t) && SettledOk(s', t);
    LocalStep(s, s', t);
  }

  lemma SafeLockRow(locking: bool, s: State, t: TxnId, row: RowId)
    requires Safe(s) && Enabled(s, LockRow(t, row))
    ensures Safe(Apply(locking, s, LockRow(t, row)))
  {
    var s' := Apply(locking, s, LockRow(t, row));
    assert TxnOk(s, t) && SettledOk(s, t) && View(s', t) == View(s, t);
    assert TxnOk(s', t) && SettledOk(s', t);
    forall u | u in s.txns && u != t ensures Apart(s', t, u) {
      assert Apart(s, t, u);
    }
    LocalStep(s, s', t);
  }

  /** The actions that lock, count or write the root. */
  lemma SafeRootAction(locking: bool, s: State, a: Action)
    requires Safe(s) && Enabled(s, a)
    requires a.LockRoot? || a.Count? || a.Tally? || a.WriteRoot? || a.CancelRoot?
    ensures Safe(Apply(locking, s, a))
  {
    var s' := Apply(locking, s, a);
    assert TxnOk(s, a.t) && SettledOk(s, a.t) && View(s', a.t) == View(s, a.t);
    assert TxnOk(s', a.t) && SettledOk(s', a.t);
    forall u | u in s.txns && u != a.t ensures Apart(s', a.t, u) {
      assert Apart(s, a.t, u);
    }
    LocalStep(s, s', a.t);
  }

  /** A transaction that sees no active descendant shuts out every other writer. */
  lemma OthersWroteNothing(s: State, t: TxnId, u: TxnId)
    requires Safe(s) && t in s.txns && u in s.txns && t != u
    requires !s.txns[u].phase.Ready? || (s.txns[u].rootWrite.Some? && s.txns[u].rootWrite != Some(Waiting))
    requires !AnyActive(View(s, u))
    ensures s.txns[t].writes == map[]
  {
    assert TxnOk(s, t) && TxnOk(s, u) && Apart(s, t, u);
  }

  lemma CommitRoot(s: State, t: TxnId)
    requires Safe(s) && Enabled(s, Commit(t))
    ensures var s' := Apply(true, s, Commit(t));
            && (s'.root.Running? ==> s'.rows == map[])
            && (s'.root in {Running, Waiting, Cancelled} || (!AnyActive(s'.rows) && s'.root == Verdict(s'.rows)))
  {
    var txn, s' := s.txns[t], Apply(true, s, Commit(t));
    assert TxnOk(s, t) && SettledOk(s, t);
    if txn.rootWrite.None? && s.root !in {Waiting, Cancelled} {
      assert txn.writes == map[];
      assert s'.rows == s.rows;
    }
  }

  lemma CommitKeepsTxn(s: State, t: TxnId, u: TxnId)
    requires Safe(s) && Enabled(s, Commit(t)) && u in s.txns && u != t
    ensures TxnOk(Apply(true, s, Commit(t)), u)
  {
    var s' := Apply(true, s, Commit(t));
    assert TxnOk(s, t) && TxnOk(s, u) && Apart(s, t, u);
    assert s'.txns[u] == s.txns[u];
    if s.txns[u].rootWrite != Some(Waiting) && s.txns[u].writes != map[] {
      var d :| d in s.txns[u].writes && d in s.rows;
      assert d in s'.rows;
    }
  }

  /** It decided the root's status, or is about to. */
  predicate Decides(txn: Txn) {
    || txn.phase.MustTally? || txn.phase.MustWrite?
    || (txn.rootWrite.Some? && txn.rootWrite != Some(Waiting) && txn.rootWrite != Some(Cancelled))
  }

  lemma CommitOther(s: State, t: TxnId, u: TxnId)
    requires Safe(s) && Enabled(s, Commit(t)) && u in s.txns && u != t
    ensures var s' := Apply(true, s, Commit(t)); TxnOk(s', u) && SettledOk(s', u)
  {
    CommitKeepsTxn(s, t, u);
    var s' := Apply(true, s, Commit(t));
    assert SettledOk(s, u) && s'.txns[u] == s.txns[u];
    if Decides(s.txns[u]) {
      OthersWroteNothing(s, t, u);
      assert View(s', u) == View(s, u);
    }
  }

  lemma SafeEnd(locking: bool, s: State, a: Action)
    requires Safe(s) && Enabled(s, a) && (a.Commit? || a.Abort?)
    ensures Safe(Apply(locking, s, a))
  {
    var s' := Apply(locking, s, a);
    forall u | u in s'.txns ensures TxnOk(s', u) && SettledOk(s', u) {
      if a.Commit? {
        CommitOther(s, a.t, u);
        assert s' == Apply(true, s, a);
      } else {
        assert TxnOk(s, u) && SettledOk(s, u);
        assert View(s', u) == View(s, u);
      }
    }
    forall u, v | u in s'.txns && v in s'.txns && u != v ensures Apart(s', u, v) {
      assert Apart(s, u, v);
    }
    if a.Commit? {
      CommitRoot(s, a.t);
    }
  }

  lemma SafeStep(locking: bool, s: State, a: Action)
    requires Safe(s) && Enabled(s, a)
    ensures Safe(Apply(locking, s, a))
  {
    match a
    case WriteRow(t, row, status, children) => SafeWriteRow(locking, s, t, row, status, children);
    case CancelRow(t, row) => SafeCancelRow(locking, s, t, row);
    case Expand(t, children) => SafeExpand(locking, s, t, children);
    case Commit(_) => SafeEnd(locking, s, a);
    case Abort(_) => SafeEnd(locking, s, a);
    case Begin(t) => SafeBegin(locking, s, t);
    case LockRow(t, row) => SafeLockRow(locking, s, t, row);
    case _ => SafeRootAction(locking, s, a);
  }

  /**
   Finalization is never premature: a finalized root's descendants have all ended, and its status
   is their verdict.
   */
  lemma {:induction false} NeverPremature(locking: bool, s: State, actions: seq<Action>)
    requires Safe(s) && ValidRun(locking, s, actions)
    ensures Safe(After(locking, s, actions))
    decreases |actions|
  {
    if actions != [] {
      SafeStep(locking, s, actions[0]);
      NeverPremature(locking, Apply(locking, s, actions[0]), actions[1..]);
    }
  }

  /**
   What a finalized root says, in every run with or without the lock: all descendants have ended, and
   it is dead-lettered if one of them is, else failed if one failed or was cancelled, else completed
   with every descendant completed.
   */
  lemma FinalizedRootMeans(locking: bool, actions: seq<Action>)
    requires ValidRun(locking, INIT, actions)
    ensures var s := After(locking, INIT, actions);
            && s.root in {Running, Waiting, Cancelled, DeadLettered, Failed, Completed}
            && (s.root in {DeadLettered, Failed, Completed} ==> forall d :: d in s.rows ==> !Active(s.rows[d]))
            && (s.root.DeadLettered? ==> exists d :: d in s.rows && s.rows[d].DeadLettered?)
            && (s.root.Failed? ==>
                  && (forall d :: d in s.rows ==> !s.rows[d].DeadLettered?)
                  && (exists d :: d in s.rows && (s.rows[d].Failed? || s.rows[d].Cancelled?)))
            && (s.root.Completed? ==> forall d :: d in s.rows ==> s.rows[d].Completed?)
  {
    NeverPremature(locking, INIT, actions);
  }

  // ----- What the lock adds -----

  predicate EndsSome(txn: Txn) {
    exists d :: d in txn.writes && Terminal(txn.writes[d])
  }

  /**
   A transaction that ended a descendant and may commit holds the root, and saw an active
   descendant that is still there.
   */
  predicate GuardOk(s: State, t: TxnId)
    requires t in s.txns
  {
    var txn := s.txns[t];
    && (txn.phase.MustCount? || txn.phase.MustTally? || txn.phase.MustWrite? ==> s.rootLock == Some(t))
    && (txn.phase.Ready? && txn.rootWrite.None? && EndsSome(txn) ==>
          s.rootLock == Some(t) && (s.root.Waiting? ==> AnyActive(View(s, t))))
  }

  ghost predicate Guarded(s: State) {
    && (forall t {:trigger GuardOk(s, t)} :: t in s.txns ==> GuardOk(s, t))
    && (s.root.Waiting? ==> AnyActive(s.rows))
  }

  lemma GuardedLocal(s: State, s': State, t: TxnId)
    requires Guarded(s) && t in s'.txns && s'.txns == s.txns[t := s'.txns[t]] && s'.root == s.root && s'.rows == s.rows
    requires s'.rootLock == s.rootLock || (RootFree(s, t) && s'.rootLock == Some(t))
    requires GuardOk(s', t)
    ensures Guarded(s')
  {
    forall u | u in s'.txns ensures GuardOk(s', u) {
      if u != t {
        assert GuardOk(s, u);
        assert View(s', u) == View(s, u);
      }
    }
  }

  lemma GuardedChange(s: State, a: Action)
    requires Safe(s) && Guarded(s) && Enabled(s, a) && !a.Commit? && !a.Abort?
    ensures Guarded(Apply(true, s, a))
  {
    var s' := Apply(true, s, a);
    if a.t in s.txns {
      assert GuardOk(s, a.t) && TxnOk(s, a.t);
      if a.WriteRow? && !Terminal(a.status) && EndsSome(s'.txns[a.t]) {
        EndedBefore(s, a);
      }
    }
    assert GuardOk(s', a.t);
    GuardedLocal(s, s', a.t);
  }

  /** A write that ends nothing leaves an earlier ended row ended, and what it writes is active. */
  lemma EndedBefore(s: State, a: Action)
    requires Safe(s) && Enabled(s, a) && a.WriteRow? && !Terminal(a.status)
    ensures var s' := Apply(true, s, a);
            (EndsSome(s'.txns[a.t]) ==> EndsSome(s.txns[a.t])) && AnyActive(View(s', a.t))
  {
    var s' := Apply(true, s, a);
    assert View(s', a.t)[a.row] == a.status by {
      assert a.row !in a.children;
    }
    if EndsSome(s'.txns[a.t]) {
      var d :| d in s'.txns[a.t].writes && Terminal(s'.txns[a.t].writes[d]);
      assert d in s.txns[a.t].writes && s.txns[a.t].writes[d] == s'.txns[a.t].writes[d];
    }
  }

  /** While one transaction holds the root, another can only commit writes that leave rows active. */
  lemma QuietCommit(s: State, t: TxnId)
    requires Safe(s) && Guarded(s) && Enabled(s, Commit(t)) && s.rootLock != Some(t)
    ensures s.txns[t].rootWrite.None? && forall d :: d in s.txns[t].writes ==> Active(s.txns[t].writes[d])
  {
    assert TxnOk(s, t) && GuardOk(s, t);
  }

  lemma GuardedCommit(s: State, t: TxnId)
    requires Safe(s) && Guarded(s) && Enabled(s, Commit(t))
    ensures Guarded(Apply(true, s, Commit(t)))
  {
    var s', txn := Apply(true, s, Commit(t)), s.txns[t];
    assert TxnOk(s, t) && GuardOk(s, t) && SettledOk(s, t);
    if s'.root.Waiting? {
      if txn.rootWrite == Some(Waiting) {
        var d :| d in txn.writes && Active(txn.writes[d]);
        assert s'.rows[d] == txn.writes[d];
      } else if !EndsSome(txn) {
        var d :| d in s.rows && Active(s.rows[d]);
        assert Active(s'.rows[d]);
      }
    }
    forall u | u in s'.txns ensures GuardOk(s', u) {
      assert GuardOk(s, u) && TxnOk(s, u) && Apart(s, t, u);
      if s.rootLock == Some(u) {
        QuietCommit(s, t);
        if AnyActive(View(s, u)) {
          var d :| d in View(s, u) && Active(View(s, u)[d]);
          assert d in View(s', u) && Active(View(s', u)[d]);
        }
      }
    }
  }

  lemma GuardedStep(s: State, a: Action)
    requires Safe(s) && Guarded(s) && Enabled(s, a)
    ensures Guarded(Apply(true, s, a))
  {
    if a.Commit? {
      GuardedCommit(s, a.t);
    } else if a.Abort? {
      var s' := Apply(true, s, a);
      forall u | u in s'.txns ensures GuardOk(s', u) {
        assert GuardOk(s, u);
        assert View(s', u) == View(s, u);
      }
    } else {
      GuardedChange(s, a);
    }
  }

  /** No transaction is open, the root waits, and nothing is left that would finalize it. */
  predicate Stranded(s: State) {
    s.txns == map[] && s.root.Waiting? && !AnyActive(s.rows)
  }

  lemma {:induction false} LockedRunsStayGuarded(s: State, actions: seq<Action>)
    requires Safe(s) && Guarded(s) && ValidRun(true, s, actions)
    ensures Guarded(After(true, s, actions))
    decreases |actions|
  {
    if actions != [] {
      SafeStep(true, s, actions[0]);
      GuardedStep(s, actions[0]);
      LockedRunsStayGuarded(Apply(true, s, actions[0]), actions[1..]);
    }
  }

  // ----- Without the lock -----

  lemma {:induction false} Extend(locking: bool, s: State, actions: seq<Action>, a: Action)
    requires ValidRun(locking, s, actions) && Enabled(After(locking, s, actions), a)
    ensures ValidRun(locking, s, actions + [a])
    ensures After(locking, s, actions + [a]) == Apply(locking, After(locking, s, actions), a)
    decreases |actions|
  {
    if actions == [] {
      assert (actions + [a])[1..] == [];
      assert ValidRun(locking, Apply(locking, s, a), []);
    } else {
      Extend(locking, Apply(locking, s, actions[0]), actions[1..], a);
      assert (actions + [a])[1..] == actions[1..] + [a];
    }
  }

  predicate SameTxn(a: Txn, b: Txn) {
    a.locks == b.locks && a.writes == b.writes && a.rootWrite == b.rootWrite && a.phase == b.phase
  }

  predicate SameState(a: State, b: State) {
    && a.root == b.root && a.rows == b.rows && a.rootLock == b.rootLock && a.txns.Keys == b.txns.Keys
    && forall t :: t in a.txns ==> SameTxn(a.txns[t], b.txns[t])
  }

  lemma SameStateEqual(a: State, b: State)
    requires SameState(a, b)
    ensures a == b
  {
    assert forall t :: t in a.txns ==> SameTxn(a.txns[t], b.txns[t]) ==> a.txns[t] == b.txns[t];
    assert a.txns == b.txns;
  }

  /** Reachable without the lock. */
  ghost predicate Leads(s: State) {
    exists actions :: ValidRun(false, INIT, actions) && After(false, INIT, actions) == s
  }

  lemma Then(s: State, a: Action, s': State)
    requires Leads(s) && Enabled(s, a) && SameState(Apply(false, s, a), s')
    ensures Leads(s')
  {
    var actions :| ValidRun(false, INIT, actions) && After(false, INIT, actions) == s;
    Extend(false, INIT, actions, a);
    SameStateEqual(Apply(false, s, a), s');
    assert ValidRun(false, INIT, actions + [a]) && After(false, INIT, actions + [a]) == s';
  }

  lemma Start()
    ensures Leads(INIT)
  {
    assert ValidRun(false, INIT, []) && After(false, INIT, []) == INIT;
  }

  const IDLE := Txn({}, map[], None, Ready)

  lemma Begins(s: State, t: TxnId)
    requires Leads(s) && t !in s.txns
    ensures Leads(With(s, t, IDLE))
  {
    Then(s, Begin(t), With(s, t, IDLE));
  }

  lemma Locks(s: State, t: TxnId, row: RowId)
    requires Leads(s) && t in s.txns && s.txns[t] == IDLE && row in s.rows
    requires forall u :: u in s.txns && u != t ==> row !in s.txns[u].locks
    ensures Leads(With(s, t, Txn({row}, map[], None, Ready)))
  {
    Then(s, LockRow(t, row), With(s, t, Txn({row}, map[], None, Ready)));
  }

  /** A transaction that has written one descendant. */
  function Wrote(row: RowId, status: Status, phase: Phase): Txn {
    Txn({row}, map[row := status], None, phase)
  }

  function Writing(row: RowId, status: Status): Txn {
    Wrote(row, status, if Terminal(status) then MustCount else Ready)
  }

  lemma Writes(s: State, t: TxnId, row: RowId, status: Status)
    requires Leads(s) && t in s.txns && s.txns[t] == Txn({row}, map[], None, Ready)
    requires row in s.rows && Active(s.rows[row]) && !status.Waiting?
    ensures Leads(With(s, t, Writing(row, status)))
  {
    assert FreshRows(s, {}) && View(s, t) == s.rows;
    Then(s, WriteRow(t, row, status, {}), With(s, t, Writing(row, status)));
  }

  lemma Commits(s: State, t: TxnId)
    requires Leads(s) && t in s.txns && s.txns[t].phase.Ready? && s.txns[t].rootWrite.None?
    ensures Leads(End(s, t).(rows := View(s, t)))
  {
    Then(s, Commit(t), End(s, t).(rows := View(s, t)));
  }

  /** A new transaction locks a descendant and writes it. */
  lemma WritesOne(s: State, t: TxnId, row: RowId, status: Status)
    requires Leads(s) && t !in s.txns && row in s.rows && Active(s.rows[row]) && !status.Waiting?
    requires forall u :: u in s.txns ==> row !in s.txns[u].locks
    ensures Leads(With(s, t, Writing(row, status)))
  {
    var a := With(s, t, IDLE);
    var b := With(a, t, Txn({row}, map[], None, Ready));
    assert Leads(a) by { Begins(s, t); }
    assert Leads(b) by { Locks(a, t, row); }
    assert Leads(With(b, t, Writing(row, status))) by { Writes(b, t, row, status); }
    assert With(b, t, Writing(row, status)).txns == With(s, t, Writing(row, status)).txns;
  }

  lemma Expands(s: State, t: TxnId, children: set<RowId>)
    requires Leads(s) && t in s.txns && s.txns[t] == IDLE && s.root.Running? && s.rootLock.None?
    requires children != {} && FreshRows(s, children)
    ensures Leads(With(s, t, Txn({}, NewRows(children), Some(Waiting), Ready)).(rootLock := Some(t)))
  {
    var s' := With(s, t, Txn({}, NewRows(children), Some(Waiting), Ready)).(rootLock := Some(t));
    Then(s, Expand(t, children), s');
  }

  /** The root expands into two children. */
  lemma RaceExpands()
    ensures Leads(State(Waiting, map[1 := Pending, 2 := Pending], None, map[]))
  {
    var a := With(INIT, 0, IDLE);
    assert Leads(a) by { Start(); Begins(INIT, 0); }
    var b := With(a, 0, Txn({}, NewRows({1, 2}), Some(Waiting), Ready)).(rootLock := Some(0));
    assert Leads(b) by { Expands(a, 0, {1, 2}); }
    ExpansionCommits(b);
  }

  lemma ExpansionCommits(s: State)
    requires Leads(s) && s.rows == map[] && s.rootLock == Some(0)
    requires s.txns == map[0 := Txn({}, NewRows({1, 2}), Some(Waiting), Ready)]
    ensures Leads(State(Waiting, map[1 := Pending, 2 := Pending], None, map[]))
  {
    assert View(s, 0) == map[1 := Pending, 2 := Pending];
    Then(s, Commit(0), State(Waiting, map[1 := Pending, 2 := Pending], None, map[]));
  }

  /** One of two pending children is claimed while the other stays as it is. */
  lemma RaceClaims(row: RowId, rows: map<RowId, Status>)
    requires Leads(State(Waiting, rows, None, map[])) && row in rows && rows[row].Pending?
    ensures Leads(State(Waiting, rows[row := Running], None, map[]))
  {
    var s := State(Waiting, rows, None, map[]);
    WritesOne(s, 0, row, Running);
    var c := With(s, 0, Writing(row, Running));
    Commits(c, 0);
    assert End(c, 0).(rows := View(c, 0)).txns == map[] && View(c, 0) == rows[row := Running];
  }

  function Completes(row: RowId, phase: Phase): Txn {
    Wrote(row, Completed, phase)
  }

  /** Transaction t completes its own child and has yet to count; what the others do is left alone. */
  lemma RaceCompletes(t: TxnId, row: RowId, rows: map<RowId, Status>, txns: map<TxnId, Txn>)
    requires Leads(State(Waiting, rows, None, txns)) && t !in txns && row in rows && rows[row].Running?
    requires forall u :: u in txns ==> row !in txns[u].locks
    ensures Leads(State(Waiting, rows, None, txns[t := Completes(row, MustCount)]))
  {
    WritesOne(State(Waiting, rows, None, txns), t, row, Completed);
  }

  /** It counts another child that is still running in the committed rows. */
  lemma RaceCounts(t: TxnId, row: RowId, other: RowId, rows: map<RowId, Status>, txns: map<TxnId, Txn>)
    requires Leads(State(Waiting, rows, None, txns)) && t in txns && txns[t] == Completes(row, MustCount)
    requires other in rows && other != row && rows[other].Running?
    ensures Leads(State(Waiting, rows, None, txns[t := Completes(row, Ready)]))
  {
    var s := State(Waiting, rows, None, txns);
    assert View(s, t)[other].Running?;
    Then(s, Count(t), State(Waiting, rows, None, txns[t := Completes(row, Ready)]));
  }

  lemma RaceCommits(t: TxnId, row: RowId, rows: map<RowId, Status>, txns: map<TxnId, Txn>)
    requires Leads(State(Waiting, rows, None, txns)) && t in txns && txns[t] == Completes(row, Ready)
    ensures Leads(State(Waiting, rows[row := Completed], None, txns - {t}))
  {
    var s := State(Waiting, rows, None, txns);
    Commits(s, t);
    assert View(s, t) == rows[row := Completed];
  }

  lemma BothRunning() returns (running: map<RowId, Status>)
    ensures running.Keys == {1, 2} && running[1].Running? && running[2].Running?
    ensures Leads(State(Waiting, running, None, map[]))
  {
    var rows := map[1 := Pending, 2 := Pending];
    assert Leads(State(Waiting, rows, None, map[])) by { RaceExpands(); }
    assert Leads(State(Waiting, rows[1 := Running], None, map[])) by { RaceClaims(1, rows); }
    assert Leads(State(Waiting, rows[1 := Running][2 := Running], None, map[])) by {
      RaceClaims(2, rows[1 := Running]);
    }
    running := rows[1 := Running][2 := Running];
  }

  /** Both transactions have completed their child and counted the other one. */
  lemma BothCounted(rows: map<RowId, Status>)
    requires rows.Keys == {1, 2} && rows[1].Running? && rows[2].Running? && Leads(State(Waiting, rows, None, map[]))
    ensures Leads(State(Waiting, rows, None, map[1 := Completes(1, Ready), 2 := Completes(2, Ready)]))
  {
    var none: map<TxnId, Txn> := map[];
    var one := none[1 := Completes(1, MustCount)];
    assert Leads(State(Waiting, rows, None, one)) by { RaceCompletes(1, 1, rows, none); }
    var two := one[2 := Completes(2, MustCount)];
    assert Leads(State(Waiting, rows, None, two)) by { RaceCompletes(2, 2, rows, one); }
    var half := two[1 := Completes(1, Ready)];
    assert Leads(State(Waiting, rows, None, half)) by { RaceCounts(1, 1, 2, rows, two); }
    var both := half[2 := Completes(2, Ready)];
    assert Leads(State(Waiting, rows, None, both)) by { RaceCounts(2, 2, 1, rows, half); }
    assert both == map[1 := Completes(1, Ready), 2 := Completes(2, Ready)];
  }

  /**
   Two children complete at the same time, each one's transaction sees the other
   child still running, and the root is left waiting over two completed children.
   */
  lemma RaceStrands()
    ensures exists s :: Leads(s) && Stranded(s)
  {
    var rows := BothRunning();
    BothCounted(rows);
    var both := map[1 := Completes(1, Ready), 2 := Completes(2, Ready)];
    var rows1 := rows[1 := Completed];
    assert Leads(State(Waiting, rows1, None, both - {1})) by { RaceCommits(1, 1, rows, both); }
    var rows2 := rows1[2 := Completed];
    assert Leads(State(Waiting, rows2, None, both - {1} - {2})) by { RaceCommits(2, 2, rows1, both - {1}); }
    assert Stranded(State(Waiting, rows2, None, both - {1} - {2}));
  }

  ghost predicate NeverStrands(locking: bool) {
    forall actions {:trigger ValidRun(locking, INIT, actions)} ::
      ValidRun(locking, INIT, actions) ==> !Stranded(After(locking, INIT, actions))
  }

  /** Overlapping transactions can leave the root waiting for ever exactly when finalizers do not lock it. */
  lemma NoStrandingIffRootLocked(locking: bool)
    ensures NeverStrands(locking) <==> locking
  {
    if locking {
      forall actions | ValidRun(true, INIT, actions) ensures !Stranded(After(true, INIT, actions)) {
        LockedRunsStayGuarded(INIT, actions);
      }
    } else {
      RaceStrands();
      var s :| Leads(s) && Stranded(s);
      var actions :| ValidRun(locking, INIT, actions) && After(locking, INIT, actions) == s;
      assert Stranded(After(locking, INIT, actions));
    }
  }
}
