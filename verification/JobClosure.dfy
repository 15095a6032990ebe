/** Self-feeding job trees. */
module JobClosure {
  // When handlers are deterministic, a completed root's descendants are exactly the
  // least set of nodes that contains what the root expands to and is closed under the
  // dependency function, with one job a node, whatever crashes, retries, recoveries
  // and duplicate discoveries the run had.

  import opened Wrappers
  import opened JobTables
  import opened JobRuns
  import opened JobInvariants
  import opened JobSteps
  import opened JobSafety

  // ----- The workload -----

  /** What the manifests and the registries answer; fixed for the whole run. */
  datatype World = World(
    audited: (string, string) -> set<Coordinate>,
    scanned: (string, string) -> set<Coordinate>,
    dependencies: Coordinate -> set<Coordinate>)

  function NodeOf(task: Task): Option<Node> {
    match task
    case AuditPackage(c, _, _) => Some(AuditNode(c))
    case UpdateCheck(c) => Some(UpdateNode(c))
    case _ => None
  }

  function ExpandNode(w: World, n: Node): set<Node> {
    match n
    case AuditNode(c) => set d | d in w.dependencies(c) :: AuditNode(d)
    case UpdateNode(_) => {}
  }

  /** The nodes whose children a successful handler returns. */
  function Expand(w: World, task: Task): set<Node> {
    match task
    case DependencyAudit(repository, ref) => set c | c in w.audited(repository, ref) :: AuditNode(c)
    case UpdateScan(repository, ref) => set c | c in w.scanned(repository, ref) :: UpdateNode(c)
    case _ => if NodeOf(task).Some? then ExpandNode(w, NodeOf(task).value) else {}
  }

  ghost predicate ClosedUnder(w: World, nodes: iset<Node>) {
    forall n :: n in nodes ==> forall m :: m in ExpandNode(w, n) ==> m in nodes
  }

  ghost predicate Covers(w: World, task: Task, nodes: iset<Node>) {
    ClosedUnder(w, nodes) && forall n :: n in Expand(w, task) ==> n in nodes
  }

  /** In every closed set that contains what the task expands to. */
  ghost predicate InClosure(w: World, task: Task, n: Node) {
    forall nodes: iset<Node> :: Covers(w, task, nodes) ==> n in nodes
  }

  /** A child submission as the handlers build it: keyed by root and node, with the parent's attempt limit. */
  predicate HandlerChild(w: World, parent: Job, sub: Submission) {
    && NodeOf(sub.task).Some? && NodeOf(sub.task).value in Expand(w, parent.task)
    && sub.key == ChildKey(parent.root, NodeOf(sub.task).value)
    && sub.maxAttempts == parent.maxAttempts
  }

  /** The children of one run of the handler, in any order and with any repetition. */
  predicate HandlerChildren(w: World, parent: Job, children: seq<Child>) {
    && (forall i :: 0 <= i < |children| ==> HandlerChild(w, parent, children[i].submission))
    && (forall n :: n in Expand(w, parent.task) ==>
          exists i :: 0 <= i < |children| && NodeOf(children[i].submission.task) == Some(n))
  }

  ghost predicate Honest(w: World, s: System, step: Step) {
    step.DoComplete? && step.token in s.issued ==> HandlerChildren(w, s.issued[step.token], step.children)
  }

  ghost predicate HonestRun(w: World, states: seq<System>, steps: seq<Step>) {
    Run(states, steps) && forall i {:trigger Honest(w, states[i], steps[i])} :: 0 <= i < |steps| ==>
      Honest(w, states[i], steps[i])
  }

  // ----- The tree invariant -----

  /** The unique index on idempotency_key. */
  ghost predicate Keys(db: Db) {
    forall a, b :: a in db.jobs && b in db.jobs && db.jobs[a].key.Some? && db.jobs[a].key == db.jobs[b].key ==> a == b
  }

  /** Descendants are keyed by their root and node; roots are not keyed as children. */
  predicate KeyOk(db: Db, id: JobId)
    requires id in db.jobs
  {
    var row := db.jobs[id];
    if row.root == id then row.key.Some? ==> !row.key.value.ChildKey?
    else
      && IsRoot(db, row.root) && NodeOf(row.task).Some?
      && row.key == Some(ChildKey(row.root, NodeOf(row.task).value))
      && row.maxAttempts == db.jobs[row.root].maxAttempts
  }

  ghost predicate Rooted(db: Db) {
    forall id {:trigger IsRoot(db, db.jobs[id].root)} :: id in db.jobs ==> IsRoot(db, db.jobs[id].root)
  }

  predicate HasNode(db: Db, root: JobId, n: Node) {
    exists id :: id in db.jobs && Below(db, root, id) && NodeOf(db.jobs[id].task) == Some(n)
  }

  /** Everything that the job expands to is in its tree. */
  ghost predicate Spawned(w: World, db: Db, id: JobId)
    requires id in db.jobs
  {
    forall n :: n in Expand(w, db.jobs[id].task) ==> HasNode(db, db.jobs[id].root, n)
  }

  predicate Expanded(s: Status) { s.Completed? || s.Waiting? }

  ghost predicate Sound(w: World, db: Db, id: JobId)
    requires id in db.jobs
  {
    var row := db.jobs[id];
    row.root != id && IsRoot(db, row.root) && NodeOf(row.task).Some? ==>
      InClosure(w, db.jobs[row.root].task, NodeOf(row.task).value)
  }

  /** The tree invariant, with one job excused while its transaction is still inserting its children. */
  ghost predicate TreeInv(w: World, db: Db, excused: set<JobId>) {
    && Keys(db)
    && (forall id {:trigger KeyOk(db, id)} :: id in db.jobs ==> KeyOk(db, id))
    && (forall id {:trigger Sound(w, db, id)} :: id in db.jobs ==> Sound(w, db, id))
    && (forall id {:trigger Spawned(w, db, id)} ::
          id in db.jobs && id !in excused && Expanded(db.jobs[id].status) ==> Spawned(w, db, id))
  }

  lemma HasNodeGrows(db: Db, db': Db, root: JobId, n: Node)
    requires Grows(db, db') && HasNode(db, root, n)
    ensures HasNode(db', root, n)
  {
    var id :| id in db.jobs && Below(db, root, id) && NodeOf(db.jobs[id].task) == Some(n);
    assert id in db'.jobs && Below(db', root, id);
  }

  lemma SpawnedGrows(w: World, db: Db, db': Db, id: JobId)
    requires Grows(db, db') && id in db.jobs && Spawned(w, db, id)
    ensures Spawned(w, db', id)
  {
    forall n | n in Expand(w, db'.jobs[id].task) ensures HasNode(db', db'.jobs[id].root, n) {
      HasNodeGrows(db, db', db.jobs[id].root, n);
    }
  }

  lemma RowGrows(w: World, db: Db, db': Db, id: JobId)
    requires Grows(db, db') && id in db.jobs && KeyOk(db, id) && Sound(w, db, id)
    requires IsRoot(db, db.jobs[id].root)
    ensures KeyOk(db', id) && Sound(w, db', id)
  {
  }

  lemma KeysFrame(db: Db, db': Db)
    requires Keys(db) && Grows(db, db') && db'.jobs.Keys == db.jobs.Keys
    ensures Keys(db')
  {
  }

  lemma KeysAfterInsert(db: Db, row: Job)
    requires Keys(db) && row.id !in db.jobs && (row.key.Some? ==> !KeyTaken(db, row.key.value))
    ensures Keys(Insert(db, row))
  {
  }

  /** Rows that were there keep what they had; new ones and newly expanded ones are checked by the caller. */
  lemma TreeFrame(w: World, db: Db, db': Db, excused: set<JobId>, excused': set<JobId>)
    requires TreeInv(w, db, excused) && Grows(db, db') && Keys(db') && excused <= excused'
    requires Rooted(db)
    requires forall id :: id in db'.jobs && id !in db.jobs ==> KeyOk(db', id) && Sound(w, db', id)
    requires forall id :: id in db.jobs && id !in excused' && Expanded(db'.jobs[id].status) ==>
             Expanded(db.jobs[id].status)
    ensures TreeInv(w, db', excused')
  {
    forall id | id in db'.jobs ensures KeyOk(db', id) && Sound(w, db', id) {
      if id in db.jobs {
        assert IsRoot(db, db.jobs[id].root) && KeyOk(db, id) && Sound(w, db, id);
        RowGrows(w, db, db', id);
      }
    }
    forall id | id in db'.jobs && id !in excused' && Expanded(db'.jobs[id].status) ensures Spawned(w, db', id) {
      assert Spawned(w, db, id);
      SpawnedGrows(w, db, db', id);
    }
  }

  /** A closed attempt may owe its children. */
  lemma TreeAfterClose(w: World, db: Db, snapshot: Job, c: Closing, now: Time)
    requires TreeInv(w, db, {}) && snapshot.id in db.jobs && (c.status.DeadLettered? ==> c.error.Some?)
    requires Rooted(db)
    ensures TreeInv(w, Close(db, snapshot, c, now), if Expanded(c.status) then {snapshot.id} else {})
  {
    var db' := Close(db, snapshot, c, now);
    assert Grows(db, db') by { GrowsByUpdate(db, db', snapshot.id, ClosedRow(db.jobs[snapshot.id], c, now)); }
    assert Keys(db') by { KeysFrame(db, db'); }
    TreeFrame(w, db, db', {}, if Expanded(c.status) then {snapshot.id} else {});
  }

  lemma TreeAfterInsert(w: World, db: Db, row: Job, excused: set<JobId>)
    requires TreeInv(w, db, excused) && row.id !in db.jobs && row.status.Pending? && row.attempts == 0
    requires row.key.Some? ==> !KeyTaken(db, row.key.value)
    requires Rooted(db)
    requires KeyOk(Insert(db, row), row.id) && Sound(w, Insert(db, row), row.id)
    ensures TreeInv(w, Insert(db, row), excused)
  {
    assert Grows(db, Insert(db, row)) by { GrowsByInsert(db, row); }
    assert Keys(Insert(db, row)) by { KeysAfterInsert(db, row); }
    TreeFrame(w, db, Insert(db, row), excused, excused);
  }

  // ----- Completing a job inserts what it expands to -----

  /** A parent that is in the table, as the insertions of its children need it. */
  ghost predicate ParentOk(db: Db, parent: Job) {
    && parent.id in db.jobs && db.jobs[parent.id].root == parent.root && db.jobs[parent.id].task == parent.task
    && db.jobs[parent.id].maxAttempts == parent.maxAttempts && parent.maxAttempts >= 1
    && Rooted(db)
  }

  lemma ChildInClosure(w: World, db: Db, parent: Job, n: Node)
    requires ParentOk(db, parent) && KeyOk(db, parent.id) && Sound(w, db, parent.id) && n in Expand(w, parent.task)
    ensures InClosure(w, db.jobs[parent.root].task, n)
  {
    var task := db.jobs[parent.root].task;
    forall nodes: iset<Node> | Covers(w, task, nodes) ensures n in nodes {
      if parent.root != parent.id {
        assert NodeOf(parent.task).value in nodes;
      }
    }
  }

  /** A key of this root and node is taken only by the job of that node. */
  lemma TakenMeansPresent(w: World, db: Db, root: JobId, n: Node, excused: set<JobId>)
    requires TreeInv(w, db, excused) && KeyTaken(db, ChildKey(root, n))
    ensures HasNode(db, root, n)
  {
    var id :| id in db.jobs && db.jobs[id].key == Some(ChildKey(root, n));
    assert KeyOk(db, id);
    assert Below(db, root, id);
  }

  /** Existing rows are untouched and the new ones are pending. */
  ghost predicate OnlyInserts(db: Db, db': Db) {
    && (forall id :: id in db.jobs ==> id in db'.jobs && db'.jobs[id] == db.jobs[id])
    && (forall id :: id in db'.jobs && id !in db.jobs ==> db'.jobs[id].status.Pending? && db'.jobs[id].attempts == 0)
  }

  predicate Present(db: Db, root: JobId, task: Task) {
    NodeOf(task).Some? ==> HasNode(db, root, NodeOf(task).value)
  }

  lemma PresentAfterInserts(db: Db, db': Db, root: JobId, task: Task)
    requires OnlyInserts(db, db') && Present(db, root, task)
    ensures Present(db', root, task)
  {
    if NodeOf(task).Some? {
      HasNodeGrows(db, db', root, NodeOf(task).value);
    }
  }

  lemma InsertChildTree(w: World, db: Db, parent: Job, child: Child, now: Time, excused: set<JobId>)
    requires TreeInv(w, db, excused) && ParentOk(db, parent) && child.id !in db.jobs
    requires HandlerChild(w, parent, child.submission)
    ensures var db' := InsertChild(db, parent, child, now);
            TreeInv(w, db', excused) && Present(db', parent.root, child.submission.task)
  {
    var n := NodeOf(child.submission.task).value;
    if KeyTaken(db, child.submission.key) {
      TakenMeansPresent(w, db, parent.root, n, excused);
    } else {
      var row := ChildRow(parent, child, now);
      var db' := Insert(db, row);
      assert IsRoot(db, db.jobs[parent.id].root);
      assert Below(db', parent.root, row.id);
      assert InClosure(w, db.jobs[parent.root].task, n) by {
        assert KeyOk(db, parent.id) && Sound(w, db, parent.id);
        ChildInClosure(w, db, parent, n);
      }
      assert row.maxAttempts == db.jobs[parent.root].maxAttempts by { assert KeyOk(db, parent.id); }
      assert KeyOk(db', row.id) && Sound(w, db', row.id);
      TreeAfterInsert(w, db, row, excused);
    }
  }

  lemma InsertChildFrame(db: Db, parent: Job, child: Child, now: Time)
    requires ParentOk(db, parent) && child.id !in db.jobs
    ensures var db' := InsertChild(db, parent, child, now); OnlyInserts(db, db') && ParentOk(db', parent)
  {
    var db' := InsertChild(db, parent, child, now);
    assert IsRoot(db, db.jobs[parent.id].root);
    forall id | id in db'.jobs ensures IsRoot(db', db'.jobs[id].root) {
      assert id in db.jobs ==> IsRoot(db, db.jobs[id].root);
    }
  }

  lemma {:induction false} InsertChildrenTree(w: World, db: Db, parent: Job, children: seq<Child>, now: Time,
                                              excused: set<JobId>)
    requires TreeInv(w, db, excused) && ParentOk(db, parent) && FreshChildren(db, children)
    requires forall i :: 0 <= i < |children| ==> HandlerChild(w, parent, children[i].submission)
    ensures var db' := InsertChildren(db, parent, children, now);
            && TreeInv(w, db', excused) && OnlyInserts(db, db')
            && forall i :: 0 <= i < |children| ==> Present(db', parent.root, children[i].submission.task)
    decreases |children|
  {
    if children != [] {
      var child, rest := children[0], children[1..];
      var db1 := InsertChild(db, parent, child, now);
      InsertChildTree(w, db, parent, child, now, excused);
      InsertChildFrame(db, parent, child, now);
      assert FreshChildren(db1, rest);
      InsertChildrenTree(w, db1, parent, rest, now, excused);
      var db' := InsertChildren(db1, parent, rest, now);
      PresentAfterInserts(db1, db', parent.root, child.submission.task);
      forall i | 0 <= i < |children| ensures Present(db', parent.root, children[i].submission.task) {
        if i > 0 {
          assert children[i] == rest[i - 1];
        }
      }
    }
  }

  // ----- Every honest step keeps the tree invariant -----

  lemma RowsRooted(db: Db)
    requires Rows(db)
    ensures Rooted(db)
  {
    forall id | id in db.jobs ensures IsRoot(db, db.jobs[id].root) {
    }
  }

  lemma FinalizeTree(w: World, db: Db, root: JobId, now: Time)
    requires TreeInv(w, db, {}) && Rooted(db) && root in db.jobs
    ensures TreeInv(w, FinalizeRoot(db, root, now), {})
  {
    var db' := FinalizeRoot(db, root, now);
    GrowsByFinalize(db, root, now);
    KeysFrame(db, db');
    TreeFrame(w, db, db', {}, {});
  }

  lemma FinalizeAfterTree(w: World, before: Db, after: Db, job: Job, status: Status, now: Time)
    requires TreeInv(w, before, {}) && TreeInv(w, after, {}) && Rooted(after)
    ensures TreeInv(w, FinalizeAfter(before, after, job, status, now).db, {})
  {
    if Terminal(status) && job.id != job.root && job.root in after.jobs {
      FinalizeTree(w, after, job.root, now);
    }
  }

  /** The completed job's children are all there, so it owes nothing any more. */
  lemma PaysItsChildren(w: World, db: Db, parent: Job, children: seq<Child>)
    requires TreeInv(w, db, {parent.id}) && HandlerChildren(w, parent, children)
    requires parent.id in db.jobs && db.jobs[parent.id].task == parent.task && db.jobs[parent.id].root == parent.root
    requires forall i :: 0 <= i < |children| ==> Present(db, parent.root, children[i].submission.task)
    ensures TreeInv(w, db, {})
  {
    forall n | n in Expand(w, parent.task) ensures HasNode(db, parent.root, n) {
      var i :| 0 <= i < |children| && NodeOf(children[i].submission.task) == Some(n);
      assert Present(db, parent.root, children[i].submission.task);
    }
    assert Spawned(w, db, parent.id);
  }

  lemma ParentAfterClose(db: Db, snapshot: Job, c: Closing, now: Time)
    requires Rows(db) && Describes(db, snapshot) && (c.status.DeadLettered? ==> c.error.Some?)
    ensures ParentOk(Close(db, snapshot, c, now), snapshot)
  {
    var db' := Close(db, snapshot, c, now);
    assert RowOk(snapshot.id, db.jobs[snapshot.id]);
    forall id | id in db'.jobs ensures IsRoot(db', db'.jobs[id].root) {
      assert IsRoot(db, db.jobs[id].root);
    }
  }

  lemma {:induction false} ChildrenKeepParent(db: Db, parent: Job, children: seq<Child>, now: Time)
    requires ParentOk(db, parent) && FreshChildren(db, children)
    ensures ParentOk(InsertChildren(db, parent, children, now), parent)
    decreases |children|
  {
    if children != [] {
      InsertChildFrame(db, parent, children[0], now);
      ChildrenKeepParent(InsertChild(db, parent, children[0], now), parent, children[1..], now);
    }
  }

  /** A completed attempt with its children inserted, before its root is finalized. */
  function Expanding(db: Db, snapshot: Job, children: seq<Child>, now: Time): Db
    requires snapshot.id in db.jobs
  {
    InsertChildren(Close(db, snapshot, Completion(snapshot, children), now), snapshot, children, now)
  }

  /** Closing an attempt and then inserting its children leaves nothing but the new children, and all of them. */
  lemma ClosedThenInserted(w: World, db: Db, snapshot: Job, children: seq<Child>, now: Time)
    requires Rows(db) && TreeInv(w, db, {}) && Describes(db, snapshot) && FreshChildren(db, children)
    requires HandlerChildren(w, snapshot, children)
    ensures var after := Expanding(db, snapshot, children, now);
            && TreeInv(w, after, {snapshot.id}) && ParentOk(after, snapshot)
            && OnlyInserts(Close(db, snapshot, Completion(snapshot, children), now), after)
            && forall i :: 0 <= i < |children| ==> Present(after, snapshot.root, children[i].submission.task)
  {
    var c := Completion(snapshot, children);
    var closed := Close(db, snapshot, c, now);
    RowsRooted(db);
    TreeAfterClose(w, db, snapshot, c, now);
    ParentAfterClose(db, snapshot, c, now);
    assert FreshChildren(closed, children);
    InsertChildrenTree(w, closed, snapshot, children, now, {snapshot.id});
    ChildrenKeepParent(closed, snapshot, children, now);
  }

  lemma CompleteTree(w: World, s: System, token: Token, children: seq<Child>, now: Time)
    requires Inv(s) && TreeInv(w, s.db, {}) && token in s.issued && FreshChildren(s.db, children)
    requires HandlerChildren(w, s.issued[token], children)
    ensures TreeInv(w, Complete(s.db, s.issued[token], children, now).db, {})
  {
    var snapshot := s.issued[token];
    if Holds(s.db, snapshot) {
      HeldDescribes(s, token);
      ClosedThenInserted(w, s.db, snapshot, children, now);
      var after := Expanding(s.db, snapshot, children, now);
      PaysItsChildren(w, after, snapshot, children);
      FinalizeAfterTree(w, s.db, after, snapshot, CompletionStatus(snapshot, children), now);
    }
  }

  /** An attempt that ends without expanding anything. */
  lemma CloseTree(w: World, db: Db, snapshot: Job, c: Closing, now: Time)
    requires Rows(db) && TreeInv(w, db, {}) && Describes(db, snapshot)
    requires (c.status.DeadLettered? ==> c.error.Some?) && !Expanded(c.status)
    ensures TreeInv(w, FinalizeAfter(db, Close(db, snapshot, c, now), snapshot, c.status, now).db, {})
  {
    RowsRooted(db);
    TreeAfterClose(w, db, snapshot, c, now);
    ParentAfterClose(db, snapshot, c, now);
    FinalizeAfterTree(w, db, Close(db, snapshot, c, now), snapshot, c.status, now);
  }

  lemma {:induction false} ReclaimTree(w: World, s: System, rows: seq<Job>, now: Time)
    requires Inv(s) && TreeInv(w, s.db, {}) && Recoverable(s.db, rows)
    ensures TreeInv(w, Reclaim(s.db, rows, now).db, {})
    decreases |rows|
  {
    if rows != [] {
      CloseTree(w, s.db, rows[0], Recovery(rows[0]), now);
      ReclaimOneKeeps(s, rows[0], now);
      RestRecoverable(s.db, rows, now);
      ReclaimTree(w, System(ReclaimOne(s.db, rows[0], now).db, s.issued), rows[1..], now);
    }
  }

  lemma RootInsertTree(w: World, db: Db, db': Db, row: Job)
    requires TreeInv(w, db, {}) && Rooted(db) && row.id !in db.jobs && db'.jobs == Insert(db, row).jobs
    requires row.root == row.id && row.status.Pending? && row.attempts == 0
    requires row.key.Some? ==> !row.key.value.ChildKey? && !KeyTaken(db, row.key.value)
    ensures TreeInv(w, db', {})
  {
    KeysAfterInsert(db, row);
    TreeFrame(w, db, db', {}, {});
  }

  lemma OperatorTree(w: World, s: System, step: Step)
    requires Rows(s.db) && TreeInv(w, s.db, {}) && Enabled(s, step)
    requires step.DoSubmit? || step.DoRetry? || step.DoReplay?
    ensures TreeInv(w, TxOf(s, step).db, {})
  {
    var db' := TxOf(s, step).db;
    RowsRooted(s.db);
    if db' != s.db {
      RootInsertTree(w, s.db, db', db'.jobs[step.id]);
    }
  }

  lemma QuietTree(w: World, db: Db, db': Db)
    requires TreeInv(w, db, {}) && Rooted(db) && Grows(db, db') && db'.jobs.Keys == db.jobs.Keys
    requires forall id :: id in db.jobs && Expanded(db'.jobs[id].status) ==> Expanded(db.jobs[id].status)
    ensures TreeInv(w, db', {})
  {
    KeysFrame(db, db');
    TreeFrame(w, db, db', {}, {});
  }

  lemma CancelTreeInv(w: World, db: Db, db': Db)
    requires Rows(db) && TreeInv(w, db, {}) && CancelsSome(db, db')
    ensures TreeInv(w, db', {})
  {
    RowsRooted(db);
    GrowsByCancel(db, db');
    QuietTree(w, db, db');
  }

  lemma ClaimTree(w: World, db: Db, id: JobId, worker: WorkerId, token: Token, now: Time, lease: Time)
    requires Rows(db) && TreeInv(w, db, {}) && Claimable(db, id, now)
    ensures TreeInv(w, Claim(db, id, worker, token, now, lease).db, {})
  {
    var tx := Claim(db, id, worker, token, now, lease);
    if tx.outcome.Done? {
      RowsRooted(db);
      GrowsByUpdate(db, tx.db, id, Leased(db.jobs[id], worker, token, now, lease));
      QuietTree(w, db, tx.db);
    }
  }

  /** The steps that end or prolong attempts. */
  lemma WorkerStepTree(w: World, s: System, step: Step)
    requires Inv(s) && TreeInv(w, s.db, {}) && Enabled(s, step) && Honest(w, s, step)
    requires step.DoHeartbeat? || step.DoComplete? || step.DoFail? || step.DoReclaim?
    ensures TreeInv(w, TxOf(s, step).db, {})
  {
    match step
    case DoHeartbeat(token, now, lease) =>
      HeartbeatCancelsNothing(s.db, s.issued[token], now, lease);
      CancelTreeInv(w, s.db, TxOf(s, step).db);
    case DoComplete(token, children, now) => CompleteTree(w, s, token, children, now);
    case DoFail(token, kind, message, retryAt, now) =>
      if Holds(s.db, s.issued[token]) {
        HeldDescribes(s, token);
        CloseTree(w, s.db, s.issued[token], Failing(s.issued[token], kind, message, retryAt), now);
      }
    case DoReclaim(ids, now) =>
      ExpiredRecoverable(s, ids, now);
      ReclaimTree(w, s, RowsOf(s.db, ids), now);
  }

  lemma StepKeepsTree(w: World, s: System, step: Step)
    requires Inv(s) && TreeInv(w, s.db, {}) && Enabled(s, step) && Honest(w, s, step)
    ensures TreeInv(w, Next(s, step).db, {})
  {
    match step
    case DoClaim(id, worker, token, now, lease) => ClaimTree(w, s.db, id, worker, token, now, lease);
    case DoCancel(id, now) =>
      CancelStepCancelsSome(s.db, id, now);
      CancelTreeInv(w, s.db, TxOf(s, step).db);
    case DoSubmit(_, _, _) => OperatorTree(w, s, step);
    case DoRetry(_, _, _, _) => OperatorTree(w, s, step);
    case DoReplay(_, _, _, _) => OperatorTree(w, s, step);
    case _ => WorkerStepTree(w, s, step);
  }

  lemma HonestStep(w: World, states: seq<System>, steps: seq<Step>, i: nat)
    requires HonestRun(w, states, steps) && i < |steps|
    ensures Enabled(states[i], steps[i]) && Honest(w, states[i], steps[i]) && states[i + 1] == Next(states[i], steps[i])
  {
    assert Transition(states, steps, i);
  }

  lemma {:induction false} ReachableTree(w: World, states: seq<System>, steps: seq<Step>, i: nat)
    requires HonestRun(w, states, steps) && i < |states|
    ensures TreeInv(w, states[i].db, {})
  {
    if i > 0 {
      ReachableTree(w, states, steps, i - 1);
      assert Inv(states[i - 1]) by { ReachableInv(states, steps, i - 1); }
      HonestStep(w, states, steps, i - 1);
      StepKeepsTree(w, states[i - 1], steps[i - 1]);
    }
  }

  // ----- The closure theorem -----

  /** The nodes of the jobs below a root. */
  function NodesBelow(db: Db, root: JobId): set<Node> {
    set id | id in db.jobs && Below(db, root, id) && NodeOf(db.jobs[id].task).Some? :: NodeOf(db.jobs[id].task).value
  }

  /** The least set that contains what the task expands to and is closed under the dependency function. */
  ghost predicate LeastClosure(w: World, task: Task, nodes: set<Node>) {
    && (forall n :: n in Expand(w, task) ==> n in nodes)
    && (forall n :: n in nodes ==> ExpandNode(w, n) <= nodes)
    && (forall closed: iset<Node> :: Covers(w, task, closed) ==> forall n :: n in nodes ==> n in closed)
  }

  lemma CompletedRootIsClosure(w: World, db: Db, root: JobId)
    requires Rows(db) && Trees(db) && TreeInv(w, db, {}) && IsRoot(db, root) && db.jobs[root].status.Completed?
    ensures LeastClosure(w, db.jobs[root].task, NodesBelow(db, root))
  {
    var nodes := NodesBelow(db, root);
    assert Spawned(w, db, root);
    forall n | n in Expand(w, db.jobs[root].task) ensures n in nodes {
      assert HasNode(db, root, n);
    }
    forall n | n in nodes
      ensures ExpandNode(w, n) <= nodes
      ensures InClosure(w, db.jobs[root].task, n)
    {
      var id :| id in db.jobs && Below(db, root, id) && NodeOf(db.jobs[id].task) == Some(n);
      assert Sound(w, db, id) && RootOk(db, root);
      assert db.jobs[id].status in {Completed};
      assert Spawned(w, db, id);
      forall m | m in ExpandNode(w, n) ensures m in nodes {
        assert HasNode(db, root, m);
      }
    }
  }

  ghost predicate OneJobPerNode(db: Db, root: JobId) {
    forall a, b | Below(db, root, a) && Below(db, root, b) :: NodeOf(db.jobs[a].task) == NodeOf(db.jobs[b].task) ==>
      a == b
  }

  lemma TreeHasOneJobPerNode(w: World, db: Db, root: JobId)
    requires TreeInv(w, db, {})
    ensures OneJobPerNode(db, root)
  {
    forall a, b | Below(db, root, a) && Below(db, root, b) && NodeOf(db.jobs[a].task) == NodeOf(db.jobs[b].task)
      ensures a == b
    {
      assert KeyOk(db, a) && KeyOk(db, b);
    }
  }

  /**
   The main theorem. In every state of every honest run, a completed root's
   descendants are the least closure of what it expands to, one job a node.
   */
  lemma JobTreeComputesClosure(w: World, states: seq<System>, steps: seq<Step>, i: nat, root: JobId)
    requires HonestRun(w, states, steps) && i < |states|
    requires IsRoot(states[i].db, root) && states[i].db.jobs[root].status.Completed?
    ensures LeastClosure(w, states[i].db.jobs[root].task, NodesBelow(states[i].db, root))
    ensures OneJobPerNode(states[i].db, root)
  {
    var db := states[i].db;
    assert Rows(db) && Trees(db) by { ReachableInv(states, steps, i); }
    ReachableTree(w, states, steps, i);
    CompletedRootIsClosure(w, db, root);
    TreeHasOneJobPerNode(w, db, root);
  }
}
