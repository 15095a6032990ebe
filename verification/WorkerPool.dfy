/** Done detection in the pool. */
module WorkerPool {
  // The in-memory worker pool. Workers take jobs from the queue, may add children,
  // retry or give up, and count jobs in flight; the pool announces that it is done
  // when a worker reads a count of zero. Every atomic step of every goroutine is a
  // step here, in any order.

  import opened Wrappers

  /** A position in the order in which jobs were offered to the pool. */
  type Serial = nat
  type WorkerId = nat

  datatype Place =
    | Queued                     // in the channel
    | Held(worker: WorkerId)     // being handled, retried or finished by a worker
    | Counted(worker: WorkerId)  // a child that is counted and not yet in the channel
    | Lost                       // could not be put back into a closing queue; still counted
    | Rejected                   // bounced off a closing queue; no longer counted
    | Completed
    | Dead

  datatype Item = Item(start: nat, attempts: nat, max: nat, handled: nat, place: Place)

  /** A job as its submitter passes it. */
  datatype Spec = Spec(attempts: nat, max: nat)

  datatype Child = NoChild | Admitted | Sending(serial: Serial)

  datatype Worker =
    | Idle
    | Handling(job: Serial)
    | Requeueing(job: Serial)
    | Spawning(job: Serial, left: seq<Spec>, child: Child)
    | Released
    | Announcing
    | Stopped

  datatype Pool = Pool(
    items: map<Serial, Item>, queue: seq<Serial>, inFlight: int, done: bool,
    started: bool, stopping: bool, closing: bool, closed: bool, workers: map<WorkerId, Worker>)

  /** What one worker goroutine does next. */
  datatype Action =
    | Take
    | Exit
    | Succeed(children: seq<Spec>)
    | FailOnce
    | Requeue
    | Lose
    | Admit
    | Refuse
    | CountChild(serial: Serial)
    | SendChild
    | BounceChild
    | Finish
    | ReadCount
    | Announce

  datatype Step =
    | Submit(serial: Serial, spec: Spec)
    | Start(workers: set<WorkerId>)
    | Shutdown
    | BeginClose
    | EndClose
    | Act(w: WorkerId, action: Action)

  predicate MidSubmit(w: Worker) { w.Spawning? && !w.child.NoChild? }

  predicate CanAct(p: Pool, worker: Worker, action: Action) {
    match action
    case Take => worker.Idle? && p.queue != [] && p.queue[0] in p.items
    case Exit => worker.Idle? && p.queue == [] && p.closed
    case Succeed(_) => worker.Handling?
    case FailOnce => worker.Handling? && worker.job in p.items
    case Requeue => worker.Requeueing? && worker.job in p.items && !p.closed
    case Lose => worker.Requeueing? && worker.job in p.items && p.closing
    case Admit => worker.Spawning? && worker.left != [] && worker.child.NoChild? && !p.stopping
    case Refuse => worker.Spawning? && worker.left != [] && worker.child.NoChild? && p.stopping
    case CountChild(serial) => worker.Spawning? && worker.left != [] && worker.child.Admitted? && serial !in p.items
    case SendChild => worker.Spawning? && worker.left != [] && worker.child.Sending? && worker.child.serial in p.items
      && !p.closed
    case BounceChild => worker.Spawning? && worker.left != [] && worker.child.Sending?
      && worker.child.serial in p.items && p.closing
    case Finish => worker.Spawning? && worker.left == [] && worker.child.NoChild? && worker.job in p.items
    case ReadCount => worker.Released?
    case Announce => worker.Announcing?
  }

  /** External submissions all come before Start; the queue closes only when no submission is under way. */
  predicate Enabled(p: Pool, s: Step) {
    match s
    case Submit(serial, _) => !p.started && serial !in p.items
    case Start(_) => !p.started && !p.stopping
    case Shutdown => true
    case BeginClose => p.stopping && forall w :: w in p.workers ==> !MidSubmit(p.workers[w])
    case EndClose => p.closing
    case Act(w, action) => w in p.workers && CanAct(p, p.workers[w], action)
  }

  function Move(p: Pool, j: Serial, item: Item): Pool {
    p.(items := p.items[j := item])
  }

  function NewItem(spec: Spec, place: Place): Item {
    Item(spec.attempts, spec.attempts, spec.max, 0, place)
  }

  /** What a worker's action makes of the worker itself and of the shared fields. */
  datatype Change = Change(worker: Worker, items: map<Serial, Item>, queue: seq<Serial>, inFlight: int, done: bool)

  /** The worker moves on and the shared fields stay. */
  function Turned(p: Pool, worker: Worker): Change {
    Change(worker, p.items, p.queue, p.inFlight, p.done)
  }

  /** The worker moves on and one job changes. */
  function Moved(p: Pool, worker: Worker, j: Serial, item: Item): Change {
    Change(worker, p.items[j := item], p.queue, p.inFlight, p.done)
  }

  function Effect(p: Pool, w: WorkerId, action: Action): Change
    requires w in p.workers && CanAct(p, p.workers[w], action)
  {
    var worker := p.workers[w];
    match action
    case Take =>
      var j := p.queue[0];
      Moved(p, Handling(j), j, p.items[j].(place := Held(w), handled := p.items[j].handled + 1)).(queue := p.queue[1..])
    case Exit => Turned(p, Stopped)
    case Succeed(children) => Turned(p, Spawning(worker.job, children, NoChild))
    case FailOnce =>
      var j := worker.job;
      var item := p.items[j].(attempts := p.items[j].attempts + 1);
      if item.attempts < item.max then Moved(p, Requeueing(j), j, item)
      else Moved(p, Released, j, item.(place := Dead)).(inFlight := p.inFlight - 1)
    case Requeue =>
      var j := worker.job;
      Moved(p, Idle, j, p.items[j].(place := Queued)).(queue := p.queue + [j])
    case Lose => Moved(p, Idle, worker.job, p.items[worker.job].(place := Lost))
    case Admit => Turned(p, worker.(child := Admitted))
    case Refuse => Turned(p, worker.(left := worker.left[1..]))
    case CountChild(serial) =>
      Moved(p, worker.(child := Sending(serial)), serial, NewItem(worker.left[0], Counted(w)))
        .(inFlight := p.inFlight + 1)
    case SendChild =>
      var c := worker.child.serial;
      Moved(p, Spawning(worker.job, worker.left[1..], NoChild), c, p.items[c].(place := Queued))
        .(queue := p.queue + [c])
    case BounceChild =>
      var c := worker.child.serial;
      Moved(p, Spawning(worker.job, worker.left[1..], NoChild), c, p.items[c].(place := Rejected))
        .(inFlight := p.inFlight - 1)
    case Finish => Moved(p, Released, worker.job, p.items[worker.job].(place := Completed)).(inFlight := p.inFlight - 1)
    case ReadCount => Turned(p, if p.inFlight == 0 then Announcing else Idle)
    case Announce => Turned(p, Idle).(done := true)
  }

  function Acted(p: Pool, w: WorkerId, action: Action): Pool
    requires w in p.workers && CanAct(p, p.workers[w], action)
  {
    var c := Effect(p, w, action);
    p.(workers := p.workers[w := c.worker], items := c.items, queue := c.queue, inFlight := c.inFlight, done := c.done)
  }

  function Next(p: Pool, s: Step): Pool
    requires Enabled(p, s)
  {
    match s
    case Submit(serial, spec) =>
      if p.stopping then p
      else Move(p, serial, NewItem(spec, Queued)).(queue := p.queue + [serial], inFlight := p.inFlight + 1)
    case Start(workers) => p.(started := true, workers := map w | w in workers :: Idle)
    case Shutdown => p.(stopping := true)
    case BeginClose => p.(closing := true)
    case EndClose => p.(closed := true)
    case Act(w, action) => Acted(p, w, action)
  }

  /** Jobs that were in the channel before the pool was created are counted by its length. */
  predicate Initial(p: Pool) {
    && p.inFlight == |p.queue| && !p.done && !p.started && !p.stopping && !p.closing && !p.closed && p.workers == map[]
    && (forall i, j :: 0 <= i < j < |p.queue| ==> p.queue[i] != p.queue[j])
    && p.items.Keys == (set i | 0 <= i < |p.queue| :: p.queue[i])
    && (forall j :: j in p.items ==>
          p.items[j].place.Queued? && p.items[j].handled == 0 && p.items[j].start == p.items[j].attempts)
  }

  // ----- The invariant -----

  predicate LivePlace(place: Place) { place.Queued? || place.Held? || place.Counted? || place.Lost? }

  function Live(items: map<Serial, Item>): set<Serial> {
    set j | j in items && LivePlace(items[j].place)
  }

  function JobOf(w: Worker): Option<Serial> {
    match w
    case Handling(j) => Some(j)
    case Requeueing(j) => Some(j)
    case Spawning(j, _, _) => Some(j)
    case _ => None
  }

  function ChildOf(w: Worker): Option<Serial> {
    if w.Spawning? && w.child.Sending? then Some(w.child.serial) else None
  }

  predicate WorkerOk(p: Pool, w: WorkerId)
    requires w in p.workers
  {
    var worker := p.workers[w];
    && (JobOf(worker).Some? ==> JobOf(worker).value in p.items && p.items[JobOf(worker).value].place == Held(w))
    && (ChildOf(worker).Some? ==>
          ChildOf(worker).value in p.items && p.items[ChildOf(worker).value].place == Counted(w))
    && (worker.Spawning? && !worker.child.NoChild? ==> worker.left != [])
    && (worker.Requeueing? ==>
          var item := p.items[worker.job]; item.handled + item.start == item.attempts && item.attempts < item.max)
    && (worker.Handling? ==>
          var item := p.items[worker.job];
          item.handled > 0 && item.handled + item.start == item.attempts + 1
            && (item.handled == 1 || item.attempts < item.max))
    && (worker.Spawning? ==>
          var item := p.items[worker.job]; item.handled > 0 && item.handled + item.start == item.attempts + 1)
    && (worker.Announcing? ==> Live(p.items) == {})
    && (MidSubmit(worker) ==> !p.closing)
  }

  predicate ItemOk(p: Pool, j: Serial)
    requires j in p.items
  {
    var item := p.items[j];
    && !item.place.Rejected?
    && (item.handled <= 1 || item.handled <= item.max)
    && (item.place.Queued? ==>
          j in p.queue && item.handled + item.start == item.attempts && (item.handled == 0 || item.attempts < item.max))
    && (item.place.Held? ==> item.place.worker in p.workers && JobOf(p.workers[item.place.worker]) == Some(j))
    && (item.place.Counted? ==>
          item.place.worker in p.workers && ChildOf(p.workers[item.place.worker]) == Some(j) && item.handled == 0
            && item.start == item.attempts)
    && (item.place.Completed? ==> item.handled > 0 && item.handled + item.start == item.attempts + 1)
    && (item.place.Dead? ==>
          item.handled + item.start == item.attempts && item.handled > 0 && item.attempts >= item.max)
  }

  predicate SomeFinished(items: map<Serial, Item>) {
    exists j :: j in items && (items[j].place.Completed? || items[j].place.Dead?)
  }

  ghost predicate Inv(p: Pool) {
    && p.inFlight == |Live(p.items)|
    && (forall w {:trigger WorkerOk(p, w)} :: w in p.workers ==> WorkerOk(p, w))
    && (forall j {:trigger ItemOk(p, j)} :: j in p.items ==> ItemOk(p, j))
    && (forall i {:trigger p.queue[i]} :: 0 <= i < |p.queue| ==>
          p.queue[i] in p.items && p.items[p.queue[i]].place.Queued?)
    && (forall i, k :: 0 <= i < k < |p.queue| ==> p.queue[i] != p.queue[k])
    && (!p.started ==> p.workers == map[] && !SomeFinished(p.items))
    && (p.done ==> p.started && Live(p.items) == {})
    && (p.closed ==> p.closing) && (p.closing ==> p.stopping)
  }

  // ----- Every step keeps it -----

  lemma LiveAfter(items: map<Serial, Item>, j: Serial, item: Item)
    ensures var before, after := j in items && LivePlace(items[j].place), LivePlace(item.place);
            && |Live(items[j := item])| == |Live(items)| + (if after then 1 else 0) - (if before then 1 else 0)
            && (before == after ==> Live(items[j := item]) == Live(items))
  {
    var live, live' := Live(items), Live(items[j := item]);
    if LivePlace(item.place) {
      assert live' == live + {j};
    } else {
      assert live' == live - {j};
    }
  }

  /** The queue lists exactly waiting jobs, each once. */
  ghost predicate QueueOk(items: map<Serial, Item>, queue: seq<Serial>) {
    && (forall i {:trigger queue[i]} :: 0 <= i < |queue| ==> queue[i] in items && items[queue[i]].place.Queued?)
    && (forall i, k :: 0 <= i < k < |queue| ==> queue[i] != queue[k])
  }

  /** A step of one worker that touches one job. */
  lemma LocalStep(p: Pool, p': Pool, w: WorkerId, j: Serial)
    requires Inv(p) && p.started && w in p.workers && w in p'.workers && j in p'.items
    requires p'.workers == p.workers[w := p'.workers[w]] && p'.items == p.items[j := p'.items[j]]
    requires p'.started && p'.done == p.done && p'.closed == p.closed && p'.closing == p.closing
             && p'.stopping == p.stopping
    requires p'.inFlight == |Live(p'.items)| && QueueOk(p'.items, p'.queue)
    requires Live(p.items) == {} ==> Live(p'.items) == {}
    requires WorkerOk(p', w) && ItemOk(p', j)
    requires j in p.items ==> p.items[j].place in {Queued, Held(w), Counted(w)}
    requires JobOf(p.workers[w]) in {None, Some(j), JobOf(p'.workers[w])}
    requires ChildOf(p.workers[w]) in {None, Some(j), ChildOf(p'.workers[w])}
    requires forall k :: k in p.queue && k != j ==> k in p'.queue
    ensures Inv(p')
  {
    forall u | u in p'.workers ensures WorkerOk(p', u) {
      if u != w {
        assert WorkerOk(p, u);
      }
    }
    forall k | k in p'.items ensures ItemOk(p', k) {
      if k != j {
        assert ItemOk(p, k);
      }
    }
  }

  predicate Acts(p: Pool, w: WorkerId, action: Action) {
    w in p.workers && CanAct(p, p.workers[w], action)
  }

  lemma TakeKeeps(p: Pool, w: WorkerId)
    requires Inv(p) && Acts(p, w, Take)
    ensures Inv(Acted(p, w, Take))
  {
    var p', j := Acted(p, w, Take), p.queue[0];
    assert ItemOk(p, j) && WorkerOk(p, w);
    LiveAfter(p.items, j, p'.items[j]);
    assert j in Live(p.items);
    LocalStep(p, p', w, j);
  }

  /** A failed attempt with attempts left. */
  lemma RetryKeeps(p: Pool, w: WorkerId)
    requires Inv(p) && Acts(p, w, FailOnce) && Acted(p, w, FailOnce).workers[w].Requeueing?
    ensures Inv(Acted(p, w, FailOnce))
  {
    var p', j := Acted(p, w, FailOnce), p.workers[w].job;
    assert WorkerOk(p, w) && ItemOk(p, j);
    assert Live(p'.items) == Live(p.items) by { LiveAfter(p.items, j, p'.items[j]); }
    assert QueueOk(p'.items, p'.queue);
    assert ItemOk(p', j) && WorkerOk(p', w);
    LocalStep(p, p', w, j);
  }

  /** A failed attempt that was the last one. */
  lemma DeadLetterKeeps(p: Pool, w: WorkerId)
    requires Inv(p) && Acts(p, w, FailOnce) && Acted(p, w, FailOnce).workers[w].Released?
    ensures Inv(Acted(p, w, FailOnce))
  {
    var p', j := Acted(p, w, FailOnce), p.workers[w].job;
    assert WorkerOk(p, w) && ItemOk(p, j);
    assert j in Live(p.items);
    LiveAfter(p.items, j, p'.items[j]);
    assert ItemOk(p', j) && WorkerOk(p', w);
    LocalStep(p, p', w, j);
  }

  lemma FailKeeps(p: Pool, w: WorkerId)
    requires Inv(p) && Acts(p, w, FailOnce)
    ensures Inv(Acted(p, w, FailOnce))
  {
    if Acted(p, w, FailOnce).workers[w].Requeueing? {
      RetryKeeps(p, w);
    } else {
      DeadLetterKeeps(p, w);
    }
  }

  /** A job that is not in the queue is put at its end. */
  lemma QueueAppended(items: map<Serial, Item>, queue: seq<Serial>, j: Serial, item: Item)
    requires QueueOk(items, queue) && j in items && !items[j].place.Queued? && item.place.Queued?
    ensures QueueOk(items[j := item], queue + [j])
  {
  }

  lemma RequeueKeeps(p: Pool, w: WorkerId)
    requires Inv(p) && Acts(p, w, Requeue)
    ensures Inv(Acted(p, w, Requeue))
  {
    var p', j := Acted(p, w, Requeue), p.workers[w].job;
    assert WorkerOk(p, w) && ItemOk(p, j);
    assert Live(p'.items) == Live(p.items) by { LiveAfter(p.items, j, p'.items[j]); }
    QueueAppended(p.items, p.queue, j, p'.items[j]);
    assert ItemOk(p', j) by { assert p'.queue[|p.queue|] == j; }
    LocalStep(p, p', w, j);
  }

  lemma LoseKeeps(p: Pool, w: WorkerId)
    requires Inv(p) && Acts(p, w, Lose)
    ensures Inv(Acted(p, w, Lose))
  {
    var p', j := Acted(p, w, Lose), p.workers[w].job;
    assert WorkerOk(p, w) && ItemOk(p, j);
    assert Live(p'.items) == Live(p.items) by { LiveAfter(p.items, j, p'.items[j]); }
    LocalStep(p, p', w, j);
  }

  /** The queue closes only when no child is on its way into it, so a counted child is never bounced. */
  lemma NeverBounced(p: Pool, w: WorkerId)
    requires Inv(p)
    ensures !Acts(p, w, BounceChild)
  {
    if w in p.workers {
      assert WorkerOk(p, w);
    }
  }

  lemma SendKeeps(p: Pool, w: WorkerId)
    requires Inv(p) && Acts(p, w, SendChild)
    ensures Inv(Acted(p, w, SendChild))
  {
    var p', c := Acted(p, w, SendChild), p.workers[w].child.serial;
    assert WorkerOk(p, w) && ItemOk(p, c);
    assert c in Live(p.items);
    LiveAfter(p.items, c, p'.items[c]);
    QueueAppended(p.items, p.queue, c, p'.items[c]);
    assert ItemOk(p', c) by { assert p'.queue[|p.queue|] == c; }
    LocalStep(p, p', w, c);
  }

  lemma CountChildKeeps(p: Pool, w: WorkerId, serial: Serial)
    requires Inv(p) && Acts(p, w, CountChild(serial))
    ensures Inv(Acted(p, w, CountChild(serial)))
  {
    var p' := Acted(p, w, CountChild(serial));
    assert WorkerOk(p, w);
    assert p.workers[w].job in Live(p.items);
    LiveAfter(p.items, serial, p'.items[serial]);
    LocalStep(p, p', w, serial);
  }

  lemma FinishKeeps(p: Pool, w: WorkerId)
    requires Inv(p) && Acts(p, w, Finish)
    ensures Inv(Acted(p, w, Finish))
  {
    var p', j := Acted(p, w, Finish), p.workers[w].job;
    assert WorkerOk(p, w) && ItemOk(p, j);
    LiveAfter(p.items, j, p'.items[j]);
    assert j in Live(p.items);
    LocalStep(p, p', w, j);
  }

  /** A step of one worker that touches no job. */
  lemma QuietStep(p: Pool, p': Pool, w: WorkerId)
    requires Inv(p) && w in p.workers && w in p'.workers
             && p' == p.(workers := p.workers[w := p'.workers[w]], done := p'.done)
    requires WorkerOk(p', w)
    requires JobOf(p.workers[w]) == JobOf(p'.workers[w]) && ChildOf(p.workers[w]) == ChildOf(p'.workers[w])
    requires p'.done ==> p.done || Live(p.items) == {}
    ensures Inv(p')
  {
    forall u | u in p'.workers ensures WorkerOk(p', u) {
      if u != w {
        assert WorkerOk(p, u);
      }
    }
    forall j | j in p'.items ensures ItemOk(p', j) {
      assert ItemOk(p, j);
    }
  }

  lemma QuietKeeps(p: Pool, w: WorkerId, action: Action)
    requires Inv(p) && Acts(p, w, action)
    requires action.Exit? || action.Succeed? || action.Admit? || action.Refuse? || action.ReadCount? || action.Announce?
    ensures Inv(Acted(p, w, action))
  {
    assert WorkerOk(p, w);
    QuietStep(p, Acted(p, w, action), w);
  }

  lemma ActKeeps(p: Pool, w: WorkerId, action: Action)
    requires Inv(p) && Acts(p, w, action)
    ensures Inv(Acted(p, w, action))
  {
    match action
    case Take => TakeKeeps(p, w);
    case FailOnce => FailKeeps(p, w);
    case Requeue => RequeueKeeps(p, w);
    case Lose => LoseKeeps(p, w);
    case CountChild(serial) => CountChildKeeps(p, w, serial);
    case SendChild => SendKeeps(p, w);
    case BounceChild =>
      NeverBounced(p, w);
      assert false;
    case Finish => FinishKeeps(p, w);
    case _ => QuietKeeps(p, w, action);
  }

  lemma SubmitKeeps(p: Pool, serial: Serial, spec: Spec)
    requires Inv(p) && Enabled(p, Submit(serial, spec))
    ensures Inv(Next(p, Submit(serial, spec)))
  {
    var p' := Next(p, Submit(serial, spec));
    if !p.stopping {
      LiveAfter(p.items, serial, p'.items[serial]);
      assert p'.queue[|p.queue|] == serial;
      forall j | j in p'.items ensures ItemOk(p', j) {
        if j != serial {
          assert ItemOk(p, j);
        }
      }
    }
  }

  lemma ControlKeeps(p: Pool, s: Step)
    requires Inv(p) && Enabled(p, s) && (s.Start? || s.Shutdown? || s.BeginClose? || s.EndClose?)
    ensures Inv(Next(p, s))
  {
    var p' := Next(p, s);
    forall w | w in p'.workers ensures WorkerOk(p', w) {
      assert w in p.workers ==> WorkerOk(p, w);
    }
    forall j | j in p'.items ensures ItemOk(p', j) {
      assert ItemOk(p, j);
    }
  }

  lemma StepKeeps(p: Pool, s: Step)
    requires Inv(p) && Enabled(p, s)
    ensures Inv(Next(p, s))
  {
    if s.Submit? {
      SubmitKeeps(p, s.serial, s.spec);
    } else if s.Act? {
      ActKeeps(p, s.w, s.action);
    } else {
      ControlKeeps(p, s);
    }
  }

  lemma InitialInv(p: Pool)
    requires Initial(p)
    ensures Inv(p)
  {
    assert Live(p.items) == p.items.Keys;
    QueueCardinality(p.queue);
    forall j | j in p.items ensures ItemOk(p, j) {
    }
  }

  lemma {:induction false} QueueCardinality(queue: seq<Serial>)
    requires forall i, j :: 0 <= i < j < |queue| ==> queue[i] != queue[j]
    ensures |set i | 0 <= i < |queue| :: queue[i]| == |queue|
  {
    if queue != [] {
      var last := |queue| - 1;
      var rest := queue[..last];
      QueueCardinality(rest);
      assert (set i | 0 <= i < |queue| :: queue[i]) == (set i | 0 <= i < |rest| :: rest[i]) + {queue[last]};
    }
  }

  // ----- Whole runs -----

  ghost predicate Run(states: seq<Pool>, steps: seq<Step>) {
    && |states| == |steps| + 1 && Initial(states[0])
    && forall i {:trigger steps[i]} :: 0 <= i < |steps| ==>
       Enabled(states[i], steps[i]) && states[i + 1] == Next(states[i], steps[i])
  }

  lemma {:induction false} ReachableInv(states: seq<Pool>, steps: seq<Step>, i: nat)
    requires Run(states, steps) && i < |states|
    ensures Inv(states[i])
  {
    if i == 0 {
      InitialInv(states[0]);
    } else {
      ReachableInv(states, steps, i - 1);
      StepKeeps(states[i - 1], steps[i - 1]);
    }
  }

  lemma WaitingIsLive(p: Pool)
    requires Inv(p) && p.queue != []
    ensures p.queue[0] in Live(p.items)
  {
  }

  /**
   If done is announced, every job that was accepted, children included, was
   completed or dead-lettered, none is queued or in a worker's hands, and none
   was handled more often than its attempt limit allows. A completed job failed
   each time it was handled but once; a dead one failed every time, and its
   attempts are used up.
   */
  lemma DoneMeansDrained(states: seq<Pool>, steps: seq<Step>, i: nat)
    requires Run(states, steps) && i < |states| && states[i].done
    ensures states[i].queue == [] && forall w :: w in states[i].workers ==>
            JobOf(states[i].workers[w]).None? && ChildOf(states[i].workers[w]).None?
    ensures forall j :: j in states[i].items ==> states[i].items[j].place in {Completed, Dead}
    ensures forall j :: j in states[i].items ==>
            states[i].items[j].handled <= 1 || states[i].items[j].handled <= states[i].items[j].max
    ensures forall j :: j in states[i].items ==> var item := states[i].items[j];
            && item.handled > 0
            && (item.place.Completed? ==> item.attempts - item.start == item.handled - 1)
            && (item.place.Dead? ==> item.attempts - item.start == item.handled && item.attempts >= item.max)
  {
    var p := states[i];
    ReachableInv(states, steps, i);
    forall j | j in p.items
      ensures p.items[j].place in {Completed, Dead}
      ensures p.items[j].handled <= 1 || p.items[j].handled <= p.items[j].max
      ensures p.items[j].handled > 0
      ensures p.items[j].place.Completed? ==> p.items[j].attempts - p.items[j].start == p.items[j].handled - 1
      ensures p.items[j].place.Dead? ==>
              p.items[j].attempts - p.items[j].start == p.items[j].handled && p.items[j].attempts >= p.items[j].max
    {
      assert ItemOk(p, j);
      assert j !in Live(p.items);
    }
    if p.queue != [] {
      WaitingIsLive(p);
      assert false;
    }
    forall w | w in p.workers ensures JobOf(p.workers[w]).None? && ChildOf(p.workers[w]).None? {
      assert WorkerOk(p, w);
    }
  }

  // ----- No missed announcement -----

  predicate AboutToAnnounce(p: Pool) {
    exists w :: w in p.workers && OnItsWay(p.workers[w])
  }

  /** Once work has been finished and none is left, done is announced or a worker is on its way to announce it. */
  predicate Noticed(p: Pool) {
    p.started && SomeFinished(p.items) && Live(p.items) == {} ==> p.done || AboutToAnnounce(p)
  }

  predicate OnItsWay(worker: Worker) { worker.Released? || worker.Announcing? }

  /** With nothing live, a worker on its way stays on its way until it announces. */
  lemma StaysOnItsWay(p: Pool, w: WorkerId, action: Action)
    requires Inv(p) && Acts(p, w, action) && Live(p.items) == {} && OnItsWay(p.workers[w])
    ensures Acted(p, w, action).done || OnItsWay(Acted(p, w, action).workers[w])
  {
  }

  lemma StaysAnnouncing(p: Pool, w: WorkerId, action: Action)
    requires Inv(p) && Acts(p, w, action) && Live(p.items) == {} && AboutToAnnounce(p)
    ensures Acted(p, w, action).done || AboutToAnnounce(Acted(p, w, action))
  {
    var u :| u in p.workers && OnItsWay(p.workers[u]);
    if u != w {
      assert Acted(p, w, action).workers[u] == p.workers[u];
    } else {
      StaysOnItsWay(p, w, action);
    }
  }

  lemma NoticedStep(p: Pool, w: WorkerId, action: Action)
    requires Inv(p) && Noticed(p) && Acts(p, w, action)
    ensures Noticed(Acted(p, w, action))
  {
    var p' := Acted(p, w, action);
    assert WorkerOk(p, w);
    if Live(p.items) == {} {
      NothingLeftToMove(p, w, action);
      if AboutToAnnounce(p) {
        StaysAnnouncing(p, w, action);
      }
    } else if Live(p'.items) == {} {
      LastOneReleases(p, w, action);
      assert p'.workers[w].Released?;
    }
  }

  /** The step after which no job is live is the one that releases the last job. */
  lemma LastOneReleases(p: Pool, w: WorkerId, action: Action)
    requires Inv(p) && Acts(p, w, action) && Live(p.items) != {} && Live(Acted(p, w, action).items) == {}
    ensures Acted(p, w, action).workers[w].Released?
  {
    var p' := Acted(p, w, action);
    ActKeeps(p, w, action);
    assert WorkerOk(p, w) && WorkerOk(p', w);
    if JobOf(p'.workers[w]).Some? {
      HeldIsLive(p', w);
      assert false;
    }
    if action.Requeue? || action.Lose? {
      StillLive(p, w, action);
      assert false;
    }
  }

  lemma HeldIsLive(p: Pool, w: WorkerId)
    requires Inv(p) && w in p.workers && JobOf(p.workers[w]).Some?
    ensures JobOf(p.workers[w]).value in Live(p.items)
  {
    assert WorkerOk(p, w);
  }

  lemma StillLive(p: Pool, w: WorkerId, action: Action)
    requires Inv(p) && Acts(p, w, action) && (action.Requeue? || action.Lose?)
    ensures p.workers[w].job in Live(Acted(p, w, action).items)
  {
  }

  lemma NothingLeftToMove(p: Pool, w: WorkerId, action: Action)
    requires Inv(p) && Acts(p, w, action) && Live(p.items) == {}
    ensures Acted(p, w, action).items == p.items
  {
    if action.Take? {
      WaitingIsLive(p);
      assert false;
    }
    if JobOf(p.workers[w]).Some? {
      HeldIsLive(p, w);
      assert false;
    }
  }

  lemma {:induction false} DoneIsNotMissed(states: seq<Pool>, steps: seq<Step>, i: nat)
    requires Run(states, steps) && i < |states|
    ensures Noticed(states[i])
  {
    if i > 0 {
      DoneIsNotMissed(states, steps, i - 1);
      ReachableInv(states, steps, i - 1);
      var p, s := states[i - 1], steps[i - 1];
      if s.Act? {
        NoticedStep(p, s.w, s.action);
      } else {
        ControlNoticed(p, s);
      }
    }
  }

  lemma ControlNoticed(p: Pool, s: Step)
    requires Inv(p) && Noticed(p) && Enabled(p, s) && !s.Act?
    ensures Noticed(Next(p, s))
  {
  }
}
