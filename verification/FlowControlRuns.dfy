/**
  Every interleaving of submitters, removers and timer callbacks of FlowControlManager, while it is
  running. A thread is what it still has to do; sections are atomic; the clock only moves forward.
 */
module FlowControlRuns {
  import opened Wrappers
  import opened FlowControl

  datatype Thread =
    | Callback(timer: nat)  // the timer fired, ExecuteTask has not run yet
    | MustSchedule          // about to enter Schedule
    | MustArm               // in Schedule, between its two sections
    | MustCancel(id: nat)   // in Schedule, about to call pool->Remove
    | Done

  datatype Batch = Batch(at: int, tasks: seq<InnerTask>)

  datatype State = State(
    core: Core,
    threads: seq<Thread>,
    now: int,
    submitted: set<InnerTask>,
    batches: seq<Batch>,
    discarded: set<InnerTask>)

  datatype Step =
    | Submit(task: InnerTask, owes: bool)
    | Remove(filter: Option<TaskInfo -> bool>)
    | Tick(now: int)
    | Fire(timer: nat)
    | RunExecute(thread: nat, batch: seq<InnerTask>)
    | RunFirst(thread: nat)
    | RunArm(thread: nat)
    | RunCancel(thread: nat)

  predicate Init(s: State) {
    && s.core == Core({}, None, [])
    && s.threads == [] && s.submitted == {} && s.batches == [] && s.discarded == {}
  }

  predicate At(s: State, i: nat, t: Thread) {
    i < |s.threads| && s.threads[i] == t
  }

  ghost predicate Next(s: State, step: Step, s': State) {
    match step
    case Submit(task, owes) =>
      && (forall u | u in s.submitted :: u.id != task.id)
      && PushSection(s.core, task, owes, s'.core)
      && s' == s.(core := s'.core, submitted := s.submitted + {task},
                  threads := if owes then s.threads + [MustSchedule] else s.threads)
    case Remove(filter) =>
      && RemoveSection(s.core, filter, s'.core)
      && s' == s.(core := s'.core, threads := s.threads + [MustSchedule],
                  discarded := s.discarded + (s.core.tasks - s'.core.tasks))
    case Tick(now) =>
      s.now <= now && s' == s.(now := now)
    case Fire(i) =>
      && Fireable(s, i)
      && s' == s.(core := s.core.(timers := s.core.timers[i := Fired]), threads := s.threads + [Callback(i)])
    case RunExecute(i, batch) =>
      && i < |s.threads| && s.threads[i].Callback?
      && ExecuteSection(s.core, s.now, batch, s'.core)
      && s' == s.(core := s'.core, threads := s.threads[i := MustSchedule],
                  batches := if batch == [] then s.batches else s.batches + [Batch(s.now, batch)],
                  discarded := s.discarded + (set t | t in s.core.tasks - s'.core.tasks && t !in batch))
    case RunFirst(i) =>
      && At(s, i, MustSchedule)
      && var (core, cancel) := CancelSection(s.core);
         s' == s.(core := core, threads := s.threads[i := if cancel.Some? then MustCancel(cancel.value) else MustArm])
    case RunArm(i) =>
      && At(s, i, MustArm)
      && ArmSection(s.core, s.now, s'.core)
      && s' == s.(core := s'.core, threads := s.threads[i := Done])
    case RunCancel(i) =>
      && i < |s.threads| && s.threads[i].MustCancel?
      && s' == s.(core := CancelTimer(s.core, s.threads[i].id), threads := s.threads[i := Done])
  }

  predicate Fireable(s: State, i: nat) {
    i < |s.core.timers| && s.core.timers[i].Pending? && s.core.timers[i].deadline <= s.now
  }

  /** The steps the pool and its threads take on their own, without a new call or the passing of time. */
  predicate Internal(step: Step) {
    !step.Submit? && !step.Remove? && !step.Tick?
  }

  ghost predicate Successor(s: State, s': State) {
    exists step :: Next(s, step, s')
  }

  ghost predicate IsRun(run: seq<State>) {
    && |run| > 0 && Init(run[0])
    && forall i | 0 <= i < |run| - 1 :: Successor(run[i], run[i + 1])
  }

  // ---- No lost wakeup -------------------------------------------------------------------------

  /**
    A pending timer that no thread is about to cancel rings no later than the earliest queued task,
    or at once if that is overdue.
   */
  predicate Covers(s: State, i: nat) {
    && i < |s.core.timers| && s.core.timers[i].Pending?
    && MustCancel(i) !in s.threads
    && forall t | t in s.core.tasks :: s.core.timers[i].deadline <= Max(s.now, t.time)
  }

  predicate WillSchedule(t: Thread) {
    t.Callback? || t.MustSchedule? || t.MustArm?
  }

  ghost predicate NoLostWakeup(s: State) {
    s.core.tasks != {} ==>
      || (exists i: nat :: Covers(s, i))
      || (exists i: nat :: i < |s.threads| && WillSchedule(s.threads[i]))
  }

  /** The recorded timer is pending, or its callback has yet to clear the record. */
  ghost predicate TimerRecord(s: State) {
    s.core.taskId.Some? ==>
      var id := s.core.taskId.value;
      && id < |s.core.timers|
      && !s.core.timers[id].Cancelled?
      && (s.core.timers[id].Fired? ==> exists i: nat :: At(s, i, Callback(id)))
  }

  /** No thread is about to cancel the recorded timer. */
  ghost predicate CancelsOldTimers(s: State) {
    forall i: nat | i < |s.threads| && s.threads[i].MustCancel? ::
      && s.threads[i].id < |s.core.timers|
      && s.core.taskId != Some(s.threads[i].id)
  }

  ghost predicate TimerInv(s: State) {
    TimerRecord(s) && CancelsOldTimers(s) && NoLostWakeup(s)
  }

  // ---- Conservation ---------------------------------------------------------------------------

  function Elements(batch: Batch): set<InnerTask> {
    set t | t in batch.tasks
  }

  ghost predicate Dispatched(s: State, t: InnerTask) {
    exists i :: 0 <= i < |s.batches| && t in s.batches[i].tasks
  }

  /** A dispatched batch is in due order, without repeats, and each of its tasks was due. */
  ghost predicate FairBatch(b: Batch, now: int) {
    && b.at <= now
    && DueOrder(b.tasks) && NoRepeats(b.tasks)
    && forall t | t in b.tasks :: !t.isNull && t.time <= b.at
  }

  ghost predicate Conserved(s: State) {
    && (forall t :: t in s.submitted <==> t in s.core.tasks || t in s.discarded || Dispatched(s, t))
    && s.core.tasks !! s.discarded
    && (forall t :: Dispatched(s, t) ==> t !in s.core.tasks && t !in s.discarded)
    && (forall i, j | 0 <= i < j < |s.batches| :: Elements(s.batches[i]) !! Elements(s.batches[j]))
    && (forall i | 0 <= i < |s.batches| :: FairBatch(s.batches[i], s.now))
  }

  // ---- Proofs ---------------------------------------------------------------------------------

  lemma RecordKept(s: State, step: Step, s': State)
    requires TimerRecord(s) && CancelsOldTimers(s) && Next(s, step, s')
    ensures TimerRecord(s')
  {
    if s'.core.taskId.Some? && s.core.taskId == s'.core.taskId {
      var id := s.core.taskId.value;
      if s.core.timers[id].Fired? {
        var i: nat :| At(s, i, Callback(id));
        assert At(s', i, Callback(id));
      } else if s'.core.timers[id].Fired? {
        assert At(s', |s.threads|, Callback(id));
      }
    }
  }

  lemma CancelsKept(s: State, step: Step, s': State)
    requires TimerRecord(s) && CancelsOldTimers(s) && Next(s, step, s')
    ensures CancelsOldTimers(s')
  {
  }

  /** Neither a task that is not at the top nor the passing of time uncovers the queue. */
  lemma WakeupAfterLaterTask(s: State, s': State, u: InnerTask)
    requires NoLostWakeup(s) && s'.threads == s.threads && s'.core.timers == s.core.timers
    requires s.now <= s'.now && u in s.core.tasks && Earliest(u, s'.core.tasks)
    ensures NoLostWakeup(s')
  {
    if i: nat :| Covers(s, i) {
      assert Covers(s', i);
    }
  }

  lemma WakeupAfterArm(s: State, i: nat, s': State)
    requires TimerInv(s) && Next(s, RunArm(i), s') && s.core.tasks != {}
    ensures NoLostWakeup(s')
  {
    if s.core.taskId.Some? && s.core.timers[s.core.taskId.value].Fired? {
      var j: nat :| At(s, j, Callback(s.core.taskId.value));
      assert WillSchedule(s'.threads[j]);
    } else {
      assert Covers(s', s'.core.taskId.value);
    }
  }

  lemma WakeupAfterCancel(s: State, i: nat, s': State)
    requires NoLostWakeup(s) && Next(s, RunCancel(i), s') && s.core.tasks != {}
    ensures NoLostWakeup(s')
  {
    if k: nat :| Covers(s, k) {
      assert Covers(s', k);
    } else {
      var j: nat :| j < |s.threads| && WillSchedule(s.threads[j]);
      assert WillSchedule(s'.threads[j]);
    }
  }

  lemma WakeupKept(s: State, step: Step, s': State)
    requires TimerInv(s) && Next(s, step, s')
    ensures NoLostWakeup(s')
  {
    if s'.core.tasks != {} {
      match step
      case Submit(task, owes) =>
        if owes {
          assert WillSchedule(s'.threads[|s.threads|]);
        } else {
          var u :| u in s.core.tasks && Earliest(u, s'.core.tasks);
          WakeupAfterLaterTask(s, s', u);
        }
      case Remove(_) => assert WillSchedule(s'.threads[|s.threads|]);
      case Tick(_) =>
        EarliestExists(s.core.tasks);
        var u :| Earliest(u, s.core.tasks);
        WakeupAfterLaterTask(s, s', u);
      case Fire(_) => assert WillSchedule(s'.threads[|s.threads|]);
      case RunExecute(i, _) => assert WillSchedule(s'.threads[i]);
      case RunFirst(i) => assert WillSchedule(s'.threads[i]);
      case RunArm(i) => WakeupAfterArm(s, i, s');
      case RunCancel(i) => WakeupAfterCancel(s, i, s');
    }
  }

  lemma DispatchedAfter(s: State, s': State, batch: seq<InnerTask>)
    requires s'.batches == if batch == [] then s.batches else s.batches + [Batch(s.now, batch)]
    ensures forall t :: Dispatched(s', t) <==> Dispatched(s, t) || t in batch
  {
    forall t ensures Dispatched(s', t) <==> Dispatched(s, t) || t in batch {
      if Dispatched(s, t) {
        var i :| 0 <= i < |s.batches| && t in s.batches[i].tasks;
        assert t in s'.batches[i].tasks;
      }
      if t in batch {
        assert t in s'.batches[|s.batches|].tasks;
      }
    }
  }

  lemma ConservedKept(s: State, step: Step, s': State)
    requires Conserved(s) && Next(s, step, s')
    ensures Conserved(s')
  {
    match step
    case RunExecute(_, batch) =>
      DispatchedAfter(s, s', batch);
      forall i, j | 0 <= i < j < |s'.batches| ensures Elements(s'.batches[i]) !! Elements(s'.batches[j]) {
        if j == |s.batches| {
          forall t | t in Elements(s'.batches[i]) ensures t !in batch {
            assert Dispatched(s, t);
          }
        }
      }
    case Submit(task, _) =>
      DispatchedAfter(s, s', []);
      assert task !in s.submitted;
    case _ => DispatchedAfter(s, s', []);
  }

  /** No lost wakeup and conservation in every state of every interleaving. */
  lemma {:induction false} RunsAreSafe(run: seq<State>, k: nat)
    requires IsRun(run) && k < |run|
    ensures TimerInv(run[k]) && Conserved(run[k])
  {
    if k == 0 {
    } else {
      RunsAreSafe(run, k - 1);
      assert Successor(run[k - 1], run[k - 1 + 1]);
      var step :| Next(run[k - 1], step, run[k]);
      RecordKept(run[k - 1], step, run[k]);
      CancelsKept(run[k - 1], step, run[k]);
      WakeupKept(run[k - 1], step, run[k]);
      ConservedKept(run[k - 1], step, run[k]);
    }
  }

  // ---- What is removed ------------------------------------------------------------------------

  /** Remove discards the queued tasks that match its filter, or all without one, and keeps the others. */
  lemma RemoveDiscardsMatching(s: State, filter: Option<TaskInfo -> bool>, s': State, t: InnerTask)
    requires Next(s, Remove(filter), s') && t in s.core.tasks
    ensures t in s'.core.tasks <==> filter.Some? && !filter.value(t.info)
    ensures t in s'.core.tasks || t in s'.discarded
    ensures s'.discarded - s.discarded <= s.core.tasks && s'.batches == s.batches
  {
  }

  /** Step j of the run removed `t` from the queue, because its filter matched or there was none. */
  ghost predicate RemovedAt(run: seq<State>, j: nat, t: InnerTask)
    requires j + 1 < |run|
  {
    exists filter: Option<TaskInfo -> bool> ::
      && Next(run[j], Remove(filter), run[j + 1])
      && t in run[j].core.tasks && (filter.None? || filter.value(t.info))
  }

  /** In every run, a real task is discarded exactly when a Remove matched it while it was queued. */
  lemma {:induction false} DiscardedIff(run: seq<State>, k: nat, t: InnerTask)
    requires IsRun(run) && k < |run| && !t.isNull
    ensures t in run[k].discarded <==> exists j: nat | j < k :: RemovedAt(run, j, t)
  {
    if k == 0 {
    } else {
      DiscardedIff(run, k - 1, t);
      assert Successor(run[k - 1], run[k - 1 + 1]);
      var step :| Next(run[k - 1], step, run[k]);
      DiscardStep(run, k - 1, step, t);
    }
  }

  lemma DiscardStep(run: seq<State>, j: nat, step: Step, t: InnerTask)
    requires j + 1 < |run| && Next(run[j], step, run[j + 1]) && !t.isNull
    ensures t in run[j + 1].discarded <==> t in run[j].discarded || RemovedAt(run, j, t)
  {
    var s, s' := run[j], run[j + 1];
    if RemovedAt(run, j, t) {
      var filter: Option<TaskInfo -> bool> :| Next(s, Remove(filter), s')
        && t in s.core.tasks && (filter.None? || filter.value(t.info));
      RemoveDiscardsMatching(s, filter, s', t);
    }
    if t in s'.discarded && t !in s.discarded {
      assert step.Remove? && t in s.core.tasks && (step.filter.None? || step.filter.value(t.info));
    }
  }

  // ---- Timers that are given up ---------------------------------------------------------------

  /** A timer recorded for an empty queue: some thread will find that and give it up. */
  ghost predicate IdleTimer(s: State) {
    s.core.tasks == {} && s.core.taskId.Some? ==>
      exists i: nat :: i < |s.threads| && (s.threads[i].Callback? || s.threads[i].MustSchedule?)
  }

  lemma IdleKept(s: State, step: Step, s': State)
    requires IdleTimer(s) && Next(s, step, s')
    ensures IdleTimer(s')
  {
    if s'.core.tasks == {} && s'.core.taskId.Some? {
      if step.Remove? {
        assert s'.threads[|s.threads|].MustSchedule?;
      } else {
        var i: nat :| i < |s.threads| && (s.threads[i].Callback? || s.threads[i].MustSchedule?);
        assert s'.threads[i] == s.threads[i];
      }
    }
  }

  /** In every run, a scheduler with nothing queued and no thread on its way records no timer. */
  lemma {:induction false} IdleRunsRecordNone(run: seq<State>, k: nat)
    requires IsRun(run) && k < |run|
    ensures IdleTimer(run[k])
    ensures run[k].core.tasks == {} && (forall i | 0 <= i < |run[k].threads| :: run[k].threads[i] == Done) ==>
      run[k].core.taskId == None
  {
    if k == 0 {
    } else {
      IdleRunsRecordNone(run, k - 1);
      assert Successor(run[k - 1], run[k - 1 + 1]);
      var step :| Next(run[k - 1], step, run[k]);
      IdleKept(run[k - 1], step, run[k]);
    }
  }

  /** The thread that gives a timer up goes on to cancel just that timer. */
  lemma GivenUpIsCancelled(s: State, i: nat, s': State)
    requires Next(s, RunFirst(i), s')
    ensures s'.core.taskId != s.core.taskId <==> s.core.tasks == {} && s.core.taskId.Some?
    ensures s'.core.taskId != s.core.taskId ==> s'.core.taskId == None && At(s', i, MustCancel(s.core.taskId.value))
    ensures s'.core.taskId == s.core.taskId ==> At(s', i, MustArm)
  {
  }

  /** A timer that has fired or was cancelled stays as it is. */
  lemma TimerIsOver(s: State, step: Step, s': State, id: nat)
    requires Next(s, step, s') && id < |s.core.timers| && !s.core.timers[id].Pending?
    ensures id < |s'.core.timers| && s'.core.timers[id] == s.core.timers[id]
  {
  }

  /** In every run, a timer that a thread has cancelled never rings afterwards. */
  lemma {:induction false} CancelIsFinal(run: seq<State>, j: nat, k: nat, i: nat)
    requires IsRun(run) && j < k < |run| && Next(run[j], RunCancel(i), run[j + 1])
    ensures var id := run[j].threads[i].id;
      && id < |run[j].core.timers| && id < |run[k].core.timers| && !run[k].core.timers[id].Pending?
      && (run[j].core.timers[id].Pending? ==> run[k].core.timers[id].Cancelled?)
    decreases k
  {
    if k == j + 1 {
      RunsAreSafe(run, j);
    } else {
      CancelIsFinal(run, j, k - 1, i);
      assert Successor(run[k - 1], run[k - 1 + 1]);
      var step :| Next(run[k - 1], step, run[k]);
      TimerIsOver(run[k - 1], step, run[k], run[j].threads[i].id);
    }
  }
}
