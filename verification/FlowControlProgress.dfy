/**
  Progress of the scheduler: left alone at any instant, the pool and its threads come to rest after
  a bounded number of sections, and then no task that is due is still queued.
 */
module FlowControlProgress {
  import opened Wrappers
  import opened FlowControl
  import opened FlowControlRuns

  predicate Overdue(s: State) {
    exists t | t in s.core.tasks :: t.time <= s.now
  }

  /** An overdue queue makes a thread's Schedule call count for the callback it is going to cause. */
  function ThreadCost(t: Thread, overdue: bool): nat {
    match t
    case Callback(_) => 3
    case MustSchedule => if overdue then 6 else 2
    case MustArm => if overdue then 5 else 1
    case MustCancel(_) => 1
    case Done => 0
  }

  function TimerCost(t: Timer, now: int): nat {
    if t.Pending? && t.deadline <= now then 4 else 0
  }

  function ThreadsCost(ts: seq<Thread>, overdue: bool): nat {
    if ts == [] then 0 else ThreadsCost(ts[..|ts| - 1], overdue) + ThreadCost(ts[|ts| - 1], overdue)
  }

  function TimersCost(ts: seq<Timer>, now: int): nat {
    if ts == [] then 0 else TimersCost(ts[..|ts| - 1], now) + TimerCost(ts[|ts| - 1], now)
  }

  /** How many sections can still run without a new call or the passing of time. */
  function Cost(s: State): nat {
    ThreadsCost(s.threads, Overdue(s)) + TimersCost(s.core.timers, s.now)
  }

  predicate AtRest(s: State) {
    && (forall i | 0 <= i < |s.threads| :: s.threads[i] == Done)
    && (forall i: nat | i < |s.core.timers| :: !Fireable(s, i))
  }

  ghost predicate InternalRun(run: seq<State>) {
    && |run| > 0
    && forall i | 0 <= i < |run| - 1 :: InternalSuccessor(run[i], run[i + 1])
  }

  ghost predicate InternalSuccessor(s: State, s': State) {
    exists step :: Internal(step) && Next(s, step, s')
  }

  lemma {:induction false} ThreadReplaced(ts: seq<Thread>, i: nat, t: Thread, overdue: bool)
    requires i < |ts|
    ensures ThreadsCost(ts[i := t], overdue)
         == ThreadsCost(ts, overdue) - ThreadCost(ts[i], overdue) + ThreadCost(t, overdue)
  {
    var last := |ts| - 1;
    if i == last {
      assert ts[i := t][..last] == ts[..last];
    } else {
      assert ts[i := t][..last] == ts[..last][i := t];
      ThreadReplaced(ts[..last], i, t, overdue);
    }
  }

  lemma {:induction false} TimerReplaced(ts: seq<Timer>, i: nat, t: Timer, now: int)
    requires i < |ts|
    ensures TimersCost(ts[i := t], now) == TimersCost(ts, now) - TimerCost(ts[i], now) + TimerCost(t, now)
  {
    var last := |ts| - 1;
    if i == last {
      assert ts[i := t][..last] == ts[..last];
    } else {
      assert ts[i := t][..last] == ts[..last][i := t];
      TimerReplaced(ts[..last], i, t, now);
    }
  }

  lemma {:induction false} CheaperWhenNotOverdue(ts: seq<Thread>)
    ensures ThreadsCost(ts, false) <= ThreadsCost(ts, true)
  {
    if ts == [] {
    } else {
      CheaperWhenNotOverdue(ts[..|ts| - 1]);
    }
  }

  lemma ArmCost(s: State, i: nat, s': State)
    requires Next(s, RunArm(i), s')
    ensures Cost(s') < Cost(s)
  {
    ThreadReplaced(s.threads, i, Done, Overdue(s));
    if s.core.tasks != {} {
      var top :| Earliest(top, s.core.tasks) && s'.core == Arm(s.core, Max(s.now, top.time));
      var timer := Pending(Max(s.now, top.time));
      assert TimerCost(timer, s.now) == if Overdue(s) then 4 else 0;
      if s.core.taskId.None? {
        assert (s.core.timers + [timer])[..|s.core.timers|] == s.core.timers;
      } else if s'.core != s.core {
        TimerReplaced(s.core.timers, s.core.taskId.value, timer, s.now);
      }
    }
  }

  /** Every section the pool runs on its own uses up some of the cost. */
  lemma InternalStepsCost(s: State, step: Step, s': State)
    requires Internal(step) && Next(s, step, s')
    ensures Cost(s') < Cost(s)
  {
    match step
    case Fire(i) =>
      TimerReplaced(s.core.timers, i, Fired, s.now);
      assert s'.threads[..|s.threads|] == s.threads;
    case RunExecute(i, _) =>
      ThreadReplaced(s.threads, i, MustSchedule, false);
      CheaperWhenNotOverdue(s.threads);
    case RunFirst(i) =>
      ThreadReplaced(s.threads, i, s'.threads[i], Overdue(s));
    case RunArm(i) =>
      ArmCost(s, i, s');
    case RunCancel(i) =>
      ThreadReplaced(s.threads, i, Done, Overdue(s));
      if s'.core != s.core {
        TimerReplaced(s.core.timers, s.threads[i].id, Cancelled, s.now);
      }
  }

  /** The pop loop has an outcome for every queue. */
  lemma PoppedExists(q: set<InnerTask>, now: int) returns (batch: seq<InnerTask>, rest: set<InnerTask>)
    ensures Popped(q, now, batch, rest)
  {
    batch, rest := [], q;
    while rest != {}
      invariant rest <= q && DueOrder(batch) && NoRepeats(batch)
      invariant forall t :: t in batch <==> t in q - rest && !t.isNull && t.time <= now
      invariant forall t | t in q - rest :: t.isNull || t.time <= now
      invariant forall t, u | t in q - rest && u in rest :: t.time <= u.time
      decreases rest
    {
      EarliestExists(rest);
      var top :| Earliest(top, rest);
      if top.isNull {
        rest := rest - {top};
      } else if top.time <= now {
        batch, rest := batch + [top], rest - {top};
      } else {
        assert Earliest(top, rest) && !top.isNull;
        break;
      }
    }
  }

  /** The system is at rest exactly when no section can run. */
  lemma RestIsNoStep(s: State)
    ensures AtRest(s) <==> !exists s' :: InternalSuccessor(s, s')
  {
    if i :| 0 <= i < |s.threads| && s.threads[i] != Done {
      match s.threads[i]
      case Callback(_) =>
        var batch, rest := PoppedExists(s.core.tasks, s.now);
        var core := Core(rest, None, s.core.timers);
        var s' := s.(core := core, threads := s.threads[i := MustSchedule],
                     batches := if batch == [] then s.batches else s.batches + [Batch(s.now, batch)],
                     discarded := s.discarded + (set t | t in s.core.tasks - rest && t !in batch));
        assert Next(s, RunExecute(i, batch), s');
        assert InternalSuccessor(s, s');
      case MustSchedule =>
        var (core, cancel) := CancelSection(s.core);
        var s' := s.(core := core,
                     threads := s.threads[i := if cancel.Some? then MustCancel(cancel.value) else MustArm]);
        assert Next(s, RunFirst(i), s');
        assert InternalSuccessor(s, s');
      case MustArm =>
        var core := s.core;
        if s.core.tasks != {} {
          EarliestExists(s.core.tasks);
          var top :| Earliest(top, s.core.tasks);
          core := Arm(s.core, Max(s.now, top.time));
        }
        var s' := s.(core := core, threads := s.threads[i := Done]);
        assert Next(s, RunArm(i), s');
        assert InternalSuccessor(s, s');
      case MustCancel(id) =>
        var s' := s.(core := CancelTimer(s.core, id), threads := s.threads[i := Done]);
        assert Next(s, RunCancel(i), s');
        assert InternalSuccessor(s, s');
    } else if i: nat :| Fireable(s, i) {
      var s' := s.(core := s.core.(timers := s.core.timers[i := Fired]), threads := s.threads + [Callback(i)]);
      assert Next(s, Fire(i), s');
      assert InternalSuccessor(s, s');
    }
  }

  lemma {:induction false} InternalRunsAreShort(run: seq<State>)
    requires InternalRun(run)
    ensures |run| - 1 <= Cost(run[0])
  {
    if |run| > 1 {
      assert InternalSuccessor(run[0], run[1]);
      var step :| Internal(step) && Next(run[0], step, run[1]);
      InternalStepsCost(run[0], step, run[1]);
      forall i | 0 <= i < |run[1..]| - 1 ensures InternalSuccessor(run[1..][i], run[1..][i + 1]) {
        assert InternalSuccessor(run[i + 1], run[i + 1 + 1]);
      }
      InternalRunsAreShort(run[1..]);
    }
  }

  /** In a reachable state at rest, whatever is due has left the queue. */
  lemma NothingDueAtRest(run: seq<State>)
    requires IsRun(run) && AtRest(run[|run| - 1])
    ensures var s := run[|run| - 1];
      forall t | t in s.submitted && t.time <= s.now :: t in s.discarded || Dispatched(s, t)
  {
    var s := run[|run| - 1];
    RunsAreSafe(run, |run| - 1);
    if s.core.tasks != {} {
      var i: nat :| Covers(s, i);
      assert s.now < s.core.timers[i].deadline by { assert !Fireable(s, i); }
    }
  }

  /**
    No due task waits for ever: from any reachable state, whatever sections run on their own, at most
    Cost many of them do, and once they can run no further every queued task that was due has been
    dispatched, or dropped if it was null.
   */
  lemma DueTasksLeave(run: seq<State>, tail: seq<State>)
    requires IsRun(run) && InternalRun(tail) && tail[0] == run[|run| - 1]
    ensures |tail| - 1 <= Cost(tail[0])
    ensures var s := tail[|tail| - 1];
      (!exists s' :: InternalSuccessor(s, s')) ==>
        forall t | t in tail[0].core.tasks && t.time <= tail[0].now ::
          if t.isNull then t in s.discarded else Dispatched(s, t)
  {
    InternalRunsAreShort(tail);
    RunsAreSafe(run, |run| - 1);
    var s := tail[|tail| - 1];
    var whole := run + tail[1..];
    forall i | 0 <= i < |whole| - 1 ensures Successor(whole[i], whole[i + 1]) {
      if i < |run| - 1 {
        assert Successor(run[i], run[i + 1]);
      } else {
        var k := i - (|run| - 1);
        assert whole[i] == tail[k] && whole[i + 1] == tail[k + 1];
        assert InternalSuccessor(tail[k], tail[k + 1]);
      }
    }
    assert whole[|whole| - 1] == s;
    InternalRunKeeps(tail, |tail| - 1);
    RestIsNoStep(s);
    if AtRest(s) {
      NothingDueAtRest(whole);
      RunsAreSafe(whole, |whole| - 1);
    }
  }

  lemma {:induction false} InternalRunKeeps(tail: seq<State>, k: nat)
    requires InternalRun(tail) && k < |tail|
    ensures tail[k].submitted == tail[0].submitted && tail[k].now == tail[0].now
    ensures forall t | t in tail[k].discarded :: t in tail[0].discarded || t.isNull
  {
    if k == 0 {
    } else {
      InternalRunKeeps(tail, k - 1);
      assert InternalSuccessor(tail[k - 1], tail[k - 1 + 1]);
    }
  }
}
