/**
  Retries of cloud syncs in service/cloud/sync_manager.

  A sync attempt is a task of the executor. Its databases report back through a retryer that remembers
  the attempt's `times` and its SyncInfo, whose id all retries of one sync share. Reports may come late,
  from several databases, and more than once.
 */
module SyncRetry {
  import opened Wrappers

  const RETRY_TIMES := 6
  const CLIENT_RETRY_TIMES := 3

  const E_OK := 0
  const E_NETWORK_ERROR := 2
  const E_SYNC_TASK_MERGED := 24

  datatype Origin = Internal | Client(autoRetry: bool)

  /** A task that was removed has never run. */
  datatype Status = Waiting | Running | Ended | Removed

  /** `parent` is the attempt whose retryer scheduled this one; `ticket` is the id that actives_ holds. */
  datatype Task = Task(
    info: nat,
    times: nat,
    origin: Origin,
    parent: Option<nat>,
    ticket: Option<nat>,
    status: Status)

  /** `nextId` is the counter behind GenerateId, which serves SyncInfo ids and tickets alike. */
  datatype Manager = Manager(activeInfos: map<nat, nat>, actives: set<nat>, nextId: nat, tasks: seq<Task>)

  datatype Action = ACTION_DEFAULT | ACTION_RETRY_SYNC_TASK

  function FirstTimes(origin: Origin): nat {
    match origin
    case Internal => 0
    case Client(autoRetry) => if autoRetry then RETRY_TIMES - CLIENT_RETRY_TIMES else RETRY_TIMES
  }

  /** The condition under which a retryer asks for another attempt. */
  predicate WantsRetry(times: nat, code: int, action: Action) {
    && times < RETRY_TIMES
    && code != E_OK && code != E_SYNC_TASK_MERGED
    && (code == E_NETWORK_ERROR || action == ACTION_RETRY_SYNC_TASK)
  }

  /** A new SyncInfo, and the task for its first attempt; only internal syncs are tracked in actives_. */
  function Submit(m: Manager, origin: Origin): Manager {
    var info, ticket := m.nextId, m.nextId + 1;
    if origin.Internal? then
      m.(nextId := m.nextId + 2, actives := m.actives + {ticket},
         tasks := m.tasks + [Task(info, FirstTimes(origin) + 1, origin, None, Some(ticket), Waiting)])
    else
      m.(nextId := m.nextId + 1, tasks := m.tasks + [Task(info, FirstTimes(origin) + 1, origin, None, None, Waiting)])
  }

  function SetStatus(m: Manager, i: nat, status: Status): Manager
    requires i < |m.tasks|
  {
    m.(tasks := m.tasks[i := m.tasks[i].(status := status)])
  }

  function Start(m: Manager, i: nat): Manager
    requires i < |m.tasks|
  {
    SetStatus(m, i, Running).(activeInfos := m.activeInfos - {m.tasks[i].info})
  }

  /** The executor destroys a task that has run; its ticket goes with it. */
  function End(m: Manager, i: nat): Manager
    requires i < |m.tasks|
  {
    Drop(m, i, Ended)
  }

  /** The executor destroys a task that waits. Its ticket goes with it, but its id stays in activeInfos_. */
  function Remove(m: Manager, i: nat): Manager
    requires i < |m.tasks|
  {
    Drop(m, i, Removed)
  }

  function Drop(m: Manager, i: nat, status: Status): Manager
    requires i < |m.tasks|
  {
    var ticket := m.tasks[i].ticket;
    SetStatus(m, i, status).(actives := if ticket.Some? then m.actives - {ticket.value} else m.actives)
  }

  /** A call of attempt i's retryer. */
  function Report(m: Manager, i: nat, code: int, action: Action): Manager
    requires i < |m.tasks|
  {
    var t := m.tasks[i];
    if !WantsRetry(t.times, code, action) || t.info in m.activeInfos then m
    else m.(nextId := m.nextId + 1, actives := m.actives + {m.nextId}, activeInfos := m.activeInfos[t.info := m.nextId],
            tasks := m.tasks + [Task(t.info, t.times + 1, t.origin, Some(i), Some(m.nextId), Waiting)])
  }

  // ---- Runs -------------------------------------------------------------------------------------

  datatype Step =
    | DoSubmit(origin: Origin)
    | DoStart(task: nat)
    | DoEnd(task: nat)      // the task has returned
    | DoRemove(task: nat)   // executor->Remove of a task that waits
    | DoReport(task: nat, code: int, action: Action)

  predicate HasRun(t: Task) {
    t.status.Running? || t.status.Ended?
  }

  ghost predicate Next(m: Manager, step: Step, m': Manager) {
    match step
    case DoSubmit(origin) => m' == Submit(m, origin)
    case DoStart(i) => i < |m.tasks| && m.tasks[i].status.Waiting? && m' == Start(m, i)
    case DoEnd(i) => i < |m.tasks| && m.tasks[i].status.Running? && m' == End(m, i)
    case DoRemove(i) => i < |m.tasks| && m.tasks[i].status.Waiting? && m.tasks[i].ticket.Some? && m' == Remove(m, i)
    case DoReport(i, code, action) =>
      i < |m.tasks| && HasRun(m.tasks[i]) && m' == Report(m, i, code, action)
  }

  ghost predicate Successor(m: Manager, m': Manager) {
    exists step :: Next(m, step, m')
  }

  ghost predicate IsRun(run: seq<Manager>) {
    && |run| > 0 && run[0] == Manager(map[], {}, 0, [])
    && forall i | 0 <= i < |run| - 1 :: Successor(run[i], run[i + 1])
  }

  /** A retry that is pending, or was removed while it was. */
  predicate UnstartedRetry(m: Manager, i: nat) {
    i < |m.tasks| && m.tasks[i].parent.Some? && (m.tasks[i].status.Waiting? || m.tasks[i].status.Removed?)
  }

  ghost predicate RetriesDiffer(m: Manager) {
    forall i: nat, j: nat | UnstartedRetry(m, i) && UnstartedRetry(m, j) && m.tasks[i].info == m.tasks[j].info :: i == j
  }

  ghost predicate RetriesMarked(m: Manager) {
    forall i: nat | UnstartedRetry(m, i) ::
      m.tasks[i].info in m.activeInfos && m.tasks[i].ticket == Some(m.activeInfos[m.tasks[i].info])
  }

  predicate RetryOf(m: Manager, id: nat, i: nat) {
    UnstartedRetry(m, i) && m.tasks[i].info == id
  }

  ghost predicate MarksAreRetries(m: Manager) {
    forall id | id in m.activeInfos :: exists i: nat :: RetryOf(m, id, i)
  }

  /**
    Per sync id at most one retry is pending or removed, and just then the id is in activeInfos_, with
    the ticket of that retry.
   */
  ghost predicate OneRetry(m: Manager) {
    RetriesDiffer(m) && RetriesMarked(m) && MarksAreRetries(m)
  }

  /** A sync has one first attempt. */
  ghost predicate OneFirst(m: Manager) {
    forall i: nat, j: nat | i < |m.tasks| && j < |m.tasks| && m.tasks[i].info == m.tasks[j].info
      && m.tasks[i].parent.None? && m.tasks[j].parent.None? :: i == j
  }

  /** A first attempt that waits is the only task of its sync. */
  ghost predicate FirstIsAlone(m: Manager) {
    forall i: nat, j: nat | i < |m.tasks| && j < |m.tasks| && m.tasks[i].info == m.tasks[j].info
      && m.tasks[i].status.Waiting? && m.tasks[i].parent.None? :: i == j
  }

  ghost predicate IdsUsed(m: Manager) {
    && (forall i: nat | i < |m.tasks| :: m.tasks[i].info < m.nextId)
    && (forall i: nat | i < |m.tasks| && m.tasks[i].ticket.Some? :: m.tasks[i].ticket.value < m.nextId)
    && (forall i: nat, j: nat | i < |m.tasks| && j < |m.tasks| && m.tasks[i].ticket.Some?
          && m.tasks[i].ticket == m.tasks[j].ticket :: i == j)
    && (forall i: nat | i < |m.tasks| && m.tasks[i].parent.Some? ::
          m.tasks[i].parent.value < i && m.tasks[i].ticket.Some?
          && m.tasks[i].info == m.tasks[m.tasks[i].parent.value].info)
  }

  /** actives_ holds exactly the tickets of the tracked tasks that have not ended. */
  ghost predicate Tracked(m: Manager) {
    forall id :: id in m.actives <==> exists i: nat :: Holds(m, i, id)
  }

  /** A retry has one more `times` than its parent, which had not used up its retries. */
  predicate TimesOk(m: Manager, i: nat)
    requires i < |m.tasks|
  {
    var t := m.tasks[i];
    match t.parent
    case None => t.times == FirstTimes(t.origin) + 1
    case Some(p) => p < i && m.tasks[p].times < RETRY_TIMES && t.times == m.tasks[p].times + 1 && t.origin == m.tasks[p].origin
  }

  ghost predicate TimesCount(m: Manager) {
    forall i: nat | i < |m.tasks| :: TimesOk(m, i)
  }

  ghost predicate Inv(m: Manager) {
    OneRetry(m) && OneFirst(m) && FirstIsAlone(m) && IdsUsed(m) && Tracked(m) && TimesCount(m)
  }

  // ---- What a step does to the tasks ------------------------------------------------------------

  /** Tasks are only added, one at a time, and only their status changes. */
  ghost predicate Stable(m: Manager, m': Manager) {
    && |m.tasks| <= |m'.tasks| <= |m.tasks| + 1
    && m.nextId <= m'.nextId
    && forall i: nat | i < |m.tasks| :: m'.tasks[i].(status := m.tasks[i].status) == m.tasks[i]
  }

  /** A task that was added is a first attempt with a new id, or the retry of a started one. */
  ghost predicate Added(m: Manager, m': Manager) {
    |m'.tasks| == |m.tasks| + 1 ==>
      && m'.tasks[..|m.tasks|] == m.tasks
      && var t := m'.tasks[|m.tasks|];
      && t.status.Waiting?
      && t.info < m'.nextId
      && (t.ticket.Some? ==> m.nextId <= t.ticket.value < m'.nextId)
      && match t.parent
         case None => t.info == m.nextId && t.times == FirstTimes(t.origin) + 1 && m'.activeInfos == m.activeInfos
         case Some(p) =>
           && p < |m.tasks| && HasRun(m.tasks[p]) && m.tasks[p].times < RETRY_TIMES
           && t.info == m.tasks[p].info && t.origin == m.tasks[p].origin && t.times == m.tasks[p].times + 1
           && t.ticket.Some? && t.info !in m.activeInfos
           && m'.activeInfos == m.activeInfos[t.info := t.ticket.value]
  }

  lemma StepShape(m: Manager, step: Step, m': Manager)
    requires IdsUsed(m) && Next(m, step, m')
    ensures Stable(m, m') && Added(m, m')
  {
  }

  lemma IdsUsedKept(m: Manager, m': Manager)
    requires IdsUsed(m) && Stable(m, m') && Added(m, m')
    ensures IdsUsed(m')
  {
  }

  lemma TimesCountKept(m: Manager, m': Manager)
    requires TimesCount(m) && Stable(m, m') && Added(m, m')
    ensures TimesCount(m')
  {
    forall i: nat | i < |m'.tasks| ensures TimesOk(m', i) {
      if i < |m.tasks| {
        assert TimesOk(m, i);
        StaysOk(m, m', i);
      }
    }
  }

  lemma StaysOk(m: Manager, m': Manager, i: nat)
    requires i < |m.tasks| && Stable(m, m') && TimesOk(m, i)
    ensures TimesOk(m', i)
  {
    var p := if m.tasks[i].parent.Some? then m.tasks[i].parent.value else i;
    assert m'.tasks[p].(status := m.tasks[p].status) == m.tasks[p];
    assert m'.tasks[i].(status := m.tasks[i].status) == m.tasks[i];
  }

  lemma FirstIsAloneKept(m: Manager, step: Step, m': Manager)
    requires FirstIsAlone(m) && IdsUsed(m) && Next(m, step, m')
    ensures FirstIsAlone(m')
  {
    StepShape(m, step, m');
  }

  lemma OneFirstKept(m: Manager, m': Manager)
    requires OneFirst(m) && IdsUsed(m) && Stable(m, m') && Added(m, m')
    ensures OneFirst(m')
  {
    forall i: nat | i < |m.tasks| ensures m'.tasks[i].info == m.tasks[i].info < m.nextId && m'.tasks[i].parent == m.tasks[i].parent {
      assert m'.tasks[i].(status := m.tasks[i].status) == m.tasks[i];
    }
  }

  lemma OneRetryKeptByStart(m: Manager, i: nat)
    requires OneRetry(m) && FirstIsAlone(m) && i < |m.tasks| && m.tasks[i].status.Waiting?
    ensures OneRetry(Start(m, i))
  {
    var m' := Start(m, i);
    forall j: nat | UnstartedRetry(m', j)
      ensures j != i && UnstartedRetry(m, j) && m'.tasks[j] == m.tasks[j] && m.tasks[j].info != m.tasks[i].info
    {
    }
    forall id | id in m'.activeInfos ensures exists j: nat :: RetryOf(m', id, j) {
      var j: nat :| RetryOf(m, id, j);
      assert RetryOf(m', id, j);
    }
  }

  /** The tasks changed in no way that a retry's mark depends on. */
  ghost predicate SameRetries(m: Manager, m': Manager) {
    && m'.activeInfos == m.activeInfos && |m'.tasks| >= |m.tasks|
    && (forall j: nat | UnstartedRetry(m', j) :: j < |m.tasks|)
    && (forall j: nat | j < |m.tasks| ::
          && (UnstartedRetry(m', j) <==> UnstartedRetry(m, j))
          && m'.tasks[j].info == m.tasks[j].info && m'.tasks[j].ticket == m.tasks[j].ticket)
  }

  lemma OneRetryKeptBySameRetries(m: Manager, m': Manager)
    requires OneRetry(m) && SameRetries(m, m')
    ensures OneRetry(m')
  {
    forall id | id in m'.activeInfos ensures exists j: nat :: RetryOf(m', id, j) {
      var j: nat :| RetryOf(m, id, j);
      assert RetryOf(m', id, j);
    }
  }

  /** A task that ends had started; a task that is removed had not, and is marked as before. */
  lemma OneRetryKeptByDrop(m: Manager, i: nat, status: Status)
    requires OneRetry(m) && i < |m.tasks|
    requires (m.tasks[i].status.Running? && status.Ended?) || (m.tasks[i].status.Waiting? && status.Removed?)
    ensures OneRetry(Drop(m, i, status))
  {
    OneRetryKeptBySameRetries(m, Drop(m, i, status));
  }

  lemma OneRetryKeptByNewTask(m: Manager, m': Manager)
    requires OneRetry(m) && IdsUsed(m) && |m'.tasks| == |m.tasks| + 1 && Added(m, m')
    ensures OneRetry(m')
  {
    var n := |m.tasks|;
    forall j: nat | j < n ensures m'.tasks[j] == m.tasks[j] {
      assert m'.tasks[j] == m'.tasks[..n][j];
    }
    if m'.tasks[n].parent.None? {
      OneRetryKeptBySameRetries(m, m');
    } else {
      OneRetryKeptByRetry(m, m');
    }
  }

  lemma OneRetryKeptByRetry(m: Manager, m': Manager)
    requires OneRetry(m) && |m'.tasks| == |m.tasks| + 1 && UnstartedRetry(m', |m.tasks|)
    requires forall j: nat | j < |m.tasks| :: m'.tasks[j] == m.tasks[j]
    requires var t := m'.tasks[|m.tasks|];
      t.ticket.Some? && t.info !in m.activeInfos && m'.activeInfos == m.activeInfos[t.info := t.ticket.value]
    ensures OneRetry(m')
  {
    var n := |m.tasks|;
    forall j: nat | UnstartedRetry(m', j)
      ensures j == n || (UnstartedRetry(m, j) && m.tasks[j].info != m'.tasks[n].info)
    {
    }
    forall id | id in m'.activeInfos ensures exists j: nat :: RetryOf(m', id, j) {
      if id in m.activeInfos {
        var j: nat :| RetryOf(m, id, j);
        assert RetryOf(m', id, j);
      } else {
        assert RetryOf(m', id, n);
      }
    }
  }

  lemma OneRetryKept(m: Manager, step: Step, m': Manager)
    requires OneRetry(m) && FirstIsAlone(m) && IdsUsed(m) && Next(m, step, m')
    ensures OneRetry(m')
  {
    match step
    case DoSubmit(_) =>
      StepShape(m, step, m');
      OneRetryKeptByNewTask(m, m');
    case DoReport(_, _, _) =>
      if m' != m {
        StepShape(m, step, m');
        OneRetryKeptByNewTask(m, m');
      }
    case DoStart(i) => OneRetryKeptByStart(m, i);
    case DoEnd(i) => OneRetryKeptByDrop(m, i, Ended);
    case DoRemove(i) => OneRetryKeptByDrop(m, i, Removed);
  }

  predicate Holds(m: Manager, i: nat, id: nat) {
    i < |m.tasks| && m.tasks[i].ticket == Some(id) && (m.tasks[i].status.Waiting? || m.tasks[i].status.Running?)
  }

  lemma TrackedKeptByNewTask(m: Manager, t: Task, m': Manager)
    requires Tracked(m) && m'.tasks == m.tasks + [t] && t.status.Waiting?
    requires m'.actives == if t.ticket.Some? then m.actives + {t.ticket.value} else m.actives
    ensures Tracked(m')
  {
    forall id ensures id in m'.actives <==> exists i: nat :: Holds(m', i, id) {
      if i: nat :| Holds(m, i, id) {
        assert Holds(m', i, id);
      }
      if i: nat :| Holds(m', i, id) {
        assert i < |m.tasks| ==> Holds(m, i, id);
      }
      if t.ticket == Some(id) {
        assert Holds(m', |m.tasks|, id);
      }
    }
  }

  lemma TrackedKeptByStatus(m: Manager, k: nat, m': Manager)
    requires Tracked(m) && IdsUsed(m) && k < |m.tasks| && (m.tasks[k].status.Waiting? || m.tasks[k].status.Running?)
    requires m' == Start(m, k) || m' == End(m, k) || m' == Remove(m, k)
    ensures Tracked(m')
  {
    forall id ensures id in m'.actives <==> exists i: nat :: Holds(m', i, id) {
      if i: nat :| Holds(m, i, id) {
        assert Holds(m', i, id) || id !in m'.actives;
      }
      if i: nat :| Holds(m', i, id) {
        assert Holds(m, i, id);
      }
    }
  }

  lemma TrackedKept(m: Manager, step: Step, m': Manager)
    requires Tracked(m) && IdsUsed(m) && Next(m, step, m')
    ensures Tracked(m')
  {
    match step
    case DoSubmit(_) => TrackedKeptByNewTask(m, m'.tasks[|m.tasks|], m');
    case DoReport(_, _, _) =>
      if m' != m {
        TrackedKeptByNewTask(m, m'.tasks[|m.tasks|], m');
      }
    case _ => TrackedKeptByStatus(m, step.task, m');
  }

  lemma {:induction false} RunsAreSafe(run: seq<Manager>, k: nat)
    requires IsRun(run) && k < |run|
    ensures Inv(run[k])
  {
    if k == 0 {
    } else {
      RunsAreSafe(run, k - 1);
      assert Successor(run[k - 1], run[k - 1 + 1]);
      var step :| Next(run[k - 1], step, run[k]);
      InvKept(run[k - 1], step, run[k]);
    }
  }

  lemma InvKept(m: Manager, step: Step, m': Manager)
    requires Inv(m) && Next(m, step, m')
    ensures Inv(m')
  {
    StepShape(m, step, m');
    OneRetryKept(m, step, m');
    OneFirstKept(m, m');
    FirstIsAloneKept(m, step, m');
    IdsUsedKept(m, m');
    TrackedKept(m, step, m');
    TimesCountKept(m, m');
  }

  // ---- Chains of retries ------------------------------------------------------------------------

  /** How often a sync of some origin is attempted at most. */
  function MostAttempts(origin: Origin): nat {
    match origin
    case Internal => 6
    case Client(autoRetry) => if autoRetry then 3 else 1
  }

  /** The attempts that led to attempt i, from the first one on. */
  function Chain(m: Manager, i: nat): seq<nat>
    requires i < |m.tasks|
  {
    var parent := m.tasks[i].parent;
    if parent.Some? && parent.value < i then Chain(m, parent.value) + [i] else [i]
  }

  lemma {:induction false} ChainCountsTimes(m: Manager, i: nat)
    requires TimesCount(m) && i < |m.tasks|
    ensures m.tasks[i].times == FirstTimes(m.tasks[i].origin) + |Chain(m, i)|
    ensures m.tasks[i].times <= RETRY_TIMES || m.tasks[i].parent.None?
  {
    assert TimesOk(m, i);
    if m.tasks[i].parent.Some? {
      ChainCountsTimes(m, m.tasks[i].parent.value);
    }
  }

  /** Every chain of retries ends, whatever is reported: 6, 3 or 1 attempts according to its origin. */
  lemma ChainsEnd(run: seq<Manager>, k: nat, i: nat)
    requires IsRun(run) && k < |run| && i < |run[k].tasks|
    ensures |Chain(run[k], i)| <= MostAttempts(run[k].tasks[i].origin)
    ensures forall code, action | |Chain(run[k], i)| == MostAttempts(run[k].tasks[i].origin) ::
      Report(run[k], i, code, action) == run[k]
  {
    RunsAreSafe(run, k);
    ChainCountsTimes(run[k], i);
  }

  lemma ExtendRun(run: seq<Manager>, step: Step, m': Manager)
    requires IsRun(run) && Next(run[|run| - 1], step, m')
    ensures IsRun(run + [m'])
  {
    var run' := run + [m'];
    forall i | 0 <= i < |run'| - 1 ensures Successor(run'[i], run'[i + 1]) {
      if i < |run| - 1 {
        assert Successor(run[i], run[i + 1]);
      }
    }
  }

  /** The bounds are reached when every attempt meets a network error. */
  lemma LongestChain(origin: Origin) returns (run: seq<Manager>)
    ensures IsRun(run)
    ensures var m := run[|run| - 1];
      && |m.tasks| == MostAttempts(origin) && m.tasks[|m.tasks| - 1].origin == origin
      && |Chain(m, |m.tasks| - 1)| == MostAttempts(origin)
  {
    var m := Manager(map[], {}, 0, []);
    run := [m];
    ExtendRun(run, DoSubmit(origin), Submit(m, origin));
    m := Submit(m, origin);
    run := run + [m];
    while |m.tasks| < MostAttempts(origin)
      invariant IsRun(run) && run[|run| - 1] == m && 1 <= |m.tasks| <= MostAttempts(origin)
      invariant m.tasks[|m.tasks| - 1].origin == origin && m.tasks[|m.tasks| - 1].status.Waiting?
      invariant |Chain(m, |m.tasks| - 1)| == |m.tasks|
      invariant m.tasks[|m.tasks| - 1].times == FirstTimes(origin) + |m.tasks|
      decreases MostAttempts(origin) - |m.tasks|
    {
      var i := |m.tasks| - 1;
      var started := Start(m, i);
      ExtendRun(run, DoStart(i), started);
      var retried := Report(started, i, E_NETWORK_ERROR, ACTION_DEFAULT);
      ExtendRun(run + [started], DoReport(i, E_NETWORK_ERROR, ACTION_DEFAULT), retried);
      SameChain(m, retried, i);
      run, m := run + [started] + [retried], retried;
    }
  }

  /**
    The bound is on chains, not on syncs: as long as the first attempt keeps reporting after a retry
    has started, one sync goes through any number of attempts.
   */
  lemma LateReportsRetryForEver(n: nat) returns (run: seq<Manager>)
    requires n > 0
    ensures IsRun(run)
    ensures var m := run[|run| - 1];
      |m.tasks| == n && forall i | 0 <= i < n :: m.tasks[i].info == m.tasks[0].info && m.tasks[i].status.Running?
  {
    var m := Manager(map[], {}, 0, []);
    run := [m];
    ExtendRun(run, DoSubmit(Internal), Submit(m, Internal));
    m := Submit(m, Internal);
    run := run + [m];
    ExtendRun(run, DoStart(0), Start(m, 0));
    m := Start(m, 0);
    run := run + [m];
    while |m.tasks| < n
      invariant IsRun(run) && run[|run| - 1] == m && 1 <= |m.tasks| <= n
      invariant m.tasks[0].times == 1 && m.tasks[0].info !in m.activeInfos
      invariant forall i | 0 <= i < |m.tasks| :: m.tasks[i].info == m.tasks[0].info && m.tasks[i].status.Running?
      decreases n - |m.tasks|
    {
      var retried := Report(m, 0, E_NETWORK_ERROR, ACTION_DEFAULT);
      ExtendRun(run, DoReport(0, E_NETWORK_ERROR, ACTION_DEFAULT), retried);
      var started := Start(retried, |m.tasks|);
      ExtendRun(run + [retried], DoStart(|m.tasks|), started);
      run, m := run + [retried] + [started], started;
    }
  }

  lemma {:induction false} SameChain(m: Manager, m': Manager, i: nat)
    requires i < |m.tasks| <= |m'.tasks|
    requires forall j: nat | j <= i :: m'.tasks[j].parent == m.tasks[j].parent
    ensures Chain(m', i) == Chain(m, i)
  {
    var parent := m.tasks[i].parent;
    if parent.Some? && parent.value < i {
      SameChain(m, m', parent.value);
    }
  }

  // ---- All attempts of a sync ----------------------------------------------------------------------

  /** No attempt of the sync has two retries: each retryer asked for another attempt at most once. */
  ghost predicate NoFork(m: Manager, id: nat) {
    forall i: nat, j: nat | IsAttempt(m, id, i) && IsAttempt(m, id, j)
      && m.tasks[i].parent.Some? && m.tasks[i].parent == m.tasks[j].parent :: i == j
  }

  predicate IsAttempt(m: Manager, id: nat, i: nat) {
    i < |m.tasks| && m.tasks[i].info == id
  }

  function Attempts(m: Manager, id: nat): set<nat> {
    set i: nat | 0 <= i < |m.tasks| && IsAttempt(m, id, i)
  }

  lemma {:induction false} FirstOf(m: Manager, i: nat) returns (r: nat)
    requires IdsUsed(m) && TimesCount(m) && i < |m.tasks|
    ensures IsAttempt(m, m.tasks[i].info, r) && m.tasks[r].parent.None? && m.tasks[r].origin == m.tasks[i].origin
  {
    assert TimesOk(m, i);
    if m.tasks[i].parent.None? {
      r := i;
    } else {
      r := FirstOf(m, m.tasks[i].parent.value);
    }
  }

  lemma OneOrigin(m: Manager, i: nat, j: nat)
    requires Inv(m) && i < |m.tasks| && j < |m.tasks| && m.tasks[i].info == m.tasks[j].info
    ensures m.tasks[i].origin == m.tasks[j].origin
  {
    var r := FirstOf(m, i);
    var t := FirstOf(m, j);
  }

  /** Attempts as far from the first one are one attempt, if none has two retries. */
  lemma {:induction false} DepthTells(m: Manager, id: nat, i: nat, j: nat)
    requires Inv(m) && NoFork(m, id) && IsAttempt(m, id, i) && IsAttempt(m, id, j)
    requires |Chain(m, i)| == |Chain(m, j)|
    ensures i == j
    decreases i
  {
    if m.tasks[i].parent.Some? && m.tasks[j].parent.Some? {
      DepthTells(m, id, m.tasks[i].parent.value, m.tasks[j].parent.value);
    }
  }

  lemma {:induction false} ManyDepths(m: Manager, id: nat, xs: set<nat>, most: nat)
    requires Inv(m) && NoFork(m, id) && (forall i | i in xs :: IsAttempt(m, id, i) && |Chain(m, i)| <= most)
    ensures |xs| <= most
    decreases most
  {
    if xs == {} {
    } else if i :| i in xs && |Chain(m, i)| == most {
      forall j | j in xs - {i} ensures |Chain(m, j)| <= most - 1 {
        if |Chain(m, j)| == most {
          DepthTells(m, id, i, j);
        }
      }
      ManyDepths(m, id, xs - {i}, most - 1);
    } else {
      var i :| i in xs;
      assert |Chain(m, i)| >= 1;
      ManyDepths(m, id, xs, most - 1);
    }
  }

  /** In every run, a sync none of whose attempts has two retries is attempted at most 6, 3 or 1 times in all. */
  lemma SyncsEnd(run: seq<Manager>, k: nat, i: nat)
    requires IsRun(run) && k < |run| && i < |run[k].tasks| && NoFork(run[k], run[k].tasks[i].info)
    ensures |Attempts(run[k], run[k].tasks[i].info)| <= MostAttempts(run[k].tasks[i].origin)
  {
    var m, id := run[k], run[k].tasks[i].info;
    RunsAreSafe(run, k);
    forall j | j in Attempts(m, id) ensures |Chain(m, j)| <= MostAttempts(m.tasks[i].origin) {
      ChainsEnd(run, k, j);
      OneOrigin(m, i, j);
    }
    ManyDepths(m, id, Attempts(m, id), MostAttempts(m.tasks[i].origin));
  }

  /** The attempts on a chain belong to one sync, and lead to each other. */
  lemma {:induction false} OnChain(m: Manager, k: nat, d: nat)
    requires Inv(m) && k < |m.tasks| && d < |Chain(m, k)|
    ensures var c := Chain(m, k)[d]; c <= k && m.tasks[c].info == m.tasks[k].info && Chain(m, c) == Chain(m, k)[..d + 1]
  {
    var chain := Chain(m, k);
    if d == |chain| - 1 {
      assert chain[..d + 1] == chain;
    } else {
      var p := m.tasks[k].parent.value;
      OnChain(m, p, d);
      assert chain[..d + 1] == Chain(m, p)[..d + 1];
    }
  }

  /** All attempts of the sync are on the chain that led to attempt k. */
  ghost predicate AllOnChain(m: Manager, id: nat, k: nat) {
    IsAttempt(m, id, k) && forall i: nat | IsAttempt(m, id, i) :: i in Chain(m, k)
  }

  lemma {:induction false} Deepest(m: Manager, id: nat, n: nat) returns (k: nat)
    requires n <= |m.tasks| && exists i: nat :: i < n && IsAttempt(m, id, i)
    ensures k < n && IsAttempt(m, id, k) && forall i: nat | i < n && IsAttempt(m, id, i) :: |Chain(m, i)| <= |Chain(m, k)|
  {
    if exists i: nat :: i < n - 1 && IsAttempt(m, id, i) {
      k := Deepest(m, id, n - 1);
      if IsAttempt(m, id, n - 1) && |Chain(m, n - 1)| > |Chain(m, k)| {
        k := n - 1;
      }
    } else {
      k := n - 1;
    }
  }

  /** The attempts of a sync are one chain exactly when none of them has two retries. */
  lemma OneChainIff(run: seq<Manager>, j: nat, id: nat, i: nat)
    requires IsRun(run) && j < |run| && IsAttempt(run[j], id, i)
    ensures NoFork(run[j], id) <==> exists k: nat :: AllOnChain(run[j], id, k)
  {
    var m := run[j];
    RunsAreSafe(run, j);
    if NoFork(m, id) {
      var k := Deepest(m, id, |m.tasks|);
      forall x: nat | IsAttempt(m, id, x) ensures x in Chain(m, k) {
        var d := |Chain(m, x)| - 1;
        OnChain(m, k, d);
        DepthTells(m, id, x, Chain(m, k)[d]);
      }
      assert AllOnChain(m, id, k);
    }
    if k: nat :| AllOnChain(m, id, k) {
      forall x: nat, y: nat | IsAttempt(m, id, x) && IsAttempt(m, id, y)
          && m.tasks[x].parent.Some? && m.tasks[x].parent == m.tasks[y].parent
        ensures x == y
      {
        OnOneChain(m, k, x, y);
      }
    }
  }

  lemma OnOneChain(m: Manager, k: nat, x: nat, y: nat)
    requires Inv(m) && k < |m.tasks| && x < |m.tasks| && y < |m.tasks| && x in Chain(m, k) && y in Chain(m, k)
    requires m.tasks[x].parent.Some? && m.tasks[x].parent == m.tasks[y].parent
    ensures x == y
  {
    var a :| 0 <= a < |Chain(m, k)| && Chain(m, k)[a] == x;
    var b :| 0 <= b < |Chain(m, k)| && Chain(m, k)[b] == y;
    OnChain(m, k, a);
    OnChain(m, k, b);
  }

  // ---- Which reports are retried -------------------------------------------------------------------

  /** A network error (2), or any other failure that the cloud asks to retry; success (0) and a merged task (24) are none. */
  predicate Retryable(code: int, action: Action) {
    code == 2 || (action == ACTION_RETRY_SYNC_TASK && code != 0 && code != 24)
  }

  /** The retry that a report leads to: of the same sync, with the next number, waiting. */
  predicate IsRetryOf(m: Manager, i: nat, t: Task)
    requires i < |m.tasks|
  {
    && t.info == m.tasks[i].info && t.times == m.tasks[i].times + 1 && t.origin == m.tasks[i].origin
    && t.parent == Some(i) && t.ticket == Some(m.nextId) && t.status == Waiting
  }

  /** Exactly which reports lead to another attempt, and to which. */
  lemma ReportRetries(m: Manager, i: nat, code: int, action: Action)
    requires i < |m.tasks|
    ensures var m' := Report(m, i, code, action);
      if m.tasks[i].times < 6 && m.tasks[i].info !in m.activeInfos && Retryable(code, action) then
        && |m'.tasks| == |m.tasks| + 1 && m'.tasks[..|m.tasks|] == m.tasks && IsRetryOf(m, i, m'.tasks[|m.tasks|])
        && m'.activeInfos == m.activeInfos[m.tasks[i].info := m.nextId] && m'.actives == m.actives + {m.nextId}
      else m' == m
  {
  }

  /** Step j of the run was a report of attempt p, to be retried, and added task i. */
  ghost predicate RetriedAt(run: seq<Manager>, j: nat, p: nat, i: nat)
    requires j + 1 < |run|
  {
    exists code, action ::
      && p < |run[j].tasks| && Next(run[j], DoReport(p, code, action), run[j + 1])
      && Retryable(code, action) && run[j].tasks[p].times < 6 && |run[j].tasks| == i < |run[j + 1].tasks|
  }

  lemma NewRetryIsReported(run: seq<Manager>, j: nat, step: Step, i: nat)
    requires IsRun(run) && j + 1 < |run| && Next(run[j], step, run[j + 1])
    requires |run[j].tasks| == i < |run[j + 1].tasks| && run[j + 1].tasks[i].parent.Some?
    ensures RetriedAt(run, j, run[j + 1].tasks[i].parent.value, i)
  {
    var m := run[j];
    assert step.DoReport?;
    ReportRetries(m, step.task, step.code, step.action);
    assert Next(m, DoReport(step.task, step.code, step.action), run[j + 1]);
  }

  /** In every run, every retry comes from an earlier report of its parent that was to be retried. */
  lemma {:induction false} RetriesAreReported(run: seq<Manager>, k: nat, i: nat)
    requires IsRun(run) && k < |run| && i < |run[k].tasks| && run[k].tasks[i].parent.Some?
    ensures exists j: nat | j < k :: RetriedAt(run, j, run[k].tasks[i].parent.value, i)
  {
    if k == 0 {
    } else {
      RunsAreSafe(run, k - 1);
      assert Successor(run[k - 1], run[k - 1 + 1]);
      var step :| Next(run[k - 1], step, run[k]);
      StepShape(run[k - 1], step, run[k]);
      if i < |run[k - 1].tasks| {
        SameParents(run[k - 1], run[k], i);
        RetriesAreReported(run, k - 1, i);
      } else {
        NewRetryIsReported(run, k - 1, step, i);
      }
    }
  }

  /** No attempt of the sync has made a report to be retried. */
  ghost predicate NothingToRetry(run: seq<Manager>, k: nat, id: nat) {
    forall j: nat, p: nat, i: nat | j < k && j + 1 < |run| && p < |run[j].tasks| && run[j].tasks[p].info == id ::
      !RetriedAt(run, j, p, i)
  }

  /** A sync whose attempts all succeed, are merged, or fail for good, is attempted once. */
  lemma QuietSyncsRunOnce(run: seq<Manager>, k: nat, i: nat)
    requires IsRun(run) && k < |run| && i < |run[k].tasks| && NothingToRetry(run, k, run[k].tasks[i].info)
    ensures Attempts(run[k], run[k].tasks[i].info) == {i}
  {
    var m, id := run[k], run[k].tasks[i].info;
    RunsAreSafe(run, k);
    forall x | x in Attempts(m, id) ensures m.tasks[x].parent.None? {
      if m.tasks[x].parent.Some? {
        QuietAttemptIsFirst(run, k, x);
        assert false;
      }
    }
  }

  lemma QuietAttemptIsFirst(run: seq<Manager>, k: nat, x: nat)
    requires IsRun(run) && k < |run| && x < |run[k].tasks| && run[k].tasks[x].parent.Some?
    ensures !NothingToRetry(run, k, run[k].tasks[x].info)
  {
    RunsAreSafe(run, k);
    RetriesAreReported(run, k, x);
    var p := run[k].tasks[x].parent.value;
    var j: nat :| j < k && RetriedAt(run, j, p, x);
    InfoStays(run, j, k, p);
  }

  lemma StepIsStable(run: seq<Manager>, k: nat)
    requires IsRun(run) && k + 1 < |run|
    ensures Stable(run[k], run[k + 1])
  {
    RunsAreSafe(run, k);
    assert Successor(run[k], run[k + 1]);
    var step :| Next(run[k], step, run[k + 1]);
    StepShape(run[k], step, run[k + 1]);
  }

  lemma InfoStays(run: seq<Manager>, j: nat, k: nat, p: nat)
    requires IsRun(run) && j <= k < |run| && p < |run[j].tasks|
    ensures p < |run[k].tasks| && run[k].tasks[p].info == run[j].tasks[p].info
  {
    forall x | j <= x < k ensures Stable(run[x], run[x + 1]) {
      StepIsStable(run, x);
    }
    StableInfoStays(run, j, k, p);
  }

  lemma {:induction false} StableInfoStays(run: seq<Manager>, j: nat, k: nat, p: nat)
    requires j <= k < |run| && p < |run[j].tasks| && forall x | j <= x < k :: Stable(run[x], run[x + 1])
    ensures p < |run[k].tasks| && run[k].tasks[p].info == run[j].tasks[p].info
  {
    if j == k {
    } else {
      StableInfoStays(run, j, k - 1, p);
      assert Stable(run[k - 1], run[k - 1 + 1]);
      SameParents(run[k - 1], run[k], p);
    }
  }

  // ---- How an attempt comes to have two retries ----------------------------------------------------

  ghost predicate HasRetry(m: Manager, p: nat) {
    exists i: nat | i < |m.tasks| :: m.tasks[i].parent == Some(p)
  }

  /** An attempt that has a retry reports a code to retry, while no retry of its sync is pending or removed. */
  ghost predicate Forks(m: Manager, step: Step, id: nat) {
    && step.DoReport? && IsAttempt(m, id, step.task) && HasRetry(m, step.task)
    && m.tasks[step.task].times < 6 && Retryable(step.code, step.action) && id !in m.activeInfos
  }

  lemma SameParents(m: Manager, m': Manager, i: nat)
    requires Stable(m, m') && i < |m.tasks|
    ensures i < |m'.tasks| && m'.tasks[i].parent == m.tasks[i].parent && m'.tasks[i].info == m.tasks[i].info
  {
    assert m'.tasks[i].(status := m.tasks[i].status) == m.tasks[i];
  }

  lemma ForkStays(m: Manager, m': Manager, id: nat)
    requires Stable(m, m') && !NoFork(m, id)
    ensures !NoFork(m', id)
  {
    var i: nat, j: nat :| IsAttempt(m, id, i) && IsAttempt(m, id, j)
      && m.tasks[i].parent.Some? && m.tasks[i].parent == m.tasks[j].parent && i != j;
    SameParents(m, m', i);
    SameParents(m, m', j);
    assert IsAttempt(m', id, i) && IsAttempt(m', id, j);
  }

  /** A new task that is not the second retry of its parent makes no fork. */
  lemma NoForkKept(m: Manager, m': Manager, id: nat)
    requires NoFork(m, id) && Stable(m, m')
    requires |m'.tasks| > |m.tasks| ==>
      var t := m'.tasks[|m.tasks|]; t.info == id && t.parent.Some? ==> !HasRetry(m, t.parent.value)
    ensures NoFork(m', id)
  {
    forall i: nat, j: nat | IsAttempt(m', id, i) && IsAttempt(m', id, j)
        && m'.tasks[i].parent.Some? && m'.tasks[i].parent == m'.tasks[j].parent
      ensures i == j
    {
      if i < |m.tasks| {
        SameParents(m, m', i);
      }
      if j < |m.tasks| {
        SameParents(m, m', j);
      }
    }
  }

  lemma ForkingReport(m: Manager, step: Step, m': Manager, id: nat)
    requires Inv(m) && Next(m, step, m') && Stable(m, m') && Forks(m, step, id)
    ensures !NoFork(m', id)
  {
    ReportRetries(m, step.task, step.code, step.action);
    var i: nat :| i < |m.tasks| && m.tasks[i].parent == Some(step.task);
    SameParents(m, m', i);
    assert IsAttempt(m, id, i) by { assert m.tasks[i].info == m.tasks[step.task].info; }
    assert IsAttempt(m', id, i) && IsAttempt(m', id, |m.tasks|);
  }

  lemma OtherStep(m: Manager, step: Step, m': Manager, id: nat)
    requires Inv(m) && Next(m, step, m') && Stable(m, m') && NoFork(m, id) && !Forks(m, step, id)
    ensures NoFork(m', id)
  {
    if step.DoReport? {
      ReportRetries(m, step.task, step.code, step.action);
    }
    NoForkKept(m, m', id);
  }

  /** A fork arises exactly at such a report. */
  lemma ForkArises(m: Manager, step: Step, m': Manager, id: nat)
    requires Inv(m) && Next(m, step, m') && NoFork(m, id)
    ensures !NoFork(m', id) <==> Forks(m, step, id)
  {
    StepShape(m, step, m');
    if Forks(m, step, id) {
      ForkingReport(m, step, m', id);
    } else {
      OtherStep(m, step, m', id);
    }
  }

  ghost predicate ForkStep(m: Manager, m': Manager, id: nat) {
    exists step :: Next(m, step, m') && Forks(m, step, id)
  }

  /** In every run, some attempt of a sync has two retries exactly when such a report was made. */
  lemma {:induction false} ForksIff(run: seq<Manager>, k: nat, id: nat)
    requires IsRun(run) && k < |run|
    ensures !NoFork(run[k], id) <==> exists j: nat | j < k :: ForkStep(run[j], run[j + 1], id)
  {
    if k == 0 {
    } else {
      ForksIff(run, k - 1, id);
      RunsAreSafe(run, k - 1);
      assert Successor(run[k - 1], run[k - 1 + 1]);
      var m, m' := run[k - 1], run[k - 1 + 1];
      forall step | Next(m, step, m') ensures Stable(m, m') && (NoFork(m, id) ==> (!NoFork(m', id) <==> Forks(m, step, id))) {
        StepShape(m, step, m');
        if NoFork(m, id) {
          ForkArises(m, step, m', id);
        }
      }
      if !NoFork(m, id) {
        ForkStays(m, m', id);
      }
    }
  }

  // ---- Removed retries -----------------------------------------------------------------------------

  /** An id is in activeInfos_ exactly while a retry of its sync is pending, or once one was removed. */
  lemma ActiveInfosExact(run: seq<Manager>, k: nat, id: nat)
    requires IsRun(run) && k < |run|
    ensures id in run[k].activeInfos <==> exists i: nat :: RetryOf(run[k], id, i)
  {
    RunsAreSafe(run, k);
    if i: nat :| RetryOf(run[k], id, i) {
      assert UnstartedRetry(run[k], i);
    }
  }

  /** After a pending retry was removed, its sync is not retried any more, whoever reports what. */
  lemma {:induction false} RemovedRetryBlocks(run: seq<Manager>, k: nat, j: nat, i: nat)
    requires IsRun(run) && k <= j < |run|
    requires i < |run[k].tasks| && run[k].tasks[i].status.Removed? && run[k].tasks[i].parent.Some?
    ensures i < |run[j].tasks| && run[j].tasks[i] == run[k].tasks[i]
    ensures forall x: nat, code, action | IsAttempt(run[j], run[k].tasks[i].info, x) ::
      Report(run[j], x, code, action) == run[j]
    decreases j
  {
    if k == j {
    } else {
      RemovedRetryBlocks(run, k, j - 1, i);
      assert Successor(run[j - 1], run[j - 1 + 1]);
      var step :| Next(run[j - 1], step, run[j]);
      RemovedStays(run[j - 1], step, run[j], i);
    }
    RunsAreSafe(run, j);
    assert UnstartedRetry(run[j], i);
  }

  lemma RemovedStays(m: Manager, step: Step, m': Manager, i: nat)
    requires Next(m, step, m') && i < |m.tasks| && m.tasks[i].status.Removed?
    ensures i < |m'.tasks| && m'.tasks[i] == m.tasks[i]
  {
  }

  // ---- The code ---------------------------------------------------------------------------------

  /** SyncManager with the fields that the code updates in place. */
  class SyncManager {
    var hasExecutor: bool
    var activeInfos: map<nat, nat>
    var actives: set<nat>
    var nextId: nat
    var tasks: seq<Task>

    ghost function View(): Manager
      reads this
    {
      Manager(activeInfos, actives, nextId, tasks)
    }

    constructor (hasExecutor: bool)
      ensures this.hasExecutor == hasExecutor && View() == Manager(map[], {}, 0, [])
    {
      this.hasExecutor := hasExecutor;
      activeInfos, actives, nextId, tasks := map[], {}, 0, [];
    }

    method GenerateId() returns (id: nat)
      modifies this`nextId
      ensures id == old(nextId) && nextId == old(nextId) + 1
    {
      id := nextId;
      nextId := nextId + 1;
    }

    /** DoCloudSync, and the client's change handler, on a new SyncInfo. */
    method Sync(origin: Origin) returns (accepted: bool)
      modifies this`actives, this`nextId, this`tasks
      ensures accepted == hasExecutor
      ensures View() == if hasExecutor then Submit(old(View()), origin) else old(View())
    {
      if !hasExecutor {
        return false;
      }
      var info := GenerateId();
      var times: nat;
      match origin {
        case Internal =>
          var ticket := GenerateId();
          actives := actives + {ticket};
          tasks := tasks + [Task(info, 0 + 1, origin, None, Some(ticket), Waiting)];
        case Client(autoRetry) =>
          times := if autoRetry then RETRY_TIMES - CLIENT_RETRY_TIMES else RETRY_TIMES;
          tasks := tasks + [Task(info, times + 1, origin, None, None, Waiting)];
      }
      return true;
    }

    method BeginTask(i: nat)
      requires i < |tasks|
      modifies this`activeInfos, this`tasks
      ensures View() == Start(old(View()), i)
    {
      activeInfos := activeInfos - {tasks[i].info};
      tasks := tasks[i := tasks[i].(status := Running)];
    }

    method Retryer(i: nat, code: int, action: Action) returns (handled: bool)
      requires i < |tasks|
      modifies this`activeInfos, this`actives, this`nextId, this`tasks
      ensures handled <==> hasExecutor || old(tasks)[i].times >= 6 || !Retryable(code, action)
      ensures View() == if hasExecutor then Report(old(View()), i, code, action) else old(View())
    {
      var t := tasks[i];
      if t.times >= RETRY_TIMES {
        return true;
      }
      if code == E_OK || code == E_SYNC_TASK_MERGED {
        return true;
      }
      if code != E_NETWORK_ERROR && action != ACTION_RETRY_SYNC_TASK {
        return true;
      }
      if !hasExecutor {
        return false;
      }
      if t.info !in activeInfos {
        var ticket := GenerateId();
        actives := actives + {ticket};
        tasks := tasks + [Task(t.info, t.times + 1, t.origin, Some(i), Some(ticket), Waiting)];
        activeInfos := activeInfos[t.info := ticket];
      }
      return true;
    }
  }
}
