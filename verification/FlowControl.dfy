/**
  The delayed-task scheduler of framework/flow_control_manager.

  Every critical section of FlowControlManager is one transition of `Core`, the data its lock
  protects together with the timers of the executor pool. Class FlowControlManager holds the
  sections as methods; module FlowControlRuns interleaves them.
 */
module FlowControl {
  import opened Wrappers

  datatype TaskInfo = TaskInfo(kind: nat, caption: string)

  datatype InnerTask = InnerTask(id: nat, info: TaskInfo, time: int, isNull: bool)

  /** A timer of the pool. Its index in the pool's table is its task id. */
  datatype Timer = Pending(deadline: int) | Fired | Cancelled

  datatype Core = Core(tasks: set<InnerTask>, taskId: Option<nat>, timers: seq<Timer>)

  function Max(a: int, b: int): int {
    if a < b then b else a
  }

  /** `t` may stand at the top of the priority queue: nothing queued is due before it. */
  predicate Earliest(t: InnerTask, q: set<InnerTask>) {
    t in q && forall u | u in q :: t.time <= u.time
  }

  predicate DueOrder(batch: seq<InnerTask>) {
    forall i, j | 0 <= i < j < |batch| :: batch[i].time <= batch[j].time
  }

  predicate NoRepeats(batch: seq<InnerTask>) {
    forall i, j | 0 <= i < j < |batch| :: batch[i] != batch[j]
  }

  /** Execute's section: the caller owes a Schedule call exactly when its task is at the top. */
  ghost predicate PushSection(c: Core, task: InnerTask, owes: bool, c': Core) {
    && c' == c.(tasks := c.tasks + {task})
    && (owes ==> Earliest(task, c'.tasks))
    && (!owes ==> exists u :: u in c.tasks && Earliest(u, c'.tasks))
  }

  /**
    The pop loop: `batch` is every real task that is due, in due order; a null task is dropped
    when it reaches the top, due or not; nothing else leaves the queue.
   */
  ghost predicate Popped(q: set<InnerTask>, now: int, batch: seq<InnerTask>, rest: set<InnerTask>) {
    && rest <= q
    && DueOrder(batch)
    && NoRepeats(batch)
    && (forall t :: t in batch <==> t in q && !t.isNull && t.time <= now)
    && (forall t | t in rest :: now < t.time)
    && (forall t | t in q - rest :: t.isNull || t.time <= now)
    && (forall t, u | t in q - rest && u in rest :: t.time <= u.time)
    && (rest != {} ==> exists u :: Earliest(u, rest) && !u.isNull)
  }

  ghost predicate ExecuteSection(c: Core, now: int, batch: seq<InnerTask>, c': Core) {
    && Popped(c.tasks, now, batch, c'.tasks)
    && c'.taskId == None
    && c'.timers == c.timers
  }

  /** Schedule's first section: an empty queue gives up its timer, to be cancelled in the pool. */
  function CancelSection(c: Core): (r: (Core, Option<nat>)) {
    if c.tasks == {} && c.taskId.Some? then (c.(taskId := None), c.taskId) else (c, None)
  }

  /** pool->Remove: a timer that has fired is past cancelling. */
  function CancelTimer(c: Core, id: nat): Core {
    if id < |c.timers| && c.timers[id].Pending? then c.(timers := c.timers[id := Cancelled]) else c
  }

  /** Schedule's second section: one timer, due with the top task or at once if that is overdue. */
  ghost predicate ArmSection(c: Core, now: int, c': Core) {
    if c.tasks == {} then c' == c
    else exists top ::
      && Earliest(top, c.tasks)
      && c' == Arm(c, Max(now, top.time))
  }

  function Arm(c: Core, deadline: int): Core {
    match c.taskId
    case None => c.(taskId := Some(|c.timers|), timers := c.timers + [Pending(deadline)])
    case Some(id) =>
      if id < |c.timers| && c.timers[id].Pending? then c.(timers := c.timers[id := Pending(deadline)]) else c
  }

  /** Remove's section: an absent filter matches every task. */
  predicate Matches(filter: Option<TaskInfo -> bool>, t: InnerTask) {
    filter.None? || filter.value(t.info)
  }

  ghost predicate RemoveSection(c: Core, filter: Option<TaskInfo -> bool>, c': Core) {
    c' == c.(tasks := set t | t in c.tasks && !Matches(filter, t))
  }

  lemma EarliestExists(q: set<InnerTask>)
    requires q != {}
    ensures exists t :: Earliest(t, q)
  {
    var t :| t in q;
    if !Earliest(t, q) {
      var below := set u | u in q && u.time < t.time;
      assert below < q by { assert t !in below; }
      assert below != {} by { var u :| u in q && u.time < t.time; assert u in below; }
      EarliestExists(below);
      var w :| Earliest(w, below);
      assert Earliest(w, q);
    }
  }

  /** The part of ExecutorPool that the scheduler uses. */
  class ExecutorPool {
    var timers: seq<Timer>
    var batches: seq<seq<InnerTask>>

    constructor ()
      ensures timers == [] && batches == []
    {
      timers := [];
      batches := [];
    }
  }

  class FlowControlManager {
    const pool: ExecutorPool
    var tasks: set<InnerTask>
    var taskId: Option<nat>

    ghost function View(): Core
      reads this, pool
    {
      Core(tasks, taskId, pool.timers)
    }

    constructor (pool: ExecutorPool)
      ensures this.pool == pool && View() == Core({}, None, pool.timers)
    {
      this.pool := pool;
      tasks := {};
      taskId := None;
    }

    /** Task ids come from an ever-growing counter, so `task` shares its id with nothing queued. */
    method Push(task: InnerTask) returns (owes: bool)
      requires forall u | u in tasks :: u.id != task.id
      modifies this`tasks
      ensures PushSection(old(View()), task, owes, View())
    {
      tasks := tasks + {task};
      EarliestExists(tasks);
      var top :| top in tasks && Earliest(top, tasks);
      owes := top.id == task.id;
    }

    method ExecuteTask(now: int) returns (batch: seq<InnerTask>)
      modifies this, pool`batches
      ensures ExecuteSection(old(View()), now, batch, View())
      ensures pool.batches == if batch == [] then old(pool.batches) else old(pool.batches) + [batch]
    {
      batch := [];
      while tasks != {}
        invariant tasks <= old(tasks)
        invariant DueOrder(batch) && NoRepeats(batch)
        invariant forall t :: t in batch <==> t in old(tasks) - tasks && !t.isNull && t.time <= now
        invariant forall t | t in old(tasks) - tasks :: t.isNull || t.time <= now
        invariant forall t, u | t in old(tasks) - tasks && u in tasks :: t.time <= u.time
        invariant pool.batches == old(pool.batches) && pool.timers == old(pool.timers)
        decreases tasks
      {
        EarliestExists(tasks);
        var top :| top in tasks && Earliest(top, tasks);
        if top.isNull {
          tasks := tasks - {top};
          continue;
        }
        if top.time <= now {
          batch := batch + [top];
          tasks := tasks - {top};
          continue;
        }
        assert Earliest(top, tasks) && !top.isNull;
        break;
      }
      if batch != [] {
        pool.batches := pool.batches + [batch];
      }
      taskId := None;
    }

    /** The returned id is cancelled in the pool after the lock is released. */
    method TakeIdleTimer() returns (cancel: Option<nat>)
      modifies this`taskId
      ensures (View(), cancel) == CancelSection(old(View()))
    {
      cancel := None;
      if tasks == {} && taskId.Some? {
        cancel := taskId;
        taskId := None;
      }
    }

    method ArmTimer(now: int)
      modifies this`taskId, pool`timers
      ensures ArmSection(old(View()), now, View())
    {
      if tasks == {} {
        return;
      }
      EarliestExists(tasks);
      var top :| top in tasks && Earliest(top, tasks);
      var duration := if top.time < now then 0 else top.time - now;
      if taskId.Some? {
        if taskId.value < |pool.timers| && pool.timers[taskId.value].Pending? {
          pool.timers := pool.timers[taskId.value := Pending(now + duration)];
        }
        assert View() == Arm(old(View()), Max(now, top.time));
        return;
      }
      taskId := Some(|pool.timers|);
      pool.timers := pool.timers + [Pending(now + duration)];
      assert View() == Arm(old(View()), Max(now, top.time));
    }

    method RemoveTasks(filter: Option<TaskInfo -> bool>)
      modifies this`tasks
      ensures RemoveSection(old(View()), filter, View())
      ensures forall t | t in old(tasks) :: t in tasks <==> filter.Some? && !filter.value(t.info)
    {
      var waiting := tasks;
      tasks := {};
      while waiting != {}
        invariant waiting <= old(tasks) && tasks !! waiting
        invariant tasks == set t | t in old(tasks) - waiting && !Matches(filter, t)
        decreases waiting
      {
        EarliestExists(waiting);
        var top :| top in waiting && Earliest(top, waiting);
        if !Matches(filter, top) {
          tasks := tasks + {top};
        }
        waiting := waiting - {top};
      }
    }
  }
}
