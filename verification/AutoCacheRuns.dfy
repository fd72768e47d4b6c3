/**
  Every interleaving of callers, handle releases, garbage-collection callbacks and the clock on one
  AutoCache whose executor was bound before the first store opened.
 */
module AutoCacheRuns {
  import opened Wrappers
  import opened AutoCache

  datatype Thread =
    | MustStart                                             // about to enter StartTimer
    | Callback(timer: nat)                                  // the timer fired
    | Collecting(timer: nat, current: int, isLocked: bool)  // GarbageCollect has read clock and screen
    | MustReset(timer: nat)                                 // GarbageCollect is over
    | Done

  /** `acquired` records when a store was last handed out. */
  datatype State = State(
    cache: Cache,
    handles: multiset<StoreId>,
    timers: Timers,
    threads: seq<Thread>,
    now: int,
    interval: nat,
    acquired: map<StoreId, int>)

  datatype Step =
    | Get(slot: Slot, area: int, created: Option<StoreId>)
    | GetPresent(token: Token, key: Key)
    | Drop(store: StoreId)
    | Close(slots: set<Slot>)
    | Configure(interval: nat)
    | Tick(now: int)
    | Start(thread: nat)
    | Fire(timer: nat)
    | Enter(thread: nat, isLocked: bool)
    | Collect(thread: nat, busy: set<StoreId>)
    | Reset(thread: nat)

  predicate Init(s: State) {
    && s.cache == Cache(map[], map[]) && s.handles == multiset{}
    && s.timers == Timers(None, []) && s.threads == [] && s.acquired == map[]
  }

  ghost function FoundStores(c: Cache, token: Token, key: Key): set<StoreId> {
    StoresOf(c, Found(c, token, key))
  }

  ghost predicate Next(s: State, step: Step, s': State) {
    match step
    case Get(x, area, created) =>
      && (created.Some? ==> created.value !in s.cache.refs)
      && var got := GetSection(s.cache, x, area, s.interval, s.now, created);
      && s' == s.(cache := got.cache,
                  handles := if got.handle.Some? then s.handles + multiset{got.handle.value} else s.handles,
                  acquired := if got.handle.Some? then s.acquired[got.handle.value := s.now] else s.acquired,
                  threads := if got.started then s.threads + [MustStart] else s.threads)
    case GetPresent(token, key) =>
      && var found := FoundStores(s.cache, token, key);
      && s' == s.(cache := PresentSection(s.cache, token, key, s.now),
                  handles := s.handles + multiset(found),
                  acquired := map id | id in s.acquired.Keys + found :: if id in found then s.now else s.acquired[id])
    case Drop(id) =>
      && id in s.handles
      && s' == s.(cache := s.cache.(refs := Release(s.cache.refs, id)), handles := s.handles - multiset{id})
    case Close(xs) =>
      s' == s.(cache := Evict(s.cache, xs))
    case Configure(interval) =>
      s' == s.(interval := interval, timers := Rearm(s.timers, s.now + interval))
    case Tick(now) =>
      s.now <= now && s' == s.(now := now)
    case Start(i) =>
      && i < |s.threads| && s.threads[i].MustStart?
      && s' == s.(timers := StartSection(s.cache, s.timers, s.now + s.interval), threads := s.threads[i := Done])
    case Fire(i) =>
      && i < |s.timers.table| && s.timers.table[i].Pending? && s.timers.table[i].deadline <= s.now
      && s' == s.(timers := s.timers.(table := s.timers.table[i := Fired]), threads := s.threads + [Callback(i)])
    case Enter(i, isLocked) =>
      && i < |s.threads| && s.threads[i].Callback?
      && s' == s.(threads := s.threads[i := Collecting(s.threads[i].timer, s.now, isLocked)])
    case Collect(i, busy) =>
      && i < |s.threads| && s.threads[i].Collecting?
      && s' == s.(cache := Evict(s.cache, Garbage(s.cache, s.threads[i].current, false, s.threads[i].isLocked, busy)),
                  threads := s.threads[i := MustReset(s.threads[i].timer)])
    case Reset(i) =>
      && i < |s.threads| && s.threads[i].MustReset?
      && s' == s.(timers := s.timers.(taskId := None), threads := s.threads[i := MustStart])
  }

  ghost predicate Successor(s: State, s': State) {
    exists step :: Next(s, step, s')
  }

  ghost predicate IsRun(run: seq<State>) {
    && |run| > 0 && Init(run[0])
    && forall i | 0 <= i < |run| - 1 :: Successor(run[i], run[i + 1])
  }

  // ---- The garbage-collection timer -------------------------------------------------------------

  predicate BeforeReset(t: Thread) {
    t.Callback? || t.Collecting? || t.MustReset?
  }

  function PendingTimers(s: State): set<nat> {
    set i: nat | i < |s.timers.table| && s.timers.table[i].Pending?
  }

  function LiveCallbacks(s: State): set<nat> {
    set i: nat | i < |s.threads| && BeforeReset(s.threads[i])
  }

  /** Exactly one timer is armed or in a callback that has not reset the id, if the id is valid; else none. */
  ghost predicate OneTimer(s: State) {
    |PendingTimers(s)| + |LiveCallbacks(s)| == if s.timers.taskId.Some? then 1 else 0
  }

  /** The same, naming the timer. */
  ghost predicate TimerInv(s: State) {
    && (forall i | i in PendingTimers(s) :: s.timers.taskId == Some(i))
    && (forall i | i in LiveCallbacks(s) :: s.timers.taskId == Some(s.threads[i].timer))
    && (forall i, j | i in LiveCallbacks(s) && j in LiveCallbacks(s) :: i == j)
    && (forall i | i in LiveCallbacks(s) :: PendingTimers(s) == {})
    && (s.timers.taskId.Some? ==> PendingTimers(s) != {} || LiveCallbacks(s) != {})
    && (s.timers.taskId.Some? ==> s.timers.taskId.value < |s.timers.table|)
  }

  /** While anything is cached, the timer exists or some thread still owes a StartTimer call. */
  ghost predicate Collected(s: State) {
    s.cache.stores != map[] ==>
      s.timers.taskId.Some? || exists i: nat :: i < |s.threads| && s.threads[i].MustStart?
  }

  lemma NamedTimerIsOne(s: State)
    requires TimerInv(s)
    ensures OneTimer(s)
  {
    if i :| i in LiveCallbacks(s) {
      assert LiveCallbacks(s) == {i};
    } else if i :| i in PendingTimers(s) {
      assert PendingTimers(s) == {i};
    }
  }

  /** All other steps leave the timers and the callbacks alone. */
  lemma QuietStep(s: State, step: Step, s': State)
    requires Next(s, step, s') && !step.Start? && !step.Fire? && !step.Reset?
    ensures s'.timers.taskId == s.timers.taskId && |s'.timers.table| == |s.timers.table|
    ensures PendingTimers(s') == PendingTimers(s)
    ensures LiveCallbacks(s') == LiveCallbacks(s)
    ensures forall i | i in LiveCallbacks(s) :: s'.threads[i].timer == s.threads[i].timer
  {
    match step
    case Get(_, _, _) =>
    case GetPresent(_, _) =>
    case Enter(i, _) =>
    case Collect(i, _) =>
    case Configure(_) =>
      assert PendingTimers(s') == PendingTimers(s);
    case _ =>
  }

  lemma StartKept(s: State, i: nat, s': State)
    requires TimerInv(s) && Next(s, Start(i), s')
    ensures TimerInv(s')
  {
    assert LiveCallbacks(s') == LiveCallbacks(s);
    if s'.timers != s.timers {
      assert PendingTimers(s') == PendingTimers(s) + {|s.timers.table|};
    }
  }

  lemma FireKept(s: State, i: nat, s': State)
    requires TimerInv(s) && Next(s, Fire(i), s')
    ensures TimerInv(s')
  {
    assert i in PendingTimers(s);
    assert PendingTimers(s') == PendingTimers(s) - {i};
    assert LiveCallbacks(s') == LiveCallbacks(s) + {|s.threads|};
  }

  lemma ResetKept(s: State, i: nat, s': State)
    requires TimerInv(s) && Next(s, Reset(i), s')
    ensures TimerInv(s')
  {
    assert i in LiveCallbacks(s);
    assert LiveCallbacks(s') == LiveCallbacks(s) - {i};
    assert PendingTimers(s') == PendingTimers(s);
  }

  lemma TimerKept(s: State, step: Step, s': State)
    requires TimerInv(s) && Next(s, step, s')
    ensures TimerInv(s')
  {
    match step
    case Start(i) => StartKept(s, i, s');
    case Fire(i) => FireKept(s, i, s');
    case Reset(i) => ResetKept(s, i, s');
    case _ => QuietStep(s, step, s');
  }

  lemma CollectedKept(s: State, step: Step, s': State)
    requires TimerInv(s) && Collected(s) && Next(s, step, s')
    ensures Collected(s')
  {
    if s'.cache.stores != map[] && s'.timers.taskId.None? {
      if step.Reset? {
        assert s'.threads[step.thread].MustStart?;
      } else if step.Get? && |s'.threads| > |s.threads| {
        assert s'.threads[|s.threads|].MustStart?;
      } else {
        if s.cache.stores == map[] {
          StoresStayEmpty(s, step, s');
        }
        var i: nat :| i < |s.threads| && s.threads[i].MustStart?;
        assert s'.threads[i].MustStart?;
      }
    }
  }

  /** Only GetDBStore with a new store fills an empty cache. */
  lemma StoresStayEmpty(s: State, step: Step, s': State)
    requires Next(s, step, s') && s.cache.stores == map[]
    requires step.Get? ==> |s'.threads| == |s.threads|
    ensures s'.cache.stores == map[]
  {
  }

  // ---- References and expiry --------------------------------------------------------------------

  /** An entry's expiry is its interval past the last time its store was handed out. */
  ghost predicate Leased(s: State) {
    forall x | x in s.cache.stores ::
      var d := s.cache.stores[x];
      d.store in s.acquired && d.time == s.acquired[d.store] + d.interval
  }

  ghost predicate ClocksBehind(s: State) {
    forall i: nat | i < |s.threads| && s.threads[i].Collecting? :: s.threads[i].current <= s.now
  }

  lemma CountsKept(s: State, step: Step, s': State)
    requires CacheInv(s.cache, s.handles) && Next(s, step, s')
    ensures CacheInv(s'.cache, s'.handles)
  {
    match step
    case Get(x, area, created) => GetKeeps(s.cache, x, area, s.interval, s.now, created, s.handles);
    case GetPresent(token, key) => PresentKeeps(s.cache, token, key, s.now, s.handles);
    case Drop(id) =>
      forall t ensures IsCached(s'.cache, t) <==> IsCached(s.cache, t) {
      }
    case Close(xs) => EvictKeeps(s.cache, xs, s.handles);
    case Collect(i, busy) =>
      EvictKeeps(s.cache, Garbage(s.cache, s.threads[i].current, false, s.threads[i].isLocked, busy), s.handles);
    case _ =>
  }

  lemma GetLeases(s: State, step: Step, s': State)
    requires Unique(s.cache) && Counted(s.cache, s.handles) && Leased(s) && step.Get? && Next(s, step, s')
    ensures Leased(s')
  {
    forall x | x in s'.cache.stores ensures
      var d := s'.cache.stores[x]; d.store in s'.acquired && d.time == s'.acquired[d.store] + d.interval
    {
      if x != step.slot {
        assert s'.cache.stores[x] == s.cache.stores[x];
      }
    }
  }

  lemma PresentLeases(s: State, step: Step, s': State)
    requires Unique(s.cache) && Leased(s) && step.GetPresent? && Next(s, step, s')
    ensures Leased(s')
  {
    var xs := Found(s.cache, step.token, step.key);
    forall x | x in s'.cache.stores ensures
      var d := s'.cache.stores[x]; d.store in s'.acquired && d.time == s'.acquired[d.store] + d.interval
    {
      var id := s.cache.stores[x].store;
      assert id in FoundStores(s.cache, step.token, step.key) <==> x in xs;
    }
  }

  lemma LeasesKept(s: State, step: Step, s': State)
    requires CacheInv(s.cache, s.handles) && Leased(s) && Next(s, step, s')
    ensures Leased(s')
  {
    match step
    case Get(_, _, _) => GetLeases(s, step, s');
    case GetPresent(_, _) => PresentLeases(s, step, s');
    case _ =>
      assert forall x | x in s'.cache.stores :: x in s.cache.stores && s'.cache.stores[x] == s.cache.stores[x];
  }

  ghost predicate Inv(s: State) {
    && TimerInv(s) && Collected(s)
    && CacheInv(s.cache, s.handles)
    && Leased(s) && ClocksBehind(s)
  }

  lemma {:induction false} RunsAreSafe(run: seq<State>, k: nat)
    requires IsRun(run) && k < |run|
    ensures Inv(run[k]) && OneTimer(run[k])
  {
    if k == 0 {
      InitInv(run[0]);
    } else {
      RunsAreSafe(run, k - 1);
      assert Successor(run[k - 1], run[k - 1 + 1]);
      var step :| Next(run[k - 1], step, run[k]);
      InvKept(run[k - 1], step, run[k]);
    }
    NamedTimerIsOne(run[k]);
  }

  lemma InitInv(s: State)
    requires Init(s)
    ensures Inv(s)
  {
  }

  lemma ClocksKept(s: State, step: Step, s': State)
    requires ClocksBehind(s) && Next(s, step, s')
    ensures ClocksBehind(s')
  {
  }

  lemma InvKept(s: State, step: Step, s': State)
    requires Inv(s) && Next(s, step, s')
    ensures Inv(s')
  {
    TimerKept(s, step, s');
    CollectedKept(s, step, s');
    CountsKept(s, step, s');
    LeasesKept(s, step, s');
    ClocksKept(s, step, s');
  }

  /**
    Over every run, a garbage collection removes exactly the entries whose store was last handed out
    more than its interval before the collection began, that are not EL4 under a locked screen and not
    busy; so never one handed out within its interval.
   */
  lemma CollectionRespectsLeases(run: seq<State>, k: nat, i: nat, busy: set<StoreId>)
    requires IsRun(run) && k + 1 < |run| && Next(run[k], Collect(i, busy), run[k + 1])
    ensures var s, s' := run[k], run[k + 1];
      && s.threads[i].current <= s.now
      && forall x | x in s.cache.stores ::
        var d := s.cache.stores[x];
        && d.store in s.acquired
        && (x !in s'.cache.stores <==>
              && s.acquired[d.store] + d.interval < s.threads[i].current
              && !(s.threads[i].isLocked && d.area == EL4)
              && d.store !in busy)
  {
    RunsAreSafe(run, k);
  }

  /** The next collection is never further off than the interval that is configured now. */
  ghost predicate TimersNear(s: State) {
    forall i: nat | i < |s.timers.table| && s.timers.table[i].Pending? ::
      s.timers.table[i].deadline <= s.now + s.interval
  }

  lemma NearKept(s: State, step: Step, s': State)
    requires TimerInv(s) && TimersNear(s) && Next(s, step, s')
    ensures TimersNear(s')
  {
    if step.Configure? {
      ConfigureMovesTimer(s, step.interval, s');
    }
  }

  /** Configure sets every timer that waits, one or none, to the new interval from now, and touches no other. */
  lemma ConfigureMovesTimer(s: State, interval: nat, s': State)
    requires TimerInv(s) && Next(s, Configure(interval), s')
    ensures s'.interval == interval && s'.timers.taskId == s.timers.taskId && |s'.timers.table| == |s.timers.table|
    ensures forall i: nat | i < |s.timers.table| ::
      s'.timers.table[i] == if s.timers.table[i].Pending? then Pending(s.now + interval) else s.timers.table[i]
  {
    forall i: nat | i < |s.timers.table| && s.timers.table[i].Pending? ensures s.timers.taskId == Some(i) {
      assert i in PendingTimers(s);
    }
  }

  lemma {:induction false} TimersStayNear(run: seq<State>, k: nat)
    requires IsRun(run) && k < |run|
    ensures TimersNear(run[k])
  {
    if k == 0 {
    } else {
      TimersStayNear(run, k - 1);
      RunsAreSafe(run, k - 1);
      assert Successor(run[k - 1], run[k - 1 + 1]);
      var step :| Next(run[k - 1], step, run[k]);
      NearKept(run[k - 1], step, run[k]);
    }
  }

  /** All of an entry but its expiry. */
  predicate SameEntry(d: Delegate, d': Delegate) {
    d'.store == d.store && d'.area == d.area && d'.interval == d.interval
  }

  ghost predicate KeepsEntry(s: State, s': State, x: Slot) {
    x in s.cache.stores && x in s'.cache.stores ==> SameEntry(s.cache.stores[x], s'.cache.stores[x])
  }

  lemma {:induction false} KeptEntryStays(run: seq<State>, i: nat, j: nat, x: Slot)
    requires i <= j < |run|
    requires forall k | i <= k < j :: KeepsEntry(run[k], run[k + 1], x)
    requires forall k | i <= k <= j :: x in run[k].cache.stores
    ensures SameEntry(run[i].cache.stores[x], run[j].cache.stores[x])
  {
    if i == j {
    } else {
      KeptEntryStays(run, i, j - 1, x);
      assert KeepsEntry(run[j - 1], run[j - 1 + 1], x);
    }
  }

  lemma StepKeepsEntry(s: State, step: Step, s': State, x: Slot)
    requires Next(s, step, s')
    ensures KeepsEntry(s, s', x)
  {
    match step
    case Get(_, _, _) =>
    case GetPresent(token, key) =>
      if x in s.cache.stores {
        PresentAt(s.cache, token, key, s.now, x);
      }
    case _ =>
  }

  lemma EntryStays(run: seq<State>, i: nat, j: nat, x: Slot)
    requires IsRun(run) && i <= j < |run|
    requires forall k | i <= k <= j :: x in run[k].cache.stores
    ensures SameEntry(run[i].cache.stores[x], run[j].cache.stores[x])
  {
    forall k | i <= k < j ensures KeepsEntry(run[k], run[k + 1], x) {
      assert Successor(run[k], run[k + 1]);
      var step :| Next(run[k], step, run[k + 1]);
      StepKeepsEntry(run[k], step, run[k + 1], x);
    }
    KeptEntryStays(run, i, j, x);
  }

  /** Step i of the run opened `x` with a new store, in this area, and its entry has been there since. */
  ghost predicate OpenedAt(run: seq<State>, i: nat, j: nat, x: Slot, area: int, id: StoreId) {
    && i < j < |run| && Next(run[i], Get(x, area, Some(id)), run[i + 1])
    && x !in run[i].cache.stores && forall k | i < k <= j :: x in run[k].cache.stores
  }

  /** Over every run, an entry is what the call that opened it was given, with the interval of that time. */
  lemma EntryIsAsOpened(run: seq<State>, i: nat, j: nat, x: Slot, area: int, id: StoreId)
    requires IsRun(run) && OpenedAt(run, i, j, x, area, id)
    ensures var d := run[j].cache.stores[x]; d.store == id && d.area == area && d.interval == run[i].interval
  {
    CreatedAs(run[i].cache, x, area, run[i].interval, run[i].now, id);
    EntryStays(run, i + 1, j, x);
  }

  /** So a collection removes it exactly when that interval has passed, and area, screen and store allow it. */
  lemma CollectionByOpening(run: seq<State>, i: nat, k: nat, x: Slot, area: int, id: StoreId, t: nat, busy: set<StoreId>)
    requires IsRun(run) && OpenedAt(run, i, k, x, area, id)
    requires k + 1 < |run| && Next(run[k], Collect(t, busy), run[k + 1])
    ensures id in run[k].acquired
    ensures x !in run[k + 1].cache.stores <==>
      && run[k].acquired[id] + run[i].interval < run[k].threads[t].current
      && !(run[k].threads[t].isLocked && area == EL4)
      && id !in busy
  {
    EntryIsAsOpened(run, i, k, x, area, id);
    CollectionRespectsLeases(run, k, t, busy);
  }

  /** While its entry stays, every GetDBStore for a slot hands out the same store and creates none. */
  lemma GetReusesStore(run: seq<State>, i: nat, j: nat, x: Slot, area: int, created: Option<StoreId>)
    requires IsRun(run) && i <= j && j + 1 < |run| && Next(run[j], Get(x, area, created), run[j + 1])
    requires forall k | i <= k <= j :: x in run[k].cache.stores
    ensures var id := run[i].cache.stores[x].store;
      && run[j + 1].handles == run[j].handles + multiset{id}
      && id in run[j].cache.refs && run[j + 1].cache.refs.Keys == run[j].cache.refs.Keys
      && run[j + 1].cache.refs[id] == run[j].cache.refs[id] + 1
  {
    EntryStays(run, i, j, x);
    RunsAreSafe(run, j);
    assert IsCached(run[j].cache, run[j].cache.stores[x].store);
  }

  /** A store's count is zero exactly when it is neither cached nor held. */
  lemma ZeroMeansUnused(run: seq<State>, k: nat, id: StoreId)
    requires IsRun(run) && k < |run| && id in run[k].cache.refs
    ensures run[k].cache.refs[id] == 0 <==> !IsCached(run[k].cache, id) && id !in run[k].handles
  {
    RunsAreSafe(run, k);
  }
}
