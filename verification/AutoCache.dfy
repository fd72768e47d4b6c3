/**
  The cache of open stores of framework/store/auto_cache.

  Each operation on the ConcurrentMap of stores is one atomic section, a function on `Cache`. A store
  is created with one reference, which its cache entry owns; every handle given out owns one more.
 */
module AutoCache {
  import opened Wrappers

  type Token = nat
  type Key = string
  type StoreId = nat

  datatype Slot = Slot(token: Token, key: Key)

  const EL1 := 1
  const EL4 := 4

  datatype Delegate = Delegate(store: StoreId, area: int, interval: nat, time: int)

  /** `refs` holds the reference count of every store that was ever created. */
  datatype Cache = Cache(stores: map<Slot, Delegate>, refs: map<StoreId, nat>)

  function AddRef(refs: map<StoreId, nat>, s: StoreId): map<StoreId, nat> {
    if s in refs && refs[s] > 0 then refs[s := refs[s] + 1] else refs
  }

  function Release(refs: map<StoreId, nat>, s: StoreId): map<StoreId, nat> {
    if s in refs && refs[s] > 0 then refs[s := refs[s] - 1] else refs
  }

  /** The stores behind some slots. */
  function StoresOf(c: Cache, xs: set<Slot>): set<StoreId>
    requires xs <= c.stores.Keys
  {
    set x | x in xs :: c.stores[x].store
  }

  // ---- Removing entries -------------------------------------------------------------------------

  ghost predicate InSlots(c: Cache, xs: set<Slot>, s: StoreId) {
    exists x :: x in c.stores && x in xs && c.stores[x].store == s
  }

  /** Destroy the delegates in `xs`: each gives its reference back. */
  ghost function Evict(c: Cache, xs: set<Slot>): Cache {
    Cache(c.stores - xs,
          map s | s in c.refs :: if InSlots(c, xs, s) && c.refs[s] > 0 then c.refs[s] - 1 else c.refs[s])
  }

  /** What a garbage collection takes: expired (or forced), not EL4 under a locked screen, not busy. */
  predicate Collectable(d: Delegate, current: int, isForce: bool, isLocked: bool, busy: set<StoreId>) {
    (!isLocked || d.area != EL4) && (isForce || d.time < current) && d.store !in busy
  }

  function Garbage(c: Cache, current: int, isForce: bool, isLocked: bool, busy: set<StoreId>): set<Slot> {
    set x | x in c.stores && Collectable(c.stores[x], current, isForce, isLocked, busy)
  }

  /** What CloseStore takes, busy or not; an empty key stands for all of the token's. */
  predicate Closable(d: Delegate, key: Key, asked: Key, isLocked: bool) {
    (key == asked || asked == "") && (!isLocked || d.area != EL4)
  }

  function Closing(c: Cache, token: Token, key: Key, isLocked: bool): set<Slot> {
    set x | x in c.stores && x.token == token && Closable(c.stores[x], x.key, key, isLocked)
  }

  // ---- Handing out stores -----------------------------------------------------------------------

  /** Delegate::operator Store: a new handle, and a new lease of life for the entry. */
  function Acquire(c: Cache, x: Slot, now: int): Cache
    requires x in c.stores
  {
    var d := c.stores[x];
    Cache(c.stores[x := d.(time := now + d.interval)], AddRef(c.refs, d.store))
  }

  function Insert(c: Cache, x: Slot, d: Delegate): Cache {
    Cache(c.stores[x := d], c.refs[d.store := 1])
  }

  /** The outcome of GetDBStore's section; `started` says that the caller goes on to StartTimer. */
  datatype Got = Got(cache: Cache, handle: Option<StoreId>, started: bool)

  /** `created` is what the creator would return; it is called only when there is no entry. */
  function GetSection(c: Cache, x: Slot, area: int, interval: nat, now: int, created: Option<StoreId>): Got {
    if x in c.stores then Got(Acquire(c, x, now), Some(c.stores[x].store), false)
    else if created.None? then Got(c, None, false)
    else Got(Acquire(Insert(c, x, Delegate(created.value, area, interval, now + interval)), x, now), created, true)
  }

  predicate HasToken(c: Cache, token: Token) {
    exists x | x in c.stores :: x.token == token
  }

  /** GetStoresIfPresent looks for a key, an empty key standing for all of them. */
  function Found(c: Cache, token: Token, key: Key): set<Slot> {
    set x | x in c.stores && x.token == token && (key == "" || x.key == key)
  }

  ghost function AcquireAll(c: Cache, xs: set<Slot>, now: int): Cache {
    Cache(map x | x in c.stores :: if x in xs then c.stores[x].(time := now + c.stores[x].interval) else c.stores[x],
          map s | s in c.refs ::
            if InSlots(c, xs, s) && c.refs[s] > 0 then c.refs[s] + 1 else c.refs[s])
  }

  /** A miss makes the section return false, which erases everything cached for the token. */
  ghost function PresentSection(c: Cache, token: Token, key: Key, now: int): Cache {
    if Found(c, token, key) == {} then Evict(c, Found(c, token, ""))
    else AcquireAll(c, Found(c, token, key), now)
  }

  // ---- The garbage-collection timer -------------------------------------------------------------

  /** A timer of the executor. Its index in the table is its task id. */
  datatype Timer = Pending(deadline: int) | Fired

  datatype Timers = Timers(taskId: Option<nat>, table: seq<Timer>)

  /** StartTimer's section. */
  function StartSection(c: Cache, ts: Timers, deadline: int): Timers {
    if ts.taskId.Some? || c.stores == map[] then ts
    else Timers(Some(|ts.table|), ts.table + [Pending(deadline)])
  }

  /** Configure moves the deadline of a timer that has not fired. */
  function Rearm(ts: Timers, deadline: int): Timers {
    if ts.taskId.Some? && ts.taskId.value < |ts.table| && ts.table[ts.taskId.value].Pending?
    then ts.(table := ts.table[ts.taskId.value := Pending(deadline)]) else ts
  }

  // ---- Reference counts -------------------------------------------------------------------------

  ghost predicate IsCached(c: Cache, s: StoreId) {
    exists x :: x in c.stores && c.stores[x].store == s
  }

  ghost predicate Unique(c: Cache) {
    forall x, y | x in c.stores && y in c.stores && c.stores[x].store == c.stores[y].store :: x == y
  }

  /** A store's count is one for its entry, if any, and one for each live handle. */
  ghost predicate Counted(c: Cache, handles: multiset<StoreId>) {
    && (forall s | s in c.refs :: c.refs[s] == (if IsCached(c, s) then 1 else 0) + handles[s])
    && (forall x | x in c.stores :: c.stores[x].store in c.refs)
    && (forall s | s in handles :: s in c.refs)
  }

  ghost predicate CacheInv(c: Cache, handles: multiset<StoreId>) {
    Unique(c) && Counted(c, handles)
  }

  lemma EvictKeeps(c: Cache, xs: set<Slot>, handles: multiset<StoreId>)
    requires CacheInv(c, handles)
    ensures CacheInv(Evict(c, xs), handles)
  {
    var c' := Evict(c, xs);
    forall s | s in c'.refs ensures c'.refs[s] == (if IsCached(c', s) then 1 else 0) + handles[s] {
      if IsCached(c, s) {
        var x :| x in c.stores && c.stores[x].store == s;
        assert IsCached(c', s) <==> x in c'.stores;
        assert InSlots(c, xs, s) <==> x in xs;
      }
    }
  }

  lemma AcquireAllKeeps(c: Cache, xs: set<Slot>, now: int, handles: multiset<StoreId>, added: multiset<StoreId>)
    requires CacheInv(c, handles) && xs <= c.stores.Keys
    requires forall s :: added[s] == if InSlots(c, xs, s) then 1 else 0
    ensures CacheInv(AcquireAll(c, xs, now), handles + added)
  {
    var c' := AcquireAll(c, xs, now);
    forall s ensures IsCached(c', s) <==> IsCached(c, s) {
      if x :| x in c.stores && c.stores[x].store == s {
        assert c'.stores[x].store == s;
      }
    }
  }

  lemma AcquireIsAcquireAll(c: Cache, x: Slot, now: int)
    requires x in c.stores
    ensures Acquire(c, x, now) == AcquireAll(c, {x}, now)
  {
  }

  lemma InsertKeeps(c: Cache, x: Slot, d: Delegate, handles: multiset<StoreId>)
    requires CacheInv(c, handles) && x !in c.stores && d.store !in c.refs
    ensures CacheInv(Insert(c, x, d), handles)
  {
    var c' := Insert(c, x, d);
    forall s ensures IsCached(c', s) <==> IsCached(c, s) || s == d.store {
      if y :| y in c.stores && c.stores[y].store == s {
        assert c'.stores[y].store == s;
      }
      if s == d.store {
        assert c'.stores[x].store == s;
      }
    }
  }

  lemma GetKeeps(c: Cache, x: Slot, area: int, interval: nat, now: int, created: Option<StoreId>,
                 handles: multiset<StoreId>)
    requires CacheInv(c, handles)
    requires created.Some? ==> created.value !in c.refs
    ensures var got := GetSection(c, x, area, interval, now, created);
      CacheInv(got.cache, if got.handle.Some? then handles + multiset{got.handle.value} else handles)
  {
    if x in c.stores {
      AcquireIsAcquireAll(c, x, now);
      AcquireAllKeeps(c, {x}, now, handles, multiset{c.stores[x].store});
    } else if created.Some? {
      var d := Delegate(created.value, area, interval, now + interval);
      var c1 := Insert(c, x, d);
      InsertKeeps(c, x, d, handles);
      AcquireIsAcquireAll(c1, x, now);
      AcquireAllKeeps(c1, {x}, now, handles, multiset{created.value});
    }
  }

  lemma PresentKeeps(c: Cache, token: Token, key: Key, now: int, handles: multiset<StoreId>)
    requires CacheInv(c, handles)
    ensures CacheInv(PresentSection(c, token, key, now),
                     handles + multiset(StoresOf(c, Found(c, token, key))))
  {
    var xs := Found(c, token, key);
    var added := multiset(set x | x in xs :: c.stores[x].store);
    if xs == {} {
      assert added == multiset{};
      EvictKeeps(c, Found(c, token, ""), handles);
    } else {
      AcquireAllKeeps(c, xs, now, handles, added);
    }
  }

  /**
    GetStoresIfPresent is meant to leave the cache as it is. It does so, for a token with entries,
    exactly when the key is empty or cached: any other key costs the token all its entries.
   */
  lemma MissEvictsToken(c: Cache, token: Token, key: Key, now: int)
    requires HasToken(c, token)
    ensures PresentSection(c, token, key, now).stores.Keys == c.stores.Keys <==> key == "" || Slot(token, key) in c.stores
    ensures !(key == "" || Slot(token, key) in c.stores) ==> !HasToken(PresentSection(c, token, key, now), token)
  {
    var x :| x in c.stores && x.token == token;
    if key == "" {
      assert x in Found(c, token, key);
    } else if Slot(token, key) in c.stores {
      assert Slot(token, key) in Found(c, token, key);
    } else {
      assert Found(c, token, key) == {};
      assert x !in PresentSection(c, token, key, now).stores;
    }
  }

  /** What GetStoresIfPresent does to an entry: a found one lives on anew, and a miss drops all of the token's. */
  lemma PresentAt(c: Cache, token: Token, key: Key, now: int, x: Slot)
    requires x in c.stores
    ensures var c', d := PresentSection(c, token, key, now), c.stores[x];
      if x.token == token && (key == "" || x.key == key) then x in c'.stores && c'.stores[x] == d.(time := now + d.interval)
      else if x.token != token || Slot(token, key) in c.stores then x in c'.stores && c'.stores[x] == d
      else x !in c'.stores
  {
    if x.token == token && (key == "" || x.key == key) {
      assert x in Found(c, token, key);
    } else if Slot(token, key) in c.stores {
      assert Slot(token, key) in Found(c, token, key);
    } else {
      assert x.token == token ==> Found(c, token, key) == {};
    }
  }

  /** The entry that a creation leaves: the store made for it, with the area and interval it was opened with. */
  lemma CreatedAs(c: Cache, x: Slot, area: int, interval: nat, now: int, id: StoreId)
    requires x !in c.stores
    ensures var got := GetSection(c, x, area, interval, now, Some(id));
      && got.handle == Some(id) && got.started
      && got.cache.stores == c.stores[x := Delegate(id, area, interval, now + interval)]
      && id in got.cache.refs && got.cache.refs[id] == 2
  {
  }

  // ---- The code ---------------------------------------------------------------------------------

  datatype Status = E_OK | E_ERROR | E_SCREEN_LOCKED | E_USER_DEACTIVATING | E_USER_LOCKED | E_CREATE(code: nat)

  /** What CheckStatusBeforeOpen reads from its surroundings. */
  datatype Device = Device(isLocked: bool, isDeactivating: bool, isVerified: bool)

  function CheckStatusBeforeOpen(area: int, user: int, device: Device): (status: Status)
    ensures status == E_SCREEN_LOCKED <==> area == 4 && device.isLocked
    ensures status == E_USER_DEACTIVATING || status == E_USER_LOCKED <==>
      status != E_SCREEN_LOCKED && user != 0 && area != 1 && (device.isDeactivating || !device.isVerified)
    ensures status == E_USER_DEACTIVATING ==> device.isDeactivating
    ensures status == E_USER_LOCKED ==> !device.isDeactivating
    ensures status in {E_OK, E_SCREEN_LOCKED, E_USER_DEACTIVATING, E_USER_LOCKED}
  {
    if area == EL4 && device.isLocked then E_SCREEN_LOCKED
    else if user == 0 || area == EL1 then E_OK
    else if device.isDeactivating then E_USER_DEACTIVATING
    else if !device.isVerified then E_USER_LOCKED
    else E_OK
  }

  /** In a cache in which every store has one slot, one more slot is one more store. */
  lemma InOneMoreSlot(c: Cache, xs: set<Slot>, x: Slot)
    requires Unique(c) && x in c.stores && x !in xs
    ensures !InSlots(c, xs, c.stores[x].store)
    ensures forall s :: InSlots(c, xs + {x}, s) <==> s == c.stores[x].store || InSlots(c, xs, s)
  {
    var more := xs + {x};
    forall s ensures InSlots(c, more, s) <==> s == c.stores[x].store || InSlots(c, xs, s) {
      assert x in more;
      if y :| y in c.stores && y in xs && c.stores[y].store == s {
        assert y in more;
      }
    }
  }

  /** Evicting one more slot from a cache in which every store has one slot. */
  lemma EvictOneMore(c: Cache, xs: set<Slot>, x: Slot)
    requires Unique(c) && x in c.stores && x !in xs
    ensures Evict(c, xs + {x})
         == Cache(Evict(c, xs).stores - {x}, Release(Evict(c, xs).refs, c.stores[x].store))
  {
    InOneMoreSlot(c, xs, x);
  }

  lemma OneMoreStore(c: Cache, xs: set<Slot>, x: Slot)
    requires Unique(c) && xs <= c.stores.Keys && x in c.stores && x !in xs
    ensures c.stores[x].store !in StoresOf(c, xs)
    ensures StoresOf(c, xs + {x}) == StoresOf(c, xs) + {c.stores[x].store}
  {
  }

  lemma AcquireOneMoreRef(c: Cache, xs: set<Slot>, now: int, x: Slot, s: StoreId)
    requires Unique(c) && x in c.stores && x !in xs && s in c.refs
    ensures var refs := AddRef(AcquireAll(c, xs, now).refs, c.stores[x].store);
      s in refs && AcquireAll(c, xs + {x}, now).refs[s] == refs[s]
  {
    InOneMoreSlot(c, xs, x);
  }

  lemma AcquireOneMore(c: Cache, xs: set<Slot>, now: int, x: Slot)
    requires Unique(c) && x in c.stores && x !in xs
    ensures AcquireAll(c, xs + {x}, now) == Acquire(AcquireAll(c, xs, now), x, now)
  {
    var all, one := AcquireAll(c, xs + {x}, now), Acquire(AcquireAll(c, xs, now), x, now);
    forall s | s in c.refs ensures s in one.refs && all.refs[s] == one.refs[s] {
      AcquireOneMoreRef(c, xs, now, x, s);
    }
    assert all.refs == one.refs;
    forall y | y in c.stores ensures all.stores[y] == one.stores[y] {
      assert y in xs + {x} <==> y == x || y in xs;
    }
    assert all.stores == one.stores;
  }

  /**
    AutoCache with the fields that the code updates in place. The two-level map of stores is keyed by
    slots: every section drops a token whose inner map it leaves empty.
   */
  class AutoCache {
    var stores: map<Slot, Delegate>
    var refs: map<StoreId, nat>
    var garbageInterval: nat
    var disables: map<Token, set<Key>>
    var timers: Timers

    ghost function View(): Cache
      reads this
    {
      Cache(stores, refs)
    }

    constructor (garbageInterval: nat)
      ensures View() == Cache(map[], map[]) && disables == map[] && timers == Timers(None, [])
      ensures this.garbageInterval == garbageInterval
    {
      stores, refs, disables, timers := map[], map[], map[], Timers(None, []);
      this.garbageInterval := garbageInterval;
    }

    method Configure(interval: nat, now: int)
      modifies this`garbageInterval, this`timers
      ensures garbageInterval == interval && timers == Rearm(old(timers), now + interval)
    {
      garbageInterval := interval;
      if timers.taskId.Some? && timers.taskId.value < |timers.table| && timers.table[timers.taskId.value].Pending? {
        timers := timers.(table := timers.table[timers.taskId.value := Pending(now + interval)]);
      }
    }

    /** The erase-while-iterating loop of CloseStore and GarbageCollect. */
    method EraseIf(victim: (Slot, Delegate) -> bool) returns (ghost gone: set<Slot>)
      requires Unique(View())
      modifies this`stores, this`refs
      ensures gone == set x | x in old(stores) && victim(x, old(stores)[x])
      ensures View() == Evict(old(View()), gone)
    {
      var slots := stores.Keys;
      ghost var c := View();
      gone := {};
      assert View() == Evict(c, {});
      while slots != {}
        invariant slots <= stores.Keys && View() == Evict(c, gone)
        invariant gone == set x | x in c.stores && x !in slots && victim(x, c.stores[x])
        decreases slots
      {
        var x :| x in slots;
        slots := slots - {x};
        if victim(x, stores[x]) {
          EvictOneMore(c, gone, x);
          gone := gone + {x};
          refs := Release(refs, stores[x].store);
          stores := stores - {x};
        }
      }
    }

    method GarbageCollect(current: int, isForce: bool, isLocked: bool, busy: set<StoreId>)
      requires Unique(View())
      modifies this`stores, this`refs
      ensures View() == Evict(old(View()), Garbage(old(View()), current, isForce, isLocked, busy))
      ensures forall x | x in old(stores) :: var d := old(stores)[x];
        x !in stores <==> (isForce || d.time < current) && !(isLocked && d.area == EL4) && d.store !in busy
      ensures forall x | x in stores :: x in old(stores) && stores[x] == old(stores)[x]
    {
      ghost var gone := EraseIf((x, d) => Collectable(d, current, isForce, isLocked, busy));
      assert gone == Garbage(old(View()), current, isForce, isLocked, busy);
    }

    method CloseStore(token: Token, key: Key, isLocked: bool)
      requires Unique(View())
      modifies this`stores, this`refs
      ensures View() == Evict(old(View()), Closing(old(View()), token, key, isLocked))
      ensures forall x | x in old(stores) ::
        x !in stores <==> x.token == token && (key == "" || x.key == key) && !(isLocked && old(stores)[x].area == EL4)
      ensures forall x | x in stores :: x in old(stores) && stores[x] == old(stores)[x]
    {
      ghost var gone := EraseIf((x: Slot, d) => x.token == token && Closable(d, x.key, key, isLocked));
      assert gone == Closing(old(View()), token, key, isLocked);
    }

    /** `creator` is the creator's answer, an error code or a new store; absent if no creator is registered. */
    method GetDBStore(token: Token, key: Key, area: int, user: int, device: Device, now: int,
                      creator: Option<(Status, Option<StoreId>)>)
      returns (status: Status, handle: Option<StoreId>, startTimer: bool)
      modifies this`stores, this`refs
      ensures creator.None? || (token in old(disables) && key in old(disables)[token])
        ==> status == E_ERROR && handle == None && !startTimer && View() == old(View())
      ensures creator.Some? && !(token in old(disables) && key in old(disables)[token]) ==>
        var check := CheckStatusBeforeOpen(area, user, device);
        if check != E_OK then status == check && handle == None && !startTimer && View() == old(View())
        else
          var got := GetSection(old(View()), Slot(token, key), area, garbageInterval, now, creator.value.1);
          && Got(View(), handle, startTimer) == got
          && status == (if Slot(token, key) in old(stores) then E_OK
                        else if creator.value.0 == E_OK && creator.value.1.None? then E_ERROR
                        else creator.value.0)
    {
      handle, startTimer := None, false;
      if creator.None? || (token in disables && key in disables[token]) {
        return E_ERROR, None, false;
      }
      status := CheckStatusBeforeOpen(area, user, device);
      if status != E_OK {
        return status, None, false;
      }
      var x := Slot(token, key);
      if x in stores {
        handle := TakeHandle(x, now);
      } else {
        var dbStore := creator.value.1;
        status := creator.value.0;
        if dbStore.Some? {
          stores := stores[x := Delegate(dbStore.value, area, garbageInterval, now + garbageInterval)];
          refs := refs[dbStore.value := 1];
          handle := TakeHandle(x, now);
          startTimer := true;
        }
      }
      status := if status == E_OK && handle.None? then E_ERROR else status;
    }

    method TakeHandle(x: Slot, now: int) returns (handle: Option<StoreId>)
      requires x in stores
      modifies this`stores, this`refs
      ensures View() == Acquire(old(View()), x, now) && handle == Some(old(stores)[x].store)
    {
      var d := stores[x];
      stores := stores[x := d.(time := now + d.interval)];
      refs := AddRef(refs, d.store);
      handle := Some(d.store);
    }

    method TakeHandles(found: set<Slot>, now: int) returns (handles: seq<StoreId>)
      requires Unique(View()) && found <= stores.Keys
      modifies this`stores, this`refs
      ensures View() == AcquireAll(old(View()), found, now)
      ensures multiset(handles) == multiset(StoresOf(old(View()), found))
    {
      handles := [];
      ghost var c := View();
      var slots := found;
      ghost var taken: set<Slot> := {};
      assert View() == AcquireAll(c, {}, now);
      while slots != {}
        invariant slots <= found && taken == found - slots && View() == AcquireAll(c, taken, now)
        invariant multiset(handles) == multiset(StoresOf(c, taken))
        decreases slots
      {
        var x :| x in slots;
        AcquireOneMore(c, taken, now, x);
        OneMoreStore(c, taken, x);
        var handle := TakeHandle(x, now);
        handles := handles + [handle.value];
        slots := slots - {x};
        taken := taken + {x};
      }
      assert taken == found;
    }

    method GetStoresIfPresent(token: Token, key: Key, now: int) returns (handles: seq<StoreId>)
      requires Unique(View())
      modifies this`stores, this`refs
      ensures View() == PresentSection(old(View()), token, key, now)
      ensures forall h :: h in handles <==>
        exists x | x in old(stores) :: x.token == token && (key == "" || x.key == key) && old(stores)[x].store == h
      ensures multiset(handles) == multiset(StoresOf(old(View()), Found(old(View()), token, key)))
    {
      var found := set x | x in stores && x.token == token && (key == "" || x.key == key);
      assert found == Found(View(), token, key);
      if found == {} {
        handles := [];
        ghost var gone := EraseIf((x: Slot, d) => x.token == token);
        assert gone == Found(old(View()), token, "");
      } else {
        handles := TakeHandles(found, now);
      }
      InMultiset(handles, StoresOf(old(View()), found));
    }

    method StartTimer(now: int)
      modifies this`timers
      ensures timers == StartSection(View(), old(timers), now + garbageInterval)
      ensures old(timers).taskId.Some? || stores == map[] ==> timers == old(timers)
      ensures old(timers).taskId.None? && stores != map[] ==>
        timers.taskId == Some(|old(timers).table|) && timers.table == old(timers).table + [Pending(now + garbageInterval)]
    {
      if timers.taskId.Some? || stores == map[] {
        return;
      }
      timers := Timers(Some(|timers.table|), timers.table + [Pending(now + garbageInterval)]);
    }
  }

  lemma InMultiset(handles: seq<StoreId>, ids: set<StoreId>)
    requires multiset(handles) == multiset(ids)
    ensures forall h :: h in handles <==> h in ids
  {
    forall h ensures h in handles <==> h in ids {
      assert h in handles <==> h in multiset(handles);
    }
  }
}
