/**
  The thread-local deferred event queue of framework/eventcenter.

  A handler is an arbitrary program: what it does may depend on the event and on everything that
  happened before, so `Env.script` maps the running number of the call to the actions it performs.
  A Defer object lives on the stack, so opening and closing one brackets the actions in its scope.
 */
module EventCenter {
  import opened Wrappers

  const EVT_INVALID := 0

  datatype Code = CODE_SYNC | CODE_ASYNC | CODE_INVALID_ARGS

  datatype Event = Event(id: int, payload: int)

  type Handler = nat

  datatype Action =
    | Post(evt: Option<Event>)
    | Scope(evtId: int, handler: Option<Handler>, body: seq<Action>)
    | Subscribe(id: int, observer: Handler)
    | Unsubscribe(id: int)

  /** The handlers, Event::Equals and AsyncQueue::MAX_CAPABILITY. */
  datatype Env = Env(script: (nat, Handler, Event) -> seq<Action>, equals: (Event, Event) -> bool, capability: nat)

  /** One drained event, the observers it went to and the temporary handler it went to after them. */
  datatype Served = Served(evt: Event, residents: seq<Handler>, temporary: Option<Handler>)

  /** `accepted` and `served` record what was ever put into the queue and what was drained from it. */
  datatype AsyncQueue = AsyncQueue(
    depth: nat,
    events: seq<Event>,
    handlers: map<int, Handler>,
    accepted: seq<Event>,
    served: seq<Served>)

  datatype Delivery = Delivery(evt: Event, handler: Handler)

  /** One thread. `deleted` records every queue that its outermost Defer deleted. */
  datatype World = World(
    queue: Option<AsyncQueue>,
    observers: map<int, seq<Handler>>,
    calls: nat,
    log: seq<Delivery>,
    deleted: seq<AsyncQueue>)

  ghost predicate Valid(w: World) {
    w.queue.Some? ==> 1 <= w.queue.value.depth
  }

  /** An event is dropped when it equals one that is still queued. */
  predicate IsDuplicate(env: Env, events: seq<Event>, evt: Event) {
    exists i | 0 <= i < |events| :: events[i].id == evt.id && env.equals(events[i], evt)
  }

  ghost predicate NoDuplicates(env: Env, events: seq<Event>) {
    forall i, j | 0 <= i < j < |events| :: !(events[i].id == events[j].id && env.equals(events[i], events[j]))
  }

  function PostTo(env: Env, q: AsyncQueue, evt: Event): (q': AsyncQueue)
    ensures Grew(env, q, q')
  {
    if IsDuplicate(env, q.events, evt) then q
    else q.(events := q.events + [evt], accepted := q.accepted + [evt])
  }

  function AddHandler(q: AsyncQueue, evtId: int, handler: Option<Handler>): AsyncQueue {
    if evtId == EVT_INVALID || handler.None? || evtId in q.handlers then q
    else q.(handlers := q.handlers[evtId := handler.value])
  }

  /** Defer's constructor. */
  function Open(w: World, evtId: int, handler: Option<Handler>): World {
    var q := if w.queue.Some? then w.queue.value else AsyncQueue(0, [], map[], [], []);
    w.(queue := Some(AddHandler(q.(depth := q.depth + 1), evtId, handler)))
  }

  function Residents(w: World, evtId: int): seq<Handler> {
    if evtId in w.observers then w.observers[evtId] else []
  }

  function Deliveries(evt: Event, hs: seq<Handler>): seq<Delivery> {
    seq(|hs|, i requires 0 <= i < |hs| => Delivery(evt, hs[i]))
  }

  /** The deliveries that a drained event stands for. */
  function ServedLog(s: Served): seq<Delivery> {
    Deliveries(s.evt, s.residents) + (if s.temporary.Some? then [Delivery(s.evt, s.temporary.value)] else [])
  }

  function ServedLogs(ss: seq<Served>): seq<Delivery> {
    if ss == [] then [] else ServedLogs(ss[..|ss| - 1]) + ServedLog(ss[|ss| - 1])
  }

  function ServedEvents(ss: seq<Served>): seq<Event> {
    seq(|ss|, i requires 0 <= i < |ss| => ss[i].evt)
  }

  /**
    All that code running under an open Defer can do to the queue: append events that duplicate
    nothing queued and register handlers for ids that have none.
   */
  ghost predicate Grew(env: Env, q: AsyncQueue, q': AsyncQueue) {
    && q'.depth == q.depth
    && q'.served == q.served
    && q.events <= q'.events
    && q'.accepted == q.accepted + q'.events[|q.events|..]
    && Extends(q.handlers, q'.handlers)
    && (NoDuplicates(env, q.events) ==> NoDuplicates(env, q'.events))
  }

  ghost predicate Deferred(env: Env, w: World, w': World) {
    && w.queue.Some? && w'.queue.Some?
    && w'.deleted == w.deleted
    && Grew(env, w.queue.value, w'.queue.value)
  }

  /** What became of a queue by the time it was deleted. */
  ghost predicate WellDrained(env: Env, q: AsyncQueue) {
    && InOrder(env, q)
    && |q.served| == (if |q.accepted| < env.capability then |q.accepted| else env.capability)
  }

  /** What was accepted is what was drained followed by what is queued, in the order of posting. */
  ghost predicate InOrder(env: Env, q: AsyncQueue) {
    ServedEvents(q.served) + q.events == q.accepted && NoDuplicates(env, q.events)
  }

  /** What a program does when no Defer is live around it. */
  ghost predicate Outermost(env: Env, w: World, w': World) {
    && w.queue.None? && w'.queue.None?
    && w.deleted <= w'.deleted
    && w.log <= w'.log
    && forall i | |w.deleted| <= i < |w'.deleted| :: WellDrained(env, w'.deleted[i])
  }

  ghost function Level(w: World): nat {
    if w.queue.None? then 4 else 0
  }

  function Exec(env: Env, w: World, prog: seq<Action>): (w': World)
    requires Valid(w)
    ensures w.queue.Some? ==> Deferred(env, w, w') && w'.log == w.log && w'.calls == w.calls
    ensures w.queue.None? ==> Outermost(env, w, w')
    decreases Level(w), prog, 0
  {
    if prog == [] then w
    else
      var w1 := ExecOne(env, w, prog[0]);
      Exec(env, w1, prog[1..])
  }

  function ExecOne(env: Env, w: World, action: Action): (w': World)
    requires Valid(w)
    ensures w.queue.Some? ==> Deferred(env, w, w') && w'.log == w.log && w'.calls == w.calls
    ensures w.queue.None? ==> Outermost(env, w, w')
    decreases Level(w), action, 0
  {
    match action
    case Post(None) => w
    case Post(Some(evt)) => PostEvent(env, w, evt)
    case Scope(evtId, handler, body) => ExecScope(env, w, evtId, handler, body)
    case Subscribe(id, observer) => w.(observers := w.observers[id := Residents(w, id) + [observer]])
    case Unsubscribe(id) => w.(observers := w.observers - {id})
  }

  /** Queue the event under an open Defer; otherwise dispatch it at once, under a Defer of its own. */
  function PostEvent(env: Env, w: World, evt: Event): (w': World)
    requires Valid(w)
    ensures w.queue.Some? ==> Deferred(env, w, w') && w'.log == w.log && w'.calls == w.calls
    ensures w.queue.None? ==> Outermost(env, w, w')
    decreases Level(w), evt
  {
    if w.queue.Some? then w.(queue := Some(PostTo(env, w.queue.value, evt)))
    else Drain(env, CallAll(env, Open(w, EVT_INVALID, None), evt, Residents(w, evt.id)))
  }

  /** A Defer, the code under it, and the Defer's destructor, which drains the queue if it is the outermost. */
  function ExecScope(env: Env, w: World, evtId: int, handler: Option<Handler>, body: seq<Action>): (w': World)
    requires Valid(w)
    ensures w.queue.Some? ==> Deferred(env, w, w') && w'.log == w.log && w'.calls == w.calls
    ensures w.queue.None? ==> Outermost(env, w, w')
    decreases Level(w), body, 1
  {
    var w1 := Exec(env, Open(w, evtId, handler), body);
    var q := w1.queue.value;
    if q.depth > 1 then w1.(queue := Some(q.(depth := q.depth - 1)))
    else Drain(env, w1)
  }

  /** Call handlers in turn; each runs its script under the open Defer. */
  function CallAll(env: Env, w: World, evt: Event, hs: seq<Handler>): (w': World)
    requires Valid(w) && w.queue.Some?
    ensures Deferred(env, w, w')
    ensures w'.log == w.log + Deliveries(evt, hs) && w'.calls == w.calls + |hs|
    decreases 1, |hs| + 1
  {
    if hs == [] then w
    else CallAll(env, Call(env, w, evt, hs[0]), evt, hs[1..])
  }

  function Call(env: Env, w: World, evt: Event, h: Handler): (w': World)
    requires Valid(w) && w.queue.Some?
    ensures Deferred(env, w, w')
    ensures w'.log == w.log + [Delivery(evt, h)] && w'.calls == w.calls + 1
    decreases 1, 0
  {
    Exec(env, w.(calls := w.calls + 1, log := w.log + [Delivery(evt, h)]), env.script(w.calls, h, evt))
  }

  /** Dispatch the front event to its observers, then to the temporary handler registered for it. */
  function CallFront(env: Env, w: World): (r: (World, Served))
    requires Valid(w) && w.queue.Some? && w.queue.value.events != []
    ensures Deferred(env, w, r.0)
    ensures r.0.log == w.log + ServedLog(r.1)
    ensures r.1.evt == w.queue.value.events[0]
    decreases 1, 3 + |Residents(w, w.queue.value.events[0].id)|
  {
    var evt := w.queue.value.events[0];
    var residents := Residents(w, evt.id);
    var w1 := CallAll(env, w, evt, residents);
    var handlers := w1.queue.value.handlers;
    if evt.id in handlers then
      (Call(env, w1, evt, handlers[evt.id]), Served(evt, residents, Some(handlers[evt.id])))
    else
      (w1, Served(evt, residents, None))
  }

  /** One turn of the drain loop: the event stays at the front until all its handlers have returned. */
  function Serve(env: Env, w: World): (w': World)
    requires Valid(w) && w.queue.Some? && w.queue.value.events != []
    ensures w'.queue.Some? && w'.queue.value.depth == w.queue.value.depth && w'.deleted == w.deleted
    ensures |w'.queue.value.served| == |w.queue.value.served| + 1
    ensures InOrder(env, w.queue.value) ==> InOrder(env, w'.queue.value)
    ensures w.log <= w'.log
    decreases 2, 0
  {
    var (w1, record) := CallFront(env, w);
    var q := w1.queue.value;
    w1.(queue := Some(q.(events := q.events[1..], served := q.served + [record])))
  }

  function DrainLoop(env: Env, w: World, count: nat): (w': World)
    requires Valid(w) && w.queue.Some? && count <= env.capability
    ensures w'.queue.Some? && w'.deleted == w.deleted && w.log <= w'.log
    ensures InOrder(env, w.queue.value) && |w.queue.value.served| == count ==> WellDrained(env, w'.queue.value)
    decreases 3, env.capability - count
  {
    if w.queue.value.events == [] || count == env.capability then w
    else DrainLoop(env, Serve(env, w), count + 1)
  }

  /** The destructor of the outermost Defer: drain, then delete the queue. */
  function Drain(env: Env, w: World): (w': World)
    requires w.queue.Some? && w.queue.value.depth == 1
    requires w.queue.value.served == [] && InOrder(env, w.queue.value)
    ensures w'.queue.None? && w.log <= w'.log
    ensures |w'.deleted| == |w.deleted| + 1 && w'.deleted[..|w.deleted|] == w.deleted
    ensures WellDrained(env, w'.deleted[|w.deleted|])
    decreases 3, env.capability + 1
  {
    var w1 := DrainLoop(env, w, 0);
    w1.(queue := None, deleted := w1.deleted + [w1.queue.value])
  }

  // ---- What a deleted queue delivered -----------------------------------------------------------

  /** Registered handlers stay as they are. */
  ghost predicate Extends(handlers: map<int, Handler>, handlers': map<int, Handler>) {
    forall id | id in handlers :: id in handlers' && handlers'[id] == handlers[id]
  }

  /** `s` was served to the first handler registered for its id, for certain if `before` has one. */
  ghost predicate SentToFirst(s: Served, before: map<int, Handler>, after: map<int, Handler>) {
    && (s.temporary.Some? ==> s.evt.id in after && s.temporary.value == after[s.evt.id])
    && (s.evt.id in before ==> s.temporary == Some(before[s.evt.id]))
  }

  function Registered(w: World, evtId: int): Option<Handler>
    requires w.queue.Some?
  {
    if evtId in w.queue.value.handlers then Some(w.queue.value.handlers[evtId]) else None
  }

  /**
    What `s` records of serving the front event of `w`: the observers registered when its turn came, and
    the temporary handler registered for it once they had returned.
   */
  ghost predicate IsServed(env: Env, w: World, s: Served) {
    && Valid(w) && w.queue.Some? && w.queue.value.events != []
    && s.evt == w.queue.value.events[0]
    && s.residents == Residents(w, s.evt.id)
    && s.temporary == Registered(CallAll(env, w, s.evt, s.residents), s.evt.id)
  }

  /** One more event was served, and just that was logged. */
  ghost predicate Logged(w: World, w': World) {
    && w.queue.Some? && w'.queue.Some?
    && var q, q' := w.queue.value, w'.queue.value;
    && |q'.served| == |q.served| + 1 && q.served <= q'.served && q.accepted <= q'.accepted
    && w'.log == w.log + ServedLog(q'.served[|q.served|])
    && Extends(q.handlers, q'.handlers)
    && SentToFirst(q'.served[|q.served|], q.handlers, q'.handlers)
  }

  /** One turn of the drain loop served the front event. */
  ghost predicate Turn(env: Env, w: World, w': World) {
    && Valid(w) && w.queue.Some? && w.queue.value.events != [] && w' == Serve(env, w)
    && Logged(w, w') && IsServed(env, w, w'.queue.value.served[|w.queue.value.served|])
  }

  lemma ServeIsTurn(env: Env, w: World)
    requires Valid(w) && w.queue.Some? && w.queue.value.events != []
    ensures Turn(env, w, Serve(env, w))
  {
    var evt := w.queue.value.events[0];
    var w1 := CallAll(env, w, evt, Residents(w, evt.id));
    if evt.id in w1.queue.value.handlers {
      var w2 := Call(env, w1, evt, w1.queue.value.handlers[evt.id]);
      assert w2.queue.value.handlers[evt.id] == w1.queue.value.handlers[evt.id];
    }
  }

  /** The worlds before, between and after the turns of a drain. */
  ghost predicate Turns(env: Env, ws: seq<World>) {
    && |ws| > 0 && ws[0].queue.Some?
    && forall i | 0 <= i < |ws| - 1 :: Turn(env, ws[i], ws[i + 1])
  }

  lemma DrainLoopTurns(env: Env, w: World, count: nat) returns (ws: seq<World>)
    requires Valid(w) && w.queue.Some? && count <= env.capability
    ensures Turns(env, ws) && ws[0] == w && ws[|ws| - 1] == DrainLoop(env, w, count)
    decreases env.capability - count
  {
    ws := [w];
    if w.queue.value.events != [] && count != env.capability {
      ServeIsTurn(env, w);
      var rest := DrainLoopTurns(env, Serve(env, w), count + 1);
      ws := [w] + rest;
      forall i | 0 <= i < |ws| - 1 ensures Turn(env, ws[i], ws[i + 1]) {
        assert i > 0 ==> Turn(env, rest[i - 1], rest[i - 1 + 1]);
      }
    }
  }

  ghost predicate AllLogged(ws: seq<World>) {
    |ws| > 0 && ws[0].queue.Some? && forall i | 0 <= i < |ws| - 1 :: Logged(ws[i], ws[i + 1])
  }

  lemma TurnsAreLogged(env: Env, ws: seq<World>)
    requires Turns(env, ws)
    ensures AllLogged(ws)
  {
    forall i | 0 <= i < |ws| - 1 ensures Logged(ws[i], ws[i + 1]) {
      assert Turn(env, ws[i], ws[i + 1]);
    }
  }

  lemma {:induction false} TurnsLog(ws: seq<World>, k: nat)
    requires AllLogged(ws) && k < |ws|
    ensures ws[k].queue.Some?
    ensures var q, q' := ws[0].queue.value, ws[k].queue.value;
      && q.served <= q'.served && |q'.served| == |q.served| + k && q.accepted <= q'.accepted
      && ws[k].log == ws[0].log + ServedLogs(q'.served[|q.served|..])
      && Extends(q.handlers, q'.handlers)
      && forall i | |q.served| <= i < |q'.served| :: SentToFirst(q'.served[i], q.handlers, q'.handlers)
  {
    var q := ws[0].queue.value;
    if k == 0 {
      assert q.served[|q.served|..] == [];
    } else {
      TurnsLog(ws, k - 1);
      assert Logged(ws[k - 1], ws[k - 1 + 1]);
      var q' := ws[k].queue.value;
      var added, last := q'.served[|q.served|..], |q'.served| - 1 - |q.served|;
      assert added[..last] == ws[k - 1].queue.value.served[|q.served|..];
      assert added[last] == q'.served[|q'.served| - 1];
    }
  }

  /** The event of each turn went to whom it should have gone in the world of that turn. */
  lemma {:induction false} TurnsServe(env: Env, ws: seq<World>, k: nat)
    requires Turns(env, ws) && k < |ws| && ws[0].queue.value.served == []
    ensures ws[k].queue.Some? && |ws[k].queue.value.served| == k
    ensures forall i | 0 <= i < k :: IsServed(env, ws[i], ws[k].queue.value.served[i])
  {
    if k == 0 {
    } else {
      TurnsServe(env, ws, k - 1);
      assert Turn(env, ws[k - 1], ws[k - 1 + 1]);
      var served, before := ws[k].queue.value.served, ws[k - 1].queue.value.served;
      forall i | 0 <= i < k ensures IsServed(env, ws[i], served[i]) {
        assert i < k - 1 ==> served[i] == before[i];
      }
    }
  }

  /**
    A deleted queue delivered the first events that were posted to it, at most `capability` of them and
    in the order of posting. `ws` are the worlds between the turns of its drain: each event went once to
    every observer registered when its turn came, and then to the temporary handler registered when they
    had returned, the first one ever registered for its id, where `known` were registered before. The
    queue lost an event exactly when more than `capability` were accepted.
   */
  ghost predicate Delivered(env: Env, known: map<int, Handler>, q: AsyncQueue, ws: seq<World>) {
    && ServedEvents(q.served) <= q.accepted
    && |q.served| <= env.capability
    && (q.events != [] <==> env.capability < |q.accepted|)
    && |ws| == |q.served| + 1 && Turns(env, ws) && ws[|q.served|].queue == Some(q)
    && (forall i | 0 <= i < |q.served| :: IsServed(env, ws[i], q.served[i]))
    && (forall i | 0 <= i < |q.served| :: SentToFirst(q.served[i], known, q.handlers))
  }

  lemma DrainDelivers(env: Env, w: World) returns (ws: seq<World>)
    requires w.queue.Some? && w.queue.value.depth == 1
    requires w.queue.value.served == [] && InOrder(env, w.queue.value)
    ensures var w' := Drain(env, w);
      && |w'.deleted| == |w.deleted| + 1
      && var q := w'.deleted[|w.deleted|];
      && w'.log == w.log + ServedLogs(q.served)
      && Delivered(env, w.queue.value.handlers, q, ws) && ws[0] == w && w.queue.value.accepted <= q.accepted
      && w'.observers == ws[|q.served|].observers
  {
    ws := DrainLoopTurns(env, w, 0);
    TurnsAreLogged(env, ws);
    TurnsLog(ws, |ws| - 1);
    TurnsServe(env, ws, |ws| - 1);
    var served := DrainLoop(env, w, 0).queue.value.served;
    assert served[0..] == served;
  }

  /** The outermost Defer delivers what was posted under it, and nothing before. */
  lemma OutermostDelivers(env: Env, w: World, evtId: int, handler: Option<Handler>, body: seq<Action>)
    returns (ws: seq<World>)
    requires w.queue.None?
    ensures var w', start := ExecScope(env, w, evtId, handler, body), Exec(env, Open(w, evtId, handler), body);
      && |w'.deleted| == |w.deleted| + 1
      && var q, known := w'.deleted[|w.deleted|], start.queue.value.handlers;
      && w'.log == w.log + ServedLogs(q.served)
      && Delivered(env, known, q, ws) && ws[0] == start
      && (handler.Some? && evtId != EVT_INVALID ==> evtId in known && known[evtId] == handler.value)
  {
    ws := DrainDelivers(env, Exec(env, Open(w, evtId, handler), body));
  }

  /** An event posted outside any Defer goes to each observer first, and then what they posted is delivered. */
  lemma PostedAtOnce(env: Env, w: World, evt: Event) returns (ws: seq<World>)
    requires w.queue.None?
    ensures var w', start := ExecOne(env, w, Post(Some(evt))),
                             CallAll(env, Open(w, EVT_INVALID, None), evt, Residents(w, evt.id));
      && w'.queue.None? && |w'.deleted| == |w.deleted| + 1
      && var q := w'.deleted[|w.deleted|];
      && w'.log == w.log + Deliveries(evt, Residents(w, evt.id)) + ServedLogs(q.served)
      && Delivered(env, start.queue.value.handlers, q, ws) && ws[0] == start
  {
    ws := DrainDelivers(env, CallAll(env, Open(w, EVT_INVALID, None), evt, Residents(w, evt.id)));
  }

  /** An event posted under a Defer is in the queue afterwards, or one it duplicates is; nothing else happens. */
  lemma PostedLater(env: Env, w: World, evt: Event)
    requires Valid(w) && w.queue.Some?
    ensures var w', q := ExecOne(env, w, Post(Some(evt))), w.queue.value;
      && w'.log == w.log && w'.deleted == w.deleted && w'.observers == w.observers
      && w'.queue.Some? && var q' := w'.queue.value;
      && q'.depth == q.depth && q'.handlers == q.handlers && q'.served == q.served
      && (q'.events == q.events <==> exists i | 0 <= i < |q.events| :: q.events[i].id == evt.id && env.equals(q.events[i], evt))
      && (q'.events != q.events ==> q'.events == q.events + [evt] && q'.accepted == q.accepted + [evt])
  {
    assert |w.queue.value.events + [evt]| == |w.queue.value.events| + 1;
  }

  // ---- What a program accepts, registers and subscribes ------------------------------------------

  function Posts(evts: seq<Event>): seq<Action> {
    seq(|evts|, i requires 0 <= i < |evts| => Post(Some(evts[i])))
  }

  /** Of the events posted one by one behind `queued`, those that equal none in front of them with their id. */
  function Accepted(env: Env, queued: seq<Event>, evts: seq<Event>): seq<Event>
    decreases |evts|
  {
    if evts == [] then []
    else if exists i | 0 <= i < |queued| :: queued[i].id == evts[0].id && env.equals(queued[i], evts[0]) then
      Accepted(env, queued, evts[1..])
    else [evts[0]] + Accepted(env, queued + [evts[0]], evts[1..])
  }

  /** The queue took the accepted ones of the events, in order. */
  ghost predicate Takes(env: Env, q: AsyncQueue, evts: seq<Event>, q': AsyncQueue) {
    && q'.events == q.events + Accepted(env, q.events, evts)
    && q'.accepted == q.accepted + Accepted(env, q.events, evts)
  }

  lemma TakesOne(env: Env, w: World, evt: Event)
    requires Valid(w) && w.queue.Some?
    ensures Takes(env, w.queue.value, [evt], ExecOne(env, w, Post(Some(evt))).queue.value)
  {
    assert [evt][1..] == [];
    PostedLater(env, w, evt);
  }

  lemma TakesThen(env: Env, q: AsyncQueue, evt: Event, q1: AsyncQueue, rest: seq<Event>, q2: AsyncQueue)
    requires Takes(env, q, [evt], q1) && Takes(env, q1, rest, q2)
    ensures Takes(env, q, [evt] + rest, q2)
  {
    var one := Accepted(env, q.events, [evt]);
    AcceptedThen(env, q.events, evt, rest);
    var more := Accepted(env, q.events + one, rest);
    Associates(q.events, one, more);
    Associates(q.accepted, one, more);
  }

  lemma AcceptedThen(env: Env, queued: seq<Event>, evt: Event, rest: seq<Event>)
    ensures var one := Accepted(env, queued, [evt]);
      Accepted(env, queued, [evt] + rest) == one + Accepted(env, queued + one, rest)
  {
    var evts := [evt] + rest;
    assert [evt][1..] == [] && evts[0] == evt && evts[1..] == rest;
    if exists i | 0 <= i < |queued| :: queued[i].id == evt.id && env.equals(queued[i], evt) {
      assert Accepted(env, queued, [evt]) == [] && queued + [] == queued;
    } else {
      assert Accepted(env, queued, [evt]) == [evt];
    }
  }

  /** Under a Defer, events are accepted in program order, without duplicates, and none is delivered. */
  lemma {:induction false} PostsAreAccepted(env: Env, w: World, evts: seq<Event>)
    requires Valid(w) && w.queue.Some?
    ensures var w' := Exec(env, w, Posts(evts));
      w'.log == w.log && w'.queue.Some? && Takes(env, w.queue.value, evts, w'.queue.value)
    decreases |evts|
  {
    if evts == [] {
    } else {
      var w1 := ExecOne(env, w, Post(Some(evts[0])));
      TakesOne(env, w, evts[0]);
      PostsAreAccepted(env, w1, evts[1..]);
      assert Posts(evts)[0] == Post(Some(evts[0])) && Posts(evts)[1..] == Posts(evts[1..]);
      TakesThen(env, w.queue.value, evts[0], w1.queue.value, evts[1..], Exec(env, w1, Posts(evts[1..])).queue.value);
      assert [evts[0]] + evts[1..] == evts;
    }
  }

  lemma Associates<T>(a: seq<T>, b: seq<T>, c: seq<T>)
    ensures a + b + c == a + (b + c)
  {
  }

  /** So an outermost Defer that posts some events delivers the accepted ones first, in program order. */
  lemma ScopeDeliversPosts(env: Env, w: World, evtId: int, handler: Option<Handler>, evts: seq<Event>, k: nat)
    requires w.queue.None? && k < |Accepted(env, [], evts)| && k < env.capability
    ensures var w' := ExecScope(env, w, evtId, handler, Posts(evts));
      && |w'.deleted| == |w.deleted| + 1
      && var served := w'.deleted[|w.deleted|].served;
      && k < |served| && served[k].evt == Accepted(env, [], evts)[k]
      && w'.log == w.log + ServedLogs(served)
  {
    var start := Open(w, evtId, handler);
    var full := Exec(env, start, Posts(evts));
    PostsAreAccepted(env, start, evts);
    OutermostDrains(env, w, evtId, handler, Posts(evts));
    DrainServes(env, full, k);
  }

  lemma OutermostDrains(env: Env, w: World, evtId: int, handler: Option<Handler>, body: seq<Action>)
    requires w.queue.None?
    ensures var start, full := Open(w, evtId, handler), Exec(env, Open(w, evtId, handler), body);
      && start.queue.Some? && start.queue.value.events == [] && start.queue.value.accepted == []
      && start.log == w.log && start.deleted == w.deleted && full.deleted == w.deleted && full.log == w.log
      && full.queue.Some? && full.queue.value.depth == 1 && full.queue.value.served == []
      && InOrder(env, full.queue.value)
      && ExecScope(env, w, evtId, handler, body) == Drain(env, full)
  {
  }

  lemma DrainServes(env: Env, w: World, k: nat)
    requires w.queue.Some? && w.queue.value.depth == 1
    requires w.queue.value.served == [] && InOrder(env, w.queue.value)
    requires k < |w.queue.value.accepted| && k < env.capability
    ensures var w' := Drain(env, w);
      && |w'.deleted| == |w.deleted| + 1
      && var served := w'.deleted[|w.deleted|].served;
      && k < |served| && served[k].evt == w.queue.value.accepted[k]
      && w'.log == w.log + ServedLogs(served)
  {
    var ws := DrainDelivers(env, w);
    var q := Drain(env, w).deleted[|w.deleted|];
    assert WellDrained(env, q);
    assert ServedEvents(q.served)[k] == q.accepted[k];
  }

  /** A nested Defer leaves its handler registered for its id, unless one was; the invalid id has none. */
  lemma NestedDeferRegisters(env: Env, w: World, evtId: int, handler: Option<Handler>, body: seq<Action>)
    requires Valid(w) && w.queue.Some? && evtId != EVT_INVALID && handler.Some?
    ensures var w' := ExecScope(env, w, evtId, handler, body);
      && w'.queue.Some? && w'.queue.value.depth == w.queue.value.depth
      && evtId in w'.queue.value.handlers
      && w'.queue.value.handlers[evtId] == if evtId in w.queue.value.handlers then w.queue.value.handlers[evtId] else handler.value
  {
    var w1 := Open(w, evtId, handler);
    assert Deferred(env, w1, Exec(env, w1, body));
    assert evtId in w1.queue.value.handlers;
  }

  /** A Defer without a handler, or for the invalid id, registers none of its own. */
  lemma PlainDeferRegistersNone(env: Env, w: World, evtId: int, handler: Option<Handler>)
    requires Valid(w) && w.queue.Some? && (evtId == EVT_INVALID || handler.None?)
    ensures ExecScope(env, w, evtId, handler, []) == w
  {
  }

  /** Observers are called in the order of subscription; Unsubscribe drops all of an id. */
  lemma ObserversChange(env: Env, w: World, id: int, observer: Handler, other: int)
    requires Valid(w) && other != id
    ensures Residents(ExecOne(env, w, Subscribe(id, observer)), id) == Residents(w, id) + [observer]
    ensures Residents(ExecOne(env, w, Unsubscribe(id)), id) == []
    ensures Residents(ExecOne(env, w, Subscribe(id, observer)), other) == Residents(w, other)
    ensures Residents(ExecOne(env, w, Unsubscribe(id)), other) == Residents(w, other)
    ensures ExecOne(env, w, Subscribe(id, observer)).queue == ExecOne(env, w, Unsubscribe(id)).queue == w.queue
    ensures ExecOne(env, w, Subscribe(id, observer)).log == ExecOne(env, w, Unsubscribe(id)).log == w.log
  {
  }

  // ---- The code ---------------------------------------------------------------------------------

  /** One thread's view of the event center, with the fields the code updates in place. */
  class EventThread {
    const env: Env
    var queue: Option<AsyncQueue>
    var observers: map<int, seq<Handler>>
    var calls: nat
    var log: seq<Delivery>
    var deleted: seq<AsyncQueue>

    ghost function View(): World
      reads this
    {
      World(queue, observers, calls, log, deleted)
    }

    constructor (env: Env)
      ensures this.env == env && View() == World(None, map[], 0, [], [])
    {
      this.env := env;
      queue, observers, calls, log, deleted := None, map[], 0, [], [];
    }

    /** AsyncQueue::Post */
    method PostToQueue(evt: Event)
      requires queue.Some?
      modifies this`queue
      ensures queue == Some(PostTo(env, old(queue.value), evt))
    {
      var i := 0;
      while i < |queue.value.events|
        invariant 0 <= i <= |queue.value.events| && queue == old(queue)
        invariant !IsDuplicate(env, queue.value.events[..i], evt)
      {
        var event := queue.value.events[i];
        if event.id == evt.id && env.equals(event, evt) {
          return;
        }
        i := i + 1;
      }
      assert queue.value.events[..i] == queue.value.events;
      queue := Some(queue.value.(events := queue.value.events + [evt], accepted := queue.value.accepted + [evt]));
    }

    method Defer(evtId: int, handler: Option<Handler>)
      modifies this`queue
      ensures View() == Open(old(View()), evtId, handler)
    {
      if queue.None? {
        queue := Some(AsyncQueue(0, [], map[], [], []));
      }
      queue := Some(queue.value.(depth := queue.value.depth + 1));
      if evtId == EVT_INVALID || handler.None? || evtId in queue.value.handlers {
        return;
      }
      queue := Some(queue.value.(handlers := queue.value.handlers[evtId := handler.value]));
    }

    method CloseDefer()
      requires queue.Some? && 1 <= queue.value.depth
      requires queue.value.depth == 1 ==> queue.value.served == [] && InOrder(env, queue.value)
      modifies this
      ensures View() == var w := old(View()); var q := w.queue.value;
        if q.depth > 1 then w.(queue := Some(q.(depth := q.depth - 1))) else Drain(env, w)
      decreases if queue.value.depth == 1 then 3 else -1
    {
      queue := Some(queue.value.(depth := queue.value.depth - 1));
      if queue.value.depth > 0 {
        return;
      }
      queue := Some(queue.value.(depth := 1));
      ghost var start := View();
      assert start == old(View());
      var count := 0;
      while queue.value.events != [] && count < env.capability
        invariant queue.Some? && queue.value.depth == 1 && count <= env.capability
        invariant DrainLoop(env, View(), count) == DrainLoop(env, start, 0)
        decreases env.capability - count
      {
        ServeFront();
        count := count + 1;
      }
      deleted := deleted + [queue.value];
      queue := None;
    }

    method ServeFront()
      requires queue.Some? && 1 <= queue.value.depth && queue.value.events != []
      modifies this
      ensures View() == Serve(env, old(View()))
      decreases 2
    {
      var evt := queue.value.events[0];
      var residents := if evt.id in observers then observers[evt.id] else [];
      CallHandlers(evt, residents);
      var handlers := queue.value.handlers;
      var temporary := None;
      if evt.id in handlers {
        temporary := Some(handlers[evt.id]);
        CallHandler(evt, handlers[evt.id]);
      }
      queue := Some(queue.value.(events := queue.value.events[1..],
                                 served := queue.value.served + [Served(evt, residents, temporary)]));
    }

    method CallHandlers(evt: Event, hs: seq<Handler>)
      requires queue.Some? && 1 <= queue.value.depth
      modifies this
      ensures View() == CallAll(env, old(View()), evt, hs)
      decreases 1, |hs| + 1
    {
      var i := 0;
      while i < |hs|
        invariant 0 <= i <= |hs| && queue.Some? && 1 <= queue.value.depth
        invariant CallAll(env, View(), evt, hs[i..]) == CallAll(env, old(View()), evt, hs)
      {
        assert hs[i..][0] == hs[i] && hs[i..][1..] == hs[i + 1..];
        CallHandler(evt, hs[i]);
        i := i + 1;
      }
    }

    method CallHandler(evt: Event, h: Handler)
      requires queue.Some? && 1 <= queue.value.depth
      modifies this
      ensures View() == Call(env, old(View()), evt, h)
      decreases 1, 0
    {
      var actions := env.script(calls, h, evt);
      calls, log := calls + 1, log + [Delivery(evt, h)];
      Run(actions);
    }

    method Run(prog: seq<Action>)
      requires Valid(View())
      modifies this
      ensures View() == Exec(env, old(View()), prog)
      decreases Level(View()), prog, 0
    {
      var i := 0;
      while i < |prog|
        invariant 0 <= i <= |prog| && Valid(View()) && Level(View()) == old(Level(View()))
        invariant Exec(env, View(), prog[i..]) == Exec(env, old(View()), prog)
      {
        assert prog[i..][0] == prog[i] && prog[i..][1..] == prog[i + 1..];
        RunOne(prog[i]);
        i := i + 1;
      }
    }

    method RunOne(action: Action)
      requires Valid(View())
      modifies this
      ensures View() == ExecOne(env, old(View()), action)
      decreases Level(View()), action, 0
    {
      match action
      case Post(evt) =>
        var _ := PostEventCode(evt);
      case Scope(evtId, handler, body) =>
        RunScope(evtId, handler, body);
      case Subscribe(id, observer) =>
        observers := observers[id := (if id in observers then observers[id] else []) + [observer]];
      case Unsubscribe(id) =>
        observers := observers - {id};
    }

    method RunScope(evtId: int, handler: Option<Handler>, body: seq<Action>)
      requires Valid(View())
      modifies this
      ensures View() == ExecScope(env, old(View()), evtId, handler, body)
      decreases Level(View()), body, 1
    {
      Defer(evtId, handler);
      Run(body);
      CloseDefer();
    }

    method PostEventCode(evt: Option<Event>) returns (code: Code)
      requires Valid(View())
      modifies this
      ensures View() == ExecOne(env, old(View()), Post(evt))
      ensures evt.None? ==> View() == old(View())
      ensures evt.Some? && old(queue).Some? ==> queue.Some? && log == old(log)
      ensures evt.Some? && old(queue).Some? ==>
        var events := old(queue).value.events;
        queue.value.events == if exists i | 0 <= i < |events| :: events[i].id == evt.value.id && env.equals(events[i], evt.value)
                              then events else events + [evt.value]
      ensures evt.Some? && old(queue).None? ==>
        queue.None? && old(log) + Deliveries(evt.value, Residents(old(View()), evt.value.id)) <= log
      ensures code == CODE_INVALID_ARGS <==> evt.None?
      ensures code == CODE_SYNC <==> evt.Some? && old(queue).None?
      decreases Level(View()), evt, 0
    {
      if evt.None? {
        return CODE_INVALID_ARGS;
      }
      if queue.None? {
        Defer(EVT_INVALID, None);
        CallHandlers(evt.value, if evt.value.id in observers then observers[evt.value.id] else []);
        CloseDefer();
        ghost var ws := PostedAtOnce(env, old(View()), evt.value);
        return CODE_SYNC;
      }
      PostedLater(env, View(), evt.value);
      PostToQueue(evt.value);
      return CODE_ASYNC;
    }
  }
}
