/**
  `active_poller_t` of `zmq_addon.hpp`: handlers kept in a map beside a base poller that
  holds raw pointers to them, a buffer of events, and a list of handlers that keeps them
  alive while the events in the buffer are dispatched.
  */
module ActivePoller {
  import opened Wrappers

  type Socket = nat

  /** A shared handler object; an empty function object is not callable. */
  datatype Handler = Handler(id: nat, callable: bool)

  /** What the base poller stores for a socket: the events and the raw handler pointer. */
  datatype Registration = Registration(events: nat, user: Option<Handler>)

  /** What the base poller reports for a socket: the raw handler pointer again. */
  datatype Event = Event(socket: Socket, user: Option<Handler>)

  /** An event nobody has written yet. */
  const BLANK := Event(0, None)

  /** The vector `poller_events`: its elements, how many it has memory for, and how often it
      has moved to new memory. */
  datatype Buffer = Buffer(events: seq<Event>, room: nat, moves: nat)

  datatype State = State(
    needRebuild: bool,
    base: map<Socket, Registration>,
    handlers: map<Socket, Handler>,
    buffer: Buffer,
    cached: seq<Handler>,     // poller_handlers
    made: nat                 // handler objects made so far
  )

  const EMPTY := State(false, map[], map[], Buffer([], 0, 0), [], 0)

  datatype Outcome = Outcome(state: State, threw: bool)

  // ---------- the operations ----------

  /** The handler is entered first and taken out again if the base poller throws, which it
      does for a registered socket and may do for any reason. */
  function Added(p: State, s: Socket, events: nat, callable: bool, fails: bool): Outcome {
    var inserted := s !in p.handlers;
    var handler := Handler(p.made, callable);
    var entered := if inserted then p.handlers[s := handler] else p.handlers;
    if fails || s in p.base then
      Outcome(p.(handlers := if inserted then entered - {s} else entered, made := p.made + 1), true)
    else
      var user := if inserted && entered[s].callable then Some(entered[s]) else None;
      Outcome(p.(handlers := entered, made := p.made + 1,
                 base := p.base[s := Registration(events, user)],
                 needRebuild := p.needRebuild || inserted), false)
  }

  function Removed(p: State, s: Socket, fails: bool): Outcome {
    if fails || s !in p.base then Outcome(p, true)
    else Outcome(p.(base := p.base - {s}, handlers := p.handlers - {s}, needRebuild := true), false)
  }

  function Modified(p: State, s: Socket, events: nat, fails: bool): Outcome {
    if fails || s !in p.base then Outcome(p, true)
    else Outcome(p.(base := p.base[s := Registration(events, p.base[s].user)]), false)
  }

  /** Some order in which the map can be iterated. */
  predicate IsListing(order: seq<Socket>, keys: set<Socket>) {
    && (forall i :: 0 <= i < |order| ==> order[i] in keys)
    && (forall s :: s in keys ==> s in order)
    && (forall i, j :: 0 <= i < j < |order| ==> order[i] != order[j])
  }

  function Listed(handlers: map<Socket, Handler>, order: seq<Socket>): (r: seq<Handler>)
    requires forall i :: 0 <= i < |order| ==> order[i] in handlers
    ensures |r| == |order| && forall i :: 0 <= i < |order| ==> r[i] == handlers[order[i]]
  {
    seq(|order|, i requires 0 <= i < |order| => handlers[order[i]])
  }

  /** `resize` to `n` elements. It moves to new memory, for `slack` more elements than it
      needs, exactly if there is no room. */
  function Resized(b: Buffer, n: nat, slack: nat): (r: Buffer)
    ensures |r.events| == n
  {
    var events := if n <= |b.events| then b.events[..n] else b.events + seq(n - |b.events|, _ => BLANK);
    if n <= b.room then Buffer(events, b.room, b.moves) else Buffer(events, n + slack, b.moves + 1)
  }

  /** The first part of `wait`. */
  function Rebuilt(p: State, order: seq<Socket>, slack: nat): State
    requires IsListing(order, p.handlers.Keys)
  {
    if p.needRebuild then
      p.(buffer := Resized(p.buffer, |p.handlers|, slack), cached := Listed(p.handlers, order), needRebuild := false)
    else p
  }

  /** `wait_all` of the base poller writes to the buffer. */
  function Filled(p: State, events: seq<Event>): State {
    p.(buffer := p.buffer.(events := events))
  }

  // ---------- what every operation keeps ----------

  /** The cached handlers are the map's, in some order, and there is room for an event each. */
  ghost predicate CacheIsCurrent(p: State) {
    exists order :: IsListing(order, p.handlers.Keys) && p.cached == Listed(p.handlers, order) && |p.buffer.events| == |order|
  }

  /** The base poller knows the same sockets and points to their callable handlers. */
  predicate UsersMatch(base: map<Socket, Registration>, handlers: map<Socket, Handler>) {
    && handlers.Keys == base.Keys
    && forall s :: s in base ==> base[s].user == if handlers[s].callable then Some(handlers[s]) else None
  }

  /** No handler object serves two sockets. */
  predicate HandlersDistinct(handlers: map<Socket, Handler>, made: nat) {
    && (forall s :: s in handlers ==> handlers[s].id < made)
    && (forall s, t :: s in handlers && t in handlers && s != t ==> handlers[s].id != handlers[t].id)
  }

  ghost predicate Valid(p: State) {
    UsersMatch(p.base, p.handlers) && HandlersDistinct(p.handlers, p.made) && (!p.needRebuild ==> CacheIsCurrent(p))
  }

  /** Everything but the number of handler objects made. */
  predicate SameButAllocation(p: State, q: State) {
    q == p.(made := q.made) && q.made >= p.made
  }

  lemma EmptyIsValid()
    ensures Valid(EMPTY)
  {
    assert IsListing([], EMPTY.handlers.Keys) && Listed(EMPTY.handlers, []) == [];
  }

  /** A call that throws changes nothing. */
  lemma FailedAddChangesNothing(p: State, s: Socket, events: nat, callable: bool, fails: bool)
    requires Valid(p)
    ensures var o := Added(p, s, events, callable, fails);
            && (o.threw <==> fails || s in p.handlers)
            && (o.threw ==> SameButAllocation(p, o.state))
  {
    if s !in p.handlers {
      assert p.handlers[s := Handler(p.made, callable)] - {s} == p.handlers;
    }
  }

  lemma CacheStaysCurrent(p: State, q: State)
    requires CacheIsCurrent(p) && q.handlers == p.handlers && q.cached == p.cached
             && |q.buffer.events| == |p.buffer.events|
    ensures CacheIsCurrent(q)
  {
    var order :| IsListing(order, p.handlers.Keys) && p.cached == Listed(p.handlers, order) && |p.buffer.events| == |order|;
    assert IsListing(order, q.handlers.Keys);
  }

  lemma AddKeepsValid(p: State, s: Socket, events: nat, callable: bool, fails: bool)
    requires Valid(p)
    ensures Valid(Added(p, s, events, callable, fails).state)
  {
    FailedAddChangesNothing(p, s, events, callable, fails);
    var q := Added(p, s, events, callable, fails).state;
    if !q.needRebuild {
      CacheStaysCurrent(p, q);
    }
  }

  lemma RemoveKeepsValid(p: State, s: Socket, fails: bool)
    requires Valid(p)
    ensures Valid(Removed(p, s, fails).state)
  {
  }

  lemma ModifyKeepsUsers(base: map<Socket, Registration>, handlers: map<Socket, Handler>, s: Socket, events: nat)
    requires UsersMatch(base, handlers) && s in base
    ensures UsersMatch(base[s := Registration(events, base[s].user)], handlers)
  {
  }

  lemma ModifyKeepsValid(p: State, s: Socket, events: nat, fails: bool)
    requires Valid(p)
    ensures Valid(Modified(p, s, events, fails).state)
  {
    if !fails && s in p.base {
      var q := Modified(p, s, events, fails).state;
      ModifyKeepsUsers(p.base, p.handlers, s, events);
      if !q.needRebuild {
        CacheStaysCurrent(p, q);
      }
    }
  }

  lemma {:induction false} ListingSize(order: seq<Socket>, keys: set<Socket>)
    requires IsListing(order, keys)
    ensures |order| == |keys|
    decreases |order|
  {
    if order == [] {
      assert keys == {};
    } else {
      var k := |order| - 1;
      assert forall s :: s in keys - {order[k]} ==> s in order[..k];
      ListingSize(order[..k], keys - {order[k]});
    }
  }

  lemma RebuildKeepsValid(p: State, order: seq<Socket>, slack: nat)
    requires Valid(p) && IsListing(order, p.handlers.Keys)
    ensures Valid(Rebuilt(p, order, slack)) && CacheIsCurrent(Rebuilt(p, order, slack))
  {
    if p.needRebuild {
      ListingSize(order, p.handlers.Keys);
      assert |p.handlers| == |p.handlers.Keys|;
    }
  }

  // ---------- what is done to a poller ----------

  /** A call of one of the operations, by the program or by a handler while it runs. */
  datatype Action =
    | Add(socket: Socket, events: nat, callable: bool, fails: bool)
    | Remove(socket: Socket, fails: bool)
    | Modify(socket: Socket, events: nat, fails: bool)
    | Wait(w: Waiting)

  /** What happens in a wait: the order in which the map is iterated, the spare memory a
      growing buffer gets, the sockets with events, what is in the buffer afterwards, what the
      handlers do, and whether the base poller throws. */
  datatype Waiting = Waiting(order: seq<Socket>, slack: nat, ready: seq<Socket>, written: seq<Event>,
                             scripts: seq<Script>, fails: bool)

  /** What a handler does when it is called: it acts, and may throw in the end. */
  datatype Script = Script(actions: seq<Action>, throws: bool)

  /** Distinct registered sockets with events. */
  predicate AreReady(p: State, ready: seq<Socket>) {
    && (forall i :: 0 <= i < |ready| ==> ready[i] in p.base)
    && (forall i, j :: 0 <= i < j < |ready| ==> ready[i] != ready[j])
  }

  function EventsOf(p: State, ready: seq<Socket>): (es: seq<Event>)
    requires AreReady(p, ready)
    ensures |es| == |ready| && forall i :: 0 <= i < |es| ==> es[i] == Event(ready[i], p.base[ready[i]].user)
  {
    seq(|ready|, i requires 0 <= i < |ready| => Event(ready[i], p.base[ready[i]].user))
  }

  /** The base poller reports registered sockets, each at most once, in the front of the
      buffer; what it leaves behind them is up to it. */
  predicate IsReport(p: State, ready: seq<Socket>, written: seq<Event>) {
    && AreReady(p, ready)
    && |written| == |p.buffer.events|
    && (|ready| <= |written| ==> written[..|ready|] == EventsOf(p, ready))
  }

  predicate IsPossible(p: State, w: Waiting) {
    && IsListing(w.order, p.handlers.Keys)
    && IsReport(Rebuilt(p, w.order, w.slack), w.ready, w.written)
    && |w.scripts| == |w.ready|
  }

  /** When the loop starts: the cache rebuilt and the buffer filled. */
  function Reported(p: State, w: Waiting): State
    requires IsPossible(p, w)
  {
    Filled(Rebuilt(p, w.order, w.slack), w.written)
  }

  /** One action; a wait that the environment cannot make happen is no step. */
  function Act(p: State, a: Action): State
    decreases a
  {
    match a
    case Add(s, events, callable, fails) => Added(p, s, events, callable, fails).state
    case Remove(s, fails) => Removed(p, s, fails).state
    case Modify(s, events, fails) => Modified(p, s, events, fails).state
    case Wait(w) =>
      if !IsPossible(p, w) then p
      else if w.fails then Rebuilt(p, w.order, w.slack)
      else Dispatched(Reported(p, w), 0, |w.ready|, w.scripts).state
  }

  /** A handler goes on after a call that threw. */
  function ActAll(p: State, actions: seq<Action>): State
    decreases actions
  {
    if actions == [] then p else ActAll(Act(p, actions[0]), actions[1..])
  }

  /** The loop over the first `count` events, from number `i` on: each is read from the buffer
      when its turn comes. It ends early if a handler throws. */
  function Dispatched(p: State, i: nat, count: nat, scripts: seq<Script>): Outcome
    decreases scripts, count - i
  {
    if i >= count || i >= |p.buffer.events| || i >= |scripts| then Outcome(p, false)
    else if p.buffer.events[i].user.None? then Dispatched(p, i + 1, count, scripts)
    else
      var q := ActAll(p, scripts[i].actions);
      if scripts[i].throws then Outcome(q, true) else Dispatched(q, i + 1, count, scripts)
  }

  // ---------- what must not happen ----------

  predicate IsRegistered(p: State, h: Handler) {
    exists s :: s in p.handlers && p.handlers[s] == h
  }

  /** A handler object is alive while the map or the cache holds it. */
  predicate Owned(p: State, h: Handler) {
    h in p.cached || IsRegistered(p, h)
  }

  predicate AllOwned(p: State, hs: seq<Handler>) {
    forall k :: 0 <= k < |hs| ==> Owned(p, hs[k])
  }

  /** While the handlers `running` are on the stack, none of them is freed, and every loop
      finds its events as they were reported, in the same memory, with living handlers. */
  predicate SafeActs(p: State, actions: seq<Action>, running: seq<Handler>)
    decreases actions
  {
    actions != [] ==>
      var q := Act(p, actions[0]);
      SafeAct(p, actions[0], running) && AllOwned(q, running) && SafeActs(q, actions[1..], running)
  }

  predicate SafeAct(p: State, a: Action, running: seq<Handler>)
    decreases a
  {
    a.Wait? && IsPossible(p, a.w) && !a.w.fails ==>
      var q := Reported(p, a.w);
      && |a.w.ready| <= |q.buffer.events|
      && AllOwned(q, running)
      && SafeDispatch(q, 0, q.buffer.events[..|a.w.ready|], q.buffer.moves, a.w.scripts, running)
  }

  predicate SafeDispatch(p: State, i: nat, reported: seq<Event>, moves: nat, scripts: seq<Script>, running: seq<Handler>)
    decreases scripts, |reported| - i
  {
    && p.buffer.moves == moves
    && (i < |reported| && i < |scripts| ==>
          && i < |p.buffer.events| && p.buffer.events[i] == reported[i]
          && match reported[i].user
             case None => SafeDispatch(p, i + 1, reported, moves, scripts, running)
             case Some(h) =>
               && Owned(p, h)
               && SafeActs(p, scripts[i].actions, running + [h])
               && (!scripts[i].throws ==>
                     SafeDispatch(ActAll(p, scripts[i].actions), i + 1, reported, moves, scripts, running)))
  }

  // ---------- when a handler may wait ----------

  predicate AllRegistered(p: State, hs: seq<Handler>) {
    forall k :: 0 <= k < |hs| ==> IsRegistered(p, hs[k])
  }

  /** A handler may wait if every loop it is called from is at its last event, and if sockets
      were added or removed, if they fit in the memory of the buffer and none of the handlers
      running has lost its socket. */
  predicate MayWait(p: State, running: seq<Handler>, last: bool) {
    running != [] ==> last && (p.needRebuild ==> |p.handlers| <= p.buffer.room && AllRegistered(p, running))
  }

  /** All waits among the actions, and among those of the handlers they call, may be made. */
  predicate LegalActs(p: State, actions: seq<Action>, running: seq<Handler>, last: bool)
    decreases actions
  {
    actions != [] ==>
      LegalAct(p, actions[0], running, last) && LegalActs(Act(p, actions[0]), actions[1..], running, last)
  }

  predicate LegalAct(p: State, a: Action, running: seq<Handler>, last: bool)
    decreases a
  {
    a.Wait? ==>
      && IsPossible(p, a.w)
      && MayWait(p, running, last)
      && (!a.w.fails ==> LegalDispatch(Reported(p, a.w), 0, |a.w.ready|, a.w.scripts, running, last))
  }

  predicate LegalDispatch(p: State, i: nat, count: nat, scripts: seq<Script>, running: seq<Handler>, last: bool)
    decreases scripts, count - i
  {
    i < count && i < |p.buffer.events| && i < |scripts| ==>
      match p.buffer.events[i].user
      case None => LegalDispatch(p, i + 1, count, scripts, running, last)
      case Some(h) =>
        && LegalActs(p, scripts[i].actions, running + [h], last && i + 1 == count)
        && (!scripts[i].throws ==> LegalDispatch(ActAll(p, scripts[i].actions), i + 1, count, scripts, running, last))
  }

  // ---------- then nothing of the kind happens ----------

  predicate AreCached(p: State, events: seq<Event>) {
    forall i :: 0 <= i < |events| && events[i].user.Some? ==> events[i].user.value in p.cached
  }

  predicate AllCached(p: State, hs: seq<Handler>) {
    forall k :: 0 <= k < |hs| ==> hs[k] in p.cached
  }

  lemma ListedHolds(handlers: map<Socket, Handler>, order: seq<Socket>, s: Socket)
    requires IsListing(order, handlers.Keys) && s in handlers
    ensures handlers[s] in Listed(handlers, order)
  {
    var j :| 0 <= j < |order| && order[j] == s;
    assert Listed(handlers, order)[j] == handlers[s];
  }

  lemma ReadyUsersAreCached(p: State, ready: seq<Socket>)
    requires Valid(p) && CacheIsCurrent(p) && AreReady(p, ready)
    ensures AreCached(p, EventsOf(p, ready)) && |ready| <= |p.buffer.events|
  {
    CurrentBufferFits(p);
    DistinctFit(ready, p.handlers.Keys);
    assert |p.handlers| == |p.handlers.Keys|;
    forall i | 0 <= i < |ready|
      ensures EventsOf(p, ready)[i].user.Some? ==> EventsOf(p, ready)[i].user.value in p.cached
    {
      CurrentHolds(p, ready[i]);
    }
  }

  lemma CurrentHolds(p: State, s: Socket)
    requires CacheIsCurrent(p) && s in p.handlers
    ensures p.handlers[s] in p.cached
  {
    var order :| IsListing(order, p.handlers.Keys) && p.cached == Listed(p.handlers, order) && |p.buffer.events| == |order|;
    ListedHolds(p.handlers, order, s);
  }

  lemma {:induction false} DistinctFit(ready: seq<Socket>, keys: set<Socket>)
    requires forall i :: 0 <= i < |ready| ==> ready[i] in keys
    requires forall i, j :: 0 <= i < j < |ready| ==> ready[i] != ready[j]
    ensures |ready| <= |keys|
    decreases |ready|
  {
    if ready != [] {
      var k := |ready| - 1;
      DistinctFit(ready[..k], keys - {ready[k]});
    }
  }

  lemma ReportedIsValid(p: State, w: Waiting)
    requires Valid(p) && IsPossible(p, w)
    ensures var q := Reported(p, w);
            Valid(q) && |w.ready| <= |q.buffer.events| && AreCached(q, q.buffer.events[..|w.ready|])
  {
    var r := Rebuilt(p, w.order, w.slack);
    RebuildKeepsValid(p, w.order, w.slack);
    ReadyUsersAreCached(r, w.ready);
    CacheStaysCurrent(r, Reported(p, w));
  }

  lemma StaysCached(p: State, order: seq<Socket>, slack: nat, h: Handler)
    requires IsListing(order, p.handlers.Keys) && h in p.cached && (p.needRebuild ==> IsRegistered(p, h))
    ensures h in Rebuilt(p, order, slack).cached
  {
    if p.needRebuild {
      var s :| s in p.handlers && p.handlers[s] == h;
      ListedHolds(p.handlers, order, s);
    }
  }

  lemma RunningStayCached(p: State, order: seq<Socket>, slack: nat, running: seq<Handler>, last: bool)
    requires IsListing(order, p.handlers.Keys) && AllCached(p, running) && MayWait(p, running, last)
    ensures AllCached(Rebuilt(p, order, slack), running)
    ensures running != [] ==> Rebuilt(p, order, slack).buffer.moves == p.buffer.moves
  {
    forall k | 0 <= k < |running|
      ensures running[k] in Rebuilt(p, order, slack).cached
    {
      StaysCached(p, order, slack, running[k]);
    }
  }

  /** Event `j` is as reported and its handler alive. */
  predicate LeftAt(p: State, j: nat, reported: seq<Event>)
    requires j < |reported|
  {
    && j < |p.buffer.events| && p.buffer.events[j] == reported[j]
    && (reported[j].user.Some? ==> reported[j].user.value in p.cached)
  }

  predicate Left(p: State, i: nat, reported: seq<Event>) {
    forall j :: i <= j < |reported| ==> LeftAt(p, j, reported)
  }

  /** What actions leave to the loops they are called from: always the memory of the buffer,
      and everything in it unless those loops are at their last events. */
  predicate LeavesLoops(p: State, q: State, running: seq<Handler>, last: bool) {
    && AllCached(q, running)
    && (running != [] ==> q.buffer.moves == p.buffer.moves)
    && (running != [] && !last ==> q.buffer == p.buffer && q.cached == p.cached)
  }

  lemma {:induction false} ActIsSafe(p: State, a: Action, running: seq<Handler>, last: bool)
    requires Valid(p) && AllCached(p, running) && LegalAct(p, a, running, last)
    ensures Valid(Act(p, a)) && SafeAct(p, a, running) && LeavesLoops(p, Act(p, a), running, last)
    decreases a
  {
    if a.Wait? {
      ActOfWait(p, a.w);
      RunningStayCached(p, a.w.order, a.w.slack, running, last);
      if a.w.fails {
        RebuildKeepsValid(p, a.w.order, a.w.slack);
      } else {
        var q := Reported(p, a.w);
        ReportCanBeHandled(p, a.w);
        CachedAreOwned(q, running);
        DispatchIsSafe(q, 0, q.buffer.events[..|a.w.ready|], a.w.scripts, running, last);
      }
    } else {
      QuickActIsSafe(p, a, running, last);
    }
  }

  lemma QuickActIsSafe(p: State, a: Action, running: seq<Handler>, last: bool)
    requires Valid(p) && AllCached(p, running) && !a.Wait?
    ensures Valid(Act(p, a)) && LeavesLoops(p, Act(p, a), running, last)
  {
    match a {
      case Add(s, events, callable, fails) => AddKeepsValid(p, s, events, callable, fails);
      case Remove(s, fails) => RemoveKeepsValid(p, s, fails);
      case Modify(s, events, fails) => ModifyKeepsValid(p, s, events, fails);
    }
  }

  lemma ReportCanBeHandled(p: State, w: Waiting)
    requires Valid(p) && IsPossible(p, w)
    ensures var q := Reported(p, w);
            && Valid(q) && |w.ready| <= |q.buffer.events|
            && Left(q, 0, q.buffer.events[..|w.ready|]) && q.cached == Rebuilt(p, w.order, w.slack).cached
            && q.buffer.moves == Rebuilt(p, w.order, w.slack).buffer.moves
  {
    ReportedIsValid(p, w);
    ReportIsLeft(Reported(p, w), |w.ready|);
  }

  lemma ReportIsLeft(q: State, n: nat)
    requires n <= |q.buffer.events| && AreCached(q, q.buffer.events[..n])
    ensures Left(q, 0, q.buffer.events[..n])
  {
  }

  lemma CachedAreOwned(p: State, running: seq<Handler>)
    requires AllCached(p, running)
    ensures AllOwned(p, running)
  {
  }

  lemma ActOfWait(p: State, w: Waiting)
    requires IsPossible(p, w)
    ensures Act(p, Wait(w)) == if w.fails then Rebuilt(p, w.order, w.slack)
                               else Dispatched(Reported(p, w), 0, |w.ready|, w.scripts).state
  {
  }

  /** What the loop needs at its start. */
  lemma ReportMeetsLoop(p: State, w: Waiting, running: seq<Handler>, last: bool)
    requires Valid(p) && AllCached(p, running) && LegalAct(p, Wait(w), running, last)
    ensures var q := Reported(p, w);
            && Valid(q) && AllCached(q, running) && |w.ready| <= |q.buffer.events|
            && Left(q, 0, q.buffer.events[..|w.ready|])
            && (!w.fails ==> LegalDispatch(q, 0, |w.ready|, w.scripts, running, last))
  {
    ReportCanBeHandled(p, w);
    RunningStayCached(p, w.order, w.slack, running, last);
  }

  lemma {:induction false} ActsAreSafe(p: State, actions: seq<Action>, running: seq<Handler>, last: bool)
    requires Valid(p) && AllCached(p, running) && LegalActs(p, actions, running, last)
    ensures Valid(ActAll(p, actions)) && SafeActs(p, actions, running)
    ensures LeavesLoops(p, ActAll(p, actions), running, last)
    decreases actions
  {
    if actions != [] {
      var q := Act(p, actions[0]);
      ActIsSafe(p, actions[0], running, last);
      CachedAreOwned(q, running);
      ActsAreSafe(q, actions[1..], running, last);
    }
  }

  lemma {:induction false} DispatchIsSafe(p: State, i: nat, reported: seq<Event>, scripts: seq<Script>,
                                          running: seq<Handler>, last: bool)
    requires Valid(p) && AllCached(p, running) && Left(p, i, reported) && |scripts| == |reported|
    requires LegalDispatch(p, i, |reported|, scripts, running, last)
    ensures Valid(Dispatched(p, i, |reported|, scripts).state)
    ensures SafeDispatch(p, i, reported, p.buffer.moves, scripts, running)
    ensures AllCached(Dispatched(p, i, |reported|, scripts).state, running)
    ensures Dispatched(p, i, |reported|, scripts).state.buffer.moves == p.buffer.moves
    decreases scripts, |reported| - i
  {
    if i < |reported| {
      LeftNow(p, i, reported);
      if reported[i].user.None? {
        DispatchIsSafe(p, i + 1, reported, scripts, running, last);
      } else {
        var h := reported[i].user.value;
        MoreCached(p, running, h);
        ActsAreSafe(p, scripts[i].actions, running + [h], last && i + 1 == |reported|);
        StillLeft(p, ActAll(p, scripts[i].actions), i, reported, running, h, last);
        if !scripts[i].throws {
          DispatchIsSafe(ActAll(p, scripts[i].actions), i + 1, reported, scripts, running, last);
        }
      }
    }
  }

  lemma LeftNow(p: State, i: nat, reported: seq<Event>)
    requires i < |reported| && Left(p, i, reported)
    ensures i < |p.buffer.events| && p.buffer.events[i] == reported[i] && Left(p, i + 1, reported)
    ensures reported[i].user.Some? ==> reported[i].user.value in p.cached
  {
    assert LeftAt(p, i, reported);
  }

  lemma StillLeft(p: State, q: State, i: nat, reported: seq<Event>, running: seq<Handler>, h: Handler, last: bool)
    requires i < |reported| && Left(p, i, reported)
    requires LeavesLoops(p, q, running + [h], last && i + 1 == |reported|)
    ensures Left(q, i + 1, reported) && AllCached(q, running) && q.buffer.moves == p.buffer.moves
  {
    FewerCached(q, running, h);
    forall j | i + 1 <= j < |reported|
      ensures LeftAt(q, j, reported)
    {
      assert LeftAt(p, j, reported);
    }
  }

  lemma MoreCached(p: State, running: seq<Handler>, h: Handler)
    requires AllCached(p, running) && h in p.cached
    ensures AllCached(p, running + [h]) && running + [h] != []
  {
  }

  lemma FewerCached(p: State, running: seq<Handler>, h: Handler)
    requires AllCached(p, running + [h])
    ensures AllCached(p, running)
  {
    assert forall k :: 0 <= k < |running| ==> (running + [h])[k] == running[k];
  }

  // ---------- the condition is exact ----------

  /** A loop in which handler `h` runs, called for event `i` of those reported. */
  datatype Loop = Loop(h: Handler, i: nat, reported: seq<Event>)

  predicate IsLast(l: Loop) {
    l.i + 1 >= |l.reported|
  }

  predicate AllLast(loops: seq<Loop>) {
    forall k :: 0 <= k < |loops| ==> IsLast(loops[k])
  }

  function Running(loops: seq<Loop>): (hs: seq<Handler>)
    ensures |hs| == |loops| && forall k :: 0 <= k < |hs| ==> hs[k] == loops[k].h
  {
    seq(|loops|, k requires 0 <= k < |loops| => loops[k].h)
  }

  /** The loop can go on: its handler is alive, the buffer has not moved, and the events left
      are where they were, with living handlers. */
  predicate IsIntact(q: State, moves: nat, l: Loop) {
    && q.buffer.moves == moves
    && Owned(q, l.h)
    && forall j :: l.i < j < |l.reported| ==>
         && j < |q.buffer.events| && q.buffer.events[j] == l.reported[j]
         && (l.reported[j].user.Some? ==> Owned(q, l.reported[j].user.value))
  }

  predicate AllIntact(q: State, moves: nat, loops: seq<Loop>) {
    forall k :: 0 <= k < |loops| ==> IsIntact(q, moves, loops[k])
  }

  lemma {:induction false} SomeListing(keys: set<Socket>) returns (order: seq<Socket>)
    ensures IsListing(order, keys)
    decreases |keys|
  {
    if keys == {} {
      return [];
    }
    var s :| s in keys;
    order := SomeListing(keys - {s});
    order := [s] + order;
    assert forall t :: t in keys ==> t == s || t in keys - {s};
  }

  /** A wait that reports nothing, and leaves the buffer with any content. */
  function Idle(order: seq<Socket>, written: seq<Event>): Waiting {
    Waiting(order, 0, [], written, [], false)
  }

  lemma IdleIsPossible(p: State, order: seq<Socket>, written: seq<Event>)
    requires IsListing(order, p.handlers.Keys) && |written| == |Rebuilt(p, order, 0).buffer.events|
    ensures IsPossible(p, Idle(order, written))
  {
    assert written[..0] == EventsOf(Rebuilt(p, order, 0), []);
  }

  lemma OnlyRegisteredStay(p: State, w: Waiting, h: Handler)
    requires IsPossible(p, w) && p.needRebuild && Owned(Reported(p, w), h)
    ensures IsRegistered(p, h)
  {
    var cached := Listed(p.handlers, w.order);
    if h in cached {
      var k :| 0 <= k < |cached| && cached[k] == h;
      assert w.order[k] in p.handlers && p.handlers[w.order[k]] == h;
    }
  }

  /** What a wait that is reported to leave loops intact shows. */
  lemma IntactShows(p: State, w: Waiting, loops: seq<Loop>)
    requires IsPossible(p, w) && loops != [] && AllIntact(Reported(p, w), p.buffer.moves, loops)
    ensures p.needRebuild ==> |p.handlers| <= p.buffer.room && AllRegistered(p, Running(loops))
  {
    assert IsIntact(Reported(p, w), p.buffer.moves, loops[0]);
    if p.needRebuild {
      forall k | 0 <= k < |loops|
        ensures IsRegistered(p, Running(loops)[k])
      {
        assert IsIntact(Reported(p, w), p.buffer.moves, loops[k]);
        OnlyRegisteredStay(p, w, loops[k].h);
      }
    }
  }

  /** The base poller can always write over an event that is left. */
  lemma SomeWaitOverwrites(p: State, l: Loop) returns (w: Waiting)
    requires !IsLast(l)
    ensures IsPossible(p, w) && !IsIntact(Reported(p, w), p.buffer.moves, l)
  {
    var order := SomeListing(p.handlers.Keys);
    var events := Rebuilt(p, order, 0).buffer.events;
    var j := l.i + 1;
    var other := Event(l.reported[j].socket + 1, None);
    var written := if j < |events| then events[j := other] else events;
    IdleIsPossible(p, order, written);
    w := Idle(order, written);
    assert j < |written| ==> written[j] != l.reported[j];
  }

  lemma MayWaitLeavesIntact(p: State, w: Waiting, loops: seq<Loop>)
    requires IsPossible(p, w) && AllCached(p, Running(loops)) && MayWait(p, Running(loops), AllLast(loops))
    ensures AllIntact(Reported(p, w), p.buffer.moves, loops)
  {
    RunningStayCached(p, w.order, w.slack, Running(loops), AllLast(loops));
    forall k | 0 <= k < |loops|
      ensures IsIntact(Reported(p, w), p.buffer.moves, loops[k])
    {
      assert Running(loops)[k] in Rebuilt(p, w.order, w.slack).cached;
      assert IsLast(loops[k]);
    }
  }

  /** Whatever is reported, a wait inside handlers leaves the loops they are called from intact,
      and the handlers themselves alive, if and only if they may wait. */
  lemma WaitLeavesIntactIff(p: State, loops: seq<Loop>)
    requires loops != [] && AllCached(p, Running(loops))
    ensures (forall w | IsPossible(p, w) :: AllIntact(Reported(p, w), p.buffer.moves, loops)) <==>
            MayWait(p, Running(loops), AllLast(loops))
  {
    if MayWait(p, Running(loops), AllLast(loops)) {
      forall w | IsPossible(p, w)
        ensures AllIntact(Reported(p, w), p.buffer.moves, loops)
      {
        MayWaitLeavesIntact(p, w, loops);
      }
    } else if AllLast(loops) {
      var order := SomeListing(p.handlers.Keys);
      var w := Idle(order, Rebuilt(p, order, 0).buffer.events);
      IdleIsPossible(p, order, w.written);
      if AllIntact(Reported(p, w), p.buffer.moves, loops) {
        IntactShows(p, w, loops);
      }
    } else {
      var k :| 0 <= k < |loops| && !IsLast(loops[k]);
      var w := SomeWaitOverwrites(p, loops[k]);
      assert !AllIntact(Reported(p, w), p.buffer.moves, loops);
    }
  }

  // ---------- handlers that may not ----------

  lemma CurrentBufferFits(p: State)
    requires CacheIsCurrent(p)
    ensures |p.buffer.events| == |p.handlers|
  {
    var order :| IsListing(order, p.handlers.Keys) && p.cached == Listed(p.handlers, order) && |p.buffer.events| == |order|;
    ListingSize(order, p.handlers.Keys);
    assert |p.handlers| == |p.handlers.Keys|;
  }

  lemma OneMoreHandler(handlers: map<Socket, Handler>, s: Socket, h: Handler)
    requires s !in handlers
    ensures |handlers[s := h]| == |handlers| + 1
  {
    assert handlers[s := h].Keys == handlers.Keys + {s};
    assert |handlers| == |handlers.Keys| && |handlers[s := h]| == |handlers[s := h].Keys|;
  }

  /** A handler that adds a socket and waits moves a full buffer under every loop. */
  lemma AddThenWaitMovesBuffer(p: State, s: Socket, events: nat, callable: bool, w: Waiting, l: Loop)
    requires Valid(p) && !p.needRebuild && s !in p.handlers && p.buffer.room == |p.buffer.events|
    requires IsPossible(Added(p, s, events, callable, false).state, w)
    ensures !IsIntact(Reported(Added(p, s, events, callable, false).state, w), p.buffer.moves, l)
  {
    CurrentBufferFits(p);
    OneMoreHandler(p.handlers, s, Handler(p.made, callable));
    assert s !in p.base.Keys;
  }

  /** A handler that removes its own socket and waits is freed while it runs. */
  lemma RemoveSelfThenWaitFreesHandler(p: State, s: Socket, w: Waiting)
    requires Valid(p) && s in p.handlers && IsPossible(Removed(p, s, false).state, w)
    ensures !Owned(Reported(Removed(p, s, false).state, w), p.handlers[s])
  {
    var h, q := p.handlers[s], Removed(p, s, false).state;
    assert s in p.base.Keys;
    assert forall t :: t in q.handlers ==> t != s && p.handlers[t].id != h.id;
    if Owned(Reported(q, w), h) {
      OnlyRegisteredStay(q, w, h);
    }
  }

  /** A wait that reports another socket where an event is left takes that event away. */
  lemma ReportReplacesEvent(p: State, w: Waiting, l: Loop)
    requires Valid(p) && IsPossible(p, w) && !IsLast(l)
    requires |w.ready| > l.i + 1 && w.ready[l.i + 1] != l.reported[l.i + 1].socket
    ensures !IsIntact(Reported(p, w), p.buffer.moves, l)
  {
    ReportedIsValid(p, w);
    assert w.written[..|w.ready|][l.i + 1] == w.written[l.i + 1];
  }

  // ---------- what the calls do ----------

  /** A socket as the user sees it: the events asked for, and whether a handler is called. */
  datatype Entry = Entry(events: nat, callable: bool)

  function Table(base: map<Socket, Registration>, handlers: map<Socket, Handler>): map<Socket, Entry> {
    map s | s in base && s in handlers :: Entry(base[s].events, handlers[s].callable)
  }

  function TableOf(p: State): map<Socket, Entry> {
    Table(p.base, p.handlers)
  }

  /** The handlers of the sockets that stay are not exchanged, and the cache is marked out of
      date exactly if the sockets are no longer the same. */
  predicate KeepsOthers(p: State, q: State) {
    && (forall t :: t in p.handlers && t in q.handlers ==> q.handlers[t] == p.handlers[t])
    && q.buffer == p.buffer && q.cached == p.cached
    && (q.needRebuild <==> p.needRebuild || q.handlers.Keys != p.handlers.Keys)
  }

  lemma TableAdds(base: map<Socket, Registration>, handlers: map<Socket, Handler>, s: Socket, r: Registration, h: Handler)
    ensures Table(base[s := r], handlers[s := h]) == Table(base, handlers)[s := Entry(r.events, h.callable)]
  {
  }

  lemma TableModifies(base: map<Socket, Registration>, handlers: map<Socket, Handler>, s: Socket, r: Registration)
    requires s in base && s in handlers
    ensures s in Table(base, handlers)
    ensures Table(base[s := r], handlers) == Table(base, handlers)[s := Table(base, handlers)[s].(events := r.events)]
  {
  }

  lemma TableRemoves(base: map<Socket, Registration>, handlers: map<Socket, Handler>, s: Socket)
    ensures Table(base - {s}, handlers - {s}) == Table(base, handlers) - {s}
  {
  }

  lemma TableKnows(p: State, s: Socket)
    requires Valid(p)
    ensures s in TableOf(p) <==> s in p.handlers
    ensures s in p.handlers <==> s in p.base
  {
    assert s in p.handlers.Keys <==> s in p.base.Keys;
  }

  /** A socket is added exactly if it is new and the base poller takes it. */
  lemma AddRegisters(p: State, s: Socket, events: nat, callable: bool, fails: bool)
    requires Valid(p)
    ensures var o := Added(p, s, events, callable, fails);
            && (o.threw <==> fails || s in TableOf(p))
            && TableOf(o.state) == if o.threw then TableOf(p) else TableOf(p)[s := Entry(events, callable)]
  {
    FailedAddChangesNothing(p, s, events, callable, fails);
    TableKnows(p, s);
    if !fails && s !in p.handlers {
      var h, q := Handler(p.made, callable), Added(p, s, events, callable, fails).state;
      TableAdds(p.base, p.handlers, s, q.base[s], h);
    }
  }

  lemma AddKeepsOthers(p: State, s: Socket, events: nat, callable: bool, fails: bool)
    requires Valid(p)
    ensures KeepsOthers(p, Added(p, s, events, callable, fails).state)
  {
    FailedAddChangesNothing(p, s, events, callable, fails);
    TableKnows(p, s);
    if s !in p.handlers {
      assert s in p.handlers[s := Handler(p.made, callable)].Keys;
    }
  }

  lemma RemoveUnregisters(p: State, s: Socket, fails: bool)
    requires Valid(p)
    ensures var o := Removed(p, s, fails);
            && (o.threw <==> fails || s !in TableOf(p))
            && TableOf(o.state) == if o.threw then TableOf(p) else TableOf(p) - {s}
  {
    TableKnows(p, s);
    TableRemoves(p.base, p.handlers, s);
  }

  lemma RemoveKeepsOthers(p: State, s: Socket, fails: bool)
    requires Valid(p)
    ensures KeepsOthers(p, Removed(p, s, fails).state)
  {
    TableKnows(p, s);
    if s in p.handlers {
      assert s in p.handlers.Keys && s !in (p.handlers - {s}).Keys;
    }
  }

  lemma ModifyChangesEvents(p: State, s: Socket, events: nat, fails: bool)
    requires Valid(p)
    ensures var o := Modified(p, s, events, fails);
            && (o.threw <==> fails || s !in TableOf(p))
            && KeepsOthers(p, o.state)
            && TableOf(o.state) == if o.threw then TableOf(p) else TableOf(p)[s := TableOf(p)[s].(events := events)]
  {
    TableKnows(p, s);
    if !fails && s in p.handlers {
      TableModifies(p.base, p.handlers, s, Registration(events, p.base[s].user));
    }
  }

  /** Waiting itself changes no socket. */
  lemma ReportKeepsTable(p: State, w: Waiting)
    requires IsPossible(p, w)
    ensures var q := Reported(p, w);
            TableOf(q) == TableOf(p) && q.handlers == p.handlers && !q.needRebuild
  {
  }

  /** The states a list of actions goes through. */
  lemma {:induction false} ActsInOrder(p: State, actions: seq<Action>) returns (states: seq<State>)
    ensures |states| == |actions| + 1 && states[0] == p && states[|actions|] == ActAll(p, actions)
    ensures forall m :: 0 <= m < |actions| ==> states[m + 1] == Act(states[m], actions[m])
    decreases |actions|
  {
    if actions == [] {
      states := [p];
    } else {
      var rest := ActsInOrder(Act(p, actions[0]), actions[1..]);
      states := [p] + rest;
    }
  }

  /** Event `k` comes to its turn: no handler from event `i` on throws before. */
  predicate ComesTo(events: seq<Event>, scripts: seq<Script>, i: nat, k: nat)
    requires |scripts| == |events|
  {
    forall j :: i <= j < k && j < |events| && events[j].user.Some? ==> !scripts[j].throws
  }

  predicate IsCalled(events: seq<Event>, scripts: seq<Script>, i: nat, k: nat)
    requires |scripts| == |events|
  {
    i <= k < |events| && events[k].user.Some? && ComesTo(events, scripts, i, k)
  }

  predicate SomeThrows(events: seq<Event>, scripts: seq<Script>, i: nat)
    requires |scripts| == |events|
  {
    exists k :: i <= k < |events| && events[k].user.Some? && scripts[k].throws
  }

  /** The handlers at the places `called` run one after the other. */
  ghost predicate IsTrace(states: seq<State>, called: seq<nat>, scripts: seq<Script>) {
    && |states| == |called| + 1
    && (forall m, n :: 0 <= m < n < |called| ==> called[m] < called[n])
    && forall m :: 0 <= m < |called| ==>
         called[m] < |scripts| && states[m + 1] == ActAll(states[m], scripts[called[m]].actions)
  }

  lemma LongerTrace(p: State, i: nat, states: seq<State>, called: seq<nat>, scripts: seq<Script>)
    requires IsTrace(states, called, scripts) && i < |scripts| && states[0] == ActAll(p, scripts[i].actions)
    requires forall m :: 0 <= m < |called| ==> i < called[m]
    ensures IsTrace([p] + states, [i] + called, scripts)
  {
    var ss, cs := [p] + states, [i] + called;
    forall m | 0 <= m < |cs|
      ensures cs[m] < |scripts| && ss[m + 1] == ActAll(ss[m], scripts[cs[m]].actions)
    {
      if m > 0 {
        assert cs[m] == called[m - 1] && ss[m] == states[m - 1] && ss[m + 1] == states[m];
      }
    }
  }

  ghost predicate AreCalled(called: seq<nat>, events: seq<Event>, scripts: seq<Script>, i: nat)
    requires |scripts| == |events|
  {
    forall k: nat :: k in called <==> IsCalled(events, scripts, i, k)
  }

  lemma ComesFurther(events: seq<Event>, scripts: seq<Script>, i: nat, k: nat)
    requires |scripts| == |events| && i < |events| && i < k
    ensures ComesTo(events, scripts, i, k) <==>
            !(events[i].user.Some? && scripts[i].throws) && ComesTo(events, scripts, i + 1, k)
  {
  }

  lemma NotCalled(called: seq<nat>, events: seq<Event>, scripts: seq<Script>, i: nat)
    requires |scripts| == |events| && i < |events| && events[i].user.None? && AreCalled(called, events, scripts, i + 1)
    ensures AreCalled(called, events, scripts, i)
  {
    forall k: nat
      ensures k in called <==> IsCalled(events, scripts, i, k)
    {
      if i < k {
        ComesFurther(events, scripts, i, k);
      }
    }
  }

  lemma CalledFirst(called: seq<nat>, events: seq<Event>, scripts: seq<Script>, i: nat)
    requires |scripts| == |events| && i < |events| && events[i].user.Some? && !scripts[i].throws
    requires AreCalled(called, events, scripts, i + 1)
    ensures AreCalled([i] + called, events, scripts, i) && forall m :: 0 <= m < |called| ==> i < called[m]
  {
    forall k: nat
      ensures k in [i] + called <==> IsCalled(events, scripts, i, k)
    {
      if i < k {
        ComesFurther(events, scripts, i, k);
      }
    }
    forall m | 0 <= m < |called|
      ensures i < called[m]
    {
      assert called[m] in called;
    }
  }

  lemma CalledLast(events: seq<Event>, scripts: seq<Script>, i: nat)
    requires |scripts| == |events| && i < |events| && events[i].user.Some? && scripts[i].throws
    ensures AreCalled([i], events, scripts, i)
  {
    forall k: nat
      ensures k in [i] <==> IsCalled(events, scripts, i, k)
    {
      if i < k {
        ComesFurther(events, scripts, i, k);
      }
    }
  }

  lemma ThrowsFirst(events: seq<Event>, scripts: seq<Script>, i: nat)
    requires |scripts| == |events| && i < |events|
    ensures SomeThrows(events, scripts, i) <==>
            (events[i].user.Some? && scripts[i].throws) || SomeThrows(events, scripts, i + 1)
  {
  }

  /** What the rest of a loop does. */
  ghost predicate IsLoop(o: Outcome, i: nat, reported: seq<Event>, scripts: seq<Script>, states: seq<State>, called: seq<nat>)
    requires |scripts| == |reported|
  {
    && IsTrace(states, called, scripts) && AreCalled(called, reported, scripts, i)
    && o == Outcome(states[|called|], SomeThrows(reported, scripts, i))
  }

  lemma {:induction false} DispatchCalls(p: State, i: nat, reported: seq<Event>, scripts: seq<Script>,
                                         running: seq<Handler>, last: bool)
    returns (states: seq<State>, called: seq<nat>)
    requires Valid(p) && AllCached(p, running) && Left(p, i, reported) && |scripts| == |reported|
    requires LegalDispatch(p, i, |reported|, scripts, running, last)
    ensures IsLoop(Dispatched(p, i, |reported|, scripts), i, reported, scripts, states, called) && states[0] == p
    decreases |reported| - i
  {
    if i >= |reported| {
      states, called := [p], [];
    } else {
      LeftNow(p, i, reported);
      if reported[i].user.None? {
        states, called := DispatchCalls(p, i + 1, reported, scripts, running, last);
        NotCalled(called, reported, scripts, i);
        ThrowsFirst(reported, scripts, i);
      } else {
        GoesOn(p, i, reported, scripts, running, last);
        if scripts[i].throws {
          states, called := [p, ActAll(p, scripts[i].actions)], [i];
          CalledLast(reported, scripts, i);
        } else {
          states, called := DispatchCalls(ActAll(p, scripts[i].actions), i + 1, reported, scripts, running, last);
          LoopFrom(p, i, reported, scripts, states, called);
          states, called := [p] + states, [i] + called;
        }
      }
    }
  }

  lemma GoesOn(p: State, i: nat, reported: seq<Event>, scripts: seq<Script>, running: seq<Handler>, last: bool)
    requires Valid(p) && AllCached(p, running) && i < |reported| == |scripts| && Left(p, i, reported)
    requires reported[i].user.Some? && LegalDispatch(p, i, |reported|, scripts, running, last)
    ensures var q := ActAll(p, scripts[i].actions);
            && Valid(q) && AllCached(q, running) && Left(q, i + 1, reported)
            && (!scripts[i].throws ==> LegalDispatch(q, i + 1, |reported|, scripts, running, last))
  {
    var h := reported[i].user.value;
    LeftNow(p, i, reported);
    MoreCached(p, running, h);
    ActsAreSafe(p, scripts[i].actions, running + [h], last && i + 1 == |reported|);
    StillLeft(p, ActAll(p, scripts[i].actions), i, reported, running, h, last);
  }

  lemma {:induction false} LoopFrom(p: State, i: nat, reported: seq<Event>, scripts: seq<Script>, states: seq<State>, called: seq<nat>)
    requires i < |reported| == |scripts| && i < |p.buffer.events| && p.buffer.events[i] == reported[i]
    requires reported[i].user.Some? && !scripts[i].throws
    requires IsLoop(Dispatched(ActAll(p, scripts[i].actions), i + 1, |reported|, scripts), i + 1, reported, scripts, states, called)
    requires states[0] == ActAll(p, scripts[i].actions)
    ensures IsLoop(Dispatched(p, i, |reported|, scripts), i, reported, scripts, [p] + states, [i] + called)
  {
    CalledFirst(called, reported, scripts, i);
    LongerTrace(p, i, states, called, scripts);
    ThrowsFirst(reported, scripts, i);
    assert ([p] + states)[|called| + 1] == states[|called|];
  }

  /** A ready socket has a handler that is called. */
  predicate HasHandler(p: State, s: Socket) {
    s in p.handlers && p.handlers[s].callable
  }

  lemma ReportedUsers(p: State, w: Waiting, k: nat)
    requires Valid(p) && IsPossible(p, w) && k < |w.ready| <= |Reported(p, w).buffer.events|
    ensures Reported(p, w).buffer.events[..|w.ready|][k].user.Some? <==> HasHandler(p, w.ready[k])
  {
    var r := Rebuilt(p, w.order, w.slack);
    assert w.written[..|w.ready|][k] == EventsOf(r, w.ready)[k];
  }

  /** The report read as what it means for the sockets. */
  predicate Means(p: State, ready: seq<Socket>, events: seq<Event>) {
    |events| == |ready| && forall k :: 0 <= k < |ready| ==> (events[k].user.Some? <==> HasHandler(p, ready[k]))
  }

  /** The handler of ready socket `k` is called: it has one, and none throws before. */
  predicate CallsReady(p: State, w: Waiting, k: nat)
    requires |w.scripts| == |w.ready|
  {
    && k < |w.ready| && HasHandler(p, w.ready[k])
    && forall j :: 0 <= j < k && HasHandler(p, w.ready[j]) ==> !w.scripts[j].throws
  }

  predicate ReadyThrows(p: State, w: Waiting)
    requires |w.scripts| == |w.ready|
  {
    exists k :: 0 <= k < |w.ready| && HasHandler(p, w.ready[k]) && w.scripts[k].throws
  }

  lemma CalledMeans(p: State, w: Waiting, events: seq<Event>, k: nat)
    requires |w.scripts| == |w.ready| && Means(p, w.ready, events)
    ensures IsCalled(events, w.scripts, 0, k) <==> CallsReady(p, w, k)
    ensures SomeThrows(events, w.scripts, 0) <==> ReadyThrows(p, w)
  {
    if SomeThrows(events, w.scripts, 0) {
      var m :| 0 <= m < |events| && events[m].user.Some? && w.scripts[m].throws;
      assert HasHandler(p, w.ready[m]);
    }
    if ReadyThrows(p, w) {
      var m :| 0 <= m < |w.ready| && HasHandler(p, w.ready[m]) && w.scripts[m].throws;
      assert events[m].user.Some?;
    }
  }

  lemma AreCalledMeans(p: State, w: Waiting, events: seq<Event>, called: seq<nat>)
    requires |w.scripts| == |w.ready| && Means(p, w.ready, events) && AreCalled(called, events, w.scripts, 0)
    ensures forall k: nat :: k in called <==> CallsReady(p, w, k)
    ensures SomeThrows(events, w.scripts, 0) <==> ReadyThrows(p, w)
  {
    CalledMeans(p, w, events, 0);
    forall k: nat
      ensures k in called <==> CallsReady(p, w, k)
    {
      CalledMeans(p, w, events, k);
    }
  }

  lemma ReportMeans(p: State, w: Waiting)
    requires Valid(p) && IsPossible(p, w) && |w.ready| <= |Reported(p, w).buffer.events|
    ensures Means(p, w.ready, Reported(p, w).buffer.events[..|w.ready|])
  {
    forall k: nat | k < |w.ready|
      ensures Reported(p, w).buffer.events[..|w.ready|][k].user.Some? <==> HasHandler(p, w.ready[k])
    {
      ReportedUsers(p, w, k);
    }
  }

  /** A wait calls, in the order of the report and each once, exactly the handlers of the
      ready sockets that have one, up to the first that throws; it throws if and only if one
      of them does. The handlers may wait in turn where they may. */
  lemma WaitCallsHandlers(p: State, w: Waiting, running: seq<Handler>, last: bool)
    returns (states: seq<State>, called: seq<nat>)
    requires Valid(p) && AllCached(p, running) && LegalAct(p, Wait(w), running, last) && !w.fails
    ensures IsTrace(states, called, w.scripts) && states[0] == Reported(p, w) && states[|called|] == Act(p, Wait(w))
    ensures forall k: nat :: k in called <==> CallsReady(p, w, k)
    ensures Dispatched(Reported(p, w), 0, |w.ready|, w.scripts).threw <==> ReadyThrows(p, w)
  {
    ReportMeetsLoop(p, w, running, last);
    var q := Reported(p, w);
    var reported := q.buffer.events[..|w.ready|];
    ReportMeans(p, w);
    ActOfWait(p, w);
    states, called := DispatchCalls(q, 0, reported, w.scripts, running, last);
    AreCalledMeans(p, w, reported, called);
  }

  /** Without waits inside its handlers, every wait that can happen is covered by that. */
  lemma {:induction false} QuietIsLegal(p: State, i: nat, count: nat, scripts: seq<Script>, running: seq<Handler>, last: bool)
    requires forall k, m :: 0 <= k < |scripts| && 0 <= m < |scripts[k].actions| ==> !scripts[k].actions[m].Wait?
    ensures LegalDispatch(p, i, count, scripts, running, last)
    decreases count - i
  {
    if i < count && i < |p.buffer.events| && i < |scripts| {
      match p.buffer.events[i].user {
        case None => QuietIsLegal(p, i + 1, count, scripts, running, last);
        case Some(h) =>
          QuickActsAreLegal(p, scripts[i].actions, running + [h], last && i + 1 == count);
          QuietIsLegal(ActAll(p, scripts[i].actions), i + 1, count, scripts, running, last);
      }
    }
  }

  lemma {:induction false} QuickActsAreLegal(p: State, actions: seq<Action>, running: seq<Handler>, last: bool)
    requires forall m :: 0 <= m < |actions| ==> !actions[m].Wait?
    ensures LegalActs(p, actions, running, last)
    decreases |actions|
  {
    if actions != [] {
      QuickActsAreLegal(Act(p, actions[0]), actions[1..], running, last);
    }
  }

  // ---------- whole runs ----------

  /** A run is a sequence of states and the actions of the program between them, in which
      handlers wait only where they may. */
  ghost predicate IsRun(states: seq<State>, actions: seq<Action>) {
    && |states| == |actions| + 1 && states[0] == EMPTY
    && forall i :: 0 <= i < |actions| ==>
         LegalAct(states[i], actions[i], [], true) && states[i + 1] == Act(states[i], actions[i])
  }

  /** Every state of every run is valid and every action in it is safe. */
  lemma {:induction false} RunsAreSafe(states: seq<State>, actions: seq<Action>, n: nat)
    requires IsRun(states, actions) && n <= |actions|
    ensures Valid(states[n])
    ensures forall i :: 0 <= i < n ==> SafeAct(states[i], actions[i], [])
  {
    if n == 0 {
      EmptyIsValid();
    } else {
      RunsAreSafe(states, actions, n - 1);
      ActIsSafe(states[n - 1], actions[n - 1], [], true);
    }
  }

  // ---------- the code ----------

  class Poller {
    var needRebuild: bool
    var base: map<Socket, Registration>
    var handlers: map<Socket, Handler>
    var buffer: Buffer
    var cached: seq<Handler>
    var made: nat

    function Value(): State
      reads this
    {
      State(needRebuild, base, handlers, buffer, cached, made)
    }

    constructor ()
      ensures Value() == EMPTY && Valid(Value())
    {
      needRebuild, base, handlers, buffer, cached, made := false, map[], map[], Buffer([], 0, 0), [], 0;
      new;
      EmptyIsValid();
    }

    method AddSocket(s: Socket, events: nat, callable: bool, fails: bool) returns (threw: bool)
      requires Valid(Value())
      modifies this
      ensures Outcome(Value(), threw) == Added(old(Value()), s, events, callable, fails)
      ensures Valid(Value()) && (threw ==> SameButAllocation(old(Value()), Value()))
    {
      FailedAddChangesNothing(Value(), s, events, callable, fails);
      AddKeepsValid(Value(), s, events, callable, fails);
      var inserted := s !in handlers;
      if inserted {
        handlers := handlers[s := Handler(made, callable)];
      }
      made := made + 1;
      var handler := handlers[s];
      threw := fails || s in base;
      if !threw {
        base := base[s := Registration(events, if inserted && handler.callable then Some(handler) else None)];
        needRebuild := needRebuild || inserted;
      } else if inserted {
        handlers := handlers - {s};
      }
      assert Value() == Added(old(Value()), s, events, callable, fails).state;
    }

    method RemoveSocket(s: Socket, fails: bool) returns (threw: bool)
      requires Valid(Value())
      modifies this
      ensures Outcome(Value(), threw) == Removed(old(Value()), s, fails)
      ensures Valid(Value()) && (threw ==> Value() == old(Value()))
    {
      RemoveKeepsValid(Value(), s, fails);
      threw := fails || s !in base;
      if !threw {
        base := base - {s};
        handlers := handlers - {s};
        needRebuild := true;
      }
    }

    method ModifySocket(s: Socket, events: nat, fails: bool) returns (threw: bool)
      requires Valid(Value())
      modifies this
      ensures Outcome(Value(), threw) == Modified(old(Value()), s, events, fails)
      ensures Valid(Value())
    {
      ModifyKeepsValid(Value(), s, events, fails);
      threw := fails || s !in base;
      if !threw {
        base := base[s := Registration(events, base[s].user)];
      }
      assert Value() == Modified(old(Value()), s, events, fails).state;
    }

    /** What the program or a handler does to the poller, while the handlers `running` are on
        the stack. */
    method Perform(actions: seq<Action>, ghost running: seq<Handler>, ghost last: bool)
      requires Valid(Value()) && AllCached(Value(), running) && LegalActs(Value(), actions, running, last)
      modifies this
      ensures Value() == ActAll(old(Value()), actions)
      decreases actions
    {
      for i := 0 to |actions|
        invariant Valid(Value()) && AllCached(Value(), running) && LegalActs(Value(), actions[i..], running, last)
        invariant ActAll(Value(), actions[i..]) == ActAll(old(Value()), actions)
      {
        assert actions[i..][1..] == actions[i + 1..] && actions[i..][0] == actions[i];
        ActIsSafe(Value(), actions[i], running, last);
        Do(actions[i], running, last);
      }
    }

    method Do(a: Action, ghost running: seq<Handler>, ghost last: bool)
      requires Valid(Value()) && AllCached(Value(), running) && LegalAct(Value(), a, running, last)
      modifies this
      ensures Value() == Act(old(Value()), a)
      decreases a
    {
      match a
      case Add(s, events, callable, fails) => var _ := AddSocket(s, events, callable, fails);
      case Remove(s, fails) => var _ := RemoveSocket(s, fails);
      case Modify(s, events, fails) => var _ := ModifySocket(s, events, fails);
      case Wait(w) => var _, _ := WaitFor(w, running, last);
    }

    method RebuildCache(order: seq<Socket>, slack: nat)
      requires Valid(Value()) && IsListing(order, handlers.Keys)
      modifies this
      ensures Value() == Rebuilt(old(Value()), order, slack) && Valid(Value())
    {
      RebuildKeepsValid(Value(), order, slack);
      if needRebuild {
        buffer := Resized(buffer, |handlers|, slack);
        cached := Listed(handlers, order);
        needRebuild := false;
      }
    }

    /** The loop over the events in the buffer. */
    method Dispatch(count: nat, scripts: seq<Script>, ghost reported: seq<Event>, ghost running: seq<Handler>, ghost last: bool)
      returns (threw: bool)
      requires Valid(Value()) && AllCached(Value(), running) && Left(Value(), 0, reported)
      requires count == |reported| == |scripts| && LegalDispatch(Value(), 0, count, scripts, running, last)
      modifies this
      ensures Outcome(Value(), threw) == Dispatched(old(Value()), 0, count, scripts)
      decreases scripts
    {
      for i := 0 to count
        invariant Valid(Value()) && AllCached(Value(), running) && Left(Value(), i, reported)
        invariant LegalDispatch(Value(), i, count, scripts, running, last)
        invariant Dispatched(Value(), i, count, scripts) == Dispatched(old(Value()), 0, count, scripts)
      {
        LeftNow(Value(), i, reported);
        if buffer.events[i].user.Some? {
          ghost var h := buffer.events[i].user.value;
          ghost var p := Value();
          MoreCached(p, running, h);
          ActsAreSafe(p, scripts[i].actions, running + [h], last && i + 1 == count);
          Perform(scripts[i].actions, running + [h], last && i + 1 == count);
          StillLeft(p, Value(), i, reported, running, h, last);
          if scripts[i].throws {
            return true;
          }
        }
      }
      threw := false;
    }

    /** The rest of `wait`, behind the call of the base poller. */
    method HandleReport(w: Waiting, ghost running: seq<Handler>, ghost last: bool) returns (threw: bool)
      requires Valid(Value()) && AllCached(Value(), running) && |w.ready| == |w.scripts|
      requires |w.ready| <= |buffer.events| && Left(Value(), 0, buffer.events[..|w.ready|])
      requires LegalDispatch(Value(), 0, |w.ready|, w.scripts, running, last)
      modifies this
      ensures Outcome(Value(), threw) == Dispatched(old(Value()), 0, |w.ready|, w.scripts)
      decreases w, 0
    {
      threw := Dispatch(|w.ready|, w.scripts, buffer.events[..|w.ready|], running, last);
    }

    /** `wait`: rebuilds the cache if need be, then calls the handlers of the ready sockets. */
    method WaitFor(w: Waiting, ghost running: seq<Handler>, ghost last: bool) returns (count: nat, threw: bool)
      requires Valid(Value()) && AllCached(Value(), running) && LegalAct(Value(), Wait(w), running, last)
      modifies this
      ensures Value() == Act(old(Value()), Wait(w))
      ensures threw <==> w.fails || ReadyThrows(old(Value()), w)
      ensures !threw ==> count == |w.ready|
      decreases w, 1
    {
      ghost var p := Value();
      ReportMeetsLoop(p, w, running, last);
      ActOfWait(p, w);
      RebuildCache(w.order, w.slack);
      threw, count := w.fails, 0;
      if !threw {
        Receive(w.written);
        ghost var states, called := WaitCallsHandlers(p, w, running, last);
        threw := HandleReport(w, running, last);
        count := |w.ready|;
      }
    }

    /** `wait_all`, which writes to the buffer. */
    method Receive(events: seq<Event>)
      modifies this`buffer
      ensures Value() == Filled(old(Value()), events)
    {
      buffer := buffer.(events := events);
    }
  }
}
