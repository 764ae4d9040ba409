/**
 * Single flight as a state machine: every atomic step of joining, waiting, completing, leaving and
 * cancelling is one action, and a run is any interleaving of enabled actions.
 */
module Flight {
  import opened Common

  type Value = nat

  /** Where a listener stands between registering with a notifier and being woken by it. */
  datatype Phase =
    | Entering
    | Looping
    | Registered(notified: bool)
    | Asleep(notified: bool)
    | Returned
    | GaveUp
    | Leaving
    | Gone

  datatype Waiter = Waiter(flight: Id, leader: bool, phase: Phase, got: Option<Value>)

  /** The spawned worker: it stores its result first and notifies in a later step. */
  datatype Worker = Unspawned | Running | Stored | Finished

  datatype FlightState = FlightState(
    key: Id,
    leader: Id,
    count: nat,
    result: Option<Value>,
    worker: Worker,
    cancelled: bool,
    cancelNotifying: bool)

  /** A task of the worker that waits for cancellation. */
  datatype Listener = Listener(flight: Id, phase: Phase)

  datatype State = State(
    registry: map<Id, Id>,
    flights: map<Id, FlightState>,
    waiters: map<Id, Waiter>,
    listeners: map<Id, Listener>)

  datatype Action =
    | Join(key: Id, w: Id, newId: Id)
    | Begin(w: Id)
    | Register(w: Id)
    | Check(w: Id)
    | Wake(w: Id)
    | GiveUp(w: Id)
    | Leave(w: Id)
    | Release(w: Id)
    | Store(f: Id, value: Value)
    | Notify(f: Id)
    | Abort(f: Id)
    | CancelNotify(f: Id)
    | Listen(l: Id, f: Id)
    | ListenRegister(l: Id)
    | ListenCheck(l: Id)
    | ListenWake(l: Id)

  const START := State(map[], map[], map[], map[])

  predicate Counted(w: Waiter) {
    !w.phase.Leaving? && !w.phase.Gone?
  }

  predicate HoldsArc(s: State, w: Id, f: Id)
    requires w in s.waiters
  {
    s.waiters[w].flight == f && !s.waiters[w].phase.Gone?
  }

  /** A flight stays upgradable while a waiter or the worker still owns it. */
  predicate Alive(s: State, f: Id)
    requires f in s.flights
  {
    || s.flights[f].worker.Running? || s.flights[f].worker.Stored?
    || exists w :: w in s.waiters && HoldsArc(s, w, f)
  }

  function CountedWaiters(s: State, f: Id): set<Id> {
    set w | w in s.waiters && s.waiters[w].flight == f && Counted(s.waiters[w])
  }

  predicate Joinable(s: State, key: Id) {
    key in s.registry && s.registry[key] in s.flights && Alive(s, s.registry[key])
  }

  predicate WaiterIn(s: State, w: Id) {
    w in s.waiters && s.waiters[w].flight in s.flights
  }

  predicate Enabled(s: State, a: Action) {
    match a
    case Join(key, w, newId) => w !in s.waiters && (Joinable(s, key) || newId !in s.flights)
    case Begin(w) => WaiterIn(s, w) && s.waiters[w].phase.Entering?
    case Register(w) => WaiterIn(s, w) && s.waiters[w].phase.Looping?
    case Check(w) => WaiterIn(s, w) && s.waiters[w].phase.Registered?
    case Wake(w) => WaiterIn(s, w) && s.waiters[w].phase == Asleep(true)
    case GiveUp(w) => WaiterIn(s, w) && s.waiters[w].phase.Asleep?
    case Leave(w) => WaiterIn(s, w) && !s.waiters[w].phase.Entering? && Counted(s.waiters[w])
    case Release(w) => WaiterIn(s, w) && s.waiters[w].phase.Leaving?
    case Store(f, _) => f in s.flights && s.flights[f].worker.Running?
    case Notify(f) => f in s.flights && s.flights[f].worker.Stored?
    case Abort(f) => f in s.flights && s.flights[f].worker.Running?
    case CancelNotify(f) => f in s.flights && s.flights[f].cancelNotifying
    case Listen(l, f) => l !in s.listeners && f in s.flights && s.flights[f].worker.Running?
    case ListenRegister(l) => l in s.listeners && s.listeners[l].phase.Looping?
    case ListenCheck(l) => l in s.listeners && s.listeners[l].flight in s.flights && s.listeners[l].phase.Registered?
    case ListenWake(l) => l in s.listeners && s.listeners[l].phase == Asleep(true)
  }

  function SetPhase(s: State, w: Id, phase: Phase): State
    requires w in s.waiters
  {
    s.(waiters := s.waiters[w := s.waiters[w].(phase := phase)])
  }

  /** A notification reaches everyone registered or asleep, and no one else. */
  function Notified(phase: Phase): Phase {
    match phase
    case Registered(_) => Registered(true)
    case Asleep(_) => Asleep(true)
    case _ => phase
  }

  function JoinStep(s: State, key: Id, w: Id, newId: Id): State {
    var retained := map k | k in s.registry && s.registry[k] in s.flights && Alive(s, s.registry[k]) :: s.registry[k];
    if key in retained then
      var f := retained[key];
      State(retained,
            s.flights[f := s.flights[f].(count := s.flights[f].count + 1)],
            s.waiters[w := Waiter(f, false, Entering, None)],
            s.listeners)
    else
      State(retained[key := newId],
            s.flights[newId := FlightState(key, w, 1, None, Unspawned, false, false)],
            s.waiters[w := Waiter(newId, true, Entering, None)],
            s.listeners)
  }

  /** Dropping a waiter: the counter goes down and the last one out raises the cancellation. */
  function LeaveStep(s: State, w: Id): State
    requires WaiterIn(s, w)
  {
    var f := s.waiters[w].flight;
    var flight := s.flights[f];
    var left := if flight.count == 0 then 0 else flight.count - 1;
    var raise := left == 0 && !flight.cancelled;
    SetPhase(s, w, Leaving).(flights := s.flights[f := flight.(
        count := left,
        cancelled := flight.cancelled || left == 0,
        cancelNotifying := flight.cancelNotifying || raise)])
  }

  function Step(s: State, a: Action): State
    requires Enabled(s, a)
  {
    match a
    case Join(key, w, newId) => JoinStep(s, key, w, newId)
    case Begin(w) =>
      var f := s.waiters[w].flight;
      if s.waiters[w].leader && s.flights[f].worker.Unspawned? then
        SetPhase(s, w, Looping).(flights := s.flights[f := s.flights[f].(worker := Running)])
      else SetPhase(s, w, Looping)
    case Register(w) => SetPhase(s, w, Registered(false))
    case Check(w) =>
      var result := s.flights[s.waiters[w].flight].result;
      if result.Some? then s.(waiters := s.waiters[w := s.waiters[w].(phase := Returned, got := result)])
      else SetPhase(s, w, Asleep(s.waiters[w].phase.notified))
    case Wake(w) => SetPhase(s, w, Looping)
    case GiveUp(w) => SetPhase(s, w, GaveUp)
    case Leave(w) => LeaveStep(s, w)
    case Release(w) => SetPhase(s, w, Gone)
    case Store(f, value) =>
      s.(flights := s.flights[f := s.flights[f].(worker := Stored, result := Some(value))])
    case Notify(f) =>
      s.(flights := s.flights[f := s.flights[f].(worker := Finished)],
         waiters := map w | w in s.waiters ::
           if s.waiters[w].flight == f then s.waiters[w].(phase := Notified(s.waiters[w].phase)) else s.waiters[w])
    case Abort(f) => s.(flights := s.flights[f := s.flights[f].(worker := Finished)])
    case CancelNotify(f) =>
      s.(flights := s.flights[f := s.flights[f].(cancelNotifying := false)],
         listeners := map l | l in s.listeners ::
           if s.listeners[l].flight == f then s.listeners[l].(phase := Notified(s.listeners[l].phase)) else s.listeners[l])
    case Listen(l, f) => s.(listeners := s.listeners[l := Listener(f, Looping)])
    case ListenRegister(l) => s.(listeners := s.listeners[l := s.listeners[l].(phase := Registered(false))])
    case ListenCheck(l) =>
      var listener := s.listeners[l];
      s.(listeners := s.listeners[l := listener.(
          phase := if s.flights[listener.flight].cancelled then Returned else Asleep(listener.phase.notified))])
    case ListenWake(l) => s.(listeners := s.listeners[l := s.listeners[l].(phase := Looping)])
  }

  /** State t is reached from s by the actions in order, each enabled when it happens. */
  ghost predicate Runs(s: State, acts: seq<Action>, t: State)
    decreases acts
  {
    if acts == [] then s == t
    else Enabled(s, acts[0]) && Runs(Step(s, acts[0]), acts[1..], t)
  }

  ghost predicate Reachable(t: State) {
    exists acts :: Runs(START, acts, t)
  }

  // The invariant, one clause per concern

  ghost predicate Linked(s: State) {
    && (forall w :: w in s.waiters ==> s.waiters[w].flight in s.flights)
    && (forall l :: l in s.listeners ==> s.listeners[l].flight in s.flights)
    && forall k :: k in s.registry ==> s.registry[k] in s.flights && s.flights[s.registry[k]].key == k
  }

  /** The counter of a flight is the number of its waiters that have not left. */
  ghost predicate CountsWaiters(s: State) {
    forall f :: f in s.flights ==> s.flights[f].count == |CountedWaiters(s, f)|
  }

  /** Every flight that can still be joined is the registered one for its key. */
  ghost predicate AliveRegistered(s: State) {
    forall f :: f in s.flights && Alive(s, f) ==> s.flights[f].key in s.registry && s.registry[s.flights[f].key] == f
  }

  ghost predicate LeaderRecorded(s: State) {
    && (forall f :: f in s.flights ==> s.flights[f].leader in s.waiters && s.waiters[s.flights[f].leader].flight == f)
    && forall w :: w in s.waiters && s.waiters[w].flight in s.flights ==>
         (s.waiters[w].leader <==> s.flights[s.waiters[w].flight].leader == w)
  }

  /** Only a worker that has reached its end has a result. */
  ghost predicate ResultByWorker(s: State) {
    && (forall f :: f in s.flights && s.flights[f].result.Some? ==>
          s.flights[f].worker.Stored? || s.flights[f].worker.Finished?)
    && forall f :: f in s.flights && s.flights[f].worker.Stored? ==> s.flights[f].result.Some?
  }

  /** A stored result is about to be notified, or every sleeper has been notified of it. */
  ghost predicate NoLostWakeup(s: State) {
    forall w :: WaiterIn(s, w) && s.waiters[w].phase == Asleep(false) && s.flights[s.waiters[w].flight].result.Some? ==>
      s.flights[s.waiters[w].flight].worker.Stored?
  }

  ghost predicate SameResult(s: State) {
    forall w :: WaiterIn(s, w) && s.waiters[w].got.Some? ==> s.waiters[w].got == s.flights[s.waiters[w].flight].result
  }

  /** The same for cancellation: a raised flag is being notified, or no listener sleeps unaware. */
  ghost predicate NoLostCancel(s: State) {
    && (forall f :: f in s.flights && s.flights[f].cancelNotifying ==> s.flights[f].cancelled)
    && (forall l :: ListenerIn(s, l) && s.listeners[l].phase == Asleep(false) && s.flights[s.listeners[l].flight].cancelled ==>
          s.flights[s.listeners[l].flight].cancelNotifying)
    && forall l :: ListenerIn(s, l) && s.listeners[l].phase.Returned? ==> s.flights[s.listeners[l].flight].cancelled
  }

  predicate ListenerIn(s: State, l: Id) {
    l in s.listeners && s.listeners[l].flight in s.flights
  }

  ghost predicate Inv(s: State) {
    Linked(s) && CountsWaiters(s) && AliveRegistered(s) && LeaderRecorded(s)
    && ResultByWorker(s) && NoLostWakeup(s) && SameResult(s) && NoLostCancel(s)
  }

  /** Apart from joining, a step creates nothing and moves no waiter to another flight. */
  ghost predicate SameShape(s: State, t: State) {
    SameFlights(s, t) && SameWaiters(s, t)
  }

  ghost predicate SameFlights(s: State, t: State) {
    && t.registry == s.registry
    && t.flights.Keys == s.flights.Keys
    && forall f :: f in s.flights ==> t.flights[f].key == s.flights[f].key && t.flights[f].leader == s.flights[f].leader
  }

  ghost predicate SameWaiters(s: State, t: State) {
    && t.waiters.Keys == s.waiters.Keys
    && forall w :: w in s.waiters ==>
         t.waiters[w].flight == s.waiters[w].flight && t.waiters[w].leader == s.waiters[w].leader
  }

  lemma StepFlights(s: State, a: Action)
    requires Enabled(s, a) && !a.Join?
    ensures SameFlights(s, Step(s, a))
  {
  }

  lemma StepWaiters(s: State, a: Action)
    requires Enabled(s, a) && !a.Join?
    ensures SameWaiters(s, Step(s, a))
  {
  }

  lemma StepShape(s: State, a: Action)
    requires Enabled(s, a) && !a.Join?
    ensures SameShape(s, Step(s, a))
  {
    StepFlights(s, a);
    StepWaiters(s, a);
    hide Step, Enabled;
  }

  /** Joining adds one waiter, to the joinable flight of the key or to a new one it leads. */
  lemma JoinShape(s: State, a: Action)
    requires Enabled(s, a) && Linked(s) && a.Join?
    ensures var t := Step(s, a);
      && t.waiters.Keys == s.waiters.Keys + {a.w}
      && (forall v :: v in s.waiters ==> t.waiters[v] == s.waiters[v])
      && t.waiters[a.w].phase == Entering
      && if Joinable(s, a.key) then
           && t.waiters[a.w].flight == s.registry[a.key] && !t.waiters[a.w].leader
           && t.registry[a.key] == s.registry[a.key]
           && t.flights == s.flights[s.registry[a.key] :=
                s.flights[s.registry[a.key]].(count := s.flights[s.registry[a.key]].count + 1)]
         else
           && t.waiters[a.w].flight == a.newId && t.waiters[a.w].leader
           && t.registry[a.key] == a.newId
           && t.flights == s.flights[a.newId := FlightState(a.key, a.w, 1, None, Unspawned, false, false)]
    ensures forall k :: k in s.registry && k != a.key && Joinable(s, k) ==>
      k in Step(s, a).registry && Step(s, a).registry[k] == s.registry[k]
    ensures a.key in Step(s, a).registry
  {
  }

  /** Joining keeps the registry entries it does not replace, if their flights are still owned. */
  lemma JoinRegistry(s: State, a: Action)
    requires Enabled(s, a) && Linked(s) && a.Join?
    ensures forall k :: k in Step(s, a).registry && k != a.key ==> k in s.registry && Step(s, a).registry[k] == s.registry[k]
    ensures Step(s, a).listeners == s.listeners
  {
  }

  lemma StepListeners(s: State, a: Action)
    requires Enabled(s, a) && Linked(s) && !a.Join?
    ensures forall l :: l in Step(s, a).listeners ==> Step(s, a).listeners[l].flight in s.flights
  {
  }

  lemma KeepsLinked(s: State, a: Action)
    requires Enabled(s, a) && Linked(s)
    ensures Linked(Step(s, a))
  {
    if a.Join? {
      JoinShape(s, a);
      JoinRegistry(s, a);
      hide Step, Enabled, Joinable;
    } else {
      StepShape(s, a);
      StepListeners(s, a);
      hide Step, Enabled;
    }
  }

  lemma KeepsLeader(s: State, a: Action)
    requires Enabled(s, a) && Linked(s) && LeaderRecorded(s)
    ensures LeaderRecorded(Step(s, a))
  {
    if a.Join? {
      JoinShape(s, a);
      hide Step, Enabled, Joinable;
      JoinKeepsLeader(s, Step(s, a), a.w);
    } else {
      StepShape(s, a);
      hide Step, Enabled;
    }
  }

  lemma JoinKeepsLeader(s: State, t: State, w: Id)
    requires Linked(s) && LeaderRecorded(s) && w !in s.waiters
    requires t.waiters.Keys == s.waiters.Keys + {w} && forall v :: v in s.waiters ==> t.waiters[v] == s.waiters[v]
    requires forall f :: f in s.flights ==> f in t.flights && t.flights[f].leader == s.flights[f].leader
    requires forall f :: f in t.flights && f !in s.flights ==>
      t.flights[f].leader == w && t.waiters[w].flight == f && t.waiters[w].leader
    requires t.waiters[w].flight in s.flights ==> !t.waiters[w].leader
    ensures LeaderRecorded(t)
  {
  }

  predicate ListenerAction(a: Action) {
    a.CancelNotify? || a.Listen? || a.ListenRegister? || a.ListenCheck? || a.ListenWake?
  }

  /** Listeners and their notification leave waiters, results and workers alone. */
  lemma ListenersApart(s: State, a: Action)
    requires Enabled(s, a) && ListenerAction(a)
    ensures var t := Step(s, a);
      && t.waiters == s.waiters && t.registry == s.registry && t.flights.Keys == s.flights.Keys
      && forall f :: f in s.flights ==>
           t.flights[f].result == s.flights[f].result && t.flights[f].worker == s.flights[f].worker
           && t.flights[f].cancelled == s.flights[f].cancelled
  {
  }

  /** Waiting, completing and joining leave listeners and raised flags alone. */
  lemma CancelApart(s: State, a: Action)
    requires Enabled(s, a) && !ListenerAction(a) && !a.Leave? && !a.Join?
    ensures var t := Step(s, a);
      && t.listeners == s.listeners && t.flights.Keys == s.flights.Keys
      && forall f :: f in s.flights ==>
           t.flights[f].cancelled == s.flights[f].cancelled && t.flights[f].cancelNotifying == s.flights[f].cancelNotifying
  {
  }

  predicate WorkerAction(a: Action) {
    a.Begin? || a.Store? || a.Notify? || a.Abort?
  }

  /** Only these steps touch results and workers, and only a starting waiter revives one. */
  lemma WorkersApart(s: State, a: Action)
    requires Enabled(s, a) && !a.Join? && !WorkerAction(a)
    ensures Step(s, a).flights.Keys == s.flights.Keys
    ensures forall f :: f in s.flights ==>
      Step(s, a).flights[f].result == s.flights[f].result && Step(s, a).flights[f].worker == s.flights[f].worker
  {
  }

  lemma KeepsResultByWorker(s: State, a: Action)
    requires Enabled(s, a) && Linked(s) && ResultByWorker(s)
    ensures ResultByWorker(Step(s, a))
  {
    if a.Join? {
      JoinShape(s, a);
      hide Step, Enabled, Joinable;
    } else if !WorkerAction(a) {
      WorkersApart(s, a);
      hide Step, Enabled;
    }
  }

  predicate WaiterAction(a: Action) {
    a.Register? || a.Check? || a.Wake? || a.GiveUp? || a.Release?
  }

  /** A waiter moving through its loop touches nothing but itself. */
  lemma WaitersApart(s: State, a: Action)
    requires Enabled(s, a) && WaiterAction(a)
    ensures var t := Step(s, a);
      && t.flights == s.flights && t.waiters.Keys == s.waiters.Keys
      && t.waiters == s.waiters[a.w := t.waiters[a.w]]
      && t.waiters[a.w].flight == s.waiters[a.w].flight
      && (t.waiters[a.w].phase == Asleep(false) ==> t.flights[t.waiters[a.w].flight].result.None?)
      && (t.waiters[a.w].got.Some? ==>
            t.waiters[a.w].got == s.waiters[a.w].got || t.waiters[a.w].got == t.flights[t.waiters[a.w].flight].result)
  {
  }

  lemma KeepsNoLostWakeup(s: State, a: Action)
    requires Enabled(s, a) && Linked(s) && ResultByWorker(s) && NoLostWakeup(s)
    ensures NoLostWakeup(Step(s, a))
  {
    if ListenerAction(a) {
      ListenersApart(s, a);
      hide Step, Enabled;
    } else if WaiterAction(a) {
      WaitersApart(s, a);
      hide Step, Enabled;
    }
  }

  lemma KeepsSameResult(s: State, a: Action)
    requires Enabled(s, a) && Linked(s) && ResultByWorker(s) && SameResult(s)
    ensures SameResult(Step(s, a))
  {
    if ListenerAction(a) {
      ListenersApart(s, a);
      hide Step, Enabled;
    } else if WaiterAction(a) {
      WaitersApart(s, a);
      hide Step, Enabled;
    }
  }

  lemma KeepsNoLostCancel(s: State, a: Action)
    requires Enabled(s, a) && Linked(s) && NoLostCancel(s)
    ensures NoLostCancel(Step(s, a))
  {
    if a.Leave? || a.Join? {
      LeaveListeners(s, a);
      hide Step, Enabled;
    } else if ListenerAction(a) {
      ListenersKeep(s, a);
    } else {
      CancelApart(s, a);
      hide Step, Enabled;
    }
  }

  lemma ListenersKeep(s: State, a: Action)
    requires Enabled(s, a) && Linked(s) && NoLostCancel(s) && ListenerAction(a)
    ensures NoLostCancel(Step(s, a))
  {
    if a.CancelNotify? {
      NotifiedListeners(s, a);
      hide Step, Enabled, Linked;
    } else {
      OneListener(s, a);
      hide Step, Enabled, Linked;
    }
  }

  /** Notifying listeners leaves none of the flight's listeners asleep and unaware. */
  lemma NotifiedListeners(s: State, a: Action)
    requires Enabled(s, a) && a.CancelNotify?
    ensures var t := Step(s, a);
      && t.flights == s.flights[a.f := s.flights[a.f].(cancelNotifying := false)]
      && t.listeners.Keys == s.listeners.Keys
      && forall l :: l in s.listeners ==>
           t.listeners[l].flight == s.listeners[l].flight
           && (t.listeners[l].phase.Returned? ==> s.listeners[l].phase.Returned?)
           && (t.listeners[l].phase == Asleep(false) ==> s.listeners[l].phase == Asleep(false) && s.listeners[l].flight != a.f)
  {
  }

  /** Any other listener step changes one listener, which sleeps unaware only if nothing was raised. */
  lemma OneListener(s: State, a: Action)
    requires Enabled(s, a) && ListenerAction(a) && !a.CancelNotify?
    ensures var t := Step(s, a);
      && t.flights == s.flights && a.l in t.listeners
      && (forall l :: l in t.listeners && l != a.l ==> l in s.listeners && t.listeners[l] == s.listeners[l])
      && (a.l in s.listeners ==> t.listeners[a.l].flight == s.listeners[a.l].flight)
      && (t.listeners[a.l].flight in s.flights ==>
           && (t.listeners[a.l].phase == Asleep(false) ==> !s.flights[t.listeners[a.l].flight].cancelled)
           && (t.listeners[a.l].phase.Returned? ==> s.flights[t.listeners[a.l].flight].cancelled))
  {
  }

  /** A raised flag stays raised, and one raised now is now being notified. */
  predicate RaisedFlag(before: FlightState, after: FlightState) {
    && (before.cancelled ==> after.cancelled)
    && (before.cancelNotifying ==> after.cancelNotifying)
    && (after.cancelled && !before.cancelled ==> after.cancelNotifying)
    && (after.cancelNotifying ==> before.cancelNotifying || after.cancelled)
  }

  /** A flag that a departure raises is announced as being notified. */
  lemma LeaveListeners(s: State, a: Action)
    requires Enabled(s, a) && Linked(s) && (a.Leave? || a.Join?)
    ensures var t := Step(s, a);
      && t.listeners == s.listeners && s.flights.Keys <= t.flights.Keys
      && (forall f :: f in s.flights ==> RaisedFlag(s.flights[f], t.flights[f]))
      && forall f :: f in t.flights && f !in s.flights ==> !t.flights[f].cancelled && !t.flights[f].cancelNotifying
  {
  }

  /** Steps other than joining and leaving keep counters and the waiters they count. */
  lemma QuietSteps(s: State, a: Action, f: Id)
    requires Enabled(s, a) && Linked(s) && !a.Join? && !a.Leave? && f in s.flights
    ensures Step(s, a).flights[f].count == s.flights[f].count
    ensures CountedWaiters(Step(s, a), f) == CountedWaiters(s, f)
  {
    StepShape(s, a);
    StepsKeepCounted(s, a);
    CountsStay(s, a, f);
    hide Step, Enabled;
  }

  lemma StepsKeepCounted(s: State, a: Action)
    requires Enabled(s, a) && !a.Join? && !a.Leave?
    ensures Step(s, a).waiters.Keys == s.waiters.Keys
    ensures forall w :: w in s.waiters ==> Counted(Step(s, a).waiters[w]) == Counted(s.waiters[w])
  {
  }

  lemma CountsStay(s: State, a: Action, f: Id)
    requires Enabled(s, a) && !a.Join? && !a.Leave? && f in s.flights
    ensures Step(s, a).flights.Keys == s.flights.Keys && Step(s, a).flights[f].count == s.flights[f].count
  {
  }

  /** Leaving takes one waiter off the counter of its own flight. */
  lemma LeaveShape(s: State, a: Action)
    requires Enabled(s, a) && Linked(s) && CountsWaiters(s) && a.Leave?
    ensures var t, f := Step(s, a), s.waiters[a.w].flight;
      && Counted(s.waiters[a.w])
      && t.waiters.Keys == s.waiters.Keys && t.flights.Keys == s.flights.Keys
      && t.waiters[a.w].flight == f && !Counted(t.waiters[a.w])
      && (forall v :: v in s.waiters && v != a.w ==> t.waiters[v] == s.waiters[v])
      && forall g :: g in s.flights ==> t.flights[g].count == s.flights[g].count - if g == f then 1 else 0
  {
    assert a.w in CountedWaiters(s, s.waiters[a.w].flight);
  }

  lemma LeaveCount(s: State, t: State, w: Id, f: Id)
    requires CountsWaiters(s) && w in s.waiters && f in s.flights && f in t.flights && Counted(s.waiters[w])
    requires t.waiters.Keys == s.waiters.Keys && !Counted(t.waiters[w])
    requires forall v :: v in s.waiters && v != w ==> t.waiters[v] == s.waiters[v]
    requires t.flights[f].count == s.flights[f].count - if s.waiters[w].flight == f then 1 else 0
    ensures t.flights[f].count == |CountedWaiters(t, f)|
  {
    assert CountedWaiters(t, f) == CountedWaiters(s, f) - if s.waiters[w].flight == f then {w} else {};
  }

  lemma KeepsCounts(s: State, a: Action)
    requires Enabled(s, a) && Linked(s) && CountsWaiters(s)
    ensures CountsWaiters(Step(s, a))
  {
    var t := Step(s, a);
    if a.Join? {
      JoinShape(s, a);
      hide Step, Enabled, Joinable;
      forall f | f in t.flights ensures t.flights[f].count == |CountedWaiters(t, f)| { JoinCount(s, t, a.w, f); }
    } else if a.Leave? {
      LeaveShape(s, a);
      hide Step, Enabled, Counted;
      forall f | f in t.flights ensures t.flights[f].count == |CountedWaiters(t, f)| { LeaveCount(s, t, a.w, f); }
    } else {
      StepShape(s, a);
      hide Step, Enabled;
      forall f | f in t.flights ensures t.flights[f].count == |CountedWaiters(t, f)| { QuietSteps(s, a, f); }
    }
  }

  lemma JoinCount(s: State, t: State, w: Id, f: Id)
    requires Linked(s) && CountsWaiters(s) && w !in s.waiters && f in t.flights
    requires t.waiters.Keys == s.waiters.Keys + {w} && forall v :: v in s.waiters ==> t.waiters[v] == s.waiters[v]
    requires t.waiters[w].phase == Entering
    requires t.flights[f].count == (if f in s.flights then s.flights[f].count else 0) + (if t.waiters[w].flight == f then 1 else 0)
    ensures t.flights[f].count == |CountedWaiters(t, f)|
  {
    JoinCounted(s, t, w, f);
    hide CountedWaiters;
  }

  lemma JoinCounted(s: State, t: State, w: Id, f: Id)
    requires Linked(s) && w !in s.waiters
    requires t.waiters.Keys == s.waiters.Keys + {w} && forall v :: v in s.waiters ==> t.waiters[v] == s.waiters[v]
    requires t.waiters[w].phase == Entering
    ensures CountedWaiters(t, f) == CountedWaiters(s, f) + (if t.waiters[w].flight == f then {w} else {})
    ensures w !in CountedWaiters(s, f)
    ensures f !in s.flights ==> CountedWaiters(s, f) == {}
  {
  }

  /** A waiter that has let go of its flight never holds it again. */
  lemma GoneStays(s: State, a: Action, w: Id)
    requires Enabled(s, a) && !a.Join? && w in s.waiters
    ensures w in Step(s, a).waiters && (s.waiters[w].phase.Gone? ==> Step(s, a).waiters[w].phase.Gone?)
  {
  }

  /** A flight nobody owns is never owned again. */
  lemma StaysDead(s: State, a: Action, f: Id)
    requires Enabled(s, a) && Linked(s) && !a.Join? && f in s.flights && Alive(Step(s, a), f)
    ensures Alive(s, f)
  {
    StepShape(s, a);
    var t := Step(s, a);
    if w :| w in t.waiters && HoldsArc(t, w, f) {
      GoneStays(s, a, w);
      hide Step, Enabled;
      assert HoldsArc(s, w, f);
    } else if a.Begin? {
      assert HoldsArc(s, a.w, s.waiters[a.w].flight);
    } else if !WorkerAction(a) {
      WorkersApart(s, a);
      hide Step, Enabled;
    }
  }

  lemma KeepsAliveRegistered(s: State, a: Action)
    requires Enabled(s, a) && Linked(s) && AliveRegistered(s)
    ensures AliveRegistered(Step(s, a))
  {
    var t := Step(s, a);
    if a.Join? {
      JoinShape(s, a);
      hide Step;
      forall f | f in t.flights && Alive(t, f)
        ensures t.flights[f].key in t.registry && t.registry[t.flights[f].key] == f
      {
        if f != t.waiters[a.w].flight {
          if w :| w in t.waiters && HoldsArc(t, w, f) { assert HoldsArc(s, w, f); }
          assert Alive(s, f);
          assert Joinable(s, s.flights[f].key);
        }
      }
    } else {
      StepShape(s, a);
      hide Step, Enabled;
      forall f | f in t.flights && Alive(t, f)
        ensures t.flights[f].key in t.registry && t.registry[t.flights[f].key] == f
      {
        StaysDead(s, a, f);
      }
    }
  }

  lemma StepKeepsInv(s: State, a: Action)
    requires Enabled(s, a) && Inv(s)
    ensures Inv(Step(s, a))
  {
    hide Enabled, Step, Linked, CountsWaiters, AliveRegistered, LeaderRecorded, ResultByWorker, NoLostWakeup, SameResult, NoLostCancel;
    KeepsLinked(s, a);
    KeepsCounts(s, a);
    KeepsAliveRegistered(s, a);
    KeepsLeader(s, a);
    KeepsResultByWorker(s, a);
    KeepsNoLostWakeup(s, a);
    KeepsSameResult(s, a);
    KeepsNoLostCancel(s, a);
  }

  lemma {:induction false} RunKeepsInv(s: State, acts: seq<Action>, t: State)
    requires Inv(s) && Runs(s, acts, t)
    ensures Inv(t)
    decreases acts
  {
    hide Enabled, Step, Inv;
    if acts != [] {
      StepKeepsInv(s, acts[0]);
      RunKeepsInv(Step(s, acts[0]), acts[1..], t);
    }
  }

  lemma ReachableInv(t: State)
    requires Reachable(t)
    ensures Inv(t)
  {
    assert Inv(START);
    var acts :| Runs(START, acts, t);
    hide Inv;
    RunKeepsInv(START, acts, t);
  }

  // What every interleaving guarantees

  /** Over every run a key has at most one joinable flight, with exactly one leader and an exact counter. */
  lemma OneFlightPerKey(t: State, f: Id, g: Id)
    requires Reachable(t) && f in t.flights && g in t.flights
    ensures t.flights[f].key == t.flights[g].key && Alive(t, f) && Alive(t, g) ==> f == g
    ensures exists w :: w in t.waiters && t.waiters[w].flight == f && t.waiters[w].leader
    ensures forall v, w ::
      (v in t.waiters && w in t.waiters && t.waiters[v].flight == t.waiters[w].flight
       && t.waiters[v].leader && t.waiters[w].leader) ==> v == w
    ensures t.flights[f].count == |CountedWaiters(t, f)|
  {
    ReachableInv(t);
    hide Alive, CountedWaiters;
    var w := t.flights[f].leader;
    assert w in t.waiters && t.waiters[w].flight == f && t.waiters[w].leader;
  }

  /** Once a result is stored and notified, no waiter of the flight sleeps without having been woken. */
  lemma NoWaiterForgotten(t: State, w: Id)
    requires Reachable(t) && WaiterIn(t, w)
    requires var flight := t.flights[t.waiters[w].flight]; flight.result.Some? && flight.worker.Finished?
    ensures t.waiters[w].phase != Asleep(false)
  {
    ReachableInv(t);
  }

  /** Everyone who takes a result from a flight takes the same one. */
  lemma ResultsAgree(t: State, v: Id, w: Id)
    requires Reachable(t) && WaiterIn(t, v) && WaiterIn(t, w) && t.waiters[v].flight == t.waiters[w].flight
    requires t.waiters[v].got.Some? && t.waiters[w].got.Some?
    ensures t.waiters[v].got == t.waiters[w].got
  {
    ReachableInv(t);
  }

  /** Once a cancellation is raised and notified, no listener of it sleeps unaware. */
  lemma NoListenerForgotten(t: State, l: Id)
    requires Reachable(t) && ListenerIn(t, l)
    requires var flight := t.flights[t.listeners[l].flight]; flight.cancelled && !flight.cancelNotifying
    ensures t.listeners[l].phase != Asleep(false)
  {
    ReachableInv(t);
  }

  /** Cancellation is raised only by a departure that brings the flight's counter to zero. */
  lemma CancelOnlyAtZero(s: State, a: Action, f: Id)
    requires Enabled(s, a) && f in s.flights && f in Step(s, a).flights
    requires !s.flights[f].cancelled && Step(s, a).flights[f].cancelled
    ensures a.Leave? && s.waiters[a.w].flight == f && Step(s, a).flights[f].count == 0
  {
    if ListenerAction(a) { ListenersApart(s, a); } else if !a.Leave? && !a.Join? { CancelApart(s, a); }
  }

  /** One waiter leaving never cancels the work of another that is still counted. */
  lemma LeaverSparesOthers(s: State, a: Action, other: Id)
    requires Inv(s) && Enabled(s, a) && WaiterIn(s, other)
    requires !s.flights[s.waiters[other].flight].cancelled
    requires other in Step(s, a).waiters && Counted(Step(s, a).waiters[other])
    ensures WaiterIn(Step(s, a), other) && Step(s, a).waiters[other].flight == s.waiters[other].flight
    ensures !Step(s, a).flights[s.waiters[other].flight].cancelled
  {
    var f := s.waiters[other].flight;
    var t := Step(s, a);
    if a.Join? { JoinShape(s, a); } else { StepShape(s, a); }
    StepKeepsInv(s, a);
    hide Step, Enabled;
    assert other in CountedWaiters(t, f);
    assert t.flights[f].count > 0;
    if t.flights[f].cancelled { CancelOnlyAtZero(s, a, f); }
  }

  lemma {:induction false} CountedBefore(s: State, acts: seq<Action>, t: State, w: Id)
    requires Runs(s, acts, t) && w in s.waiters
    ensures w in t.waiters
    ensures Counted(t.waiters[w]) ==> Counted(s.waiters[w])
    decreases acts
  {
    if acts != [] {
      CountedStays(s, acts[0], w);
      hide Step, Enabled;
      CountedBefore(Step(s, acts[0]), acts[1..], t, w);
    }
  }

  lemma CountedStays(s: State, a: Action, w: Id)
    requires Enabled(s, a) && w in s.waiters
    ensures w in Step(s, a).waiters && (Counted(Step(s, a).waiters[w]) ==> Counted(s.waiters[w]))
  {
  }

  /** However the run goes, a flight is not cancelled while a waiter counted since before stays. */
  lemma {:induction false} CountedIsSafe(s: State, acts: seq<Action>, t: State, w: Id)
    requires Inv(s) && Runs(s, acts, t) && WaiterIn(s, w)
    requires !s.flights[s.waiters[w].flight].cancelled
    requires w in t.waiters && Counted(t.waiters[w])
    ensures WaiterIn(t, w) && t.waiters[w].flight == s.waiters[w].flight
    ensures !t.flights[s.waiters[w].flight].cancelled
    decreases acts
  {
    if acts != [] {
      hide Inv, Step, Enabled;
      var next := Step(s, acts[0]);
      CountedStays(s, acts[0], w);
      CountedBefore(next, acts[1..], t, w);
      LeaverSparesOthers(s, acts[0], w);
      StepKeepsInv(s, acts[0]);
      CountedIsSafe(next, acts[1..], t, w);
    }
  }

  // What a waiter returns

  /** The worker of flight f ends here, with a result or without one. */
  predicate Ends(a: Action, f: Id) {
    (a.Store? || a.Abort?) && a.f == f
  }

  function Endings(acts: seq<Action>, f: Id): nat {
    if acts == [] then 0 else (if Ends(acts[0], f) then 1 else 0) + Endings(acts[1..], f)
  }

  predicate HasEnded(s: State, f: Id) {
    f in s.flights && (s.flights[f].worker.Stored? || s.flights[f].worker.Finished?)
  }

  predicate Holds(s: State, f: Id, v: Value) {
    f in s.flights && s.flights[f].result == Some(v)
  }

  /** One step gives a flight a result only by storing it, and never takes it away. */
  lemma ResultByStep(s: State, a: Action, f: Id, v: Value)
    requires Enabled(s, a) && Linked(s) && ResultByWorker(s)
    ensures Holds(Step(s, a), f, v) <==> Holds(s, f, v) || a == Store(f, v)
  {
    if a.Join? {
      JoinShape(s, a);
      hide Step, Enabled, Joinable;
    } else if !WorkerAction(a) {
      WorkersApart(s, a);
      hide Step, Enabled;
    }
  }

  lemma EndsOnce(s: State, a: Action, f: Id)
    requires Enabled(s, a) && Linked(s)
    ensures Ends(a, f) ==> f in s.flights && !HasEnded(s, f) && HasEnded(Step(s, a), f)
    ensures HasEnded(s, f) ==> HasEnded(Step(s, a), f)
  {
    if a.Join? {
      JoinShape(s, a);
      hide Step, Enabled, Joinable;
    } else if !WorkerAction(a) {
      WorkersApart(s, a);
      hide Step, Enabled;
    }
  }

  lemma {:induction false} EndingsOverRun(s: State, acts: seq<Action>, t: State, f: Id)
    requires Inv(s) && Runs(s, acts, t)
    ensures Endings(acts, f) <= if HasEnded(s, f) then 0 else 1
    decreases acts
  {
    if acts != [] {
      assert Linked(s);
      EndsOnce(s, acts[0], f);
      StepKeepsInv(s, acts[0]);
      hide Step, Enabled, Inv, HasEnded;
      EndingsOverRun(Step(s, acts[0]), acts[1..], t, f);
    }
  }

  lemma {:induction false} NoEndings(acts: seq<Action>, f: Id)
    requires Endings(acts, f) == 0
    ensures forall a :: a in acts ==> !Ends(a, f)
  {
    if acts != [] {
      NoEndings(acts[1..], f);
      assert acts == [acts[0]] + acts[1..];
    }
  }

  lemma {:induction false} OneEnding(acts: seq<Action>, f: Id, a: Action, b: Action)
    requires Endings(acts, f) <= 1 && a in acts && b in acts && Ends(a, f) && Ends(b, f)
    ensures a == b
  {
    assert acts == [acts[0]] + acts[1..];
    if Ends(acts[0], f) { NoEndings(acts[1..], f); } else { OneEnding(acts[1..], f, a, b); }
  }

  lemma {:induction false} ResultOverRun(s: State, acts: seq<Action>, t: State, f: Id, v: Value)
    requires Inv(s) && Runs(s, acts, t)
    ensures Holds(t, f, v) <==> Holds(s, f, v) || Store(f, v) in acts
    decreases acts
  {
    if acts != [] {
      assert Linked(s) && ResultByWorker(s);
      assert acts == [acts[0]] + acts[1..];
      StepKeepsInv(s, acts[0]);
      ResultByStep(s, acts[0], f, v);
      hide Step, Enabled, Inv, Holds;
      ResultOverRun(Step(s, acts[0]), acts[1..], t, f, v);
    }
  }

  /** In every run a flight's result is exactly what its worker stored, and the worker ends at most once. */
  lemma ResultIffStored(acts: seq<Action>, t: State, f: Id, v: Value)
    requires Runs(START, acts, t)
    ensures f in t.flights && t.flights[f].result == Some(v) <==> Store(f, v) in acts
    ensures Store(f, v) in acts ==> forall a :: a in acts && Ends(a, f) ==> a == Store(f, v)
    ensures Endings(acts, f) <= 1
  {
    assert Inv(START);
    assert !Holds(START, f, v);
    assert Holds(t, f, v) <==> f in t.flights && t.flights[f].result == Some(v);
    hide Inv, Runs, Holds;
    ResultOverRun(START, acts, t, f, v);
    EndingsOverRun(START, acts, t, f);
    if Store(f, v) in acts {
      forall a | a in acts && Ends(a, f) ensures a == Store(f, v) { OneEnding(acts, f, a, Store(f, v)); }
    }
  }

  /** The waiter, or the listener, has been reached by a notification since it last registered. */
  predicate Reached(phase: Phase) {
    phase == Registered(true) || phase == Asleep(true)
  }

  predicate ReachedIn(s: State, w: Id) {
    w in s.waiters && Reached(s.waiters[w].phase)
  }

  predicate ListenerReached(s: State, l: Id) {
    l in s.listeners && Reached(s.listeners[l].phase)
  }

  /** Only the notification of its own flight reaches a waiter, and it reaches whoever registered or sleeps. */
  lemma ReachedByStep(s: State, a: Action, w: Id)
    requires Enabled(s, a) && Linked(s)
    ensures ReachedIn(Step(s, a), w) ==> ReachedIn(s, w) || (w in s.waiters && a == Notify(s.waiters[w].flight))
    ensures w in s.waiters && a == Notify(s.waiters[w].flight) && (s.waiters[w].phase.Registered? || s.waiters[w].phase.Asleep?) ==>
      ReachedIn(Step(s, a), w)
    ensures w in s.waiters ==> w in Step(s, a).waiters && Step(s, a).waiters[w].flight == s.waiters[w].flight
  {
    if a.Join? {
      JoinShape(s, a);
      hide Step, Enabled, Joinable;
    } else if ListenerAction(a) {
      ListenersApart(s, a);
      hide Step, Enabled;
    }
  }

  lemma ListenerReachedByStep(s: State, a: Action, l: Id)
    requires Enabled(s, a) && Linked(s)
    ensures ListenerReached(Step(s, a), l) ==> ListenerReached(s, l) || (l in s.listeners && a == CancelNotify(s.listeners[l].flight))
    ensures l in s.listeners && a == CancelNotify(s.listeners[l].flight) && (s.listeners[l].phase.Registered? || s.listeners[l].phase.Asleep?) ==>
      ListenerReached(Step(s, a), l)
    ensures l in s.listeners ==> l in Step(s, a).listeners && Step(s, a).listeners[l].flight == s.listeners[l].flight
  {
    if a.Leave? || a.Join? {
      LeaveListeners(s, a);
      hide Step, Enabled;
    } else if !ListenerAction(a) {
      CancelApart(s, a);
      hide Step, Enabled;
    }
  }

  lemma {:induction false} ReachedOverRun(s: State, acts: seq<Action>, t: State, w: Id)
    requires Inv(s) && Runs(s, acts, t) && ReachedIn(t, w) && !ReachedIn(s, w)
    ensures Notify(t.waiters[w].flight) in acts
    decreases acts
  {
    if acts != [] {
      var next := Step(s, acts[0]);
      assert Linked(s);
      assert acts == [acts[0]] + acts[1..];
      ReachedByStep(s, acts[0], w);
      StepKeepsInv(s, acts[0]);
      hide Step, Enabled, Inv, ReachedIn;
      if ReachedIn(next, w) {
        WaiterStays(next, acts[1..], t, w);
      } else {
        ReachedOverRun(next, acts[1..], t, w);
      }
    }
  }

  lemma {:induction false} WaiterStays(s: State, acts: seq<Action>, t: State, w: Id)
    requires Inv(s) && Runs(s, acts, t) && w in s.waiters
    ensures w in t.waiters && t.waiters[w].flight == s.waiters[w].flight
    decreases acts
  {
    if acts != [] {
      assert Linked(s);
      ReachedByStep(s, acts[0], w);
      StepKeepsInv(s, acts[0]);
      hide Step, Enabled, Inv;
      WaiterStays(Step(s, acts[0]), acts[1..], t, w);
    }
  }

  /** Over every run a waiter is marked as notified only if its own flight was announced. */
  lemma ReachedOnlyByNotify(acts: seq<Action>, t: State, w: Id)
    requires Runs(START, acts, t) && ReachedIn(t, w)
    ensures Notify(t.waiters[w].flight) in acts
  {
    StartsClean();
    hide Inv, Runs;
    ReachedOverRun(START, acts, t, w);
  }

  /** A waiter returns with a result, and carries one only once it has returned. */
  ghost predicate ReturnsResult(s: State) {
    forall w :: w in s.waiters ==> CarriesResult(s.waiters[w])
  }

  predicate CarriesResult(w: Waiter) {
    && (w.phase.Returned? ==> w.got.Some?)
    && (w.got.Some? ==> w.phase.Returned? || w.phase.Leaving? || w.phase.Gone?)
  }

  /** The worker of a flight is started by its leader's first step. */
  ghost predicate LeaderStarts(s: State) {
    forall f :: f in s.flights && s.flights[f].leader in s.waiters ==>
      (s.flights[f].worker.Unspawned? <==> s.waiters[s.flights[f].leader].phase.Entering?)
  }

  lemma KeepsReturnsResult(s: State, a: Action)
    requires Enabled(s, a) && Linked(s) && ReturnsResult(s)
    ensures ReturnsResult(Step(s, a))
  {
    if a.Join? {
      var t := Step(s, a);
      JoinShape(s, a);
      NewWaiterHasNothing(s, a);
      hide Step, Enabled, Joinable;
    } else if ListenerAction(a) {
      ListenersApart(s, a);
      hide Step, Enabled;
    }
  }

  lemma NewWaiterHasNothing(s: State, a: Action)
    requires Enabled(s, a) && a.Join?
    ensures a.w in Step(s, a).waiters && Step(s, a).waiters[a.w].got.None?
  {
  }

  lemma KeepsLeaderStarts(s: State, a: Action)
    requires Enabled(s, a) && Linked(s) && LeaderRecorded(s) && LeaderStarts(s)
    ensures LeaderStarts(Step(s, a))
  {
    if a.Join? {
      JoinShape(s, a);
      hide Step, Enabled, Joinable;
    } else if ListenerAction(a) {
      ListenersApart(s, a);
      StepFlights(s, a);
      hide Step, Enabled;
    } else if WaiterAction(a) {
      WaitersApart(s, a);
      WaitersPastEntering(s, a);
      hide Step, Enabled;
    }
  }

  lemma WaitersPastEntering(s: State, a: Action)
    requires Enabled(s, a) && WaiterAction(a)
    ensures !s.waiters[a.w].phase.Entering?
    ensures !Step(s, a).waiters[a.w].phase.Entering?
  {
  }

  lemma {:induction false} RunKeepsReturns(s: State, acts: seq<Action>, t: State)
    requires Inv(s) && ReturnsResult(s) && LeaderStarts(s) && Runs(s, acts, t)
    ensures ReturnsResult(t) && LeaderStarts(t)
    decreases acts
  {
    if acts != [] {
      assert Linked(s) && LeaderRecorded(s);
      KeepsReturnsResult(s, acts[0]);
      KeepsLeaderStarts(s, acts[0]);
      StepKeepsInv(s, acts[0]);
      hide Step, Enabled, Inv, ReturnsResult, LeaderStarts;
      RunKeepsReturns(Step(s, acts[0]), acts[1..], t);
    }
  }

  /** The waiter asked for this key when it joined. */
  ghost predicate AskedFor(acts: seq<Action>, w: Id, key: Id) {
    exists newId :: Join(key, w, newId) in acts
  }

  /** One step adds only the waiter that joins, and that one waits on a flight of its key. */
  lemma KeyByStep(s: State, a: Action, w: Id)
    requires Enabled(s, a) && Linked(s)
    ensures w in s.waiters ==>
      && w in Step(s, a).waiters && WaiterIn(Step(s, a), w)
      && Step(s, a).flights[Step(s, a).waiters[w].flight].key == s.flights[s.waiters[w].flight].key
    ensures w !in s.waiters && w in Step(s, a).waiters ==>
      a.Join? && a.w == w && WaiterIn(Step(s, a), w) && Step(s, a).flights[Step(s, a).waiters[w].flight].key == a.key
  {
    if a.Join? {
      JoinShape(s, a);
      hide Step, Enabled;
    } else {
      StepShape(s, a);
      hide Step, Enabled;
    }
  }

  lemma {:induction false} KeyOverRun(s: State, acts: seq<Action>, t: State, w: Id)
    requires Inv(s) && Runs(s, acts, t) && w in t.waiters
    ensures WaiterIn(t, w)
    ensures if w in s.waiters then t.flights[t.waiters[w].flight].key == s.flights[s.waiters[w].flight].key
            else AskedFor(acts, w, t.flights[t.waiters[w].flight].key)
    decreases acts
  {
    if acts != [] {
      var next := Step(s, acts[0]);
      assert Linked(s);
      assert acts == [acts[0]] + acts[1..];
      KeyByStep(s, acts[0], w);
      StepKeepsInv(s, acts[0]);
      KeyOverRun(next, acts[1..], t, w);
      var key := t.flights[t.waiters[w].flight].key;
      if w !in s.waiters && w in next.waiters {
        assert acts[0] == Join(key, w, acts[0].newId);
      }
      hide Step, Enabled, Inv;
      if w !in next.waiters {
        var newId :| Join(key, w, newId) in acts[1..];
        assert Join(key, w, newId) in acts;
      }
    }
  }

  /**
   * What a waiter returns over a whole run: it returns with a result only if the worker of a flight
   * for the key it asked for stored exactly that value, and that is the only way that worker ended.
   */
  lemma ReturnsWhatWasStored(acts: seq<Action>, t: State, w: Id)
    requires Runs(START, acts, t) && w in t.waiters
    ensures WaiterIn(t, w) && AskedFor(acts, w, t.flights[t.waiters[w].flight].key)
    ensures t.waiters[w].phase.Returned? ==> t.waiters[w].got.Some?
    ensures t.waiters[w].got.Some? ==>
      var f, v := t.waiters[w].flight, t.waiters[w].got.value;
      Store(f, v) in acts && forall a :: a in acts && Ends(a, f) ==> a == Store(f, v)
  {
    StartsClean();
    hide *;
    KeyOverRun(START, acts, t, w);
    RunKeepsReturns(START, acts, t);
    RunKeepsInv(START, acts, t);
    CarriedResult(t, w);
    if t.waiters[w].got.Some? { ResultIffStored(acts, t, t.waiters[w].flight, t.waiters[w].got.value); }
  }

  lemma StartsClean()
    ensures Inv(START) && ReturnsResult(START) && LeaderStarts(START) && START.waiters == map[]
  {
  }

  lemma CarriedResult(t: State, w: Id)
    requires Inv(t) && ReturnsResult(t) && WaiterIn(t, w)
    ensures t.waiters[w].phase.Returned? ==> t.waiters[w].got.Some?
    ensures t.waiters[w].got.Some? ==> t.waiters[w].got == t.flights[t.waiters[w].flight].result
    ensures t.waiters[w].flight in t.flights
  {
    assert SameResult(t);
  }

  /** A flight whose worker was dropped without storing never gives anyone a result. */
  lemma AbortedGivesNothing(acts: seq<Action>, t: State, w: Id)
    requires Runs(START, acts, t) && w in t.waiters && Abort(t.waiters[w].flight) in acts
    ensures t.waiters[w].got.None? && !t.waiters[w].phase.Returned?
  {
    ReturnsWhatWasStored(acts, t, w);
    hide Runs;
    assert Ends(Abort(t.waiters[w].flight), t.waiters[w].flight);
  }

  /** Once the leader has taken its first step, its flight has a worker. */
  lemma LeaderStartsWorker(acts: seq<Action>, t: State, f: Id)
    requires Runs(START, acts, t) && f in t.flights
    ensures t.flights[f].leader in t.waiters
    ensures t.flights[f].worker.Unspawned? <==> t.waiters[t.flights[f].leader].phase.Entering?
  {
    StartsClean();
    RunKeepsReturns(START, acts, t);
    RunKeepsInv(START, acts, t);
    assert LeaderRecorded(t);
    hide Inv, Runs, ReturnsResult;
  }

  // Cancelled exactly when deserted

  /** A flight without counted waiters is cancelled. */
  ghost predicate EmptyIsCancelled(s: State) {
    forall f :: f in s.flights && s.flights[f].count == 0 ==> s.flights[f].cancelled
  }

  lemma LeaveRaises(s: State, a: Action)
    requires Enabled(s, a) && a.Leave? && EmptyIsCancelled(s)
    ensures EmptyIsCancelled(Step(s, a))
  {
  }

  lemma StepKeepsEmptyCancelled(s: State, a: Action)
    requires Enabled(s, a) && Linked(s) && EmptyIsCancelled(s)
    ensures EmptyIsCancelled(Step(s, a))
  {
    if a.Join? {
      JoinShape(s, a);
      hide Step, Enabled, Joinable;
    } else if a.Leave? {
      LeaveRaises(s, a);
      hide Step, Enabled, EmptyIsCancelled;
    } else {
      forall f | f in s.flights ensures f in Step(s, a).flights && Step(s, a).flights[f].count == s.flights[f].count {
        CountsStay(s, a, f);
      }
      if ListenerAction(a) { ListenersApart(s, a); } else { CancelApart(s, a); }
      StepFlights(s, a);
      hide Step, Enabled;
    }
  }

  /** A raised flag is never lowered, and a new flight starts with the flag down. */
  lemma CancelStays(s: State, a: Action, f: Id)
    requires Enabled(s, a) && Linked(s) && f in Step(s, a).flights
    ensures f in s.flights && s.flights[f].cancelled ==> Step(s, a).flights[f].cancelled
    ensures f !in s.flights ==> !Step(s, a).flights[f].cancelled
  {
    if a.Join? {
      JoinShape(s, a);
      hide Step, Enabled, Joinable;
    } else if a.Leave? {
      LeaveListeners(s, a);
      hide Step, Enabled;
    } else {
      if ListenerAction(a) { ListenersApart(s, a); } else { CancelApart(s, a); }
      hide Step, Enabled;
    }
  }

  lemma StepKeepsFlight(s: State, a: Action, f: Id)
    requires Enabled(s, a) && Linked(s) && f in s.flights
    ensures f in Step(s, a).flights
  {
    if a.Join? {
      JoinShape(s, a);
      hide Step, Enabled, Joinable;
    } else {
      StepFlights(s, a);
      hide Step, Enabled;
    }
  }

  /** At some state of the run the flight had no counted waiter. */
  ghost predicate WasEmpty(s: State, acts: seq<Action>, f: Id)
    decreases acts
  {
    || (f in s.flights && s.flights[f].count == 0)
    || (acts != [] && Enabled(s, acts[0]) && WasEmpty(Step(s, acts[0]), acts[1..], f))
  }

  /** Over one step a flight becomes cancelled only by becoming empty. */
  lemma CancelledByStep(s: State, a: Action, f: Id)
    requires Enabled(s, a) && Linked(s) && EmptyIsCancelled(s)
    ensures f in Step(s, a).flights && Step(s, a).flights[f].cancelled ==>
      (f in s.flights && s.flights[f].cancelled) || Step(s, a).flights[f].count == 0
    ensures f in s.flights && (s.flights[f].cancelled || s.flights[f].count == 0) ==>
      f in Step(s, a).flights && Step(s, a).flights[f].cancelled
  {
    if f in Step(s, a).flights {
      CancelStays(s, a, f);
      if f in s.flights && !s.flights[f].cancelled && Step(s, a).flights[f].cancelled { CancelOnlyAtZero(s, a, f); }
    }
    if f in s.flights { StepKeepsFlight(s, a, f); }
    hide Step, Enabled;
  }

  lemma {:induction false} CancelledOverRun(s: State, acts: seq<Action>, t: State, f: Id)
    requires Inv(s) && EmptyIsCancelled(s) && Runs(s, acts, t) && f in t.flights
    ensures t.flights[f].cancelled <==> (f in s.flights && s.flights[f].cancelled) || WasEmpty(s, acts, f)
    decreases acts
  {
    if acts != [] {
      var next := Step(s, acts[0]);
      assert Linked(s);
      CancelledByStep(s, acts[0], f);
      StepKeepsInv(s, acts[0]);
      StepKeepsEmptyCancelled(s, acts[0]);
      assert WasEmpty(next, acts[1..], f) ==> WasEmpty(s, acts, f);
      assert f in next.flights && next.flights[f].count == 0 ==> WasEmpty(next, acts[1..], f);
      assert WasEmpty(s, acts, f) ==> (f in s.flights && s.flights[f].count == 0) || WasEmpty(next, acts[1..], f);
      hide Step, Enabled, Inv, EmptyIsCancelled, WasEmpty;
      CancelledOverRun(next, acts[1..], t, f);
    }
  }

  /** Over every run a flight is cancelled exactly when at some earlier state everyone had left it. */
  lemma CancelledIffWasEmpty(acts: seq<Action>, t: State, f: Id)
    requires Runs(START, acts, t) && f in t.flights
    ensures t.flights[f].cancelled <==> WasEmpty(START, acts, f)
  {
    assert Inv(START) && EmptyIsCancelled(START);
    assert f !in START.flights;
    hide Inv, EmptyIsCancelled, WasEmpty, Runs;
    CancelledOverRun(START, acts, t, f);
  }

  /** A join lands on cancelled work exactly when everyone had left its key's flight before. */
  lemma JoinsCancelledIff(acts: seq<Action>, s: State, a: Action)
    requires Runs(START, acts, s) && Enabled(s, a) && a.Join?
    ensures WaiterIn(Step(s, a), a.w)
    ensures Step(s, a).flights[Step(s, a).waiters[a.w].flight].cancelled
      <==> Joinable(s, a.key) && WasEmpty(START, acts, s.registry[a.key])
  {
    assert Reachable(s);
    ReachableInv(s);
    assert Linked(s);
    JoinShape(s, a);
    if Joinable(s, a.key) { CancelledIffWasEmpty(acts, s, s.registry[a.key]); }
    hide Step, Inv, Runs, WasEmpty;
  }

  lemma {:induction false} RunExtends(s: State, acts: seq<Action>, t: State, a: Action)
    requires Runs(s, acts, t) && Enabled(t, a)
    ensures Runs(s, acts + [a], Step(t, a))
    decreases acts
  {
    hide Step, Enabled;
    if acts == [] {
      assert ([a])[1..] == [];
      assert acts + [a] == [a];
      assert Runs(Step(t, a), [], Step(t, a));
    } else {
      RunExtends(Step(s, acts[0]), acts[1..], t, a);
      assert (acts + [a])[1..] == acts[1..] + [a];
    }
  }

  lemma ReachesNext(t: State, a: Action)
    requires Reachable(t) && Enabled(t, a)
    ensures Reachable(Step(t, a))
  {
    var acts :| Runs(START, acts, t);
    RunExtends(START, acts, t, a);
  }

  /** The state after the only waiter of flight 10 has left it while its worker still runs. */
  const ABANDONED := State(
    map[7 := 10],
    map[10 := FlightState(7, 1, 0, None, Running, true, true)],
    map[1 := Waiter(10, true, Gone, None)],
    map[])

  const JOINED := State(
    map[7 := 10], map[10 := FlightState(7, 1, 1, None, Unspawned, false, false)],
    map[1 := Waiter(10, true, Entering, None)], map[])

  const WORKING := State(
    map[7 := 10], map[10 := FlightState(7, 1, 1, None, Running, false, false)],
    map[1 := Waiter(10, true, Looping, None)], map[])

  const LEAVING := State(
    map[7 := 10], map[10 := FlightState(7, 1, 0, None, Running, true, true)],
    map[1 := Waiter(10, true, Leaving, None)], map[])

  lemma FirstJoin()
    ensures Enabled(START, Join(7, 1, 10)) && Step(START, Join(7, 1, 10)) == JOINED
  {
  }

  lemma ThenBegin()
    ensures Enabled(JOINED, Begin(1)) && Step(JOINED, Begin(1)) == WORKING
  {
  }

  lemma ThenLeave()
    ensures Enabled(WORKING, Leave(1)) && Step(WORKING, Leave(1)) == LEAVING
  {
  }

  lemma ThenRelease()
    ensures Enabled(LEAVING, Release(1)) && Step(LEAVING, Release(1)) == ABANDONED
  {
  }

  lemma AbandonedIsReachable()
    ensures Reachable(ABANDONED)
  {
    StartIsReachable();
    FirstJoin();
    ThenBegin();
    ThenLeave();
    ThenRelease();
    hide *;
    ReachesNext(START, Join(7, 1, 10));
    ReachesNext(JOINED, Begin(1));
    ReachesNext(WORKING, Leave(1));
    ReachesNext(LEAVING, Release(1));
  }

  lemma StartIsReachable()
    ensures Reachable(START)
  {
    assert Runs(START, [], START);
  }

  /** A counted waiter can sit on cancelled work: it joined after the last waiter had left. */
  lemma LateJoinerCanBeCancelled() returns (t: State, w: Id)
    ensures Reachable(t) && WaiterIn(t, w) && Counted(t.waiters[w])
    ensures t.flights[t.waiters[w].flight].cancelled
  {
    AbandonedIsReachable();
    var join := Join(7, 2, 11);
    assert Joinable(ABANDONED, 7) && Enabled(ABANDONED, join);
    JoinShape(ABANDONED, join);
    ReachesNext(ABANDONED, join);
    hide Step, Enabled, Reachable;
    t, w := Step(ABANDONED, join), 2;
  }

  // A notified waiter returns

  /** Own steps a waiter still needs once its flight's result has been stored and notified. */
  function Rank(phase: Phase): nat {
    match phase
    case Entering => 4
    case Asleep(_) => 4
    case Looping => 3
    case Registered(_) => 2
    case _ => 0
  }

  predicate OwnStep(a: Action, w: Id) {
    (a.Begin? || WaiterAction(a) || a.Leave?) && a.w == w
  }

  function NextStep(phase: Phase, w: Id): Action {
    match phase
    case Entering => Begin(w)
    case Asleep(_) => Wake(w)
    case Looping => Register(w)
    case _ => Check(w)
  }

  predicate Announced(s: State, w: Id) {
    WaiterIn(s, w) && var flight := s.flights[s.waiters[w].flight]; flight.result.Some? && flight.worker.Finished?
  }

  /** A waiter of a finished flight is never stuck: its next own step is enabled and makes progress. */
  lemma NeverStuck(t: State, w: Id)
    requires Reachable(t) && Announced(t, w) && Rank(t.waiters[w].phase) > 0
    ensures var a := NextStep(t.waiters[w].phase, w);
      && Enabled(t, a) && Rank(Step(t, a).waiters[w].phase) < Rank(t.waiters[w].phase)
      && (a.Check? ==> Step(t, a).waiters[w].phase.Returned? && Step(t, a).waiters[w].got.Some?)
  {
    ReachableInv(t);
    assert Linked(t) && NoLostWakeup(t);
    hide Reachable, Inv, Step, Linked, NoLostWakeup;
    NextStepAdvances(t, w);
  }

  lemma NextStepAdvances(t: State, w: Id)
    requires Linked(t) && NoLostWakeup(t) && Announced(t, w) && Rank(t.waiters[w].phase) > 0
    ensures var a := NextStep(t.waiters[w].phase, w);
      && Enabled(t, a) && Rank(Step(t, a).waiters[w].phase) < Rank(t.waiters[w].phase)
      && (a.Check? ==> Step(t, a).waiters[w].phase.Returned? && Step(t, a).waiters[w].got.Some?)
  {
    assert t.waiters[w].phase != Asleep(false);
    hide Linked, NoLostWakeup;
  }

  /** A running worker can store any result and then announce it: every waiter of the flight is then on its way. */
  lemma WorkerAnnounces(t: State, f: Id, v: Value, w: Id)
    requires f in t.flights && t.flights[f].worker.Running? && WaiterIn(t, w) && t.waiters[w].flight == f
    ensures Enabled(t, Store(f, v)) && Enabled(Step(t, Store(f, v)), Notify(f))
    ensures var u := Step(Step(t, Store(f, v)), Notify(f));
      Announced(u, w) && u.waiters[w].flight == f && u.flights[f].result == Some(v)
  {
  }

  /** A listener of a raised and announced cancellation is never stuck: it checks again and returns. */
  lemma ListenerNeverStuck(t: State, l: Id)
    requires Reachable(t) && ListenerIn(t, l)
    requires var flight := t.flights[t.listeners[l].flight]; flight.cancelled && !flight.cancelNotifying
    ensures t.listeners[l].phase.Asleep? ==> Enabled(t, ListenWake(l)) && Step(t, ListenWake(l)).listeners[l].phase.Looping?
    ensures t.listeners[l].phase.Looping? ==> Enabled(t, ListenRegister(l)) && Step(t, ListenRegister(l)).listeners[l].phase.Registered?
    ensures t.listeners[l].phase.Registered? ==> Enabled(t, ListenCheck(l)) && Step(t, ListenCheck(l)).listeners[l].phase.Returned?
  {
    NoListenerForgotten(t, l);
    hide Reachable;
  }

  /** A raised cancellation can be announced, and the announcement reaches every sleeping listener. */
  lemma CancellationAnnounces(t: State, f: Id, l: Id)
    requires f in t.flights && t.flights[f].cancelNotifying && ListenerIn(t, l) && t.listeners[l].flight == f
    ensures Enabled(t, CancelNotify(f))
    ensures var u := Step(t, CancelNotify(f));
      !u.flights[f].cancelNotifying && l in u.listeners && u.listeners[l].phase != Asleep(false)
  {
  }

  lemma OthersKeepRank(s: State, a: Action, w: Id)
    requires Enabled(s, a) && Linked(s) && w in s.waiters && !OwnStep(a, w)
    ensures w in Step(s, a).waiters && Step(s, a).waiters[w].flight == s.waiters[w].flight
    ensures Rank(Step(s, a).waiters[w].phase) == Rank(s.waiters[w].phase)
  {
    if a.Join? {
      JoinShape(s, a);
      hide Step, Enabled;
    } else if ListenerAction(a) {
      ListenersApart(s, a);
      hide Step, Enabled;
    } else if WaiterAction(a) {
      WaitersApart(s, a);
      hide Step, Enabled;
    }
  }

  lemma FinishedStays(s: State, a: Action, f: Id)
    requires Enabled(s, a) && Linked(s) && f in s.flights && s.flights[f].result.Some? && s.flights[f].worker.Finished?
    ensures f in Step(s, a).flights
    ensures Step(s, a).flights[f].result == s.flights[f].result && Step(s, a).flights[f].worker.Finished?
  {
    if a.Join? {
      JoinShape(s, a);
      hide Step, Enabled;
    } else if ListenerAction(a) {
      ListenersApart(s, a);
      hide Step, Enabled;
    } else if WaiterAction(a) {
      WaitersApart(s, a);
      hide Step, Enabled;
    }
  }

  lemma OwnStepAdvances(s: State, a: Action, w: Id)
    requires Inv(s) && Announced(s, w) && Enabled(s, a) && OwnStep(a, w)
    ensures w in Step(s, a).waiters && Step(s, a).waiters[w].flight == s.waiters[w].flight
    ensures Rank(Step(s, a).waiters[w].phase) < Rank(s.waiters[w].phase) || Rank(Step(s, a).waiters[w].phase) == 0
  {
    hide CountsWaiters, AliveRegistered, LeaderRecorded, ResultByWorker, NoLostWakeup, SameResult, NoLostCancel;
  }

  /** Steps of others never set a waiter of a finished flight back, and its own steps advance it. */
  lemma FinishedAdvances(s: State, a: Action, w: Id)
    requires Inv(s) && Announced(s, w) && Enabled(s, a)
    ensures Announced(Step(s, a), w)
    ensures Rank(Step(s, a).waiters[w].phase) + (if OwnStep(a, w) && Rank(s.waiters[w].phase) > 0 then 1 else 0)
      <= Rank(s.waiters[w].phase)
  {
    FinishedStays(s, a, s.waiters[w].flight);
    if OwnStep(a, w) { OwnStepAdvances(s, a, w); } else { OthersKeepRank(s, a, w); }
    hide Step, Enabled, Inv, OwnStep;
  }

  function OwnSteps(acts: seq<Action>, w: Id): nat {
    if acts == [] then 0 else (if OwnStep(acts[0], w) then 1 else 0) + OwnSteps(acts[1..], w)
  }

  /** In any interleaving a waiter of a finished flight needs at most four steps of its own to be done. */
  lemma {:induction false} FinishedWaiterIsDone(s: State, acts: seq<Action>, t: State, w: Id)
    requires Inv(s) && Announced(s, w) && Runs(s, acts, t)
    ensures WaiterIn(t, w)
    ensures OwnSteps(acts, w) >= Rank(s.waiters[w].phase) ==> Rank(t.waiters[w].phase) == 0
    decreases acts
  {
    if acts != [] {
      FinishedAdvances(s, acts[0], w);
      StepKeepsInv(s, acts[0]);
      hide Inv, Step, Enabled;
      FinishedWaiterIsDone(Step(s, acts[0]), acts[1..], t, w);
    }
  }
}
