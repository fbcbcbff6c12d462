/**
 The permits of one semaphore over whole runs: conservation with hand-off, first come first
 served, and mutual exclusion for a mutex (mutex.c: a semaphore that starts at 1).
 */
module Permits {
  import opened Basics
  import opened Scheduling
  import opened SchedulerSafety
  import opened SchedulerRuns

  /**
   What has happened to a semaphore. granted counts permits taken, a popped waiter included;
   handed are the popped waiters whose semaphore_lock has not returned; holders own a permit.
   */
  datatype Ledger<T(==)> = Ledger(
    granted: nat, released: nat, returned: nat,
    blocked: seq<T>, woken: seq<T>, handed: set<T>, holders: multiset<T>)

  function Fresh<T>(): Ledger<T> {
    Ledger(0, 0, 0, [], [], {}, multiset{})
  }

  function Taken<T(==)>(log: Ledger<T>, t: T): Ledger<T> {
    log.(granted := log.granted + 1, returned := log.returned + 1, holders := log.holders + multiset{t})
  }

  /** The ledger of s after event e, which led from x to y. */
  function Record<T(==), S(==)>(x: Sys<T, S>, e: Event<T, S>, y: Sys<T, S>, s: S, log: Ledger<T>): Ledger<T>
    requires Shape(x) && Shape(y) && s in x.count && y.current in x.state
  {
    match e
    case Lock(u) =>
      if u != s then log
      else if x.count[s] > 0 then Taken(log, x.current)
      else log.(blocked := log.blocked + [x.current])
    case TryLock(u) =>
      if u == s && x.count[s] > 0 then Taken(log, x.current) else log
    case Unlock(u) =>
      if u != s then log
      else if x.waiters[s] == [] then
        log.(released := log.released + 1, holders := log.holders - multiset{x.current})
      else
        var w := x.waiters[s][0];
        log.(released := log.released + 1, granted := log.granted + 1, woken := log.woken + [w],
             handed := log.handed + {w}, holders := log.holders - multiset{x.current} + multiset{w})
    case _ =>
      if IsSchedule(e) && x.cont[y.current].place == Gap(s) && y.cont[y.current].place != Gap(s) then
        log.(returned := log.returned + 1, handed := log.handed - {y.current})
      else log
  }

  /** Nobody has been served before somebody who blocked earlier, and permits are conserved. */
  ghost predicate Books<T, S>(x: Sys<T, S>, s: S, n: nat, log: Ledger<T>)
    requires Shape(x) && s in x.count
  {
    && x.count[s] + log.granted == n + log.released
    && log.granted == log.returned + |log.handed|
    && log.blocked == log.woken + x.waiters[s]
  }

  /** The threads in the gap of semaphore_lock are the waiters and those handed a permit. */
  ghost predicate InGap<T, S>(x: Sys<T, S>, s: S, handed: set<T>, t: T)
    requires Shape(x) && s in x.count && t in x.state
  {
    && (x.cont[t].place == Gap(s) <==> t in x.waiters[s] || t in handed)
    && !(t in x.waiters[s] && t in handed)
  }

  /** The semaphore, started with n permits, has kept its books. */
  ghost predicate Balanced<T, S>(x: Sys<T, S>, s: S, n: nat, log: Ledger<T>)
    requires Shape(x)
    ensures Balanced(x, s, n, log) ==> s in x.count
  {
    && s in x.count && Books(x, s, n, log)
    && log.handed <= x.state.Keys
    && (forall t :: t in x.state ==> InGap(x, s, log.handed, t))
  }

  /** A thread blocked in semaphore_lock, and no other, is where a wait on an existing semaphore puts it. */
  ghost predicate GapsKnown<T, S>(x: Sys<T, S>)
    requires Shape(x)
  {
    forall t :: t in x.cont && x.cont[t].place.Gap? ==> x.cont[t].place.s in x.count
  }

  lemma FreshBalanced<T, S>(x: Sys<T, S>, s: S, n: nat)
    requires Shape(x) && GapsKnown(x) && s !in x.count
    ensures SemInit(x, s, n).Done? && Balanced(SemInit(x, s, n).value, s, n, Fresh())
  {
  }

  /** Where the threads are after an event: only a lock that blocks puts one in the gap, and at most the next to run leaves it. */
  ghost predicate PlacesAfter<T, S>(x: Sys<T, S>, e: Event<T, S>, r: Sys<T, S>)
    requires Shape(x) && Shape(r)
  {
    && r.current in x.state && x.state.Keys <= r.state.Keys && x.count.Keys <= r.count.Keys
    && (forall t :: t in r.state && t !in x.state ==> !r.cont[t].place.Gap?)
    && (forall t :: t in x.state ==>
          if e.Lock? && t == x.current && e.s in x.count && x.count[e.s] == 0 then r.cont[t].place == Gap(e.s)
          else if t == r.current then r.cont[t].place == x.cont[t].place || !r.cont[t].place.Gap?
          else r.cont[t].place == x.cont[t].place)
  }

  /** A schedule changes the place of the thread that runs next, which leaves the gap, and of no other. */
  lemma SwitchPlaces<T, S>(x: Sys<T, S>, e: Event<T, S>, r: Sys<T, S>)
    requires Shape(x) && x.ready != [] && IsSchedule(e) && Switched(Calling(x, e), r) && x.ready[0] != x.current
    ensures PlacesAfter(x, e, r)
  {
    var y := Calling(x, e);
    assert forall t :: t in x.cont ==> y.cont[t].place == x.cont[t].place && y.cont[t].parked == x.cont[t].parked;
  }

  lemma StayPlaces<T, S>(x: Sys<T, S>, e: Event<T, S>)
    requires Shape(x) && IsSchedule(e) && AtYield(Calling(x, e)) && x.ready == [] && x.state[x.current] == Running
    ensures Yield(Calling(x, e)).Done? && PlacesAfter(x, e, Yield(Calling(x, e)).value)
  {
    hide Yield, Lists;
    YieldStays(Calling(x, e));
  }

  lemma SchedulePlaces<T, S>(x: Sys<T, S>, idle: T, e: Event<T, S>)
    requires Safe(x, idle) && Legal(x, idle, e) && IsSchedule(e)
    ensures Step(x, idle, e).Done? && PlacesAfter(x, e, Step(x, idle, e).value)
  {
    hide Yield, Lists, PlacesAfter, Switched, Calling, Interrupt;
    CallingReady(x, idle, e);
    if x.ready != [] {
      YieldSwitches(Calling(x, e));
      NextParked(x);
      SwitchPlaces(x, e, Yield(Calling(x, e)).value);
    } else {
      IdleRuns(x, idle);
      StayPlaces(x, e);
    }
  }

  lemma StepPlaces<T, S>(x: Sys<T, S>, idle: T, e: Event<T, S>)
    requires Safe(x, idle) && Legal(x, idle, e)
    ensures Step(x, idle, e).Done? && PlacesAfter(x, e, Step(x, idle, e).value)
    ensures x.cont[x.current].place.Gap? ==> IsSchedule(e)
  {
    hide Yield, SemLock, SemTryLock, SemUnlock, Create, SemInit, Lists;
    match e
    case Tick => SchedulePlaces(x, idle, e);
    case CallYield => SchedulePlaces(x, idle, e);
    case GapYield => SchedulePlaces(x, idle, e);
    case EntryDone =>
    case Lock(s) =>
      CountFloor(x, s);
      LockOutcome(x, s);
    case TryLock(s) => TrySafe(x, s);
    case Unlock(s) => UnlockOutcome(x, s);
    case Spawn(t) => CreateSafe(x, t);
    case InitSem(s, n) => SemInitStates(x, s, n);
  }

  lemma StepGaps<T, S>(x: Sys<T, S>, idle: T, e: Event<T, S>)
    requires Safe(x, idle) && Legal(x, idle, e) && GapsKnown(x)
    ensures Step(x, idle, e).Done? && GapsKnown(Step(x, idle, e).value)
  {
    hide Inv, Step;
    StepPlaces(x, idle, e);
  }

  /** The counts and the queue of s after an event. */
  lemma StepCounts<T, S>(x: Sys<T, S>, idle: T, e: Event<T, S>, s: S)
    requires Safe(x, idle) && Legal(x, idle, e) && s in x.count
    ensures Step(x, idle, e).Done? && s in Step(x, idle, e).value.count
    ensures var r := Step(x, idle, e).value;
      && r.count[s] ==
          (if (e.Lock? || e.TryLock?) && e.s == s && x.count[s] > 0 then x.count[s] - 1
           else if e.Unlock? && e.s == s && x.waiters[s] == [] then x.count[s] + 1
           else x.count[s])
      && r.waiters[s] ==
          (if e.Lock? && e.s == s && x.count[s] == 0 then x.waiters[s] + [x.current]
           else if e.Unlock? && e.s == s && x.waiters[s] != [] then x.waiters[s][1..]
           else x.waiters[s])
  {
    hide Yield, SemLock, SemTryLock, SemUnlock, Create, SemInit, Lists;
    StepSafe(x, idle, e);
    CountFloor(x, s);
    if IsSchedule(e) {
      CallingReady(x, idle, e);
      if x.ready != [] {
        YieldSwitches(Calling(x, e));
      } else {
        IdleRuns(x, idle);
        YieldStays(Calling(x, e));
      }
    } else {
      match e
      case EntryDone =>
      case Lock(u) =>
        CountFloor(x, u);
        LockOutcome(x, u);
      case TryLock(u) => TrySafe(x, u);
      case Unlock(u) => UnlockOutcome(x, u);
      case Spawn(t) => CreateSafe(x, t);
      case InitSem(u, n) => SemInitStates(x, u, n);
    }
  }

  /** A thread about to run is not in any waiter queue, and a queue names nobody twice. */
  lemma QueueFacts<T, S>(x: Sys<T, S>, s: S)
    requires Inv(x) && s in x.waiters
    ensures Distinct(x.waiters[s]) && s in x.count && x.count[s] >= 0
    ensures forall t :: t in x.waiters[s] ==> t in x.state && x.state[t] == Suspended && x.cont[t].place == Gap(s)
  {
    assert QueueMatches(x, s);
    forall t | t in x.waiters[s]
      ensures x.state[t] == Suspended && x.cont[t].place == Gap(s)
    {
      assert BlockerMatches(x, t);
    }
  }

  /** Who runs after a schedule was not suspended; nobody else starts to run. */
  lemma RunsAwake<T, S>(x: Sys<T, S>, idle: T, e: Event<T, S>)
    requires Safe(x, idle) && Legal(x, idle, e)
    ensures Step(x, idle, e).Done?
    ensures var r := Step(x, idle, e).value;
      if IsSchedule(e) then r.current in x.state && x.state[r.current] != Suspended
      else r.current == x.current && !x.cont[x.current].place.Gap?
  {
    hide Yield, SemLock, SemTryLock, SemUnlock, Create, SemInit, Lists;
    StepSafe(x, idle, e);
    if IsSchedule(e) {
      CallingReady(x, idle, e);
      if x.ready != [] {
        NextParked(x);
        YieldSwitches(Calling(x, e));
      } else {
        IdleRuns(x, idle);
        YieldStays(Calling(x, e));
      }
    } else {
      match e
      case EntryDone =>
      case Lock(s) => LockOutcome(x, s);
      case TryLock(s) => TrySafe(x, s);
      case Unlock(s) => UnlockOutcome(x, s);
      case Spawn(t) => CreateSafe(x, t);
      case InitSem(s, n) => SemInitStates(x, s, n);
    }
  }

  lemma BalancedPlace<T, S>(x: Sys<T, S>, s: S, n: nat, log: Ledger<T>)
    requires Shape(x) && Balanced(x, s, n, log)
    ensures s in x.count && Books(x, s, n, log)
    ensures forall t :: t in x.state && x.cont[t].place == Gap(s) ==> t in x.waiters[s] || t in log.handed
    ensures forall t :: t in log.handed ==> t in x.state && t !in x.waiters[s] && x.cont[t].place == Gap(s)
  {
    assert forall t :: t in x.state ==> InGap(x, s, log.handed, t);
  }

  /** A semaphore_lock that blocked returns only to a thread that was handed a permit. */
  lemma ReturnsHanded<T, S>(x: Sys<T, S>, idle: T, e: Event<T, S>, s: S, n: nat, log: Ledger<T>, t: T)
    requires Safe(x, idle) && Legal(x, idle, e) && Balanced(x, s, n, log)
    requires t in x.state && x.cont[t].place == Gap(s)
    ensures Step(x, idle, e).Done? && t in Step(x, idle, e).value.cont
    ensures Step(x, idle, e).value.cont[t].place != Gap(s) ==> t in log.handed
  {
    hide Inv, Step, Balanced;
    StepSafe(x, idle, e);
    StepPlaces(x, idle, e);
    var r := Step(x, idle, e).value;
    if r.cont[t].place != Gap(s) {
      RunsAwake(x, idle, e);
      BalancedPlace(x, s, n, log);
      QueueFacts(x, s);
    }
  }

  lemma StepFifo<T, S>(x: Sys<T, S>, idle: T, e: Event<T, S>, s: S, log: Ledger<T>)
    requires Safe(x, idle) && Legal(x, idle, e) && s in x.count && log.blocked == log.woken + x.waiters[s]
    ensures Step(x, idle, e).Done? && Step(x, idle, e).value.current in x.state && s in Step(x, idle, e).value.count
    ensures var y := Step(x, idle, e).value; var log' := Record(x, e, y, s, log);
      log'.blocked == log'.woken + y.waiters[s]
  {
    hide Inv, Step, Distinct;
    StepSafe(x, idle, e);
    StepCounts(x, idle, e, s);
    StepPlaces(x, idle, e);
    QueueFacts(x, s);
  }

  lemma RecordCounts<T, S>(x: Sys<T, S>, e: Event<T, S>, y: Sys<T, S>, s: S, n: nat, log: Ledger<T>)
    requires Shape(x) && Shape(y) && s in x.count && s in y.count && y.current in x.state && x.count[s] >= 0 && Books(x, s, n, log)
    requires y.count[s] ==
      (if (e.Lock? || e.TryLock?) && e.s == s && x.count[s] > 0 then x.count[s] - 1
       else if e.Unlock? && e.s == s && x.waiters[s] == [] then x.count[s] + 1
       else x.count[s])
    requires e == Unlock(s) && x.waiters[s] != [] ==> x.waiters[s][0] !in log.handed
    requires IsSchedule(e) && x.cont[y.current].place == Gap(s) ==> y.current in log.handed
    ensures var log' := Record(x, e, y, s, log);
      y.count[s] + log'.granted == n + log'.released && log'.granted == log'.returned + |log'.handed|
  {
  }

  lemma StepBooks<T, S>(x: Sys<T, S>, idle: T, e: Event<T, S>, s: S, n: nat, log: Ledger<T>)
    requires Safe(x, idle) && Legal(x, idle, e) && Balanced(x, s, n, log)
    ensures Step(x, idle, e).Done? && Step(x, idle, e).value.current in x.state && s in Step(x, idle, e).value.count
    ensures Books(Step(x, idle, e).value, s, n, Record(x, e, Step(x, idle, e).value, s, log))
  {
    hide Inv, Step, Balanced, Distinct, Record;
    BalancedPlace(x, s, n, log);
    StepFifo(x, idle, e, s, log);
    StepCounts(x, idle, e, s);
    RunsAwake(x, idle, e);
    QueueFacts(x, s);
    if e == Unlock(s) && x.waiters[s] != [] {
      assert x.waiters[s][0] in x.waiters[s];
    }
    RecordCounts(x, e, Step(x, idle, e).value, s, n, log);
  }

  /** Who joins the queue of s and who leaves it. */
  lemma StepQueue<T, S>(x: Sys<T, S>, idle: T, e: Event<T, S>, s: S, t: T)
    requires Safe(x, idle) && Legal(x, idle, e) && s in x.count
    ensures Step(x, idle, e).Done? && s in Step(x, idle, e).value.count
    ensures t in Step(x, idle, e).value.waiters[s] <==>
      || (e == Lock(s) && x.count[s] == 0 && t == x.current)
      || (t in x.waiters[s] && !(e == Unlock(s) && t == x.waiters[s][0]))
  {
    hide Inv, Step;
    StepSafe(x, idle, e);
    StepCounts(x, idle, e, s);
    QueueFacts(x, s);
    DistinctEnds(x.waiters[s], t);
  }

  lemma PlaceOf<T, S>(x: Sys<T, S>, e: Event<T, S>, r: Sys<T, S>, t: T)
    requires Shape(x) && Shape(r) && PlacesAfter(x, e, r) && t in r.state
    ensures r.current in x.state && x.count.Keys <= r.count.Keys
    ensures t !in x.state ==> !r.cont[t].place.Gap?
    ensures t in x.state ==>
      if e.Lock? && t == x.current && e.s in x.count && x.count[e.s] == 0 then r.cont[t].place == Gap(e.s)
      else if t == r.current then r.cont[t].place == x.cont[t].place || !r.cont[t].place.Gap?
      else r.cont[t].place == x.cont[t].place
  {
  }

  lemma StepInGap<T, S>(x: Sys<T, S>, idle: T, e: Event<T, S>, s: S, n: nat, log: Ledger<T>, t: T)
    requires Safe(x, idle) && Legal(x, idle, e) && Balanced(x, s, n, log)
    requires Step(x, idle, e).Done? && t in Step(x, idle, e).value.state
    ensures Step(x, idle, e).value.current in x.state && s in Step(x, idle, e).value.count
    ensures var r := Step(x, idle, e).value; InGap(r, s, Record(x, e, r, s, log).handed, t)
  {
    hide Inv, Step, Books, Distinct, PlacesAfter;
    StepSafe(x, idle, e);
    StepPlaces(x, idle, e);
    PlaceOf(x, e, Step(x, idle, e).value, t);
    StepQueue(x, idle, e, s, t);
    RunsAwake(x, idle, e);
    QueueFacts(x, s);
    if t in x.state {
      assert InGap(x, s, log.handed, t);
    }
    if e == Unlock(s) && x.waiters[s] != [] {
      assert x.waiters[s][0] in x.waiters[s];
    }
  }

  /** Every event keeps the books. */
  lemma StepBalanced<T, S>(x: Sys<T, S>, idle: T, e: Event<T, S>, s: S, n: nat, log: Ledger<T>)
    requires Safe(x, idle) && Legal(x, idle, e) && Balanced(x, s, n, log)
    ensures Step(x, idle, e).Done? && Step(x, idle, e).value.current in x.state
    ensures Balanced(Step(x, idle, e).value, s, n, Record(x, e, Step(x, idle, e).value, s, log))
  {
    hide Inv, Step, Books, InGap;
    StepBooks(x, idle, e, s, n, log);
    StepPlaces(x, idle, e);
    QueueFacts(x, s);
    var r := Step(x, idle, e).value;
    forall t | t in r.state
      ensures InGap(r, s, Record(x, e, r, s, log).handed, t)
    {
      StepInGap(x, idle, e, s, n, log, t);
    }
    assert e.Unlock? && e.s == s && x.waiters[s] != [] ==> x.waiters[s][0] in x.waiters[s];
  }

  // ---------- over runs ----------

  /** The ledger of s after the run. */
  ghost function LedgerAfter<T, S>(x: Sys<T, S>, idle: T, es: seq<Event<T, S>>, s: S, log: Ledger<T>): Ledger<T>
    requires Safe(x, idle) && LegalRun(x, idle, es) && s in x.count
    decreases |es|
  {
    if es == [] then log
    else
      StepSafe(x, idle, es[0]);
      StepCounts(x, idle, es[0], s);
      StepPlaces(x, idle, es[0]);
      var y := Step(x, idle, es[0]).value;
      LedgerAfter(y, idle, es[1..], s, Record(x, es[0], y, s, log))
  }

  /** Every semaphore_unlock of s in the run is by a thread that owns a permit. */
  ghost predicate HoldersUnlock<T, S>(x: Sys<T, S>, idle: T, es: seq<Event<T, S>>, s: S, log: Ledger<T>)
    requires Safe(x, idle) && LegalRun(x, idle, es) && s in x.count
    decreases |es|
  {
    es == [] || (
      StepSafe(x, idle, es[0]);
      StepCounts(x, idle, es[0], s);
      StepPlaces(x, idle, es[0]);
      var y := Step(x, idle, es[0]).value;
      && (es[0] == Unlock(s) ==> x.current in log.holders)
      && HoldersUnlock(y, idle, es[1..], s, Record(x, es[0], y, s, log)))
  }

  /**
   In every run, at every point: permits are conserved, a permit is never idle while somebody
   waits, waiters are woken in the order in which they blocked, and those whose semaphore_lock
   has been granted but has not returned are exactly the ones handed a permit by an unlock.
   */
  lemma {:induction false} PermitsConserved<T, S>(x: Sys<T, S>, idle: T, es: seq<Event<T, S>>, s: S, n: nat, log: Ledger<T>)
    requires Safe(x, idle) && LegalRun(x, idle, es) && Balanced(x, s, n, log)
    ensures Run(x, idle, es).Done?
    ensures var y := Run(x, idle, es).value; var end := LedgerAfter(x, idle, es, s, log);
      && Balanced(y, s, n, end)
      && 0 <= y.count[s] == n + end.released - end.granted
      && (y.count[s] > 0 ==> y.waiters[s] == [])
      && end.woken + y.waiters[s] == end.blocked
      && end.granted == end.returned + |end.handed|
    decreases |es|
  {
    hide Inv, Step, Record;
    RunSafe(x, idle, es);
    if es == [] {
      BalancedPlace(x, s, n, log);
      NoIdlePermit(x, s);
    } else {
      StepSafe(x, idle, es[0]);
      StepBalanced(x, idle, es[0], s, n, log);
      var y := Step(x, idle, es[0]).value;
      hide Balanced;
      PermitsConserved(y, idle, es[1..], s, n, Record(x, es[0], y, s, log));
    }
  }

  lemma NoIdlePermit<T, S>(x: Sys<T, S>, s: S)
    requires Inv(x) && s in x.count
    ensures x.count[s] >= 0 && (x.count[s] > 0 ==> x.waiters[s] == [])
  {
  }

  /** As many permits are owned as are not counted, and a thread handed one owns it. */
  ghost predicate Owned<T, S>(x: Sys<T, S>, s: S, n: nat, log: Ledger<T>)
    requires Shape(x) && s in x.count
  {
    && |log.holders| + x.count[s] == n
    && (forall t :: t in log.handed ==> t in log.holders)
  }

  lemma StepOwned<T, S>(x: Sys<T, S>, idle: T, e: Event<T, S>, s: S, n: nat, log: Ledger<T>)
    requires Safe(x, idle) && Legal(x, idle, e) && Balanced(x, s, n, log) && Owned(x, s, n, log)
    requires e == Unlock(s) ==> x.current in log.holders
    ensures Step(x, idle, e).Done? && Step(x, idle, e).value.current in x.state && s in Step(x, idle, e).value.count
    ensures Owned(Step(x, idle, e).value, s, n, Record(x, e, Step(x, idle, e).value, s, log))
  {
    hide Inv, Step, Balanced;
    StepSafe(x, idle, e);
    StepCounts(x, idle, e, s);
    StepPlaces(x, idle, e);
    BalancedPlace(x, s, n, log);
    QueueFacts(x, s);
    if e == Unlock(s) {
      assert |log.holders - multiset{x.current}| == |log.holders| - 1;
      assert x.current !in log.handed;
    }
  }

  /** If only holders unlock, a semaphore of n permits has at most n holders in every run. */
  lemma {:induction false} HoldersBounded<T, S>(x: Sys<T, S>, idle: T, es: seq<Event<T, S>>, s: S, n: nat, log: Ledger<T>)
    requires Safe(x, idle) && LegalRun(x, idle, es) && Balanced(x, s, n, log) && Owned(x, s, n, log)
    requires HoldersUnlock(x, idle, es, s, log)
    ensures Run(x, idle, es).Done?
    ensures var y := Run(x, idle, es).value; var end := LedgerAfter(x, idle, es, s, log);
      && s in y.count && Owned(y, s, n, end)
      && |end.holders| == n - y.count[s] <= n
    decreases |es|
  {
    hide Inv, Step, Record, Balanced;
    RunSafe(x, idle, es);
    if es == [] {
      NoIdlePermit(x, s);
    } else {
      StepSafe(x, idle, es[0]);
      StepBalanced(x, idle, es[0], s, n, log);
      StepOwned(x, idle, es[0], s, n, log);
      var y := Step(x, idle, es[0]).value;
      HoldersBounded(y, idle, es[1..], s, n, Record(x, es[0], y, s, log));
    }
  }

  /** mutex_init: the semaphore of a mutex starts with one permit. */
  function MutexInit<T(==), S(==)>(x: Sys<T, S>, m: S): Outcome<Sys<T, S>>
    requires Shape(x) && m !in x.count
  {
    SemInit(x, m, 1)
  }

  /** Mutual exclusion: after any run from mutex_init, two threads that own the mutex are the same thread. */
  lemma MutexExcludes<T, S>(x: Sys<T, S>, idle: T, m: S, y: Sys<T, S>, es: seq<Event<T, S>>, t: T, u: T)
    requires Shape(x) && GapsKnown(x) && m !in x.count && MutexInit(x, m) == Done(y)
    requires Safe(y, idle) && LegalRun(y, idle, es) && m in y.count && HoldersUnlock(y, idle, es, m, Fresh())
    ensures var owners := LedgerAfter(y, idle, es, m, Fresh()).holders;
      |owners| <= 1 && (t in owners && u in owners ==> t == u)
  {
    FreshBalanced(x, m, 1);
    hide Inv;
    HoldersBounded(y, idle, es, m, 1, Fresh());
    TwoOwners(LedgerAfter(y, idle, es, m, Fresh()).holders, t, u);
  }

  lemma {:induction false} RunGaps<T, S>(x: Sys<T, S>, idle: T, es: seq<Event<T, S>>)
    requires Safe(x, idle) && LegalRun(x, idle, es) && GapsKnown(x)
    ensures Run(x, idle, es).Done? && GapsKnown(Run(x, idle, es).value)
    decreases |es|
  {
    hide Inv, Step, GapsKnown;
    if es != [] {
      StepSafe(x, idle, es[0]);
      StepGaps(x, idle, es[0]);
      RunGaps(Step(x, idle, es[0]).value, idle, es[1..]);
    }
  }

  /** What has happened up to mutex_init: any run from thread_init. */
  ghost function Before<T, S>(thread0: T, es: seq<Event<T, S>>): (x: Sys<T, S>)
    requires LegalRun(Boot(thread0), thread0, es)
    ensures Safe(x, thread0)
  {
    BootSafe<T, S>(thread0);
    RunSafe(Boot(thread0), thread0, es);
    Run(Boot(thread0), thread0, es).value
  }

  /** thread_init, any run, mutex_init of m, and a run in which only owners of m unlock it. */
  ghost predicate MutexUsed<T, S>(thread0: T, before: seq<Event<T, S>>, m: S, es: seq<Event<T, S>>) {
    LegalRun(Boot(thread0), thread0, before) &&
    var x := Before(thread0, before);
    Legal(x, thread0, InitSem(m, 1)) &&
    (StepSafe(x, thread0, InitSem(m, 1));
     InitCounts(x, thread0, m);
     var y := Step(x, thread0, InitSem(m, 1)).value;
     LegalRun(y, thread0, es) && HoldersUnlock(y, thread0, es, m, Fresh()))
  }

  lemma InitCounts<T, S>(x: Sys<T, S>, idle: T, m: S)
    requires Shape(x) && Legal(x, idle, InitSem(m, 1))
    ensures Step(x, idle, InitSem(m, 1)) == MutexInit(x, m)
    ensures MutexInit(x, m).Done? ==> m in MutexInit(x, m).value.count
  {
  }

  /** Who owns the mutex in the end. */
  ghost function Owners<T, S>(thread0: T, before: seq<Event<T, S>>, m: S, es: seq<Event<T, S>>): multiset<T>
    requires MutexUsed(thread0, before, m, es)
  {
    var x := Before(thread0, before);
    StepSafe(x, thread0, InitSem(m, 1));
    InitCounts(x, thread0, m);
    LedgerAfter(Step(x, thread0, InitSem(m, 1)).value, thread0, es, m, Fresh()).holders
  }

  /** Mutual exclusion from boot on: a mutex made at any time has at most one owner ever after. */
  lemma MutexFromBoot<T, S>(thread0: T, before: seq<Event<T, S>>, m: S, es: seq<Event<T, S>>, t: T, u: T)
    requires MutexUsed(thread0, before, m, es)
    ensures |Owners(thread0, before, m, es)| <= 1
    ensures t in Owners(thread0, before, m, es) && u in Owners(thread0, before, m, es) ==> t == u
  {
    var x := Before(thread0, before);
    BootSafe<T, S>(thread0);
    RunGaps(Boot(thread0), thread0, before);
    StepSafe(x, thread0, InitSem(m, 1));
    InitCounts(x, thread0, m);
    MutexExcludes(x, thread0, m, Step(x, thread0, InitSem(m, 1)).value, es, t, u);
  }

  lemma TwoOwners<T>(owners: multiset<T>, t: T, u: T)
    ensures t in owners && u in owners && t != u ==> |owners| >= 2
  {
    if t in owners && u in owners && t != u {
      assert |owners - multiset{t} - multiset{u}| == |owners| - 2;
    }
  }
}
