/**
 What every interleaving of calls and timer ticks keeps: each thread is in one place with
 the matching state, no fatal check is ever hit, and no spin lock is found taken.
 One thread, `idle`, never calls semaphore_lock: kernel_main only yields.
 */
module SchedulerSafety {
  import opened Basics
  import opened Scheduling

  /** What the current thread does next. The timer may tick whenever interrupts are on. */
  datatype Event<T, S> =
    | Tick
    | CallYield
    | GapYield
    | EntryDone
    | Lock(s: S)
    | TryLock(s: S)
    | Unlock(s: S)
    | Spawn(t: T)
    | InitSem(s: S, n: int)

  predicate IsSchedule<T, S>(e: Event<T, S>) {
    e.Tick? || e.CallYield? || e.GapYield?
  }

  predicate Legal<T(==), S(==)>(x: Sys<T, S>, idle: T, e: Event<T, S>)
    requires Shape(x)
  {
    var place := x.cont[x.current].place;
    match e
    case Tick => x.cpu.interrupts
    case CallYield => place.User?
    case GapYield => place.Gap?
    case EntryDone => place.Entry?
    case Lock(s) => place.User? && s in x.count && x.current != idle
    case TryLock(s) => place.User? && s in x.count
    case Unlock(s) => place.User? && s in x.count
    case Spawn(t) => place.User? && t !in x.state
    case InitSem(s, n) => place.User? && s !in x.count && n >= 0
  }

  /** The interrupt gate: interrupts go off, and the handler calls thread_yield. */
  function Interrupt<T(==), S(==)>(x: Sys<T, S>): (r: Sys<T, S>)
    requires Shape(x)
    ensures Shape(r)
  {
    x.(cont := x.cont[x.current := x.cont[x.current].(ticked := true)], cpu := x.cpu.(interrupts := false))
  }

  /** interrupt_exit, for a thread that has just left thread_entry. */
  function FirstReturn<T(==), S(==)>(x: Sys<T, S>): (r: Sys<T, S>)
    requires Shape(x)
    ensures Shape(r)
  {
    x.(cont := x.cont[x.current := x.cont[x.current].(place := User)], cpu := x.cpu.(interrupts := true))
  }

  function Step<T(==), S(==)>(x: Sys<T, S>, idle: T, e: Event<T, S>): (r: Outcome<Sys<T, S>>)
    requires Shape(x) && Legal(x, idle, e)
    ensures r.Done? ==> Shape(r.value)
  {
    match e
    case Tick => Yield(Interrupt(x))
    case CallYield => Yield(x)
    case GapYield => Yield(x)
    case EntryDone => Done(FirstReturn(x))
    case Lock(s) => SemLock(x, s)
    case TryLock(s) =>
      var (y, got) :- SemTryLock(x, s);
      Done(y)
    case Unlock(s) => SemUnlock(x, s)
    case Spawn(t) => Create(x, t)
    case InitSem(s, n) => SemInit(x, s, n)
  }

  // ---------- the checks ----------

  /** spin_unlock fails unless interrupts are off and some lock is held; spin_lock never returns if the lock is taken. */
  lemma SpinOutcome<S>(c: Cpu<S>, l: Lock<S>)
    ensures SpinUnlock(c, l).Done? <==> !c.interrupts && c.spinCount > 0
    ensures SpinLock(c, l).Done? <==> l !in c.held
    ensures SpinLock(c, l).Done? ==>
      var d := SpinLock(c, l).value; !d.interrupts && d.spinCount == c.spinCount + 1 && d.held == c.held + {l}
  {
  }

  /** thread_schedule goes through iff its lock is the only one, interrupts are off, the thread has given up running, and some thread can run. */
  lemma ScheduleOutcome<T, S>(x: Sys<T, S>, entered: bool)
    requires Shape(x)
    ensures Schedule(x, entered).Done? <==>
      && SchedulerLock in x.cpu.held && x.cpu.spinCount == 1 && !x.cpu.interrupts
      && x.state[x.current] != Running && (x.ready != [] || x.state[x.current] == Ready)
    ensures Schedule(x, entered).Fatal? ==>
      match Schedule(x, entered).why
      case NotLocked => SchedulerLock !in x.cpu.held
      case SpinCount => x.cpu.spinCount != 1
      case StillRunning => x.state[x.current] == Running
      case InterruptsOn => x.cpu.interrupts
      case NoThread => x.ready == [] && x.state[x.current] == Suspended
      case _ => false
  {
  }

  /** thread_wakeup goes through iff the lock is free and the thread is suspended, thread_create iff it is free and interrupts are on. */
  lemma WakeupOutcome<T, S>(x: Sys<T, S>, t: T, u: T)
    requires Shape(x) && t in x.state && u !in x.state
    ensures Wakeup(x, t).Done? <==> SchedulerLock !in x.cpu.held && x.state[t] == Suspended
    ensures Create(x, u).Done? <==> SchedulerLock !in x.cpu.held && x.cpu.interrupts
  {
  }

  /** thread_yield goes through up to the switch iff no lock is held, its caller runs or is suspended, and some thread can run. */
  lemma YieldOutcome<T, S>(x: Sys<T, S>)
    requires Shape(x)
    ensures YieldEnter(x).Done? <==>
      && SchedulerLock !in x.cpu.held && x.state[x.current] != Ready
      && x.cpu.spinCount == 0 && (x.ready != [] || x.state[x.current] == Running)
    ensures SchedulerLock !in x.cpu.held && x.state[x.current] == Ready ==> YieldEnter(x) == Fatal(BadYield)
  {
  }

  /** semaphore_init rejects exactly the negative counts; the other calls need the lock of the semaphore to be free. */
  lemma SemaphoreOutcome<T, S>(x: Sys<T, S>, s: S, made: S, n: int)
    requires Shape(x) && s in x.count && made !in x.count
    ensures SemInit(x, made, n) ==
      if n >= 0 then Done(x.(count := x.count[made := n], waiters := x.waiters[made := []])) else Fatal(NegativeCount)
    ensures SemLock(x, s).Done? <==> SemaphoreLock(s) !in x.cpu.held
    ensures SemTryLock(x, s).Done? <==> SemaphoreLock(s) !in x.cpu.held
  {
  }

  // ---------- the invariant ----------

  /** Every thread is exactly one of current, once in ready_list, or once in suspended_list. */
  ghost predicate OnePlace<T, S>(x: Sys<T, S>) {
    && Distinct(x.ready) && Distinct(x.suspended)
    && (forall t :: t in x.ready ==> t !in x.suspended)
    && x.current !in x.ready && x.current !in x.suspended
    && (forall t :: t in x.state ==> t == x.current || t in x.ready || t in x.suspended)
  }

  /** Lists and states agree; only the current thread may be suspended without being listed. */
  ghost predicate StatesMatch<T, S>(x: Sys<T, S>)
    requires Shape(x)
  {
    && (forall t :: t in x.ready ==> x.state[t] == Ready)
    && (forall t :: t in x.suspended ==> x.state[t] == Suspended)
    && x.state[x.current] != Ready
    && (x.state[x.current] == Suspended ==> x.cont[x.current].place.Gap?)
  }

  predicate QueueMatches<T(==), S(==)>(x: Sys<T, S>, s: S)
    requires Shape(x) && s in x.waiters
  {
    && Distinct(x.waiters[s])
    && forall t :: t in x.waiters[s] ==> x.state[t] == Suspended && x.blocker[t] == Some(s)
  }

  predicate BlockerMatches<T(==), S(==)>(x: Sys<T, S>, t: T)
    requires Shape(x) && t in x.state
  {
    match x.blocker[t]
    case None => x.state[t] != Suspended
    case Some(s) => x.state[t] == Suspended && s in x.waiters && t in x.waiters[s] && x.cont[t].place == Gap(s)
  }

  /** A thread is suspended exactly while it waits, once, in the queue of its blocker. */
  ghost predicate QueuesMatch<T, S>(x: Sys<T, S>)
    requires Shape(x)
  {
    && (forall s :: s in x.waiters ==> QueueMatches(x, s))
    && (forall t :: t in x.state ==> BlockerMatches(x, t))
  }

  /** Permits are handed to waiters before they are counted. */
  ghost predicate CountsMatch<T, S>(x: Sys<T, S>)
    requires Shape(x)
  {
    forall s :: s in x.count ==> x.count[s] >= 0 && (x.count[s] > 0 ==> x.waiters[s] == [])
  }

  /** What a thread in thread_switch keeps: the interrupt flag it came with, off only for a tick. */
  predicate ParkedOk<S>(k: Cont<S>) {
    match k.parked
    case NotParked => false
    case NewBorn => k.place.User? && !k.ticked
    case InSwitch(enabled, entered) => enabled == entered == !k.ticked && (k.place.Entry? ==> k.ticked)
  }

  ghost predicate ContsMatch<T, S>(x: Sys<T, S>)
    requires Shape(x)
  {
    && x.cont[x.current].parked.NotParked?
    && (forall t :: t in x.cont && t != x.current ==> ParkedOk(x.cont[t]))
  }

  ghost predicate Lists<T, S>(x: Sys<T, S>)
    ensures Lists(x) ==> Shape(x)
  {
    Shape(x) && OnePlace(x) && StatesMatch(x) && QueuesMatch(x) && CountsMatch(x) && ContsMatch(x)
  }

  /** Between two events no spin lock is held, and only the end of thread_entry runs uninterruptible. */
  ghost predicate Inv<T, S>(x: Sys<T, S>)
    ensures Inv(x) ==> Shape(x)
  {
    && Lists(x)
    && x.cpu.spinCount == 0 && x.cpu.held == {}
    && !x.cont[x.current].ticked
    && (x.cpu.interrupts || x.cont[x.current].place.Entry?)
  }

  /** The same at a call of thread_yield, which the timer makes with interrupts off. */
  ghost predicate AtYield<T, S>(x: Sys<T, S>)
    ensures AtYield(x) ==> Shape(x)
  {
    && Lists(x)
    && x.cpu.spinCount == 0 && x.cpu.held == {}
    && x.cpu.interrupts == !x.cont[x.current].ticked
    && (x.cont[x.current].place.Entry? ==> x.cont[x.current].ticked)
  }

  /** thread_yield up to thread_switch finds no thread exactly when the last ready one blocks. */
  lemma EnterOutcome<T, S>(x: Sys<T, S>)
    requires AtYield(x)
    ensures var r := YieldEnter(x);
      if x.ready == [] && x.state[x.current] == Suspended then r == Fatal(NoThread)
      else r.Done?
  {
  }

  /** A thread after its thread_yield: at thread_entry if it is new, out of semaphore_lock if it called from there. */
  function Resumed<S>(k: Cont<S>): Cont<S> {
    Cont(if k.parked.NewBorn? then Entry else if k.place.Gap? && !k.ticked then User else k.place, false, NotParked)
  }

  /** thread_yield as one step: the first ready thread takes over, the old one joins the end of its list. */
  ghost predicate Switched<T, S>(x: Sys<T, S>, r: Sys<T, S>)
    requires Shape(x)
    ensures Switched(x, r) ==> Shape(r)
  {
    && Shape(r) && x.ready != []
    && r.current == x.ready[0]
    && (if x.state[x.current] == Suspended then
          r.ready == x.ready[1..] && r.suspended == x.suspended + [x.current] && r.state == x.state[r.current := Running]
        else
          r.ready == x.ready[1..] + [x.current] && r.suspended == x.suspended
          && r.state == x.state[x.current := Ready][r.current := Running])
    && r.blocker == x.blocker && r.count == x.count && r.waiters == x.waiters
    && r.cont.Keys == x.cont.Keys
    && (forall t :: t in x.cont && t != r.current ==>
          r.cont[t] == if t == x.current then x.cont[t].(parked := InSwitch(x.cpu.interrupts, x.cpu.interrupts)) else x.cont[t])
    && r.cont[r.current] == Resumed(x.cont[r.current])
  }

  lemma YieldEnters<T, S>(x: Sys<T, S>)
    requires AtYield(x) && x.ready != []
    ensures YieldEnter(x).Done? && YieldEnter(x).value.1
    ensures var y := YieldEnter(x).value.0; var blocked := x.state[x.current] == Suspended;
      y == x.(current := x.ready[0],
              ready := if blocked then x.ready[1..] else x.ready[1..] + [x.current],
              suspended := if blocked then x.suspended + [x.current] else x.suspended,
              state := (if blocked then x.state else x.state[x.current := Ready])[x.ready[0] := Running],
              cont := x.cont[x.current := x.cont[x.current].(parked := InSwitch(x.cpu.interrupts, x.cpu.interrupts))],
              cpu := Cpu(false, 1, x.cpu.interrupts, {SchedulerLock}))
  {
    hide Lists, ParkedOk;
    assert x.cpu.held + {SchedulerLock} == {SchedulerLock};
    assert (x.ready + [x.current])[1..] == x.ready[1..] + [x.current];
    EnterOutcome(x);
  }

  /** The rest of thread_yield in the thread switched to: it gets back its own interrupt flag. */
  lemma Resumes<T, S>(y: Sys<T, S>, e: bool)
    requires Shape(y) && y.cpu == Cpu(false, 1, e, {SchedulerLock}) && ParkedOk(y.cont[y.current])
    ensures YieldLeave(y).Done? && YieldLeave(y).value == y.(cpu := YieldLeave(y).value.cpu)
    ensures var k := y.cont[y.current]; var cpu := YieldLeave(y).value.cpu;
      cpu.interrupts == (if k.parked.NewBorn? then e else k.parked.entered) && cpu.spinCount == 0 && cpu.held == {}
    ensures var k := y.cont[y.current]; var r := Unwind(YieldLeave(y).value);
      && r == y.(cont := y.cont[y.current := Resumed(k)], cpu := r.cpu)
      && r.cpu.spinCount == 0 && r.cpu.held == {}
      && r.cpu.interrupts == (if k.parked.NewBorn? then e else true)
  {
    assert y.cpu.held - {SchedulerLock} == {};
  }

  lemma NextParked<T, S>(x: Sys<T, S>)
    requires Lists(x) && x.ready != []
    ensures x.ready[0] != x.current && x.state[x.ready[0]] == Ready && ParkedOk(x.cont[x.ready[0]])
  {
    assert x.ready[0] in x.ready;
  }

  lemma YieldSwitches<T, S>(x: Sys<T, S>)
    requires AtYield(x) && x.ready != []
    ensures Yield(x).Done? && Switched(x, Yield(x).value)
    ensures var r := Yield(x).value;
      && r.cpu.spinCount == 0 && r.cpu.held == {}
      && r.cpu.interrupts ==
           (if x.cont[r.current].parked.NewBorn? then x.cpu.interrupts else true)
  {
    hide YieldEnter, YieldLeave, Unwind, OnePlace, StatesMatch, QueuesMatch, CountsMatch, Distinct, ParkedOk;
    YieldEnters(x);
    var y := YieldEnter(x).value.0;
    NextParked(x);
    Resumes(y, x.cpu.interrupts);
  }

  lemma EnterStays<T, S>(x: Sys<T, S>)
    requires AtYield(x) && x.ready == [] && x.state[x.current] == Running
    ensures YieldEnter(x) == Done((x.(cpu := Cpu(false, 1, x.cpu.interrupts, {SchedulerLock})), false))
  {
    hide Lists;
    assert x.state[x.current := Ready][x.current := Running] == x.state;
    assert x.cpu.held + {SchedulerLock} == {SchedulerLock};
  }

  lemma YieldStays<T, S>(x: Sys<T, S>)
    requires AtYield(x) && x.ready == [] && x.state[x.current] == Running
    ensures Yield(x).Done?
    ensures var r := Yield(x).value; var k := x.cont[x.current];
      r == x.(cpu := Cpu(true, 0, x.cpu.interrupts, {}),
              cont := x.cont[x.current := Resumed(k)])
  {
    assert x.cont[x.current].parked.NotParked?;
    hide Lists, YieldEnter;
    EnterStays(x);
    assert YieldEnter(x).value.0.cpu.held - {SchedulerLock} == {};
  }

  lemma SwitchedOnePlace<T, S>(x: Sys<T, S>, r: Sys<T, S>)
    requires Lists(x) && Switched(x, r)
    ensures OnePlace(r)
  {
    hide QueuesMatch, CountsMatch, ContsMatch, StatesMatch, ParkedOk, Distinct;
    DistinctEnds(x.ready, x.current);
    DistinctEnds(x.suspended, x.current);
    DistinctEnds(x.ready[1..], x.current);
  }

  lemma SwitchedLists<T, S>(x: Sys<T, S>, r: Sys<T, S>)
    requires Lists(x) && Switched(x, r)
    requires x.cpu.interrupts == !x.cont[x.current].ticked
    requires x.cont[x.current].place.Entry? ==> x.cont[x.current].ticked
    ensures Lists(r)
  {
    hide OnePlace, StatesMatch, QueuesMatch, CountsMatch, ContsMatch, Switched;
    SwitchedOnePlace(x, r);
    SwitchedStates(x, r);
    SwitchedQueues(x, r);
    SwitchedConts(x, r);
  }

  lemma SwitchedStates<T, S>(x: Sys<T, S>, r: Sys<T, S>)
    requires Lists(x) && Switched(x, r)
    ensures StatesMatch(r)
  {
    hide QueuesMatch, CountsMatch, ContsMatch;
    assert x.ready == [x.ready[0]] + x.ready[1..];
  }

  /** QueuesMatch speaks of who is suspended, not of who is current or ready. */
  lemma QueuesKept<T, S>(x: Sys<T, S>, r: Sys<T, S>)
    requires Lists(x) && Shape(r)
    requires r.blocker == x.blocker && r.count == x.count && r.waiters == x.waiters && r.state.Keys == x.state.Keys
    requires forall t :: t in x.state ==> (r.state[t] == Suspended <==> x.state[t] == Suspended)
    requires forall t :: t in x.state && x.state[t] == Suspended ==> r.cont[t].place == x.cont[t].place
    ensures QueuesMatch(r) && CountsMatch(r)
  {
    hide OnePlace, StatesMatch, ContsMatch, Distinct;
    assert forall t :: t in x.state ==> BlockerMatches(x, t);
    assert forall s :: s in x.waiters ==> QueueMatches(x, s);
  }

  lemma SwitchedQueues<T, S>(x: Sys<T, S>, r: Sys<T, S>)
    requires Lists(x) && Switched(x, r)
    ensures QueuesMatch(r) && CountsMatch(r)
  {
    hide OnePlace, ContsMatch, QueuesMatch, CountsMatch;
    NextParked(x);
    QueuesKept(x, r);
  }

  lemma SwitchedConts<T, S>(x: Sys<T, S>, r: Sys<T, S>)
    requires Lists(x) && Switched(x, r)
    requires x.cpu.interrupts == !x.cont[x.current].ticked
    requires x.cont[x.current].place.Entry? ==> x.cont[x.current].ticked
    ensures ContsMatch(r)
  {
    hide OnePlace, StatesMatch, QueuesMatch, CountsMatch;
  }

  lemma YieldSafe<T, S>(x: Sys<T, S>)
    requires AtYield(x)
    requires !(x.ready == [] && x.state[x.current] == Suspended)
    ensures Yield(x).Done? && Inv(Yield(x).value)
  {
    hide Yield, OnePlace, QueuesMatch, CountsMatch;
    if x.ready == [] {
      YieldStays(x);
      StaysLists(x, Yield(x).value);
    } else {
      YieldSwitches(x);
      SwitchedLists(x, Yield(x).value);
    }
  }

  lemma StaysLists<T, S>(x: Sys<T, S>, r: Sys<T, S>)
    requires Lists(x) && Shape(r) && x.state[x.current] == Running
    requires r == x.(cpu := r.cpu, cont := r.cont)
    requires exists k :: k in {x.cont[x.current].place, User} && r.cont == x.cont[x.current := Cont(k, false, NotParked)]
    ensures Lists(r)
  {
    QueuesKept(x, r);
    hide QueuesMatch, CountsMatch, Distinct;
  }

  // ---------- semaphores ----------

  /** A critical section of any nesting depth gives the interrupt flag back. */
  lemma SectionRestores<S>(c: Cpu<S>, l: Lock<S>)
    requires l !in c.held && (c.spinCount > 0 ==> !c.interrupts)
    ensures var taken := SpinLock(c, l);
      && taken.Done? && !taken.value.interrupts
      && var released := SpinUnlock(taken.value, l);
      && released.Done?
      && released.value.interrupts == c.interrupts && released.value.spinCount == c.spinCount
      && released.value.held == c.held
      && released.value.enabled == if c.spinCount == 0 then c.interrupts else c.enabled
  {
  }

  /** semaphore_lock either takes a permit or puts the caller at the end of the waiter queue. */
  ghost predicate Locked<T, S>(x: Sys<T, S>, s: S, r: Sys<T, S>)
    requires Shape(x) && s in x.count
  {
    if x.count[s] > 0 then r == x.(count := x.count[s := x.count[s] - 1], cpu := r.cpu)
    else
      r == x.(waiters := x.waiters[s := x.waiters[s] + [x.current]],
              state := x.state[x.current := Suspended],
              blocker := x.blocker[x.current := Some(s)],
              cont := x.cont[x.current := x.cont[x.current].(place := Gap(s))],
              cpu := r.cpu)
  }

  /** semaphore_unlock gives the permit to the waiter that blocked first, or counts it. */
  ghost predicate Unlocked<T, S>(x: Sys<T, S>, s: S, r: Sys<T, S>)
    requires Shape(x) && s in x.count
  {
    if x.waiters[s] == [] then r == x.(count := x.count[s := x.count[s] + 1], cpu := r.cpu)
    else
      var w := x.waiters[s][0];
      r == x.(waiters := x.waiters[s := x.waiters[s][1..]],
              state := x.state[w := Ready], blocker := x.blocker[w := None],
              suspended := Without(x.suspended, w), ready := x.ready + [w], cpu := r.cpu)
  }

  lemma LockOutcome<T, S>(x: Sys<T, S>, s: S)
    requires Inv(x) && s in x.count
    ensures SemLock(x, s).Done?
    ensures Locked(x, s, SemLock(x, s).value)
    ensures SemLock(x, s).value.cpu == Cpu(x.cpu.interrupts, 0, x.cpu.interrupts, {})
  {
    hide Lists;
    SectionRestores(x.cpu, SemaphoreLock(s));
  }

  lemma UnlockOutcome<T, S>(x: Sys<T, S>, s: S)
    requires Inv(x) && s in x.count
    ensures SemUnlock(x, s).Done?
    ensures Unlocked(x, s, SemUnlock(x, s).value)
    ensures SemUnlock(x, s).value.cpu == Cpu(x.cpu.interrupts, 0, x.cpu.interrupts, {})
  {
    if x.waiters[s] != [] {
      assert x.waiters[s][0] in x.waiters[s];
      assert x.state[x.waiters[s][0]] == Suspended;
    }
    hide Lists, Without;
    var inner := SpinLock(x.cpu, SemaphoreLock(s)).value;
    SectionRestores(x.cpu, SemaphoreLock(s));
    SectionRestores(inner, SchedulerLock);
  }

  lemma DistinctEnds<T>(list: seq<T>, t: T)
    requires Distinct(list)
    ensures t !in list ==> Distinct(list + [t])
    ensures list != [] ==> Distinct(list[1..]) && list[0] !in list[1..]
    ensures list != [] ==> forall u :: u in list[1..] <==> u in list && u != list[0]
  {
    if list != [] {
      assert list == [list[0]] + list[1..];
    }
  }

  lemma LockedQueues<T, S>(x: Sys<T, S>, s: S, r: Sys<T, S>, u: S)
    requires Shape(x) && s in x.count && Locked(x, s, r) && x.count[s] <= 0 && u in r.waiters
    ensures u in x.waiters && r.waiters[u] == if u == s then x.waiters[s] + [x.current] else x.waiters[u]
    ensures r.state == x.state[x.current := Suspended] && r.blocker == x.blocker[x.current := Some(s)]
  {
  }

  lemma LockQueue<T, S>(x: Sys<T, S>, s: S, r: Sys<T, S>, u: S)
    requires Lists(x) && s in x.count && x.state[x.current] == Running && Shape(r) && Locked(x, s, r)
    requires x.count[s] <= 0 && u in r.waiters
    ensures QueueMatches(r, u)
  {
    hide Shape, Locked, Distinct, OnePlace, StatesMatch, CountsMatch, ContsMatch, BlockerMatches;
    LockedQueues(x, s, r, u);
    assert QueueMatches(x, u);
    hide Lists, QueuesMatch;
    DistinctEnds(x.waiters[u], x.current);
  }

  lemma LockCounts<T, S>(x: Sys<T, S>, s: S, r: Sys<T, S>)
    requires Shape(x) && CountsMatch(x) && s in x.count && Shape(r) && Locked(x, s, r) && x.count[s] <= 0
    ensures CountsMatch(r)
  {
  }

  lemma LockQueues<T, S>(x: Sys<T, S>, s: S, r: Sys<T, S>)
    requires Lists(x) && s in x.count && x.state[x.current] == Running && Shape(r) && Locked(x, s, r)
    requires x.count[s] <= 0
    ensures QueuesMatch(r) && CountsMatch(r)
  {
    hide OnePlace, StatesMatch, ContsMatch, QueueMatches;
    LockCounts(x, s, r);
    hide CountsMatch;
    forall u | u in r.waiters
      ensures QueueMatches(r, u)
    {
      LockQueue(x, s, r, u);
    }
    forall t | t in r.state
      ensures BlockerMatches(r, t)
    {
      assert BlockerMatches(x, t);
    }
  }

  lemma LockPlaces<T, S>(x: Sys<T, S>, s: S, r: Sys<T, S>)
    requires Lists(x) && s in x.count && x.state[x.current] == Running && Shape(r) && Locked(x, s, r)
    requires x.count[s] <= 0 && QueuesMatch(r) && CountsMatch(r)
    ensures Lists(r)
  {
    hide QueuesMatch, CountsMatch;
  }

  lemma LockSafe<T, S>(x: Sys<T, S>, s: S)
    requires Inv(x) && s in x.count && x.cont[x.current].place.User?
    ensures SemLock(x, s).Done? && Inv(SemLock(x, s).value)
  {
    hide SemLock, Lists, QueuesMatch, CountsMatch, OnePlace, StatesMatch, ContsMatch;
    LockOutcome(x, s);
    var r := SemLock(x, s).value;
    Awake(x);
    CountFloor(x, s);
    if x.count[s] > 0 {
      CountChanged(x, s, x.count[s] - 1, r);
    } else {
      LockQueues(x, s, r);
      LockPlaces(x, s, r);
    }
  }

  lemma CountChanged<T, S>(x: Sys<T, S>, s: S, n: nat, r: Sys<T, S>)
    requires Lists(x) && s in x.count && Shape(r)
    requires (n > 0 ==> x.waiters[s] == []) && r == x.(count := x.count[s := n], cpu := r.cpu)
    ensures Lists(r)
  {
    forall u | u in r.waiters
      ensures QueueMatches(r, u)
    {
      assert QueueMatches(x, u);
    }
    forall t | t in r.state
      ensures BlockerMatches(r, t)
    {
      assert BlockerMatches(x, t);
    }
  }

  lemma Awake<T, S>(x: Sys<T, S>)
    requires Inv(x) && !x.cont[x.current].place.Gap?
    ensures x.state[x.current] == Running && x.blocker[x.current] == None
    ensures forall s :: s in x.waiters ==> x.current !in x.waiters[s]
  {
    assert BlockerMatches(x, x.current);
    assert forall s :: s in x.waiters ==> QueueMatches(x, s);
  }

  lemma {:induction false} WithoutExact<T>(list: seq<T>, t: T)
    requires Distinct(list)
    ensures Distinct(Without(list, t))
    ensures forall u :: u in Without(list, t) <==> u in list && u != t
  {
    if list != [] && list[0] != t {
      DistinctEnds(list, t);
      WithoutExact(list[1..], t);
    }
  }

  lemma UnlockPlaces<T, S>(x: Sys<T, S>, s: S, r: Sys<T, S>)
    requires Lists(x) && s in x.count && Shape(r) && Unlocked(x, s, r) && x.waiters[s] != []
    requires x.waiters[s][0] in x.suspended
    ensures OnePlace(r) && StatesMatch(r)
  {
    hide QueuesMatch, CountsMatch, ContsMatch, Distinct, Without;
    var w := x.waiters[s][0];
    assert x.state[w] == Suspended;
    WithoutExact(x.suspended, w);
    UnlockStates(x, s, r);
    hide StatesMatch;
    DistinctEnds(x.ready, w);
  }

  lemma UnlockStates<T, S>(x: Sys<T, S>, s: S, r: Sys<T, S>)
    requires Shape(x) && s in x.count && x.waiters[s] != [] && Shape(r) && Unlocked(x, s, r)
    requires OnePlace(x) && StatesMatch(x) && x.waiters[s][0] in x.suspended
    ensures StatesMatch(r)
  {
    hide Distinct, Without;
    WithoutExact(x.suspended, x.waiters[s][0]);
  }

  lemma UnlockQueues<T, S>(x: Sys<T, S>, s: S, r: Sys<T, S>)
    requires Lists(x) && s in x.count && Shape(r) && Unlocked(x, s, r) && x.waiters[s] != []
    ensures QueuesMatch(r) && CountsMatch(r)
  {
    hide OnePlace, StatesMatch, ContsMatch, Distinct, Without;
    var w := x.waiters[s][0];
    assert QueueMatches(x, s) && w in x.waiters[s];
    DistinctEnds(x.waiters[s], w);
    forall u | u in r.waiters
      ensures QueueMatches(r, u)
    {
      assert QueueMatches(x, u);
    }
    forall t | t in r.state
      ensures BlockerMatches(r, t)
    {
      assert BlockerMatches(x, t);
    }
  }

  lemma FirstWaiter<T, S>(x: Sys<T, S>, s: S)
    requires Inv(x) && s in x.waiters && x.waiters[s] != [] && x.cont[x.current].place.User?
    ensures x.waiters[s][0] in x.suspended && x.state[x.waiters[s][0]] == Suspended
    ensures x.cont[x.waiters[s][0]].place == Gap(s)
  {
    var w := x.waiters[s][0];
    assert QueueMatches(x, s) && w in x.waiters[s];
    assert BlockerMatches(x, w);
  }

  lemma UnlockCounts<T, S>(x: Sys<T, S>, s: S)
    requires Inv(x) && s in x.count && x.cont[x.current].place.User? && x.waiters[s] == []
    ensures SemUnlock(x, s).Done? && Inv(SemUnlock(x, s).value)
  {
    hide SemUnlock, Lists, Shape;
    UnlockOutcome(x, s);
    CountFloor(x, s);
    CountChanged(x, s, x.count[s] + 1, SemUnlock(x, s).value);
  }

  lemma UnlockWakes<T, S>(x: Sys<T, S>, s: S)
    requires Inv(x) && s in x.count && x.cont[x.current].place.User? && x.waiters[s] != []
    ensures SemUnlock(x, s).Done? && Inv(SemUnlock(x, s).value)
  {
    UnlockOutcome(x, s);
    var r := SemUnlock(x, s).value;
    hide SemUnlock, Distinct, Without, QueuesMatch, CountsMatch, OnePlace, StatesMatch;
    FirstWaiter(x, s);
    UnlockPlaces(x, s, r);
    UnlockQueues(x, s, r);
  }

  lemma UnlockSafe<T, S>(x: Sys<T, S>, s: S)
    requires Inv(x) && s in x.count && x.cont[x.current].place.User?
    ensures SemUnlock(x, s).Done? && Inv(SemUnlock(x, s).value)
  {
    hide Inv, SemUnlock;
    if x.waiters[s] == [] {
      UnlockCounts(x, s);
    } else {
      UnlockWakes(x, s);
    }
  }

  /** thread_create puts the new thread at the end of ready_list. */
  ghost predicate Created<T, S>(x: Sys<T, S>, t: T, r: Sys<T, S>)
  {
    r == x.(state := x.state[t := Ready], blocker := x.blocker[t := None],
            cont := x.cont[t := Cont(User, false, NewBorn)], ready := x.ready + [t], cpu := r.cpu)
  }

  lemma CreatedQueues<T, S>(x: Sys<T, S>, t: T, r: Sys<T, S>)
    requires Lists(x) && Shape(r) && t !in x.state && Created(x, t, r)
    ensures QueuesMatch(r) && CountsMatch(r)
  {
    hide OnePlace, StatesMatch, Distinct, ContsMatch;
    forall u | u in r.waiters
      ensures QueueMatches(r, u)
    {
      assert QueueMatches(x, u);
    }
    forall u | u in r.state
      ensures BlockerMatches(r, u)
    {
      if u != t {
        assert BlockerMatches(x, u);
      }
    }
  }

  lemma CreatedPlaces<T, S>(x: Sys<T, S>, t: T, r: Sys<T, S>)
    requires Lists(x) && Shape(r) && t !in x.state && Created(x, t, r)
    ensures OnePlace(r) && StatesMatch(r) && ContsMatch(r)
  {
    hide QueuesMatch, CountsMatch, Distinct;
    DistinctEnds(x.ready, t);
  }

  lemma CreateSafe<T, S>(x: Sys<T, S>, t: T)
    requires Inv(x) && t !in x.state && x.cont[x.current].place.User?
    ensures Create(x, t).Done? && Inv(Create(x, t).value) && Created(x, t, Create(x, t).value)
    ensures Create(x, t).value.cpu == Cpu(true, 0, true, {})
  {
    SectionRestores(x.cpu, SchedulerLock);
    var r := Create(x, t).value;
    CreatedQueues(x, t, r);
    CreatedPlaces(x, t, r);
    hide QueuesMatch, CountsMatch, OnePlace, StatesMatch, ContsMatch;
  }

  lemma InitSafe<T, S>(x: Sys<T, S>, s: S, n: nat)
    requires Inv(x) && s !in x.count
    ensures SemInit(x, s, n).Done? && Inv(SemInit(x, s, n).value)
  {
    var r := SemInit(x, s, n).value;
    hide Distinct;
    forall u | u in r.waiters
      ensures QueueMatches(r, u)
    {
      if u != s {
        assert QueueMatches(x, u);
      }
    }
    forall u | u in r.state
      ensures BlockerMatches(r, u)
    {
      assert BlockerMatches(x, u);
    }
  }

  // ---------- every step ----------

  /** `idle` never blocks, so there is always a thread to run. */
  ghost predicate Safe<T, S>(x: Sys<T, S>, idle: T)
    ensures Safe(x, idle) ==> Inv(x)
  {
    Inv(x) && idle in x.state && x.state[idle] != Suspended
  }

  lemma TickReady<T, S>(x: Sys<T, S>)
    requires Inv(x) && x.cpu.interrupts
    ensures AtYield(Interrupt(x))
  {
    var y := Interrupt(x);
    QueuesKept(x, y);
    hide QueuesMatch, CountsMatch, OnePlace;
  }

  lemma YieldKeepsIdle<T, S>(x: Sys<T, S>, idle: T)
    requires AtYield(x) && idle in x.state && x.state[idle] != Suspended
    ensures Yield(x).Done? && Safe(Yield(x).value, idle)
  {
    hide Yield, QueuesMatch, CountsMatch, ContsMatch;
    if x.ready == [] {
      assert idle !in x.suspended && idle == x.current;
      YieldStays(x);
    } else {
      NextParked(x);
      YieldSwitches(x);
    }
    hide Lists;
    YieldSafe(x);
  }

  lemma UnlockAwakes<T, S>(x: Sys<T, S>, s: S, t: T)
    requires Inv(x) && s in x.count && t in x.state && x.state[t] != Suspended
    ensures SemUnlock(x, s).Done?
    ensures var r := SemUnlock(x, s).value; t in r.state && r.state[t] != Suspended
  {
    UnlockOutcome(x, s);
  }

  lemma TrySafe<T, S>(x: Sys<T, S>, s: S)
    requires Inv(x) && s in x.count && x.cont[x.current].place.User?
    ensures SemTryLock(x, s).Done?
    ensures var (r, got) := SemTryLock(x, s).value;
      && Inv(r) && r.cpu == Cpu(x.cpu.interrupts, 0, x.cpu.interrupts, {})
      && got == (x.count[s] > 0)
      && r == x.(count := x.count[s := if got then x.count[s] - 1 else x.count[s]], cpu := r.cpu)
  {
    hide Lists;
    SectionRestores(x.cpu, SemaphoreLock(s));
    var (r, got) := SemTryLock(x, s).value;
    CountFloor(x, s);
    CountChanged(x, s, if got then x.count[s] - 1 else x.count[s], r);
  }

  lemma CountFloor<T, S>(x: Sys<T, S>, s: S)
    requires Lists(x) && s in x.count
    ensures x.count[s] >= 0 && (x.count[s] > 0 ==> x.waiters[s] == [])
  {
  }

  lemma FirstReturnSafe<T, S>(x: Sys<T, S>)
    requires Inv(x) && x.cont[x.current].place.Entry?
    ensures Inv(FirstReturn(x))
  {
    var r := FirstReturn(x);
    QueuesKept(x, r);
    hide QueuesMatch, CountsMatch, OnePlace;
  }

  /** No call hits a fatal check or finds a spin lock taken, and every list and state stays in order. */
  lemma StepSafe<T, S>(x: Sys<T, S>, idle: T, e: Event<T, S>)
    requires Safe(x, idle) && Legal(x, idle, e)
    ensures Step(x, idle, e).Done? && Safe(Step(x, idle, e).value, idle)
  {
    hide Yield, SemLock, SemTryLock, SemUnlock, Create, SemInit, Lists;
    match e
    case Tick =>
      TickReady(x);
      YieldKeepsIdle(Interrupt(x), idle);
    case CallYield => YieldKeepsIdle(x, idle);
    case GapYield => YieldKeepsIdle(x, idle);
    case EntryDone => FirstReturnSafe(x);
    case Lock(s) =>
      LockSafe(x, s);
      LockOutcome(x, s);
    case TryLock(s) => TrySafe(x, s);
    case Unlock(s) =>
      UnlockSafe(x, s);
      UnlockAwakes(x, s, idle);
    case Spawn(t) => CreateSafe(x, t);
    case InitSem(s, n) =>
      InitSafe(x, s, n);
      SemInitStates(x, s, n);
  }

  lemma SemInitStates<T, S>(x: Sys<T, S>, s: S, n: nat)
    requires Shape(x) && s !in x.count
    ensures SemInit(x, s, n).Done?
    ensures SemInit(x, s, n).value == x.(count := x.count[s := n], waiters := x.waiters[s := []])
  {
  }
}
