/**
 Whole runs of the scheduler: safety of every interleaving, the turn of every waiting thread,
 the return of thread_yield, and the permits of a semaphore.
 */
module SchedulerRuns {
  import opened Basics
  import opened Scheduling
  import opened SchedulerSafety

  // ---------- runs ----------

  ghost predicate LegalRun<T, S>(x: Sys<T, S>, idle: T, es: seq<Event<T, S>>)
    requires Shape(x)
    decreases |es|
  {
    es == [] || (Legal(x, idle, es[0]) && (Step(x, idle, es[0]).Done? ==> LegalRun(Step(x, idle, es[0]).value, idle, es[1..])))
  }

  ghost function Run<T, S>(x: Sys<T, S>, idle: T, es: seq<Event<T, S>>): (r: Outcome<Sys<T, S>>)
    requires Shape(x) && LegalRun(x, idle, es)
    ensures r.Done? ==> Shape(r.value)
    decreases |es|
  {
    if es == [] then Done(x)
    else
      var y :- Step(x, idle, es[0]);
      Run(y, idle, es[1..])
  }

  /** thread_init: the one thread that exists runs, with interrupts on. */
  function Boot<T, S>(thread0: T): Sys<T, S> {
    Sys(map[thread0 := Running], map[thread0 := None], map[thread0 := Cont(User, false, NotParked)],
        thread0, [], [], map[], map[], Cpu(true, 0, true, {}))
  }

  lemma BootSafe<T, S>(thread0: T)
    ensures Safe(Boot<T, S>(thread0), thread0)
  {
  }

  /** From any safe state, and so from boot, no sequence of calls and ticks reaches a fatal check. */
  lemma {:induction false} RunSafe<T, S>(x: Sys<T, S>, idle: T, es: seq<Event<T, S>>)
    requires Safe(x, idle) && LegalRun(x, idle, es)
    ensures Run(x, idle, es).Done? && Safe(Run(x, idle, es).value, idle)
    decreases |es|
  {
    hide Inv, Step;
    if es != [] {
      StepSafe(x, idle, es[0]);
      RunSafe(Step(x, idle, es[0]).value, idle, es[1..]);
    }
  }

  /** Without a thread that never blocks, list_pop finds nothing exactly when the last ready thread yields suspended. */
  lemma StarvesExactly<T, S>(x: Sys<T, S>)
    requires AtYield(x)
    ensures Yield(x) == Fatal(NoThread) <==> x.ready == [] && x.state[x.current] == Suspended
    ensures Yield(x).Done? || Yield(x) == Fatal(NoThread)
  {
    hide Lists;
    EnterOutcome(x);
    if !(x.ready == [] && x.state[x.current] == Suspended) {
      YieldSafe(x);
    }
  }

  /** It does happen: the only thread locks a semaphore of 0. */
  lemma Starves<T, S>(thread0: T, s: S)
    ensures var x := SemInit(Boot<T, S>(thread0), s, 0);
      x.Done? && var y := SemLock(x.value, s); y.Done? && AtYield(y.value) && Yield(y.value) == Fatal(NoThread)
  {
    BootSafe<T, S>(thread0);
    InitSafe(Boot<T, S>(thread0), s, 0);
    var x := SemInit(Boot<T, S>(thread0), s, 0).value;
    LockOutcome(x, s);
    LockSafe(x, s);
    StarvesExactly(SemLock(x, s).value);
  }

  // ---------- turns ----------

  /** What thread_yield is called in: directly, or from the timer interrupt. */
  function Calling<T(==), S(==)>(x: Sys<T, S>, e: Event<T, S>): (r: Sys<T, S>)
    requires Shape(x)
    ensures Shape(r)
  {
    if e.Tick? then Interrupt(x) else x
  }

  lemma CallingReady<T, S>(x: Sys<T, S>, idle: T, e: Event<T, S>)
    requires Safe(x, idle) && Legal(x, idle, e) && IsSchedule(e)
    ensures AtYield(Calling(x, e)) && Step(x, idle, e) == Yield(Calling(x, e))
    ensures Calling(x, e).ready == x.ready && Calling(x, e).current == x.current && Calling(x, e).state == x.state
  {
    hide Lists, Yield;
    if e.Tick? {
      TickReady(x);
    }
  }

  function Turns<T, S>(es: seq<Event<T, S>>): nat {
    if es == [] then 0 else (if IsSchedule(es[0]) then 1 else 0) + Turns(es[1..])
  }

  /** Only a schedule moves the ready threads up, by one; everything else leaves them where they are. */
  lemma StepTurn<T, S>(x: Sys<T, S>, idle: T, e: Event<T, S>, k: nat)
    requires Safe(x, idle) && Legal(x, idle, e) && k < |x.ready|
    ensures Step(x, idle, e).Done?
    ensures var r := Step(x, idle, e).value;
      if !IsSchedule(e) then r.current == x.current && k < |r.ready| && r.ready[k] == x.ready[k]
      else if k == 0 then r.current == x.ready[k]
      else k <= |r.ready| && r.ready[k - 1] == x.ready[k]
  {
    hide Yield, SemLock, SemTryLock, SemUnlock, Create, SemInit, Lists;
    StepSafe(x, idle, e);
    if IsSchedule(e) {
      CallingReady(x, idle, e);
      YieldSwitches(Calling(x, e));
    } else {
      match e
      case EntryDone =>
      case Lock(s) => LockOutcome(x, s);
      case TryLock(s) => TrySafe(x, s);
      case Unlock(s) => UnlockOutcome(x, s);
      case Spawn(t) => CreateSafe(x, t);
      case InitSem(s, n) => SemInitStates(x, s, n);
    }
  }

  /**
   Round robin: the thread at index k of ready_list is still k - n from the front after n schedules,
   and it runs at the (k+1)-th, whoever is woken or created meanwhile.
   */
  lemma {:induction false} BoundedWait<T, S>(x: Sys<T, S>, idle: T, es: seq<Event<T, S>>, k: nat)
    requires Safe(x, idle) && LegalRun(x, idle, es) && k < |x.ready|
    ensures Run(x, idle, es).Done?
    ensures var r := Run(x, idle, es).value; var n := Turns(es);
      && (n <= k ==> k - n < |r.ready| && r.ready[k - n] == x.ready[k] && r.current != x.ready[k])
      && (n == k + 1 && IsSchedule(es[|es| - 1]) ==> r.current == x.ready[k])
    decreases |es|
  {
    hide Inv, Step, Yield;
    RunSafe(x, idle, es);
    if es == [] {
      NotReady(x, k);
    } else {
      StepSafe(x, idle, es[0]);
      StepTurn(x, idle, es[0], k);
      var y := Step(x, idle, es[0]).value;
      var k' := if IsSchedule(es[0]) then k - 1 else k;
      if k' >= 0 {
        BoundedWait(y, idle, es[1..], k');
        assert es[1..] != [] ==> es[1..][|es| - 2] == es[|es| - 1];
      } else if |es| > 1 && IsSchedule(es[|es| - 1]) {
        assert es[1..][|es| - 2] == es[|es| - 1];
        TurnsLast(es[1..]);
      }
    }
  }

  lemma {:induction false} TurnsLast<T, S>(es: seq<Event<T, S>>)
    requires es != [] && IsSchedule(es[|es| - 1])
    ensures Turns(es) > 0
  {
    if |es| > 1 {
      TurnsLast(es[1..]);
    }
  }

  lemma NotReady<T, S>(x: Sys<T, S>, k: nat)
    requires Inv(x) && k < |x.ready|
    ensures x.ready[k] != x.current
  {
    assert x.ready[k] in x.ready;
  }

  // ---------- the return of thread_yield ----------

  /** A thread that does not run keeps what it needs to go on. */
  lemma ContKept<T, S>(x: Sys<T, S>, idle: T, e: Event<T, S>, t: T)
    requires Safe(x, idle) && Legal(x, idle, e) && t in x.state && t != x.current
    ensures Step(x, idle, e).Done?
    ensures var r := Step(x, idle, e).value; t in r.cont && (t != r.current ==> r.cont[t] == x.cont[t])
  {
    hide Yield, SemLock, SemTryLock, SemUnlock, Create, SemInit, Lists;
    StepSafe(x, idle, e);
    if IsSchedule(e) {
      CallingReady(x, idle, e);
      if x.ready != [] {
        YieldSwitches(Calling(x, e));
      } else {
        IdleRuns(x, idle);
        YieldStays(Calling(x, e));
      }
    } else {
      match e
      case EntryDone =>
      case Lock(s) => LockOutcome(x, s);
      case TryLock(s) => TrySafe(x, s);
      case Unlock(s) => UnlockOutcome(x, s);
      case Spawn(t) => CreateSafe(x, t);
      case InitSem(s, n) => SemInitStates(x, s, n);
    }
  }

  lemma IdleRuns<T, S>(x: Sys<T, S>, idle: T)
    requires Safe(x, idle) && x.ready == []
    ensures x.current == idle && x.state[idle] == Running
  {
    assert idle !in x.suspended;
  }

  /** t is not current in any state of the run. */
  ghost predicate Away<T, S>(x: Sys<T, S>, idle: T, es: seq<Event<T, S>>, t: T)
    requires Shape(x) && LegalRun(x, idle, es)
    decreases |es|
  {
    x.current != t && (es != [] && Step(x, idle, es[0]).Done? ==> Away(Step(x, idle, es[0]).value, idle, es[1..], t))
  }

  lemma {:induction false} AwayKeeps<T, S>(x: Sys<T, S>, idle: T, es: seq<Event<T, S>>, t: T)
    requires Safe(x, idle) && LegalRun(x, idle, es) && Away(x, idle, es, t) && t in x.state
    ensures Run(x, idle, es).Done? && Safe(Run(x, idle, es).value, idle)
    ensures var r := Run(x, idle, es).value; t != r.current && t in r.cont && r.cont[t] == x.cont[t]
    decreases |es|
  {
    hide Inv, Step;
    if es != [] {
      StepSafe(x, idle, es[0]);
      ContKept(x, idle, es[0], t);
      AwayKeeps(Step(x, idle, es[0]).value, idle, es[1..], t);
    }
  }

  /** The interrupt flag, the spin lock count and the locks taken. */
  predicate SameLocks<S(==)>(a: Cpu<S>, b: Cpu<S>) {
    a.interrupts == b.interrupts && a.spinCount == b.spinCount && a.held == b.held
  }

  lemma ReturnOutcome<T, S>(x: Sys<T, S>)
    requires AtYield(x) && x.ready != []
    ensures Return(x).Done?
    ensures var r := Return(x).value;
      && r.current == x.ready[0] && r.cpu.spinCount == 0 && r.cpu.held == {}
      && (x.cont[r.current].parked.InSwitch? ==> r.cpu.interrupts == x.cont[r.current].parked.entered)
  {
    hide YieldLeave, Unwind, QueuesMatch, CountsMatch;
    NextParked(x);
    YieldEnters(x);
    hide YieldEnter, Lists;
    Resumes(YieldEnter(x).value.0, x.cpu.interrupts);
  }

  /** With nothing else to run, thread_yield returns to its caller and changes nothing the caller can see. */
  lemma ReturnsAtOnce<T, S>(x: Sys<T, S>)
    requires AtYield(x) && x.ready == [] && x.state[x.current] == Running
    ensures Return(x).Done?
    ensures var r := Return(x).value; r == x.(cpu := r.cpu) && SameLocks(r.cpu, x.cpu)
  {
    hide QueuesMatch, CountsMatch, OnePlace;
    var (y, switched) := YieldEnter(x).value;
    assert y.cpu.held - {SchedulerLock} == {};
    assert y.state == x.state;
  }

  /**
   A thread that calls thread_yield in x0 and is switched away comes back, when some later
   call z switches to it, with the interrupt flag, the spin lock count and the locks it went in with.
   */
  lemma YieldRestores<T, S>(x0: Sys<T, S>, idle: T, es: seq<Event<T, S>>, e: Event<T, S>)
    requires AtYield(x0) && idle in x0.state && x0.state[idle] != Suspended && x0.ready != []
    requires Yield(x0).Done? ==> LegalRun(Yield(x0).value, idle, es)
    requires Yield(x0).Done? ==> Away(Yield(x0).value, idle, es, x0.current)
    requires Yield(x0).Done? ==> var z := Run(Yield(x0).value, idle, es); z.Done? ==> Legal(z.value, idle, e) && IsSchedule(e)
    ensures Yield(x0).Done? && Run(Yield(x0).value, idle, es).Done?
    ensures var z := Calling(Run(Yield(x0).value, idle, es).value, e);
      Return(z).Done? && (Return(z).value.current == x0.current ==> SameLocks(Return(z).value.cpu, x0.cpu))
  {
    hide Lists, Yield, Return, Step, Interrupt;
    NextParked(x0);
    YieldKeepsIdle(x0, idle);
    YieldSwitches(x0);
    var y := Yield(x0).value;
    AwayKeeps(y, idle, es, x0.current);
    var z := Run(y, idle, es).value;
    CallingReady(z, idle, e);
    CallingKeeps(z, e, x0.current);
    if z.ready != [] {
      ReturnOutcome(Calling(z, e));
    } else {
      IdleRuns(z, idle);
      ReturnsAtOnce(Calling(z, e));
    }
  }

  lemma CallingKeeps<T, S>(x: Sys<T, S>, e: Event<T, S>, t: T)
    requires Shape(x) && t in x.state && t != x.current
    ensures Calling(x, e).cont[t] == x.cont[t]
  {
  }
}
