/**
 thread.c, semaphore.c and spinlock.c on one processor, as functions on the scheduler's
 state. A call that switches threads is cut at thread_switch: what the old thread still
 has to do is kept as its continuation and carried out when it is resumed.

 T stands for threads and S for semaphores.
 */
module Scheduling {
  import opened Basics

  datatype Panic =
    | NotLocked | SpinCount | StillRunning | InterruptsOn | InterruptsOff | NoThread
    | NotSuspended | NegativeCount | BadYield | UnlockUnlocked

  /** Fatal: fatal() or a failed assertion. Stuck: a spin lock that will never be released. */
  datatype Outcome<+A> = Done(value: A) | Fatal(why: Panic) | Stuck {
    predicate IsFailure() {
      !Done?
    }
    function PropagateFailure<U>(): Outcome<U> {
      if Fatal? then Fatal(why) else Stuck
    }
    function Extract(): A
      requires Done?
    {
      value
    }
  }

  datatype ThreadState = Running | Ready | Suspended

  datatype Lock<S> = SchedulerLock | SemaphoreLock(s: S)

  /** The interrupt flag, g_spinLockCount, g_interruptsEnabled and the locks that are taken. */
  datatype Cpu<S(==)> = Cpu(interrupts: bool, spinCount: nat, enabled: bool, held: set<Lock<S>>)

  /** Where a thread is, outside thread_yield. Gap: in semaphore_lock, blocked, about to yield. */
  datatype Place<S> = User | Gap(s: S) | Entry

  /**
   A thread that is not current waits in thread_switch. A new one starts at thread_entry;
   any other finishes thread_schedule with the local copy of g_interruptsEnabled.
   `entered` records the interrupt flag at the entry of that thread_yield.
   */
  datatype Parked = NotParked | NewBorn | InSwitch(enabled: bool, entered: bool)

  /** `ticked`: the thread was interrupted by the timer and thread_yield was called from the handler. */
  datatype Cont<S> = Cont(place: Place<S>, ticked: bool, parked: Parked)

  datatype Sys<T(==), S(==)> = Sys(
    state: map<T, ThreadState>, blocker: map<T, Option<S>>, cont: map<T, Cont<S>>,
    current: T, ready: seq<T>, suspended: seq<T>,
    count: map<S, int>, waiters: map<S, seq<T>>,
    cpu: Cpu<S>)

  /** The maps cover the threads and semaphores that exist. */
  predicate Shape<T(==), S(==)>(x: Sys<T, S>) {
    && x.current in x.state
    && x.blocker.Keys == x.state.Keys && x.cont.Keys == x.state.Keys
    && x.waiters.Keys == x.count.Keys
    && (forall t :: t in x.ready ==> t in x.state)
    && (forall t :: t in x.suspended ==> t in x.state)
    && (forall s, t :: s in x.waiters && t in x.waiters[s] ==> t in x.state)
  }

  // ---------- spinlock.c ----------

  function SpinLock<S(==)>(c: Cpu<S>, l: Lock<S>): Outcome<Cpu<S>> {
    if l in c.held then Stuck
    else Done(Cpu(false, c.spinCount + 1, if c.spinCount == 0 then c.interrupts else c.enabled, c.held + {l}))
  }

  function SpinUnlock<S(==)>(c: Cpu<S>, l: Lock<S>): Outcome<Cpu<S>> {
    if c.interrupts || c.spinCount == 0 then Fatal(UnlockUnlocked)
    else Done(Cpu(c.spinCount == 1 && c.enabled, c.spinCount - 1, c.enabled, c.held - {l}))
  }

  // ---------- thread.c ----------

  /** list_remove: the first occurrence of t, if any. */
  function Without<T(==)>(list: seq<T>, t: T): seq<T> {
    if list == [] then []
    else if list[0] == t then list[1..]
    else [list[0]] + Without(list[1..], t)
  }

  /** thread_schedule up to thread_switch. The flag tells whether the current thread changed. */
  function Schedule<T(==), S(==)>(x: Sys<T, S>, entered: bool): (r: Outcome<(Sys<T, S>, bool)>)
    requires Shape(x)
    ensures r.Done? ==> Shape(r.value.0)
  {
    if SchedulerLock !in x.cpu.held then Fatal(NotLocked)
    else if x.cpu.spinCount != 1 then Fatal(SpinCount)
    else if x.state[x.current] == Running then Fatal(StillRunning)
    else if x.cpu.interrupts then Fatal(InterruptsOn)
    else if x.ready == [] && x.state[x.current] == Ready then
      Done((x.(state := x.state[x.current := Running]), false))
    else
      var ready := if x.state[x.current] == Ready then x.ready + [x.current] else x.ready;
      var suspended := if x.state[x.current] == Ready then x.suspended else x.suspended + [x.current];
      if ready == [] then Fatal(NoThread)
      else
        var next := ready[0];
        var left := x.cont[x.current].(parked := InSwitch(x.cpu.enabled, entered));
        Done((x.(ready := ready[1..], suspended := suspended, state := x.state[next := Running],
                 cont := x.cont[x.current := left], current := next), true))
  }

  /** thread_yield up to thread_switch, or to the end of thread_schedule if nothing else is ready. */
  function YieldEnter<T(==), S(==)>(x: Sys<T, S>): (r: Outcome<(Sys<T, S>, bool)>)
    requires Shape(x)
    ensures r.Done? ==> Shape(r.value.0)
  {
    var entered := x.cpu.interrupts;
    var cpu :- SpinLock(x.cpu, SchedulerLock);
    if x.state[x.current] == Ready then Fatal(BadYield)
    else
      var state := if x.state[x.current] == Running then x.state[x.current := Ready] else x.state;
      Schedule(x.(cpu := cpu, state := state), entered)
  }

  /** From thread_switch to the return of thread_yield, in the thread that is now current. */
  function YieldLeave<T(==), S(==)>(x: Sys<T, S>): (r: Outcome<Sys<T, S>>)
    requires Shape(x)
    ensures r.Done? ==> Shape(r.value)
  {
    var k := x.cont[x.current];
    var cpu := if k.parked.InSwitch? then x.cpu.(enabled := k.parked.enabled) else x.cpu;
    var cpu :- SpinUnlock(cpu, SchedulerLock);
    Done(x.(cpu := cpu))
  }

  /** thread_yield up to its return, which is in whichever thread runs next. */
  function Return<T(==), S(==)>(x: Sys<T, S>): (r: Outcome<Sys<T, S>>)
    requires Shape(x)
    ensures r.Done? ==> Shape(r.value)
  {
    var (y, switched) :- YieldEnter(x);
    YieldLeave(y)
  }

  /**
   What follows the return of thread_yield: the iret of the timer interrupt, the return of
   semaphore_lock, or nothing. A new thread is at the end of thread_entry instead.
   */
  function Unwind<T(==), S(==)>(x: Sys<T, S>): (r: Sys<T, S>)
    requires Shape(x)
    ensures Shape(r)
  {
    var k := x.cont[x.current];
    if k.parked.NewBorn? then x.(cont := x.cont[x.current := Cont(Entry, false, NotParked)])
    else if k.ticked then
      x.(cont := x.cont[x.current := Cont(k.place, false, NotParked)], cpu := x.cpu.(interrupts := true))
    else
      x.(cont := x.cont[x.current := Cont(if k.place.Gap? then User else k.place, false, NotParked)])
  }

  /** thread_yield and what follows it. */
  function Yield<T(==), S(==)>(x: Sys<T, S>): (r: Outcome<Sys<T, S>>)
    requires Shape(x)
    ensures r.Done? ==> Shape(r.value)
  {
    var y :- Return(x);
    Done(Unwind(y))
  }

  /** thread_wakeup */
  function Wakeup<T(==), S(==)>(x: Sys<T, S>, t: T): (r: Outcome<Sys<T, S>>)
    requires Shape(x) && t in x.state
    ensures r.Done? ==> Shape(r.value)
  {
    WithoutIn(x.suspended, t);
    var cpu :- SpinLock(x.cpu, SchedulerLock);
    if x.state[t] != Suspended then Fatal(NotSuspended)
    else
      var cpu :- SpinUnlock(cpu, SchedulerLock);
      Done(x.(state := x.state[t := Ready], blocker := x.blocker[t := None],
              suspended := Without(x.suspended, t), ready := x.ready + [t], cpu := cpu))
  }

  /** The queueing part of thread_create, for a thread t that did not exist. */
  function Create<T(==), S(==)>(x: Sys<T, S>, t: T): (r: Outcome<Sys<T, S>>)
    requires Shape(x) && t !in x.state
    ensures r.Done? ==> Shape(r.value)
  {
    if !x.cpu.interrupts then Fatal(InterruptsOff)
    else
      var cpu :- SpinLock(x.cpu, SchedulerLock);
      var cpu :- SpinUnlock(cpu, SchedulerLock);
      Done(x.(state := x.state[t := Ready], blocker := x.blocker[t := None],
              cont := x.cont[t := Cont(User, false, NewBorn)], ready := x.ready + [t], cpu := cpu))
  }

  // ---------- semaphore.c ----------

  /** semaphore_init of a semaphore s that did not exist. */
  function SemInit<T(==), S(==)>(x: Sys<T, S>, s: S, n: int): (r: Outcome<Sys<T, S>>)
    requires Shape(x) && s !in x.count
    ensures r.Done? ==> Shape(r.value)
  {
    if n < 0 then Fatal(NegativeCount)
    else Done(x.(count := x.count[s := n], waiters := x.waiters[s := []]))
  }

  /** semaphore_lock, up to its call of thread_yield if it blocks. */
  function SemLock<T(==), S(==)>(x: Sys<T, S>, s: S): (r: Outcome<Sys<T, S>>)
    requires Shape(x) && s in x.count
    ensures r.Done? ==> Shape(r.value)
  {
    var cpu :- SpinLock(x.cpu, SemaphoreLock(s));
    var y :=
      if x.count[s] > 0 then x.(count := x.count[s := x.count[s] - 1])
      else
        x.(waiters := x.waiters[s := x.waiters[s] + [x.current]],
           state := x.state[x.current := Suspended],
           blocker := x.blocker[x.current := Some(s)],
           cont := x.cont[x.current := x.cont[x.current].(place := Gap(s))]);
    var cpu :- SpinUnlock(cpu, SemaphoreLock(s));
    Done(y.(cpu := cpu))
  }

  /** semaphore_try_lock */
  function SemTryLock<T(==), S(==)>(x: Sys<T, S>, s: S): (r: Outcome<(Sys<T, S>, bool)>)
    requires Shape(x) && s in x.count
    ensures r.Done? ==> Shape(r.value.0)
  {
    var cpu :- SpinLock(x.cpu, SemaphoreLock(s));
    var cpu :- SpinUnlock(cpu, SemaphoreLock(s));
    if x.count[s] > 0 then Done((x.(count := x.count[s := x.count[s] - 1], cpu := cpu), true))
    else Done((x.(cpu := cpu), false))
  }

  /** semaphore_unlock */
  function SemUnlock<T(==), S(==)>(x: Sys<T, S>, s: S): (r: Outcome<Sys<T, S>>)
    requires Shape(x) && s in x.count
    ensures r.Done? ==> Shape(r.value)
  {
    var cpu :- SpinLock(x.cpu, SemaphoreLock(s));
    var y :-
      if x.waiters[s] == [] then Done(x.(count := x.count[s := x.count[s] + 1], cpu := cpu))
      else Wakeup(x.(waiters := x.waiters[s := x.waiters[s][1..]], cpu := cpu), x.waiters[s][0]);
    var cpu :- SpinUnlock(y.cpu, SemaphoreLock(s));
    Done(y.(cpu := cpu))
  }

  lemma {:induction false} WithoutIn<T>(list: seq<T>, t: T)
    ensures forall u :: u in Without(list, t) ==> u in list
  {
    if list != [] && list[0] != t {
      WithoutIn(list[1..], t);
    }
  }
}
