/**
 thread.c, semaphore.c, spinlock.c and mutex.c on the heap: threads and waiters are linked
 objects, the lists are edited through their links. Every method does to the ghost value
 `sys` what the function of the same name in Scheduling does.
 */
module Threads {
  import opened Basics
  import opened Scheduling
  import opened SchedulerSafety
  import opened SchedulerRuns
  import opened Spinlocks

  class Thread {
    var state: ThreadState
    var next: Thread?
    var blocker: Semaphore?
    // What the stack of the thread holds while it is not current.
    var context: Cont<Semaphore>

    constructor ()
      ensures state == Ready && blocker == null && next == null && context == Cont(User, false, NewBorn)
    {
      state := Ready;
      next := null;
      blocker := null;
      context := Cont(User, false, NewBorn);
    }
  }

  class Waiter {
    const thread: Thread
    var next: Waiter?

    constructor (thread: Thread)
      ensures this.thread == thread && next == null
    {
      this.thread := thread;
      next := null;
    }
  }

  class Semaphore {
    var lock: SpinWord?<Semaphore>
    var count: int
    var head: Waiter?
    var tail: Waiter?

    constructor (count: int)
      ensures this.count == count && lock == null && head == null && tail == null
    {
      this.count := count;
      lock, head, tail := null, null, null;
    }
  }

  class Mutex {
    const semaphore: Semaphore

    constructor (semaphore: Semaphore)
      ensures this.semaphore == semaphore
    {
      this.semaphore := semaphore;
    }
  }

  // ---------- list helpers ----------

  function At(list: seq<Thread>, i: nat): Thread? {
    if i < |list| then list[i] else null
  }

  /** The threads of `list`, in order, are reached from head through their links. */
  ghost predicate Linked(head: Thread?, list: seq<Thread>)
    reads list`next
  {
    && head == At(list, 0)
    && forall i {:trigger list[i]} :: 0 <= i < |list| ==> list[i].next == At(list, i + 1)
  }

  /** list_append */
  method ListAppend(head: Thread?, thread: Thread, ghost list: seq<Thread>) returns (newHead: Thread?)
    requires Linked(head, list) && Distinct(list) && thread !in list
    modifies list`next, thread`next
    ensures Linked(newHead, list + [thread])
  {
    thread.next := null;
    if head == null {
      newHead := thread;
    } else {
      newHead := head;
      var last := head;
      ghost var i := 0;
      while last.next != null
        invariant 0 <= i < |list| && last == list[i]
        invariant Linked(head, list) && thread.next == null
        decreases |list| - i
      {
        last := last.next;
        i := i + 1;
      }
      last.next := thread;
    }
  }

  /** list_pop */
  method ListPop(head: Thread?, ghost list: seq<Thread>) returns (newHead: Thread?, thread: Thread?)
    requires Linked(head, list) && Distinct(list)
    modifies list`next
    ensures list == [] ==> thread == null && newHead == null
    ensures list != [] ==> thread == list[0] && thread.next == null && Linked(newHead, list[1..])
  {
    thread := head;
    newHead := head;
    if thread != null {
      newHead := thread.next;
      thread.next := null;
    }
  }

  lemma {:induction false} WithoutAt(list: seq<Thread>, i: nat)
    requires i < |list| && list[i] !in list[..i]
    ensures Without(list, list[i]) == list[..i] + list[i + 1..]
  {
    if i > 0 {
      assert list[1..][..i - 1] == list[..i][1..];
      WithoutAt(list[1..], i - 1);
    }
  }

  lemma {:induction false} WithoutNone(list: seq<Thread>, t: Thread)
    requires t !in list
    ensures Without(list, t) == list
  {
    if list != [] {
      WithoutNone(list[1..], t);
    }
  }

  /** list_remove: pp is the link that leads to list[i], the head or the next field of `before`. */
  method ListRemove(head: Thread?, thread: Thread, ghost list: seq<Thread>) returns (newHead: Thread?)
    requires Linked(head, list) && Distinct(list)
    modifies list`next
    ensures Linked(newHead, Without(list, thread))
  {
    newHead := head;
    var before: Thread? := null;
    var p := head;
    ghost var i := 0;
    while p != null
      invariant 0 <= i <= |list| && thread !in list[..i] && Linked(head, list) && newHead == head
      invariant before == (if i == 0 then null else list[i - 1]) && p == At(list, i)
      decreases |list| - i
    {
      if p == thread {
        WithoutAt(list, i);
        if before == null {
          newHead := thread.next;
        } else {
          before.next := thread.next;
        }
        return;
      }
      before := p;
      p := p.next;
      i := i + 1;
    }
    WithoutNone(list, thread);
  }

  /** list_size */
  method ListSize(head: Thread?, ghost list: seq<Thread>) returns (size: int)
    requires Linked(head, list)
    ensures size == |list|
  {
    size := 0;
    var p := head;
    while p != null
      invariant 0 <= size <= |list| && p == At(list, size)
      decreases |list| - size
    {
      size := size + 1;
      p := p.next;
    }
  }

  /** ready_list and suspended_list: no thread is in both, or twice in one. */
  ghost predicate TwoLists(readyList: Thread?, suspendedList: Thread?, ready: seq<Thread>, suspended: seq<Thread>)
    reads ready`next, suspended`next
  {
    && Linked(readyList, ready) && Linked(suspendedList, suspended)
    && Distinct(ready) && Distinct(suspended)
    && (forall t :: t in ready ==> t !in suspended)
  }

  method Enqueue(readyList: Thread?, suspendedList: Thread?, t: Thread, toReady: bool,
                 ghost ready: seq<Thread>, ghost suspended: seq<Thread>)
    returns (newReady: Thread?, newSuspended: Thread?)
    requires TwoLists(readyList, suspendedList, ready, suspended) && t !in ready && t !in suspended
    modifies (if toReady then ready else suspended)`next, t`next
    ensures TwoLists(newReady, newSuspended,
                     if toReady then ready + [t] else ready, if toReady then suspended else suspended + [t])
    ensures if toReady then newSuspended == suspendedList else newReady == readyList
  {
    hide Distinct;
    DistinctEnds(ready, t);
    DistinctEnds(suspended, t);
    newReady, newSuspended := readyList, suspendedList;
    if toReady {
      newReady := ListAppend(readyList, t, ready);
      forall i | 0 <= i < |suspended|
        ensures suspended[i].next == old(suspended[i].next)
      {
        assert suspended[i] !in ready;
      }
    } else {
      newSuspended := ListAppend(suspendedList, t, suspended);
      forall i | 0 <= i < |ready|
        ensures ready[i].next == old(ready[i].next)
      {
        assert ready[i] !in suspended;
      }
    }
  }

  method Dequeue(readyList: Thread?, ghost suspendedList: Thread?, ghost ready: seq<Thread>, ghost suspended: seq<Thread>)
    returns (newReady: Thread?, t: Thread?)
    requires TwoLists(readyList, suspendedList, ready, suspended)
    modifies ready`next
    ensures ready == [] ==> t == null
    ensures ready != [] ==> t == ready[0] && TwoLists(newReady, suspendedList, ready[1..], suspended)
    ensures ready != [] ==> ready[0] !in ready[1..] && ready[0] !in suspended
  {
    hide Distinct;
    DistinctEndsOf(ready);
    newReady, t := ListPop(readyList, ready);
    forall i | 0 <= i < |suspended|
      ensures suspended[i].next == old(suspended[i].next)
    {
      assert suspended[i] !in ready;
    }
  }

  lemma DistinctEndsOf(list: seq<Thread>)
    requires Distinct(list)
    ensures list != [] ==> Distinct(list[1..]) && list[0] !in list[1..] && forall u :: u in list[1..] ==> u in list
  {
  }

  method Unsuspend(ghost readyList: Thread?, suspendedList: Thread?, t: Thread, ghost ready: seq<Thread>, ghost suspended: seq<Thread>)
    returns (newSuspended: Thread?)
    requires TwoLists(readyList, suspendedList, ready, suspended)
    modifies suspended`next
    ensures TwoLists(readyList, newSuspended, ready, Without(suspended, t))
  {
    hide Distinct, Without;
    WithoutExact(suspended, t);
    newSuspended := ListRemove(suspendedList, t, suspended);
    forall i | 0 <= i < |ready|
      ensures ready[i].next == old(ready[i].next)
    {
      assert ready[i] !in suspended;
    }
  }

  // ---------- the objects and the value they stand for ----------

  ghost predicate ThreadOk(t: Thread, state: ThreadState, blocker: Option<Semaphore>, context: Cont<Semaphore>)
    reads t`state, t`blocker, t`context
  {
    && t.state == state && t.context == context
    && t.blocker == (match blocker case None => null case Some(s) => s)
  }

  ghost predicate ThreadsOk(threads: set<Thread>, state: map<Thread, ThreadState>,
                            blocker: map<Thread, Option<Semaphore>>, cont: map<Thread, Cont<Semaphore>>)
    reads threads`state, threads`blocker, threads`context
  {
    forall t :: t in threads ==> t in state && t in blocker && t in cont && ThreadOk(t, state[t], blocker[t], cont[t])
  }

  lemma Listed<T, S>(x: Sys<T, S>)
    requires Shape(x)
    ensures x.current in x.state && x.current in x.cont
    ensures forall t :: t in x.ready || t in x.suspended ==> t in x.state
  {
  }

  lemma ShapeCpu<T, S>(x: Sys<T, S>, cpu: Cpu<S>)
    requires Shape(x)
    ensures Shape(x.(cpu := cpu))
  {
  }

  lemma ThreadIs(t: Thread, threads: set<Thread>, x: Sys<Thread, Semaphore>)
    requires ThreadsOk(threads, x.state, x.blocker, x.cont) && t in threads
    ensures t in x.state && t in x.cont && t in x.blocker && t.state == x.state[t] && t.context == x.cont[t]
  {
  }

  /** The lock words: one for the scheduler, one for each semaphore. */
  ghost predicate LocksOk(p: Processor<Semaphore>, schedulerLock: SpinWord<Semaphore>, semaphores: set<Semaphore>)
    reads semaphores`lock, p`interrupts, p`spinLockCount, p`interruptsEnabled, p`cpu, p`words, p.words`taken
  {
    && p.Valid()
    && schedulerLock in p.words && schedulerLock.name == SchedulerLock
    && (forall s :: s in semaphores ==> s.lock != null && s.lock in p.words && s.lock.name == SemaphoreLock(s))
    && (forall w :: w in p.words && w.name.SemaphoreLock? ==> w.name.s in semaphores)
    && (forall l :: l in p.cpu.held && l.SemaphoreLock? ==> l.s in semaphores)
  }

  method Acquire(p: Processor<Semaphore>, lock: SpinWord<Semaphore>, ghost schedulerLock: SpinWord<Semaphore>, ghost semaphores: set<Semaphore>)
    returns (r: Outcome<()>)
    requires LocksOk(p, schedulerLock, semaphores) && lock in p.words
    modifies p`interrupts, p`spinLockCount, p`interruptsEnabled, p`cpu, lock`taken
    ensures Agrees(r, SpinLock(old(p.cpu), lock.name))
    ensures r.Done? ==> LocksOk(p, schedulerLock, semaphores) && p.cpu == SpinLock(old(p.cpu), lock.name).value
  {
    r := p.SpinLock(lock);
  }

  method Release(p: Processor<Semaphore>, lock: SpinWord<Semaphore>, ghost schedulerLock: SpinWord<Semaphore>, ghost semaphores: set<Semaphore>)
    returns (r: Outcome<()>)
    requires LocksOk(p, schedulerLock, semaphores) && lock in p.words
    modifies p`interrupts, p`spinLockCount, p`interruptsEnabled, p`cpu, lock`taken
    ensures Agrees(r, SpinUnlock(old(p.cpu), lock.name))
    ensures r.Done? ==> LocksOk(p, schedulerLock, semaphores) && p.cpu == SpinUnlock(old(p.cpu), lock.name).value
  {
    r := p.SpinUnlock(lock);
  }

  /** The end of thread_schedule puts back the flag kept on the stack. */
  method PutBack(p: Processor<Semaphore>, enabled: bool, ghost schedulerLock: SpinWord<Semaphore>, ghost semaphores: set<Semaphore>)
    requires LocksOk(p, schedulerLock, semaphores)
    modifies p`interruptsEnabled, p`cpu
    ensures LocksOk(p, schedulerLock, semaphores) && p.cpu == old(p.cpu).(enabled := enabled)
  {
    p.interruptsEnabled := enabled;
    p.cpu := p.cpu.(enabled := enabled);
  }

  lemma LockOf(p: Processor<Semaphore>, schedulerLock: SpinWord<Semaphore>, semaphores: set<Semaphore>, s: Semaphore)
    requires LocksOk(p, schedulerLock, semaphores) && s in semaphores
    ensures s.lock != null && s.lock in p.words && s.lock.name == SemaphoreLock(s)
  {
  }

  lemma LocksAre(p: Processor<Semaphore>, schedulerLock: SpinWord<Semaphore>, semaphores: set<Semaphore>)
    requires LocksOk(p, schedulerLock, semaphores)
    ensures schedulerLock.taken == (SchedulerLock in p.cpu.held)
    ensures schedulerLock in p.words && schedulerLock.name == SchedulerLock
    ensures p.interrupts == p.cpu.interrupts && p.spinLockCount == p.cpu.spinCount && p.interruptsEnabled == p.cpu.enabled
  {
  }

  function NodeAt(q: seq<Waiter>, i: nat): Waiter? {
    if i < |q| then q[i] else null
  }

  /** The waiter nodes q hang off s in order and name the threads ws. */
  ghost predicate QueueOk(s: Semaphore, q: seq<Waiter>, ws: seq<Thread>)
    reads s`head, s`tail, q`next
  {
    && s.head == NodeAt(q, 0) && s.tail == (if q == [] then null else q[|q| - 1])
    && Distinct(q) && |q| == |ws|
    && (forall i {:trigger q[i]} :: 0 <= i < |q| ==> q[i].thread == ws[i] && q[i].next == NodeAt(q, i + 1))
  }

  /** No waiter node is in two queues. */
  ghost predicate Apart(queues: map<Semaphore, seq<Waiter>>) {
    forall s, u, w :: s in queues && u in queues && w in queues[s] && w in queues[u] ==> s == u
  }

  ghost predicate QueuesOk(semaphores: set<Semaphore>, nodes: set<Waiter>, queues: map<Semaphore, seq<Waiter>>,
                           waiting: map<Semaphore, seq<Thread>>, count: map<Semaphore, int>)
    reads semaphores`head, semaphores`tail, semaphores`count, nodes`next
  {
    && semaphores == queues.Keys && semaphores <= waiting.Keys && semaphores <= count.Keys
    && (forall s, w :: s in queues && w in queues[s] ==> w in nodes)
    && (forall s :: s in semaphores ==> s.count == count[s] && QueueOk(s, queues[s], waiting[s]))
    && Apart(queues)
  }

  ghost predicate ListsOk(readyList: Thread?, suspendedList: Thread?, current: Thread,
                          ready: seq<Thread>, suspended: seq<Thread>)
    reads ready`next, suspended`next
  {
    && TwoLists(readyList, suspendedList, ready, suspended)
    && current !in ready && current !in suspended
  }

  lemma ListsAre(readyList: Thread?, suspendedList: Thread?, current: Thread, ready: seq<Thread>, suspended: seq<Thread>)
    requires ListsOk(readyList, suspendedList, current, ready, suspended)
    ensures Distinct(ready) && Distinct(suspended) && current !in ready && current !in suspended
    ensures readyList == At(ready, 0) && (forall t :: t in ready ==> t !in suspended)
  {
  }

  lemma ApartPush(m: Layout, s: Semaphore, waiter: Waiter)
    requires s in m.queues && Apart(m.queues) && (forall u :: u in m.queues ==> waiter !in m.queues[u])
    ensures Apart(m.queues[s := m.queues[s] + [waiter]])
  {
  }

  lemma ApartPop(m: Layout, s: Semaphore)
    requires s in m.queues && m.queues[s] != [] && Apart(m.queues)
    ensures Apart(m.queues[s := m.queues[s][1..]])
  {
  }

  /** The tail of semaphore_lock's queue code. */
  method AppendNode(s: Semaphore, waiter: Waiter, ghost q: seq<Waiter>, ghost ws: seq<Thread>)
    requires QueueOk(s, q, ws) && waiter !in q && waiter.next == null
    modifies s`head, s`tail, (if q == [] then {} else {q[|q| - 1]})`next
    ensures QueueOk(s, q + [waiter], ws + [waiter.thread])
  {
    if s.tail == null {
      s.head, s.tail := waiter, waiter;
    } else {
      s.tail.next := waiter;
      s.tail := waiter;
    }
  }

  /** Appends a waiter for the thread t to the queue of s. */
  method PushWaiter(s: Semaphore, t: Thread, ghost waiting: map<Semaphore, seq<Thread>>, ghost count: map<Semaphore, int>, ghost m: Layout)
    returns (waiter: Waiter)
    requires QueuesOk(m.semaphores, m.nodes, m.queues, waiting, count) && s in m.semaphores
    modifies s`head, s`tail, m.nodes`next
    ensures fresh(waiter) && waiter.thread == t
    ensures s in m.queues && s in waiting
    ensures QueuesOk(m.semaphores, m.nodes + {waiter}, m.queues[s := m.queues[s] + [waiter]], waiting[s := waiting[s] + [t]], count)
  {
    hide Distinct, QueueOk;
    waiter := new Waiter(t);
    ghost var q := m.queues[s];
    assert q != [] ==> q[|q| - 1] in q;
    AppendNode(s, waiter, q, waiting[s]);
    hide Apart;
    ApartPush(m, s, waiter);
  }

  method DropNode(s: Semaphore, ghost q: seq<Waiter>, ghost ws: seq<Thread>) returns (waiter: Waiter)
    requires QueueOk(s, q, ws) && s.head != null
    modifies s`head, s`tail
    ensures q != [] && ws != [] && waiter == q[0] && waiter.thread == ws[0]
    ensures QueueOk(s, q[1..], ws[1..])
  {
    DistinctEnds(q, s.head);
    waiter := s.head;
    s.head := waiter.next;
    if s.head == null {
      s.tail := null;
    }
  }

  /** Takes the first waiter off the queue of s. */
  method PopWaiter(s: Semaphore, ghost waiting: map<Semaphore, seq<Thread>>, ghost count: map<Semaphore, int>, ghost m: Layout)
    returns (waiter: Waiter)
    requires QueuesOk(m.semaphores, m.nodes, m.queues, waiting, count) && s in m.semaphores && s.head != null
    modifies s`head, s`tail
    ensures s in m.queues && s in waiting && m.queues[s] != [] && waiting[s] != []
    ensures waiter.thread == waiting[s][0]
    ensures QueuesOk(m.semaphores, m.nodes, m.queues[s := m.queues[s][1..]], waiting[s := waiting[s][1..]], count)
  {
    hide Distinct, QueueOk, Apart;
    waiter := DropNode(s, m.queues[s], waiting[s]);
    ApartPop(m, s);
  }

  /** The sets and maps that locate the objects. */
  datatype Layout = Layout(threads: set<Thread>, semaphores: set<Semaphore>, nodes: set<Waiter>, queues: map<Semaphore, seq<Waiter>>)

  /** The objects, and the links between them, stand for x (but for its processor). */
  ghost predicate Rep(readyList: Thread?, suspendedList: Thread?, x: Sys<Thread, Semaphore>, m: Layout)
    reads m.threads`next, m.threads`state, m.threads`blocker, m.threads`context
    reads m.semaphores`head, m.semaphores`tail, m.semaphores`count, m.nodes`next
    ensures Rep(readyList, suspendedList, x, m) ==> Shape(x) && m.threads == x.state.Keys && m.semaphores == x.count.Keys
  {
    && Shape(x) && m.threads == x.state.Keys && m.semaphores == x.count.Keys
    && (forall t :: t in x.ready ==> x.state[t] == Ready)
    && ListsOk(readyList, suspendedList, x.current, x.ready, x.suspended)
    && ThreadsOk(m.threads, x.state, x.blocker, x.cont)
    && QueuesOk(m.semaphores, m.nodes, m.queues, x.waiters, x.count)
  }

  /** The same, except that the current thread may be in ready_list: it has been woken before it yielded. */
  ghost predicate LooseRep(readyList: Thread?, suspendedList: Thread?, x: Sys<Thread, Semaphore>, m: Layout)
    reads m.threads`next, m.threads`state, m.threads`blocker, m.threads`context
    reads m.semaphores`head, m.semaphores`tail, m.semaphores`count, m.nodes`next
    ensures LooseRep(readyList, suspendedList, x, m) ==> Shape(x)
  {
    && Shape(x) && m.threads == x.state.Keys && m.semaphores == x.count.Keys
    && (forall t :: t in x.ready ==> x.state[t] == Ready)
    && TwoLists(readyList, suspendedList, x.ready, x.suspended) && x.current !in x.suspended
    && ThreadsOk(m.threads, x.state, x.blocker, x.cont)
    && QueuesOk(m.semaphores, m.nodes, m.queues, x.waiters, x.count)
  }

  lemma RepIsLoose(readyList: Thread?, suspendedList: Thread?, x: Sys<Thread, Semaphore>, m: Layout)
    requires Rep(readyList, suspendedList, x, m)
    ensures LooseRep(readyList, suspendedList, x, m)
  {
  }

  // ---------- the scheduler ----------

  /** The last part of thread_schedule as a function of the state. */
  function Rotated<T(==), S(==)>(x: Sys<T, S>, enabled: bool, entered: bool): (r: Outcome<Sys<T, S>>)
    requires Shape(x)
    ensures r.Done? ==> Shape(r.value)
  {
    var ready := if x.state[x.current] == Ready then x.ready + [x.current] else x.ready;
    var suspended := if x.state[x.current] == Ready then x.suspended else x.suspended + [x.current];
    if ready == [] then Fatal(NoThread)
    else
      var left := x.cont[x.current].(parked := InSwitch(enabled, entered));
      Done(x.(ready := ready[1..], suspended := suspended, state := x.state[ready[0] := Running],
              cont := x.cont[x.current := left], current := ready[0]))
  }

  lemma ScheduleRotates<T, S>(x: Sys<T, S>, entered: bool)
    requires Shape(x) && SchedulerLock in x.cpu.held && x.cpu.spinCount == 1 && !x.cpu.interrupts
    requires x.state[x.current] != Running && !(x.ready == [] && x.state[x.current] == Ready)
    ensures Agrees(Schedule(x, entered), Rotated(x, x.cpu.enabled, entered))
    ensures Schedule(x, entered).Done? ==> Schedule(x, entered).value.0 == Rotated(x, x.cpu.enabled, entered).value
  {
  }

  lemma RotatedCpu<T, S>(x: Sys<T, S>, cpu: Cpu<S>, entered: bool)
    requires Shape(x) && Shape(x.(cpu := cpu))
    ensures var r := Rotated(x, cpu.enabled, entered); var s := Rotated(x.(cpu := cpu), cpu.enabled, entered);
      Agrees(r, s) && (r.Done? ==> r.value.(cpu := cpu) == s.value)
  {
  }

  lemma RotatedReady<T, S>(x: Sys<T, S>, enabled: bool, entered: bool)
    requires Shape(x) && Rotated(x, enabled, entered).Done? && (forall t :: t in x.ready ==> x.state[t] == Ready)
    requires Distinct(x.ready) && x.current !in x.ready
    ensures var r := Rotated(x, enabled, entered).value;
      r.state.Keys == x.state.Keys && r.count == x.count && r.waiters == x.waiters && (forall t :: t in r.ready ==> r.state[t] == Ready)
  {
  }

  method SwitchLists(readyList: Thread?, suspendedList: Thread?, current: Thread, toReady: bool, ghost x: Sys<Thread, Semaphore>)
    returns (newReady: Thread?, newSuspended: Thread?, newThread: Thread?)
    requires ListsOk(readyList, suspendedList, current, x.ready, x.suspended)
    modifies x.ready`next, x.suspended`next, current`next
    ensures var ready := if toReady then x.ready + [current] else x.ready;
      var suspended := if toReady then x.suspended else x.suspended + [current];
      if ready == [] then newThread == null
      else newThread == ready[0] && ListsOk(newReady, newSuspended, ready[0], ready[1..], suspended)
  {
    hide TwoLists;
    ghost var ready := if toReady then x.ready + [current] else x.ready;
    ghost var suspended := if toReady then x.suspended else x.suspended + [current];
    newReady, newSuspended := Enqueue(readyList, suspendedList, current, toReady, x.ready, x.suspended);
    newReady, newThread := Dequeue(newReady, newSuspended, ready, suspended);
  }

  method SwitchThreads(oldThread: Thread, newThread: Thread, parked: Parked,
                       ghost threads: set<Thread>, ghost x: Sys<Thread, Semaphore>)
    requires ThreadsOk(threads, x.state, x.blocker, x.cont) && oldThread in threads && newThread in threads
    modifies newThread`state, oldThread`context
    ensures oldThread in x.cont
    ensures ThreadsOk(threads, x.state[newThread := Running], x.blocker,
                      x.cont[oldThread := x.cont[oldThread].(parked := parked)])
  {
    newThread.state := Running;
    oldThread.context := oldThread.context.(parked := parked);
  }

  /** The lists and states of a switch: the current thread is queued, the first ready thread runs. */
  method Switch(readyList: Thread?, suspendedList: Thread?, current: Thread, enabled: bool, entered: bool,
                ghost x: Sys<Thread, Semaphore>, ghost m: Layout)
    returns (newReady: Thread?, newSuspended: Thread?, newThread: Thread?)
    requires Rep(readyList, suspendedList, x, m) && current == x.current && x.state[current] != Running
    modifies m.threads`next, m.threads`state, m.threads`context
    ensures var r := Rotated(x, enabled, entered);
      if newThread == null then r == Fatal(NoThread)
      else r.Done? && newThread == r.value.current && Rep(newReady, newSuspended, r.value, m)
  {
    hide ListsOk, ThreadsOk, QueuesOk, Shape, Distinct;
    Listed(x);
    ListsAre(readyList, suspendedList, current, x.ready, x.suspended);
    ThreadIs(current, m.threads, x);
    newReady, newSuspended, newThread := SwitchLists(readyList, suspendedList, current, current.state == Ready, x);
    if newThread != null {
      RotatedReady(x, enabled, entered);
      SwitchThreads(current, newThread, InSwitch(enabled, entered), m.threads, x);
    }
  }

  lemma RepIs(readyList: Thread?, suspendedList: Thread?, x: Sys<Thread, Semaphore>, m: Layout)
    requires Rep(readyList, suspendedList, x, m)
    ensures x.current in x.cont && x.current in m.threads && x.current.state == x.state[x.current] && x.current.context == x.cont[x.current]
    ensures readyList == null <==> x.ready == []
  {
    ThreadIs(x.current, m.threads, x);
  }

  lemma RepThread(readyList: Thread?, suspendedList: Thread?, x: Sys<Thread, Semaphore>, m: Layout, t: Thread)
    requires Rep(readyList, suspendedList, x, m) && t in m.threads
    ensures t in x.state && t.state == x.state[t]
  {
    ThreadIs(t, m.threads, x);
  }

  method SetState(t: Thread, state: ThreadState, ghost threads: set<Thread>, ghost x: Sys<Thread, Semaphore>)
    requires ThreadsOk(threads, x.state, x.blocker, x.cont) && t in threads
    modifies t`state
    ensures ThreadsOk(threads, x.state[t := state], x.blocker, x.cont)
  {
    t.state := state;
  }

  lemma StateShape<T, S>(x: Sys<T, S>, t: T, state: ThreadState)
    requires Shape(x) && t in x.state
    ensures Shape(x.(state := x.state[t := state]))
  {
  }

  method SetCurrentState(t: Thread, state: ThreadState, ghost readyList: Thread?, ghost suspendedList: Thread?,
                         ghost x: Sys<Thread, Semaphore>, ghost m: Layout)
    requires Rep(readyList, suspendedList, x, m) && t == x.current
    modifies t`state
    ensures Rep(readyList, suspendedList, x.(state := x.state[t := state]), m)
  {
    ListsAre(readyList, suspendedList, t, x.ready, x.suspended);
    StateShape(x, t, state);
    hide ListsOk, ThreadsOk, QueuesOk, Distinct, Shape;
    SetState(t, state, m.threads, x);
  }

  function Woken<T(==), S(==)>(x: Sys<T, S>, t: T): Sys<T, S> {
    x.(state := x.state[t := Ready], blocker := x.blocker[t := None],
       suspended := Without(x.suspended, t), ready := x.ready + [t])
  }

  function Blocked<T(==), S(==)>(x: Sys<T, S>, s: S): Sys<T, S>
    requires s in x.waiters && x.current in x.cont
  {
    x.(waiters := x.waiters[s := x.waiters[s] + [x.current]],
       state := x.state[x.current := Suspended], blocker := x.blocker[x.current := Some(s)],
       cont := x.cont[x.current := x.cont[x.current].(place := Gap(s))])
  }

  lemma WokenShape<T, S>(x: Sys<T, S>, t: T)
    requires Shape(x) && t in x.state
    ensures Shape(Woken(x, t))
  {
    WithoutIn(x.suspended, t);
  }

  lemma BlockedShape<T, S>(x: Sys<T, S>, s: S)
    requires Shape(x) && s in x.count
    ensures s in x.waiters && x.current in x.cont && Shape(Blocked(x, s))
  {
  }

  /** The list part of thread_wakeup. */
  method WakeLists(readyList: Thread?, suspendedList: Thread?, t: Thread, ghost current: Thread,
                   ghost ready: seq<Thread>, ghost suspended: seq<Thread>)
    returns (newReady: Thread?, newSuspended: Thread?)
    requires ListsOk(readyList, suspendedList, current, ready, suspended) && t !in ready
    modifies ready`next, suspended`next, t`next
    ensures TwoLists(newReady, newSuspended, ready + [t], Without(suspended, t)) && current !in Without(suspended, t)
    ensures t != current ==> ListsOk(newReady, newSuspended, current, ready + [t], Without(suspended, t))
  {
    hide TwoLists, Without;
    ListsAre(readyList, suspendedList, current, ready, suspended);
    WithoutExact(suspended, t);
    newSuspended := Unsuspend(readyList, suspendedList, t, ready, suspended);
    newReady, newSuspended := Enqueue(readyList, newSuspended, t, true, ready, Without(suspended, t));
  }

  method WakeThread(t: Thread, ghost threads: set<Thread>, ghost x: Sys<Thread, Semaphore>)
    requires ThreadsOk(threads, x.state, x.blocker, x.cont) && t in threads
    modifies t`state, t`blocker
    ensures ThreadsOk(threads, x.state[t := Ready], x.blocker[t := None], x.cont)
  {
    t.state := Ready;
    t.blocker := null;
  }

  method Wake(readyList: Thread?, suspendedList: Thread?, t: Thread, ghost x: Sys<Thread, Semaphore>, ghost m: Layout)
    returns (newReady: Thread?, newSuspended: Thread?)
    requires Rep(readyList, suspendedList, x, m) && t in m.threads && t.state == Suspended
    modifies m.threads`next, m.threads`state, m.threads`blocker
    ensures LooseRep(newReady, newSuspended, Woken(x, t), m) && (t != x.current ==> Rep(newReady, newSuspended, Woken(x, t), m))
  {
    hide ListsOk, TwoLists, ThreadsOk, QueuesOk, Shape, Distinct, Without;
    ThreadIs(t, m.threads, x);
    Listed(x);
    WokenShape(x, t);
    WakeThread(t, m.threads, x);
    newReady, newSuspended := WakeLists(readyList, suspendedList, t, x.current, x.ready, x.suspended);
  }

  method SetContext(t: Thread, context: Cont<Semaphore>, ghost readyList: Thread?, ghost suspendedList: Thread?,
                    ghost x: Sys<Thread, Semaphore>, ghost m: Layout)
    requires Rep(readyList, suspendedList, x, m) && t in m.threads
    modifies t`context
    ensures Rep(readyList, suspendedList, x.(cont := x.cont[t := context]), m)
  {
    hide ListsOk, QueuesOk, Distinct;
    t.context := context;
  }

  /** Turns the interrupt flag on or off outside every spin lock. */
  method SetInterrupts(p: Processor<Semaphore>, on: bool, ghost schedulerLock: SpinWord<Semaphore>, ghost semaphores: set<Semaphore>)
    requires LocksOk(p, schedulerLock, semaphores)
    modifies p`interrupts, p`cpu
    ensures LocksOk(p, schedulerLock, semaphores) && p.cpu == old(p.cpu).(interrupts := on)
  {
    p.interrupts := on;
    p.cpu := p.cpu.(interrupts := on);
  }

  /** A new thread at the end of ready_list. */
  method Admit(readyList: Thread?, suspendedList: Thread?, t: Thread, ghost x: Sys<Thread, Semaphore>, ghost m: Layout)
    returns (newReady: Thread?)
    requires Rep(readyList, suspendedList, x, m) && t !in x.state && ThreadOk(t, Ready, None, Cont(User, false, NewBorn))
    modifies m.threads`next, t`next
    ensures Shape(Admitted(x, t)) && Rep(newReady, suspendedList, Admitted(x, t), m.(threads := m.threads + {t}))
  {
    hide TwoLists, QueuesOk, Distinct;
    Listed(x);
    AdmittedShape(x, t);
    var newSuspended;
    newReady, newSuspended := Enqueue(readyList, suspendedList, t, true, x.ready, x.suspended);
  }

  function Admitted<T(==), S(==)>(x: Sys<T, S>, t: T): Sys<T, S> {
    x.(state := x.state[t := Ready], blocker := x.blocker[t := None],
       cont := x.cont[t := Cont(User, false, NewBorn)], ready := x.ready + [t])
  }

  lemma AdmittedShape<T, S>(x: Sys<T, S>, t: T)
    requires Shape(x)
    ensures Shape(Admitted(x, t))
  {
  }

  method AddCount(s: Semaphore, change: int, ghost readyList: Thread?, ghost suspendedList: Thread?,
                  ghost x: Sys<Thread, Semaphore>, ghost m: Layout)
    requires Rep(readyList, suspendedList, x, m) && s in m.semaphores
    modifies s`count
    ensures Rep(readyList, suspendedList, x.(count := x.count[s := x.count[s] + change]), m)
  {
    hide ListsOk, ThreadsOk, QueueOk, Distinct, Apart;
    s.count := s.count + change;
  }

  /** The other threads in ready_list are ready. */
  ghost predicate Waking<T, S>(x: Sys<T, S>) {
    x.current !in x.ready && forall t :: t in x.ready ==> t in x.state && x.state[t] == Ready
  }

  lemma RepParts(readyList: Thread?, suspendedList: Thread?, x: Sys<Thread, Semaphore>, m: Layout, s: Semaphore)
    requires Rep(readyList, suspendedList, x, m) && s in m.semaphores
    ensures s in x.count && s in x.waiters && x.current in x.cont && s in m.queues
    ensures ListsOk(readyList, suspendedList, x.current, x.ready, x.suspended)
    ensures ThreadsOk(m.threads, x.state, x.blocker, x.cont)
    ensures QueuesOk(m.semaphores, m.nodes, m.queues, x.waiters, x.count)
    ensures Shape(Blocked(x, s)) && m.threads == x.state.Keys && m.semaphores == x.count.Keys && Waking(x)
    ensures x.current in m.threads
  {
    Listed(x);
    BlockedShape(x, s);
    ListsAre(readyList, suspendedList, x.current, x.ready, x.suspended);
  }

  lemma BlockedRep(s: Semaphore, readyList: Thread?, suspendedList: Thread?, x: Sys<Thread, Semaphore>, m: Layout, w: Waiter)
    requires Shape(x) && s in x.count && s in x.waiters && x.current in x.cont && s in m.queues && Shape(Blocked(x, s))
    requires m.threads == x.state.Keys && m.semaphores == x.count.Keys && Waking(x)
    requires ListsOk(readyList, suspendedList, x.current, x.ready, x.suspended)
    requires var b := Blocked(x, s); ThreadsOk(m.threads, b.state, b.blocker, b.cont)
    requires QueuesOk(m.semaphores, m.nodes + {w}, m.queues[s := m.queues[s] + [w]], Blocked(x, s).waiters, x.count)
    ensures Rep(readyList, suspendedList, Blocked(x, s), m.(nodes := m.nodes + {w}, queues := m.queues[s := m.queues[s] + [w]]))
  {
    hide ListsOk, ThreadsOk, QueuesOk, Distinct;
  }

  /** Queues the current thread on s and suspends it. */
  method Block(s: Semaphore, t: Thread, ghost readyList: Thread?, ghost suspendedList: Thread?,
               ghost x: Sys<Thread, Semaphore>, ghost m: Layout) returns (ghost w: Waiter)
    requires Rep(readyList, suspendedList, x, m) && s in m.semaphores && t == x.current
    modifies s`head, s`tail, m.nodes`next, t`state, t`blocker, t`context
    ensures s in x.waiters && x.current in x.cont && s in m.queues && fresh(w)
    ensures Rep(readyList, suspendedList, Blocked(x, s), m.(nodes := m.nodes + {w}, queues := m.queues[s := m.queues[s] + [w]]))
  {
    hide Rep, ListsOk, ThreadsOk, QueuesOk, Shape, Waking;
    RepParts(readyList, suspendedList, x, m, s);
    SuspendThread(s, t, m.threads, x);
    var waiter := PushWaiter(s, t, x.waiters, x.count, m);
    w := waiter;
    BlockedRep(s, readyList, suspendedList, x, m, w);
  }

  method SuspendThread(s: Semaphore, t: Thread, ghost threads: set<Thread>, ghost x: Sys<Thread, Semaphore>)
    requires ThreadsOk(threads, x.state, x.blocker, x.cont) && t in threads
    modifies t`state, t`blocker, t`context
    ensures t in x.cont
    ensures ThreadsOk(threads, x.state[t := Suspended], x.blocker[t := Some(s)], x.cont[t := x.cont[t].(place := Gap(s))])
  {
    t.state := Suspended;
    t.blocker := s;
    t.context := t.context.(place := Gap(s));
  }

  lemma WaitersShape<T, S>(x: Sys<T, S>, s: S)
    requires Shape(x) && s in x.waiters && x.waiters[s] != []
    ensures Shape(x.(waiters := x.waiters[s := x.waiters[s][1..]])) && x.waiters[s][0] in x.state
  {
    assert x.waiters[s][0] in x.waiters[s];
  }

  method Unqueue(s: Semaphore, ghost readyList: Thread?, ghost suspendedList: Thread?,
                 ghost x: Sys<Thread, Semaphore>, ghost m: Layout) returns (waiter: Waiter)
    requires Rep(readyList, suspendedList, x, m) && s in m.semaphores && s.head != null
    modifies s`head, s`tail
    ensures s in x.waiters && s in m.queues && x.waiters[s] != [] && m.queues[s] != []
    ensures waiter.thread == x.waiters[s][0] && waiter.thread in m.threads
    ensures Rep(readyList, suspendedList, x.(waiters := x.waiters[s := x.waiters[s][1..]]),
                m.(queues := m.queues[s := m.queues[s][1..]]))
  {
    hide ListsOk, ThreadsOk, QueuesOk, Shape, Distinct;
    waiter := PopWaiter(s, x.waiters, x.count, m);
    WaitersShape(x, s);
  }

  lemma RepSemaphore(readyList: Thread?, suspendedList: Thread?, x: Sys<Thread, Semaphore>, m: Layout, s: Semaphore)
    requires Rep(readyList, suspendedList, x, m) && s in m.semaphores
    ensures s in x.count && s in x.waiters && s.count == x.count[s] && (s.head == null <==> x.waiters[s] == [])
  {
    assert QueueOk(s, m.queues[s], x.waiters[s]);
  }

  /** semaphore_lock and semaphore_unlock between their spin_lock and spin_unlock. */
  function TakenOrBlocked<T(==), S(==)>(x: Sys<T, S>, s: S): Sys<T, S>
    requires s in x.count && s in x.waiters && x.current in x.cont
  {
    if x.count[s] > 0 then x.(count := x.count[s := x.count[s] - 1]) else Blocked(x, s)
  }

  lemma SemLockParts<T, S>(x: Sys<T, S>, y: Sys<T, S>, s: S)
    requires Shape(x) && Shape(y) && y == x.(cpu := y.cpu) && s in x.count
    ensures s in x.waiters && x.current in x.cont
    ensures var r := SemLock(y, s); var taken := SpinLock(y.cpu, SemaphoreLock(s));
      if !taken.Done? then Agrees(taken, r)
      else
        var freed := SpinUnlock(taken.value, SemaphoreLock(s));
        Agrees(freed, r) && (freed.Done? ==> r.value == TakenOrBlocked(x, s).(cpu := freed.value))
  {
  }

  function GivenOrCounted<T(==), S(==)>(x: Sys<T, S>, s: S): (r: Outcome<Sys<T, S>>)
    requires Shape(x) && s in x.count
    ensures r.Done? ==> Shape(r.value)
  {
    if x.waiters[s] == [] then Done(x.(count := x.count[s := x.count[s] + 1]))
    else
      WaitersShape(x, s);
      Wakeup(x.(waiters := x.waiters[s := x.waiters[s][1..]]), x.waiters[s][0])
  }

  lemma SemUnlockParts<T, S>(x: Sys<T, S>, y: Sys<T, S>, s: S)
    requires Shape(x) && Shape(y) && y == x.(cpu := y.cpu) && s in x.count
    ensures var r := SemUnlock(x, s); var taken := SpinLock(x.cpu, SemaphoreLock(s));
      if !taken.Done? then Agrees(taken, r)
      else y.cpu == taken.value ==>
        var given := GivenOrCounted(y, s);
        if !given.Done? then Agrees(given, r)
        else
          var freed := SpinUnlock(given.value.cpu, SemaphoreLock(s));
          Agrees(freed, r) && (freed.Done? ==> r.value == given.value.(cpu := freed.value))
  {
  }

  lemma SemTryLockParts<T, S>(x: Sys<T, S>, y: Sys<T, S>, s: S)
    requires Shape(x) && Shape(y) && y == x.(cpu := y.cpu) && s in x.count
    ensures var r := SemTryLock(y, s); var taken := SpinLock(y.cpu, SemaphoreLock(s)); var n := x.count[s];
      if !taken.Done? then Agrees(taken, r)
      else
        var freed := SpinUnlock(taken.value, SemaphoreLock(s));
        var count := if n > 0 then x.count[s := n - 1] else x.count;
        Agrees(freed, r) && (freed.Done? ==> r.value == (x.(cpu := freed.value, count := count), n > 0))
  {
  }

  method FirstThread() returns (t: Thread)
    ensures fresh(t) && Rep(null, null, Boot(t), Layout({t}, {}, {}, map[]))
  {
    t := new Thread();
    t.state := Running;
    t.context := Cont(User, false, NotParked);
  }

  method FirstLock() returns (p: Processor<Semaphore>, w: SpinWord<Semaphore>)
    ensures fresh(p) && fresh(p.words) && LocksOk(p, w, {}) && p.cpu == Cpu(true, 0, true, {})
  {
    p := new Processor<Semaphore>();
    w := p.Define(SchedulerLock);
  }

  /** A semaphore with n permits and no waiters joins the others. */
  lemma WithSemaphore(s: Semaphore, n: nat, readyList: Thread?, suspendedList: Thread?, x: Sys<Thread, Semaphore>, m: Layout)
    requires Rep(readyList, suspendedList, x, m) && s !in m.semaphores
    requires s.count == n && s.head == null && s.tail == null
    ensures Rep(readyList, suspendedList, x.(count := x.count[s := n], waiters := x.waiters[s := []]),
                m.(semaphores := m.semaphores + {s}, queues := m.queues[s := []]))
  {
    hide ListsOk, ThreadsOk, Distinct, Apart, QueueOk;
    QueueEmpty(s);
    ApartEmpty(m, s);
  }

  lemma ApartEmpty(m: Layout, s: Semaphore)
    requires Apart(m.queues)
    ensures Apart(m.queues[s := []])
  {
  }

  method AddLock(s: Semaphore, p: Processor<Semaphore>, ghost schedulerLock: SpinWord<Semaphore>, ghost semaphores: set<Semaphore>)
    requires LocksOk(p, schedulerLock, semaphores) && s !in semaphores
    modifies p`words, s`lock
    ensures s.lock != null && fresh(s.lock) && p.words == old(p.words) + {s.lock}
    ensures LocksOk(p, schedulerLock, semaphores + {s})
  {
    s.lock := p.Define(SemaphoreLock(s));
  }

  lemma QueueEmpty(s: Semaphore)
    requires s.head == null && s.tail == null
    ensures QueueOk(s, [], [])
  {
  }

  /** A thread that runs outside semaphore_lock waits for nothing. */
  lemma NotWaiting<T, S>(x: Sys<T, S>, idle: T, s: S)
    requires Safe(x, idle) && x.cont[x.current].place.User? && s in x.count
    ensures s in x.waiters && x.current !in x.waiters[s]
  {
  }

  predicate Creates<T, S>(e: Event<T, S>) {
    e.Spawn? || e.InitSem?
  }

  lemma RunOneMore<T, S>(x: Sys<T, S>, idle: T, es: seq<Event<T, S>>, i: nat)
    requires Safe(x, idle) && i < |es| && LegalRun(x, idle, es[i..])
    ensures Legal(x, idle, es[i]) && Step(x, idle, es[i]).Done?
    ensures var y := Step(x, idle, es[i]).value;
      LegalRun(y, idle, es[i + 1..]) && Run(y, idle, es[i + 1..]) == Run(x, idle, es[i..])
  {
    assert es[i..][1..] == es[i + 1..];
    StepSafe(x, idle, es[i]);
    hide Safe, Step, Legal;
  }

  lemma RunNone<T, S>(x: Sys<T, S>, idle: T, es: seq<Event<T, S>>)
    requires Shape(x) && es == [] && LegalRun(x, idle, es)
    ensures Run(x, idle, es) == Done(x)
  {
  }

  class Scheduler {
    const processor: Processor<Semaphore>
    const schedulerLock: SpinWord<Semaphore>
    var current: Thread
    var readyList: Thread?
    var suspendedList: Thread?

    // The state as a value, but for the processor.
    ghost var core: Sys<Thread, Semaphore>
    ghost var m: Layout

    ghost function Value(): (x: Sys<Thread, Semaphore>)
      requires Shape(core)
      reads this`core, processor`cpu
      ensures Shape(x)
    {
      core.(cpu := processor.cpu)
    }

    ghost predicate Valid()
      reads this, m.threads, m.semaphores, m.nodes, processor, processor.words
      ensures Valid() ==> Shape(core)
    {
      && current == core.current
      && Rep(readyList, suspendedList, core, m)
      && LocksOk(processor, schedulerLock, m.semaphores)
    }

    /** Valid, but that the current thread may be in ready_list. */
    ghost predicate Loose()
      reads this, m.threads, m.semaphores, m.nodes, processor, processor.words
      ensures Loose() ==> Shape(core)
    {
      && current == core.current
      && LooseRep(readyList, suspendedList, core, m)
      && LocksOk(processor, schedulerLock, m.semaphores)
    }

    /** thread_init */
    constructor ()
      ensures Valid() && fresh(m.threads) && fresh(processor) && fresh(processor.words)
      ensures Value() == Boot(current)
    {
      hide Rep, LocksOk;
      var thread0 := FirstThread();
      current := thread0;
      readyList, suspendedList := null, null;
      var p, w := FirstLock();
      processor, schedulerLock := p, w;
      core := Boot(thread0);
      m := Layout({thread0}, {}, {}, map[]);
    }

    // ---------- thread.c ----------

    /** Switches to the first ready thread. */
    method Rotate(enabled: bool, entered: bool) returns (r: Outcome<()>)
      requires Rep(readyList, suspendedList, core, m) && current == core.current && core.state[core.current] != Running
      modifies this`current, this`readyList, this`suspendedList, this`core
      modifies m.threads`state, m.threads`next, m.threads`context
      ensures Agrees(r, Rotated(old(core), enabled, entered))
      ensures r.Done? ==> core == Rotated(old(core), enabled, entered).value
      ensures r.Done? ==> Rep(readyList, suspendedList, core, m) && current == core.current
    {
      hide Rep, Shape, Rotated;
      var newReady, newSuspended, newThread :=
        Switch(readyList, suspendedList, current, enabled, entered, core, m);
      if newThread == null {
        return Fatal(NoThread);
      }
      readyList, suspendedList, current, core :=
        newReady, newSuspended, newThread, Rotated(core, enabled, entered).value;
      return Done(());
    }

    /** thread_schedule up to thread_switch, which leaves the old thread's context behind. */
    method ThreadSchedule(entered: bool) returns (r: Outcome<()>)
      requires Valid()
      modifies this`current, this`readyList, this`suspendedList, this`core
      modifies m.threads`state, m.threads`next, m.threads`context
      ensures Agrees(r, Schedule(old(Value()), entered))
      ensures r.Done? ==> Valid() && Value() == Schedule(old(Value()), entered).value.0
    {
      hide Rep, LocksOk, Shape, Rotated;
      LocksAre(processor, schedulerLock, m.semaphores);
      RepIs(readyList, suspendedList, core, m);
      if !schedulerLock.taken {
        return Fatal(NotLocked);
      }
      if processor.spinLockCount != 1 {
        return Fatal(SpinCount);
      }
      if current.state == Running {
        return Fatal(StillRunning);
      }
      if processor.interrupts {
        return Fatal(InterruptsOn);
      }
      if readyList == null && current.state == Ready {
        SetCurrentState(current, Running, readyList, suspendedList, core, m);
        core := core.(state := core.state[current := Running]);
        return Done(());
      }
      ScheduleRotates(Value(), entered);
      RotatedCpu(core, processor.cpu, entered);
      r := Rotate(processor.interruptsEnabled, entered);
    }

    /** thread_yield up to thread_switch. */
    method Leave() returns (r: Outcome<()>)
      requires Valid()
      modifies this`current, this`readyList, this`suspendedList, this`core
      modifies m.threads`state, m.threads`next, m.threads`context
      modifies processor`interrupts, processor`spinLockCount, processor`interruptsEnabled, processor`cpu, schedulerLock`taken
      ensures Agrees(r, YieldEnter(old(Value())))
      ensures r.Done? ==> Valid() && Value() == YieldEnter(old(Value())).value.0
    {
      hide Rep, LocksOk, Shape, Schedule, SpinLock;
      LocksAre(processor, schedulerLock, m.semaphores);
      RepIs(readyList, suspendedList, core, m);
      var entered := processor.interrupts;
      var _ :- Acquire(processor, schedulerLock, schedulerLock, m.semaphores);
      if current.state != Running && current.state != Suspended {
        return Fatal(BadYield);
      }
      if current.state == Running {
        SetCurrentState(current, Ready, readyList, suspendedList, core, m);
        core := core.(state := core.state[current := Ready]);
      }
      r := ThreadSchedule(entered);
    }

    /** thread_yield. It returns in whichever thread has been switched to. */
    method ThreadYield() returns (r: Outcome<()>)
      requires Valid()
      modifies this`current, this`readyList, this`suspendedList, this`core
      modifies m.threads`state, m.threads`next, m.threads`context
      modifies processor`interrupts, processor`spinLockCount, processor`interruptsEnabled, processor`cpu, schedulerLock`taken
      ensures Agrees(r, Return(old(Value())))
      ensures r.Done? ==> Valid() && Value() == Return(old(Value())).value
    {
      hide Rep, LocksOk, Shape, YieldEnter, SpinUnlock;
      var _ :- Leave();
      RepIs(readyList, suspendedList, core, m);
      LocksAre(processor, schedulerLock, m.semaphores);
      if current.context.parked.InSwitch? {
        PutBack(processor, current.context.parked.enabled, schedulerLock, m.semaphores);
      }
      r := Release(processor, schedulerLock, schedulerLock, m.semaphores);
    }

    method MakeReady(t: Thread)
      requires Rep(readyList, suspendedList, core, m) && t in m.threads && t.state == Suspended
      modifies this`readyList, this`suspendedList, this`core, m.threads`state, m.threads`next, m.threads`blocker
      ensures core == Woken(old(core), t) && LooseRep(readyList, suspendedList, core, m)
      ensures t != old(core).current ==> Rep(readyList, suspendedList, core, m)
    {
      hide Rep, LooseRep, Shape, Woken;
      var newReady, newSuspended := Wake(readyList, suspendedList, t, core, m);
      readyList, suspendedList, core := newReady, newSuspended, Woken(core, t);
    }

    /**
     thread_wakeup. If the current thread wakes itself, which it can do only in the gap before its
     yield, it stays current and is in ready_list too.
     */
    method ThreadWakeup(t: Thread) returns (r: Outcome<()>)
      requires Valid() && t in m.threads
      modifies this`readyList, this`suspendedList, this`core, m.threads`state, m.threads`next, m.threads`blocker
      modifies processor`interrupts, processor`spinLockCount, processor`interruptsEnabled, processor`cpu, schedulerLock`taken
      ensures Shape(old(core)) && t in old(core).state && Agrees(r, Wakeup(old(Value()), t))
      ensures r.Done? ==> Loose() && Value() == Wakeup(old(Value()), t).value
      ensures r.Done? && t != current ==> Valid()
    {
      hide Rep, LooseRep, LocksOk, Shape, SpinLock, SpinUnlock, Without;
      LocksAre(processor, schedulerLock, m.semaphores);
      RepThread(readyList, suspendedList, core, m, t);
      var _ :- Acquire(processor, schedulerLock, schedulerLock, m.semaphores);
      if t.state != Suspended {
        return Fatal(NotSuspended);
      }
      MakeReady(t);
      r := Release(processor, schedulerLock, schedulerLock, m.semaphores);
    }

    /** What follows the return of thread_yield in the thread that runs now; iret turns interrupts on. */
    method Resume()
      requires Valid()
      modifies current`context, this`core, processor`interrupts, processor`cpu
      ensures Valid() && Shape(old(core)) && Value() == Unwind(old(Value()))
    {
      hide Rep, LocksOk, Shape;
      RepIs(readyList, suspendedList, core, m);
      var k := current.context;
      var place :=
        if k.parked.NewBorn? then Entry
        else if !k.ticked && k.place.Gap? then User
        else k.place;
      SetContext(current, Cont(place, false, NotParked), readyList, suspendedList, core, m);
      core := core.(cont := core.cont[current := Cont(place, false, NotParked)]);
      if !k.parked.NewBorn? && k.ticked {
        SetInterrupts(processor, true, schedulerLock, m.semaphores);
      }
    }

    method AppendNew(t: Thread)
      requires Rep(readyList, suspendedList, core, m) && t !in core.state && ThreadOk(t, Ready, None, Cont(User, false, NewBorn))
      modifies this`readyList, this`core, this`m, m.threads`next, t`next
      ensures Shape(old(core)) && core == Admitted(old(core), t) && m == old(m).(threads := old(m.threads) + {t})
      ensures Rep(readyList, suspendedList, core, m)
    {
      hide Rep, Shape, ThreadOk, Admitted;
      var newReady := Admit(readyList, suspendedList, t, core, m);
      readyList, core, m := newReady, Admitted(core, t), m.(threads := m.threads + {t});
    }

    /** The queueing part of thread_create. */
    method ThreadCreate() returns (r: Outcome<()>, t: Thread)
      requires Valid()
      modifies this`readyList, this`core, this`m, m.threads`next
      modifies processor`interrupts, processor`spinLockCount, processor`interruptsEnabled, processor`cpu, schedulerLock`taken
      ensures fresh(t) && Shape(old(core)) && t !in old(core).state && Agrees(r, Create(old(Value()), t))
      ensures r.Done? ==> Valid() && Value() == Create(old(Value()), t).value
      ensures r.Done? ==> m == old(m).(threads := old(m.threads) + {t})
    {
      hide Rep, LocksOk, Shape, SpinLock, SpinUnlock;
      LocksAre(processor, schedulerLock, m.semaphores);
      t := new Thread();
      if !processor.interrupts {
        return Fatal(InterruptsOff), t;
      }
      r := Acquire(processor, schedulerLock, schedulerLock, m.semaphores);
      if !r.Done? {
        return;
      }
      AppendNew(t);
      r := Release(processor, schedulerLock, schedulerLock, m.semaphores);
    }

    // ---------- semaphore.c ----------

    method ChangeCount(s: Semaphore, change: int)
      requires Rep(readyList, suspendedList, core, m) && s in m.semaphores
      modifies this`core, s`count
      ensures s in old(core).count && core == old(core).(count := old(core).count[s := old(core).count[s] + change])
      ensures Rep(readyList, suspendedList, core, m)
    {
      hide Rep, Shape;
      AddCount(s, change, readyList, suspendedList, core, m);
      core := core.(count := core.count[s := core.count[s] + change]);
    }

    method BlockCurrent(s: Semaphore)
      requires Rep(readyList, suspendedList, core, m) && s in m.semaphores && current == core.current
      modifies this`core, this`m, s`head, s`tail, m.nodes`next, current`state, current`blocker, current`context
      ensures s in old(core).waiters && current in old(core).cont && core == Blocked(old(core), s)
      ensures Rep(readyList, suspendedList, core, m)
      ensures m.threads == old(m).threads && m.semaphores == old(m).semaphores && fresh(m.nodes - old(m).nodes)
    {
      hide Rep, Shape, Blocked;
      ghost var w := Block(s, current, readyList, suspendedList, core, m);
      core, m := Blocked(core, s), m.(nodes := m.nodes + {w}, queues := m.queues[s := m.queues[s] + [w]]);
    }

    method LockWord(word: SpinWord<Semaphore>) returns (r: Outcome<()>)
      requires Valid() && word in processor.words
      modifies processor`interrupts, processor`spinLockCount, processor`interruptsEnabled, processor`cpu, word`taken
      ensures Agrees(r, SpinLock(old(processor.cpu), word.name))
      ensures r.Done? ==> Valid() && processor.cpu == SpinLock(old(processor.cpu), word.name).value
    {
      hide Rep, LocksOk, SpinLock;
      r := Acquire(processor, word, schedulerLock, m.semaphores);
    }

    method UnlockWord(word: SpinWord<Semaphore>) returns (r: Outcome<()>)
      requires Loose() && word in processor.words
      modifies processor`interrupts, processor`spinLockCount, processor`interruptsEnabled, processor`cpu, word`taken
      ensures Agrees(r, SpinUnlock(old(processor.cpu), word.name))
      ensures r.Done? ==> Loose() && processor.cpu == SpinUnlock(old(processor.cpu), word.name).value
      ensures r.Done? && old(Valid()) ==> Valid()
    {
      hide Rep, LooseRep, LocksOk, SpinUnlock;
      r := Release(processor, word, schedulerLock, m.semaphores);
    }

    lemma ValidIsLoose()
      requires Valid()
      ensures Loose()
    {
      RepIsLoose(readyList, suspendedList, core, m);
    }

    lemma ValueParts()
      requires Shape(core)
      ensures Value().count == core.count && Value().state == core.state && Value().cont == core.cont
      ensures Value().waiters == core.waiters && Value().current == core.current
    {
    }

    lemma CurrentListed()
      requires Valid()
      ensures current in m.threads && current == core.current && m.semaphores == core.count.Keys
      ensures schedulerLock in processor.words
    {
      RepIs(readyList, suspendedList, core, m);
    }

    lemma SemaphoreIs(s: Semaphore)
      requires Valid() && s in m.semaphores
      ensures s.lock != null && s.lock in processor.words && s.lock.name == Lock.SemaphoreLock(s)
      ensures s in core.count && s in core.waiters && core.current in core.cont && current == core.current
      ensures s.count == core.count[s] && (s.head == null <==> core.waiters[s] == [])
    {
      RepSemaphore(readyList, suspendedList, core, m, s);
      LockOf(processor, schedulerLock, m.semaphores, s);
      RepIs(readyList, suspendedList, core, m);
    }

    method AddToCount(s: Semaphore, change: int)
      requires Valid() && s in m.semaphores
      modifies this`core, s`count
      ensures s in old(core).count && core == old(core).(count := old(core).count[s := old(core).count[s] + change])
      ensures Valid()
    {
      hide Rep, LocksOk, Shape;
      ChangeCount(s, change);
    }

    /** Queues and suspends the current thread. */
    method BlockOn(s: Semaphore)
      requires Valid() && s in m.semaphores
      modifies this`core, this`m, s`head, s`tail, m.nodes`next, current`state, current`blocker, current`context
      ensures s in old(core).waiters && current in old(core).cont && core == Blocked(old(core), s) && Valid()
      ensures m.threads == old(m).threads && m.semaphores == old(m).semaphores && fresh(m.nodes - old(m).nodes)
    {
      hide Rep, LocksOk, Shape;
      CurrentListed();
      BlockCurrent(s);
    }

    /** What semaphore_lock does under the lock. */
    method TakeOrBlock(s: Semaphore) returns (blocked: bool)
      requires Valid() && s in m.semaphores
      modifies this`core, this`m, s`count, s`head, s`tail, m.nodes`next, current`state, current`blocker, current`context
      ensures s in old(core).count && s in old(core).waiters && current in old(core).cont && current == old(core).current
      ensures blocked == (old(core).count[s] <= 0)
      ensures core == TakenOrBlocked(old(core), s) && Valid()
      ensures m.threads == old(m).threads && m.semaphores == old(m).semaphores && fresh(m.nodes - old(m).nodes)
    {
      hide Valid, Shape, Blocked;
      SemaphoreIs(s);
      if s.count > 0 {
        blocked := false;
        AddToCount(s, -1);
      } else {
        blocked := true;
        BlockOn(s);
      }
    }

    /** The rest of semaphore_lock once it has the lock. */
    method TakeAndRelease(s: Semaphore, word: SpinWord<Semaphore>) returns (r: Outcome<()>, blocked: bool)
      requires Valid() && s in m.semaphores && word in processor.words
      modifies this`core, this`m, s`count, s`head, s`tail, m.nodes`next, current`state, current`blocker, current`context
      modifies processor`interrupts, processor`spinLockCount, processor`interruptsEnabled, processor`cpu, word`taken
      ensures s in old(core).count && s in old(core).waiters && old(core).current in old(core).cont
      ensures Agrees(r, SpinUnlock(old(processor.cpu), word.name)) && blocked == (old(core).count[s] <= 0)
      ensures r.Done? ==> Valid() && core == TakenOrBlocked(old(core), s)
      ensures r.Done? ==> processor.cpu == SpinUnlock(old(processor.cpu), word.name).value
      ensures r.Done? ==> m.threads == old(m).threads && m.semaphores == old(m).semaphores && fresh(m.nodes - old(m).nodes)
    {
      hide Valid, Loose, Shape, SpinUnlock, TakenOrBlocked;
      blocked := TakeOrBlock(s);
      ValidIsLoose();
      r := UnlockWord(word);
    }

    /** semaphore_lock, up to its call of thread_yield if it blocks. */
    method SemaphoreLock(s: Semaphore) returns (r: Outcome<()>, blocked: bool)
      requires Valid() && s in m.semaphores && s.lock != null
      modifies this`core, this`m, s`count, s`head, s`tail, m.nodes`next, current`state, current`blocker, current`context
      modifies processor`interrupts, processor`spinLockCount, processor`interruptsEnabled, processor`cpu, s.lock`taken
      ensures Shape(old(core)) && s in old(core).count && Agrees(r, SemLock(old(Value()), s))
      ensures r.Done? ==> Valid() && Value() == SemLock(old(Value()), s).value && blocked == (old(core).count[s] <= 0)
      ensures r.Done? ==> m.threads == old(m).threads && m.semaphores == old(m).semaphores && fresh(m.nodes - old(m).nodes)
    {
      hide Valid, Loose, Shape, SpinLock, SpinUnlock, SemLock, TakenOrBlocked;
      SemaphoreIs(s);
      SemLockParts(core, Value(), s);
      var word: SpinWord<Semaphore> := s.lock;
      r := LockWord(word);
      if !r.Done? {
        return r, false;
      }
      r, blocked := TakeAndRelease(s, word);
    }

    /** semaphore_try_lock */
    method SemaphoreTryLock(s: Semaphore) returns (r: Outcome<bool>)
      requires Valid() && s in m.semaphores && s.lock != null
      modifies this`core, s`count
      modifies processor`interrupts, processor`spinLockCount, processor`interruptsEnabled, processor`cpu, s.lock`taken
      ensures Shape(old(core)) && s in old(core).count && Agrees(r, SemTryLock(old(Value()), s))
      ensures r.Done? ==> Valid() && (Value(), r.value) == SemTryLock(old(Value()), s).value
    {
      hide Valid, Loose, Shape, SpinLock, SpinUnlock, SemTryLock;
      SemaphoreIs(s);
      SemTryLockParts(core, Value(), s);
      var word: SpinWord<Semaphore> := s.lock;
      var _ :- LockWord(word);
      var got := s.count > 0;
      if got {
        AddToCount(s, -1);
      }
      ValidIsLoose();
      var _ :- UnlockWord(word);
      return Done(got);
    }

    method FirstWaiter(s: Semaphore) returns (waiter: Waiter)
      requires Rep(readyList, suspendedList, core, m) && s in m.semaphores && s.head != null
      modifies this`core, this`m, s`head, s`tail
      ensures s in old(core).waiters && old(core).waiters[s] != [] && waiter.thread == old(core).waiters[s][0]
      ensures core == old(core).(waiters := old(core).waiters[s := old(core).waiters[s][1..]])
      ensures Rep(readyList, suspendedList, core, m) && waiter.thread in m.threads
      ensures m.threads == old(m).threads && m.semaphores == old(m).semaphores && m.nodes == old(m).nodes
    {
      hide Rep, Shape;
      waiter := Unqueue(s, readyList, suspendedList, core, m);
      core, m := core.(waiters := core.waiters[s := core.waiters[s][1..]]), m.(queues := m.queues[s := m.queues[s][1..]]);
    }

    /** Takes the first waiter off the queue. */
    method TakeWaiter(s: Semaphore) returns (waiter: Waiter)
      requires Valid() && s in m.semaphores && s.head != null
      modifies this`core, this`m, s`head, s`tail
      ensures s in old(core).waiters && old(core).waiters[s] != [] && waiter.thread == old(core).waiters[s][0]
      ensures core == old(core).(waiters := old(core).waiters[s := old(core).waiters[s][1..]])
      ensures Valid() && waiter.thread in m.threads
      ensures m.threads == old(m).threads && m.semaphores == old(m).semaphores && m.nodes == old(m).nodes
    {
      hide Rep, LocksOk, Shape;
      waiter := FirstWaiter(s);
    }

    /** What semaphore_unlock does under the lock. */
    method GiveOrCount(s: Semaphore) returns (r: Outcome<()>)
      requires Valid() && s in m.semaphores && s in core.waiters
      modifies this`readyList, this`suspendedList, this`core, this`m, s`count, s`head, s`tail
      modifies m.threads`state, m.threads`next, m.threads`blocker
      modifies processor`interrupts, processor`spinLockCount, processor`interruptsEnabled, processor`cpu, schedulerLock`taken
      ensures Shape(old(core)) && s in old(core).count && Agrees(r, GivenOrCounted(old(Value()), s))
      ensures r.Done? ==> Loose() && Value() == GivenOrCounted(old(Value()), s).value
      ensures r.Done? && (old(core).waiters[s] == [] || old(core).waiters[s][0] != current) ==> Valid()
      ensures r.Done? ==> m.threads == old(m).threads && m.semaphores == old(m).semaphores && m.nodes == old(m).nodes
    {
      hide Valid, Loose, Shape, SpinLock, SpinUnlock, Wakeup;
      SemaphoreIs(s);
      if s.head == null {
        AddToCount(s, 1);
        ValidIsLoose();
        return Done(());
      }
      var waiter := TakeWaiter(s);
      r := ThreadWakeup(waiter.thread);
    }

    /** semaphore_unlock. Only if the first waiter is the current thread, still in the gap, is it left in ready_list. */
    method SemaphoreUnlock(s: Semaphore) returns (r: Outcome<()>)
      requires Valid() && s in m.semaphores && s.lock != null && s in core.waiters
      modifies this`readyList, this`suspendedList, this`core, this`m, s`count, s`head, s`tail
      modifies m.threads`state, m.threads`next, m.threads`blocker
      modifies processor`interrupts, processor`spinLockCount, processor`interruptsEnabled, processor`cpu
      modifies s.lock`taken, schedulerLock`taken
      ensures Shape(old(core)) && s in old(core).count && Agrees(r, SemUnlock(old(Value()), s))
      ensures r.Done? ==> Loose() && Value() == SemUnlock(old(Value()), s).value
      ensures r.Done? && (old(core).waiters[s] == [] || old(core).waiters[s][0] != current) ==> Valid()
      ensures r.Done? ==> m.threads == old(m).threads && m.semaphores == old(m).semaphores && m.nodes == old(m).nodes
    {
      hide Valid, Loose, Shape, SpinLock, SpinUnlock, SemUnlock, GivenOrCounted;
      SemaphoreIs(s);
      ghost var x := Value();
      var word: SpinWord<Semaphore> := s.lock;
      r := LockWord(word);
      ShapeCpu(x, processor.cpu);
      SemUnlockParts(x, x.(cpu := processor.cpu), s);
      if r.Done? {
        var _ :- GiveOrCount(s);
        r := UnlockWord(word);
      }
    }

    /** semaphore_init of a new semaphore. */
    method SemaphoreInit(n: int) returns (r: Outcome<()>, s: Semaphore?)
      requires Valid()
      modifies this`core, this`m, processor`words
      ensures Shape(old(core)) && r.Done? == (n >= 0)
      ensures n < 0 ==> r == Fatal(NegativeCount)
      ensures n >= 0 ==> s != null && fresh(s) && s !in old(core).count && s.lock != null && fresh(s.lock)
      ensures n >= 0 ==> Valid() && SemInit(old(Value()), s, n) == Done(Value())
      ensures n >= 0 ==> m.threads == old(m).threads && m.semaphores == old(m).semaphores + {s} && m.nodes == old(m).nodes
      ensures fresh(processor.words - old(processor.words))
    {
      hide Rep, LocksOk, Shape;
      if n < 0 {
        return Fatal(NegativeCount), null;
      }
      s := new Semaphore(n);
      Include(s, n);
      r := Done(());
    }

    method Include(s: Semaphore, ghost n: nat)
      requires Valid() && s !in m.semaphores && s.count == n && s.head == null && s.tail == null
      modifies this`core, this`m, processor`words, s`lock
      ensures Valid() && s.lock != null && fresh(s.lock) && Shape(old(core)) && processor.words == old(processor.words) + {s.lock}
      ensures core == old(core).(count := old(core).count[s := n], waiters := old(core).waiters[s := []])
      ensures m == old(m).(semaphores := old(m).semaphores + {s}, queues := old(m).queues[s := []])
    {
      hide Rep, LocksOk, Shape;
      AddLock(s, processor, schedulerLock, m.semaphores);
      WithSemaphore(s, n, readyList, suspendedList, core, m);
      core, m := core.(count := core.count[s := n], waiters := core.waiters[s := []]),
                 m.(semaphores := m.semaphores + {s}, queues := m.queues[s := []]);
    }

    /** timer_callback: the interrupt gate turns interrupts off, and iret turns them on. */
    method TimerTick() returns (r: Outcome<()>)
      requires Valid()
      modifies this`current, this`readyList, this`suspendedList, this`core
      modifies m.threads`state, m.threads`next, m.threads`context
      modifies processor`interrupts, processor`spinLockCount, processor`interruptsEnabled, processor`cpu, schedulerLock`taken
      ensures Agrees(r, Yield(Interrupt(old(Value()))))
      ensures r.Done? ==> Valid() && Value() == Yield(Interrupt(old(Value()))).value
    {
      hide Valid, Shape, Return, Unwind;
      CurrentListed();
      EnterInterrupt();
      var _ :- ThreadYield();
      CurrentListed();
      Resume();
      return Done(());
    }

    method EnterInterrupt()
      requires Valid()
      modifies current`context, this`core, processor`interrupts, processor`cpu
      ensures Valid() && Shape(old(core)) && Value() == Interrupt(old(Value()))
      ensures current == old(current)
    {
      hide Rep, LocksOk, Shape;
      RepIs(readyList, suspendedList, core, m);
      var k := current.context.(ticked := true);
      SetContext(current, k, readyList, suspendedList, core, m);
      core := core.(cont := core.cont[current := k]);
      SetInterrupts(processor, false, schedulerLock, m.semaphores);
    }

    // ---------- mutex.c ----------

    /** mutex_init */
    method MutexInit() returns (mutex: Mutex)
      requires Valid()
      modifies this`core, this`m, processor`words
      ensures fresh(mutex.semaphore) && Shape(old(core)) && mutex.semaphore !in old(core).count
      ensures Valid() && SemInit(old(Value()), mutex.semaphore, 1) == Done(Value())
      ensures m.threads == old(m).threads && m.semaphores == old(m).semaphores + {mutex.semaphore}
    {
      hide Valid, Shape, SemInit;
      var _, s := SemaphoreInit(1);
      mutex := new Mutex(s);
    }

    /** mutex_lock, up to its call of thread_yield if it blocks. */
    method MutexLock(mutex: Mutex) returns (r: Outcome<()>, blocked: bool)
      requires Valid() && mutex.semaphore in m.semaphores && mutex.semaphore.lock != null
      modifies this`core, this`m, mutex.semaphore`count, mutex.semaphore`head, mutex.semaphore`tail, m.nodes`next
      modifies current`state, current`blocker, current`context
      modifies processor`interrupts, processor`spinLockCount, processor`interruptsEnabled, processor`cpu
      modifies mutex.semaphore.lock`taken
      ensures Shape(old(core)) && mutex.semaphore in old(core).count && Agrees(r, SemLock(old(Value()), mutex.semaphore))
      ensures r.Done? ==> Valid() && Value() == SemLock(old(Value()), mutex.semaphore).value
      ensures r.Done? ==> blocked == (old(core).count[mutex.semaphore] <= 0)
    {
      hide Valid, Shape, SemLock;
      r, blocked := SemaphoreLock(mutex.semaphore);
    }

    /** mutex_try_lock */
    method MutexTryLock(mutex: Mutex) returns (r: Outcome<bool>)
      requires Valid() && mutex.semaphore in m.semaphores && mutex.semaphore.lock != null
      modifies this`core, mutex.semaphore`count
      modifies processor`interrupts, processor`spinLockCount, processor`interruptsEnabled, processor`cpu
      modifies mutex.semaphore.lock`taken
      ensures Shape(old(core)) && mutex.semaphore in old(core).count && Agrees(r, SemTryLock(old(Value()), mutex.semaphore))
      ensures r.Done? ==> Valid() && (Value(), r.value) == SemTryLock(old(Value()), mutex.semaphore).value
    {
      hide Valid, Shape, SemTryLock;
      r := SemaphoreTryLock(mutex.semaphore);
    }

    /** mutex_unlock */
    method MutexUnlock(mutex: Mutex) returns (r: Outcome<()>)
      requires Valid() && mutex.semaphore in m.semaphores && mutex.semaphore.lock != null && mutex.semaphore in core.waiters
      modifies this`readyList, this`suspendedList, this`core, this`m
      modifies mutex.semaphore`count, mutex.semaphore`head, mutex.semaphore`tail
      modifies m.threads`state, m.threads`next, m.threads`blocker
      modifies processor`interrupts, processor`spinLockCount, processor`interruptsEnabled, processor`cpu
      modifies mutex.semaphore.lock`taken, schedulerLock`taken
      ensures Shape(old(core)) && mutex.semaphore in old(core).count && Agrees(r, SemUnlock(old(Value()), mutex.semaphore))
      ensures r.Done? ==> Loose() && Value() == SemUnlock(old(Value()), mutex.semaphore).value
      ensures r.Done? && (old(core).waiters[mutex.semaphore] == [] || old(core).waiters[mutex.semaphore][0] != current) ==> Valid()
    {
      hide Valid, Loose, Shape, SemUnlock;
      r := SemaphoreUnlock(mutex.semaphore);
    }

    // ---------- any call ----------

    /** interrupt_exit, in a thread that has just left thread_entry. */
    method EnterUser()
      requires Valid()
      modifies current`context, this`core, processor`interrupts, processor`cpu
      ensures Valid() && Shape(old(core)) && Value() == FirstReturn(old(Value()))
    {
      hide Rep, LocksOk, Shape;
      RepIs(readyList, suspendedList, core, m);
      var k := current.context.(place := User);
      SetContext(current, k, readyList, suspendedList, core, m);
      core := core.(cont := core.cont[current := k]);
      SetInterrupts(processor, true, schedulerLock, m.semaphores);
    }

    /** thread_yield and what follows it in whichever thread runs then. */
    method YieldAndResume() returns (r: Outcome<()>)
      requires Valid()
      modifies this`current, this`readyList, this`suspendedList, this`core
      modifies m.threads`state, m.threads`next, m.threads`context
      modifies processor`interrupts, processor`spinLockCount, processor`interruptsEnabled, processor`cpu, schedulerLock`taken
      ensures Agrees(r, Yield(old(Value())))
      ensures r.Done? ==> Valid() && Value() == Yield(old(Value())).value
    {
      hide Valid, Shape, Return, Unwind;
      var _ :- ThreadYield();
      CurrentListed();
      Resume();
      return Done(());
    }

    // Each call as the event of the runs that it is: from a safe state it meets no fatal check and no
    // taken lock, and the next call finds the scheduler as safe.

    /** A timer tick. */
    method RunTick(ghost idle: Thread) returns (r: Outcome<()>)
      requires Valid() && Safe(Value(), idle) && Legal(Value(), idle, Event.Tick)
      modifies this`current, this`readyList, this`suspendedList, this`core
      modifies m.threads`state, m.threads`next, m.threads`context
      modifies processor`interrupts, processor`spinLockCount, processor`interruptsEnabled, processor`cpu, schedulerLock`taken
      ensures r.Done? && Valid() && Shape(old(core))
      ensures Step(old(Value()), idle, Tick) == Done(Value()) && Safe(Value(), idle)
    {
      hide Valid, Shape, Inv, Safe, Value, Yield;
      StepSafe(Value(), idle, Tick);
      r := TimerTick();
    }

    /** thread_yield, called directly or at the end of a blocked semaphore_lock. */
    method RunYield(ghost e: Event<Thread, Semaphore>, ghost idle: Thread) returns (r: Outcome<()>)
      requires Valid() && Safe(Value(), idle) && Legal(Value(), idle, e) && (e.CallYield? || e.GapYield?)
      modifies this`current, this`readyList, this`suspendedList, this`core
      modifies m.threads`state, m.threads`next, m.threads`context
      modifies processor`interrupts, processor`spinLockCount, processor`interruptsEnabled, processor`cpu, schedulerLock`taken
      ensures r.Done? && Valid() && Shape(old(core))
      ensures Step(old(Value()), idle, e) == Done(Value()) && Safe(Value(), idle)
    {
      hide Valid, Shape, Inv, Safe, Value, Yield;
      StepSafe(Value(), idle, e);
      r := YieldAndResume();
    }

    /** The end of thread_entry. */
    method RunEntry(ghost idle: Thread) returns (r: Outcome<()>)
      requires Valid() && Safe(Value(), idle) && Legal(Value(), idle, Event.EntryDone)
      modifies current`context, this`core, processor`interrupts, processor`cpu
      ensures r.Done? && Valid() && Shape(old(core))
      ensures Step(old(Value()), idle, EntryDone) == Done(Value()) && Safe(Value(), idle)
    {
      hide Valid, Shape, Inv, Safe, Value, FirstReturn;
      StepSafe(Value(), idle, EntryDone);
      EnterUser();
      r := Done(());
    }

    /** semaphore_lock. */
    method RunLock(s: Semaphore, ghost idle: Thread) returns (r: Outcome<()>, blocked: bool)
      requires Valid() && Safe(Value(), idle) && s in m.semaphores && s.lock != null && Legal(Value(), idle, Event.Lock(s))
      modifies this`core, this`m, s`count, s`head, s`tail, m.nodes`next, current`state, current`blocker, current`context
      modifies processor`interrupts, processor`spinLockCount, processor`interruptsEnabled, processor`cpu, s.lock`taken
      ensures r.Done? && Valid() && Shape(old(core))
      ensures Step(old(Value()), idle, Lock(s)) == Done(Value()) && Safe(Value(), idle)
      ensures m.threads == old(m).threads && m.semaphores == old(m).semaphores && fresh(m.nodes - old(m).nodes)
    {
      hide Valid, Shape, Inv, Safe, Value, SemLock;
      StepSafe(Value(), idle, Lock(s));
      r, blocked := SemaphoreLock(s);
    }

    /** semaphore_try_lock. */
    method RunTryLock(s: Semaphore, ghost idle: Thread) returns (r: Outcome<()>, got: bool)
      requires Valid() && Safe(Value(), idle) && s in m.semaphores && s.lock != null && Legal(Value(), idle, Event.TryLock(s))
      modifies this`core, s`count
      modifies processor`interrupts, processor`spinLockCount, processor`interruptsEnabled, processor`cpu, s.lock`taken
      ensures r.Done? && Valid() && Shape(old(core))
      ensures Step(old(Value()), idle, TryLock(s)) == Done(Value()) && Safe(Value(), idle)
    {
      hide Valid, Shape, Inv, Safe, Value, SemTryLock;
      StepSafe(Value(), idle, TryLock(s));
      var taken := SemaphoreTryLock(s);
      r, got := Done(()), taken.value;
    }

    /** semaphore_unlock. */
    method RunUnlock(s: Semaphore, ghost idle: Thread) returns (r: Outcome<()>)
      requires Valid() && Safe(Value(), idle) && s in m.semaphores && s.lock != null && Legal(Value(), idle, Event.Unlock(s))
      modifies this`readyList, this`suspendedList, this`core, this`m, s`count, s`head, s`tail
      modifies m.threads`state, m.threads`next, m.threads`blocker
      modifies processor`interrupts, processor`spinLockCount, processor`interruptsEnabled, processor`cpu
      modifies s.lock`taken, schedulerLock`taken
      ensures r.Done? && Valid() && Shape(old(core))
      ensures Step(old(Value()), idle, Unlock(s)) == Done(Value()) && Safe(Value(), idle)
      ensures m.threads == old(m).threads && m.semaphores == old(m).semaphores && fresh(m.nodes - old(m).nodes)
    {
      hide Valid, Shape, Inv, Safe, Value, SemUnlock, Loose;
      StepSafe(Value(), idle, Unlock(s));
      ValueParts();
      CurrentListed();
      NotWaiting(Value(), idle, s);
      r := SemaphoreUnlock(s);
    }

    /** thread_create. */
    method RunCreate(ghost idle: Thread) returns (r: Outcome<()>, t: Thread)
      requires Valid() && Safe(Value(), idle) && core.current in core.cont && core.cont[core.current].place.User?
      modifies this`readyList, this`core, this`m, m.threads`next
      modifies processor`interrupts, processor`spinLockCount, processor`interruptsEnabled, processor`cpu, schedulerLock`taken
      ensures r.Done? && Valid() && Shape(old(core)) && fresh(t) && Legal(old(Value()), idle, Spawn(t))
      ensures Step(old(Value()), idle, Spawn(t)) == Done(Value()) && Safe(Value(), idle)
    {
      hide Valid, Shape, Inv, Safe, Value, Create;
      ghost var x := Value();
      ValueParts();
      r, t := ThreadCreate();
      StepSafe(x, idle, Spawn(t));
    }

    /** semaphore_init. */
    method RunInit(n: nat, ghost idle: Thread) returns (r: Outcome<()>, s: Semaphore)
      requires Valid() && Safe(Value(), idle) && core.current in core.cont && core.cont[core.current].place.User?
      modifies this`core, this`m, processor`words
      ensures r.Done? && Valid() && Shape(old(core)) && fresh(s) && Legal(old(Value()), idle, InitSem(s, n))
      ensures Step(old(Value()), idle, InitSem(s, n)) == Done(Value()) && Safe(Value(), idle)
    {
      hide Valid, Shape, Inv, Safe, Value, SemInit;
      ghost var x := Value();
      ValueParts();
      var made;
      r, made := SemaphoreInit(n);
      s := made;
      StepSafe(x, idle, InitSem(s, n));
    }

    /** Any of these calls, on objects that exist. */
    method RunEvent(e: Event<Thread, Semaphore>, ghost idle: Thread)
      requires Valid() && Safe(Value(), idle) && Legal(Value(), idle, e) && !Creates(e)
      modifies this`current, this`readyList, this`suspendedList, this`core, this`m
      modifies m.threads, m.semaphores, m.nodes, processor.words
      modifies processor`interrupts, processor`spinLockCount, processor`interruptsEnabled, processor`cpu
      ensures Valid() && Shape(old(core))
      ensures Step(old(Value()), idle, e) == Done(Value()) && Safe(Value(), idle)
      ensures m.threads == old(m).threads && m.semaphores == old(m).semaphores && fresh(m.nodes - old(m).nodes)
    {
      hide Valid, Shape, Safe, Value, Step;
      CurrentListed();
      ValueParts();
      if e.Lock? || e.TryLock? || e.Unlock? {
        SemaphoreIs(e.s);
      }
      match e
      case Tick => var r := RunTick(idle);
      case CallYield => var r := RunYield(e, idle);
      case GapYield => var r := RunYield(e, idle);
      case EntryDone => var r := RunEntry(idle);
      case Lock(s) => var r, blocked := RunLock(s, idle);
      case TryLock(s) => var r, got := RunTryLock(s, idle);
      case Unlock(s) => var r := RunUnlock(s, idle);
    }

    /**
     A whole run on the objects: any legal interleaving of ticks and calls on the threads and semaphores
     that exist. It ends in the state the run has on values, and the next call finds it safe.
     */
    method RunAll(es: seq<Event<Thread, Semaphore>>, ghost idle: Thread)
      requires Valid() && Safe(Value(), idle) && LegalRun(Value(), idle, es)
      requires forall e :: e in es ==> !Creates(e)
      modifies this`current, this`readyList, this`suspendedList, this`core, this`m
      modifies m.threads, m.semaphores, m.nodes, processor.words
      modifies processor`interrupts, processor`spinLockCount, processor`interruptsEnabled, processor`cpu
      ensures Valid() && Shape(old(core))
      ensures Run(old(Value()), idle, es) == Done(Value()) && Safe(Value(), idle)
    {
      hide Valid, Shape, Safe, Value, Step, Run, LegalRun, Legal;
      var i := 0;
      while i < |es|
        invariant i <= |es| && Valid() && Shape(core) && Safe(Value(), idle)
        invariant m.threads == old(m).threads && m.semaphores == old(m).semaphores && fresh(m.nodes - old(m).nodes)
        invariant LegalRun(Value(), idle, es[i..]) && Run(Value(), idle, es[i..]) == Run(old(Value()), idle, es)
      {
        RunOneMore(Value(), idle, es, i);
        RunEvent(es[i], idle);
        i := i + 1;
      }
      RunNone(Value(), idle, es[i..]);
    }
  }
}
