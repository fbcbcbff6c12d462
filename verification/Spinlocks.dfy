/**
 spinlock.c on one processor: the nesting count, the saved interrupt flag and the lock words.
 */
module Spinlocks {
  import opened Scheduling

  /** The method failed as the function does, or neither did. */
  predicate Agrees<A, B>(r: Outcome<A>, f: Outcome<B>) {
    match r
    case Done(_) => f.Done?
    case Fatal(why) => f == Fatal(why)
    case Stuck => f.Stuck?
  }

  /** A spinlock_t; `name` says which one it is. */
  class SpinWord<S(==)> {
    ghost const name: Lock<S>
    var taken: bool

    constructor (ghost name: Lock<S>)
      ensures this.name == name && !taken
    {
      this.name := name;
      taken := false;
    }

    /** __sync_lock_test_and_set */
    method TestAndSet() returns (was: bool)
      modifies this`taken
      ensures was == old(taken) && taken
    {
      was := taken;
      taken := true;
    }
  }

  /** The interrupt flag, g_spinLockCount and g_interruptsEnabled. */
  class Processor<S(==)> {
    var interrupts: bool
    var spinLockCount: int
    var interruptsEnabled: bool

    ghost var cpu: Cpu<S>
    ghost var words: set<SpinWord<S>>

    ghost predicate Valid()
      reads this`interrupts, this`spinLockCount, this`interruptsEnabled, this`cpu, this`words, words`taken
    {
      && interrupts == cpu.interrupts && spinLockCount == cpu.spinCount && interruptsEnabled == cpu.enabled
      && (forall w :: w in words ==> w.taken == (w.name in cpu.held))
      && (forall v, w :: v in words && w in words && v.name == w.name ==> v == w)
    }

    constructor ()
      ensures Valid() && fresh(words) && words == {} && cpu == Cpu(true, 0, true, {})
    {
      interrupts, spinLockCount, interruptsEnabled := true, 0, true;
      cpu, words := Cpu(true, 0, true, {}), {};
    }

    /** A lock word that starts out free: DEFINE_SPINLOCK, or SPINLOCK_UNLOCKED stored in a new lock. */
    method Define(ghost name: Lock<S>) returns (w: SpinWord<S>)
      requires Valid() && name !in cpu.held && (forall v :: v in words ==> v.name != name)
      modifies this`words
      ensures Valid() && fresh(w) && w.name == name && words == old(words) + {w}
    {
      w := new SpinWord(name);
      words := words + {w};
    }

    /** spin_lock. With interrupts off on one processor nobody releases a lock found taken. */
    method SpinLock(lock: SpinWord<S>) returns (r: Outcome<()>)
      requires Valid() && lock in words
      modifies this`interrupts, this`spinLockCount, this`interruptsEnabled, this`cpu, lock`taken
      ensures Agrees(r, Scheduling.SpinLock(old(cpu), lock.name))
      ensures r.Done? ==> Valid() && cpu == Scheduling.SpinLock(old(cpu), lock.name).value
    {
      var enabled := interrupts;
      interrupts := false;
      if spinLockCount == 0 {
        interruptsEnabled := enabled;
      }
      spinLockCount := spinLockCount + 1;
      var was := lock.TestAndSet();
      if was {
        return Stuck;
      }
      cpu := Scheduling.SpinLock(cpu, lock.name).value;
      return Done(());
    }

    /** spin_unlock */
    method SpinUnlock(lock: SpinWord<S>) returns (r: Outcome<()>)
      requires Valid() && lock in words
      modifies this`interrupts, this`spinLockCount, this`interruptsEnabled, this`cpu, lock`taken
      ensures Agrees(r, Scheduling.SpinUnlock(old(cpu), lock.name))
      ensures r.Done? ==> Valid() && cpu == Scheduling.SpinUnlock(old(cpu), lock.name).value
    {
      if interrupts {
        return Fatal(UnlockUnlocked);
      }
      if spinLockCount <= 0 {
        return Fatal(UnlockUnlocked);
      }
      lock.taken := false;
      spinLockCount := spinLockCount - 1;
      if spinLockCount == 0 && interruptsEnabled {
        interrupts := true;
      }
      cpu := Scheduling.SpinUnlock(cpu, lock.name).value;
      return Done(());
    }
  }
}
