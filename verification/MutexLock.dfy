/**
  The lock as the kernel keeps it: one statement of one thread at a time, in place.
 */
module MutexLock {
  import opened MutexModel
  import opened Wrappers

  class ReentrantLock {
    var semphore: nat
    var waiters: seq<nat>
    var holder: Option<nat>
    var repeat: nat
    const threads: array<Thread>

    ghost function Model(): Lock
      reads this, threads
    {
      Lock(semphore, waiters, holder, repeat, threads[..])
    }

    // mutexlock_init.
    constructor (n: nat)
      ensures Model() == Fresh(n) && fresh(threads)
    {
      semphore, waiters, holder, repeat := 1, [], None, 0;
      threads := new Thread[n](_ => Thread(Outside, 0));
    }

    method Goto(i: nat, pc: Pc)
      requires i < threads.Length
      modifies threads
      ensures threads[..] == old(threads[..])[i := old(threads[i]).(pc := pc)]
    {
      threads[i] := threads[i].(pc := pc);
    }

    // mutex_acquire, from the test of the semaphore to the switch or the end.
    method MutexAcquire(i: nat) returns (ok: bool)
      requires i < threads.Length
      modifies this`semphore, this`waiters, threads
      ensures ok <==> Acquire(old(Model()), i).Some?
      ensures ok ==> Acquire(old(Model()), i) == Some(Model())
    {
      if semphore == 0 {
        waiters := waiters + [i];
        Goto(i, Blocked);
        return true;
      }
      if semphore != 1 { return false; }
      semphore := semphore - 1;
      Goto(i, SetHolder);
      return true;
    }

    method MutexRelease(i: nat) returns (ok: bool)
      requires i < threads.Length
      modifies this`semphore, this`waiters, threads
      ensures ok <==> Release(old(Model()), i).Some?
      ensures ok ==> Release(old(Model()), i) == Some(Model())
    {
      if semphore != 0 { return false; }
      semphore := semphore + 1;
      threads[i] := Thread(Outside, 0);
      if waiters != [] {
        var task := waiters[0];
        if task >= threads.Length { return false; }
        waiters := waiters[1..];
        Goto(task, Retry);
      }
      return true;
    }

    // The next statement of thread i inside mutexlock_acquire or mutexlock_release.
    method Advance(i: nat) returns (ok: bool)
      requires CanMove(Model(), i, Go)
      modifies this, threads
      ensures ok <==> Step(old(Model()), i, Go).Some?
      ensures ok ==> Step(old(Model()), i, Go) == Some(Model())
    {
      ok := true;
      var me := threads[i];
      match me.pc
      case Compare => Goto(i, if holder != Some(i) then Take else LoadUp);
      case Take => ok := MutexAcquire(i);
      case Retry => ok := MutexAcquire(i);
      case SetHolder => holder := Some(i); Goto(i, CheckRepeat);
      case CheckRepeat => ok := repeat == 0; if ok { Goto(i, SetRepeat); }
      case SetRepeat => repeat := 1; threads[i] := Thread(Outside, 1);
      case LoadUp => Goto(i, StoreUp(repeat));
      case StoreUp(r) => repeat := r + 1; threads[i] := Thread(Outside, me.depth + 1);
      case CheckHolder => ok := holder == Some(i); if ok { Goto(i, TestRepeat); }
      case TestRepeat => Goto(i, if repeat > 1 then LoadDown else CheckOne);
      case LoadDown => Goto(i, StoreDown(repeat));
      case StoreDown(r) => repeat := Pred(r); threads[i] := Thread(Outside, Pred(me.depth));
      case CheckOne => ok := repeat == 1; if ok { Goto(i, ClearHolder); }
      case ClearHolder => holder := None; Goto(i, ClearRepeat);
      case ClearRepeat => repeat := 0; Goto(i, GiveBack);
      case GiveBack => ok := MutexRelease(i);
      case _ =>
    }
  }
}
