/**
  The mutex and the reentrant lock of src/kernel/mutex.c under any interleaving. Each statement
  of mutexlock_acquire and mutexlock_release is a step of its own; the bodies of mutex_acquire
  and mutex_release run with interrupts off, so they are one step up to the switch in them.
 */
module MutexModel {
  import opened Lists
  import opened Wrappers

  // Where a thread is. Blocked is asleep in mutex_acquire, Retry has been woken there.
  datatype Pc =
    | Outside
    | Compare | Take | Blocked | Retry | SetHolder | CheckRepeat | SetRepeat | LoadUp | StoreUp(up: nat)
    | CheckHolder | TestRepeat | LoadDown | StoreDown(down: nat) | CheckOne | ClearHolder | ClearRepeat | GiveBack

  // depth counts the acquisitions that the thread has not released yet.
  datatype Thread = Thread(pc: Pc, depth: nat)

  datatype Lock = Lock(semphore: nat, waiters: seq<nat>, holder: Option<nat>, repeat: nat, threads: seq<Thread>)

  // size_t subtraction of one.
  function Pred(n: nat): nat {
    if n == 0 then 0xFFFF_FFFF else n - 1
  }

  function Goto(l: Lock, i: nat, pc: Pc): Lock
    requires i < |l.threads|
  {
    l.(threads := l.threads[i := l.threads[i].(pc := pc)])
  }

  function Return(l: Lock, i: nat, depth: nat): Lock
    requires i < |l.threads|
  {
    l.(threads := l.threads[i := Thread(Outside, depth)])
  }

  // One pass of mutex_acquire's loop: block at the back of the waiters, or take the mutex.
  // None: its assertion fails.
  function Acquire(l: Lock, i: nat): Option<Lock>
    requires i < |l.threads|
  {
    if l.semphore == 0 then Some(Goto(l, i, Blocked).(waiters := l.waiters + [i]))
    else if l.semphore != 1 then None
    else Some(Goto(l, i, SetHolder).(semphore := 0))
  }

  // mutex_release: the first waiter, if any, becomes ready to try again.
  function Release(l: Lock, i: nat): Option<Lock>
    requires i < |l.threads|
  {
    if l.semphore != 0 then None
    else
      var l1 := Return(l, i, 0).(semphore := 1);
      if l.waiters == [] then Some(l1)
      else if l.waiters[0] >= |l.threads| then None
      else Some(Goto(l1, l.waiters[0], Retry).(waiters := l.waiters[1..]))
  }

  // A thread starts mutexlock_acquire at any time, and mutexlock_release once for each time it
  // acquired the lock.
  datatype Move = StartAcquire | StartRelease | Go

  predicate CanMove(l: Lock, i: nat, m: Move) {
    i < |l.threads| &&
    match m
    case StartAcquire => l.threads[i].pc.Outside?
    case StartRelease => l.threads[i].pc.Outside? && l.threads[i].depth > 0
    case Go => !l.threads[i].pc.Outside? && !l.threads[i].pc.Blocked?
  }

  // None: an assertion fails.
  function Step(l: Lock, i: nat, m: Move): Option<Lock>
    requires CanMove(l, i, m)
  {
    var me := l.threads[i];
    match m
    case StartAcquire => Some(Goto(l, i, Compare))
    case StartRelease => Some(Goto(l, i, CheckHolder))
    case Go =>
      match me.pc
      // mutexlock_acquire
      case Compare => Some(Goto(l, i, if l.holder != Some(i) then Take else LoadUp))
      case Take => Acquire(l, i)
      case Retry => Acquire(l, i)
      case SetHolder => Some(Goto(l, i, CheckRepeat).(holder := Some(i)))
      case CheckRepeat => if l.repeat == 0 then Some(Goto(l, i, SetRepeat)) else None
      case SetRepeat => Some(Return(l, i, 1).(repeat := 1))
      case LoadUp => Some(Goto(l, i, StoreUp(l.repeat)))
      case StoreUp(r) => Some(Return(l, i, me.depth + 1).(repeat := r + 1))
      // mutexlock_release
      case CheckHolder => if l.holder == Some(i) then Some(Goto(l, i, TestRepeat)) else None
      case TestRepeat => Some(Goto(l, i, if l.repeat > 1 then LoadDown else CheckOne))
      case LoadDown => Some(Goto(l, i, StoreDown(l.repeat)))
      case StoreDown(r) => Some(Return(l, i, Pred(me.depth)).(repeat := Pred(r)))
      case CheckOne => if l.repeat == 1 then Some(Goto(l, i, ClearHolder)) else None
      case ClearHolder => Some(Goto(l, i, ClearRepeat).(holder := None))
      case ClearRepeat => Some(Goto(l, i, GiveBack).(repeat := 0))
      case GiveBack => Release(l, i)
      case _ => Some(l)
  }

  // mutexlock_init.
  function Fresh(threads: nat): Lock {
    Lock(1, [], None, 0, seq(threads, _ => Thread(Outside, 0)))
  }

  // ---------- the invariant ----------

  // The thread has taken the mutex and not given it back.
  predicate Owns(t: Thread) {
    t.depth > 0 || t.pc.SetHolder? || t.pc.CheckRepeat? || t.pc.SetRepeat?
  }

  predicate IsOwner(l: Lock, i: nat) {
    i < |l.threads| && Owns(l.threads[i])
  }

  // How often a thread can have acquired the lock at each statement.
  predicate DepthOk(l: Lock, t: Thread) {
    match t.pc
    case Outside => true
    case Compare => true
    case Take => t.depth == 0
    case Blocked => t.depth == 0
    case Retry => t.depth == 0
    case SetHolder => t.depth == 0
    case CheckRepeat => t.depth == 0
    case SetRepeat => t.depth == 0
    case LoadUp => t.depth > 0
    case StoreUp(r) => t.depth > 0 && r == l.repeat
    case CheckHolder => t.depth > 0
    case TestRepeat => t.depth > 0
    case LoadDown => t.depth > 1
    case StoreDown(r) => t.depth > 1 && r == l.repeat
    case _ => t.depth == 1
  }

  // holder and repeat, seen from the owner.
  predicate OwnerOk(l: Lock, i: nat) {
    IsOwner(l, i) ==>
      var t := l.threads[i];
      && l.semphore == 0
      && (l.holder == if t.pc.SetHolder? || t.pc.ClearRepeat? || t.pc.GiveBack? then None else Some(i))
      && l.repeat == if t.pc.GiveBack? then 0 else t.depth
  }

  predicate WaiterAt(l: Lock, i: nat) {
    i in l.waiters <==> i < |l.threads| && l.threads[i].pc.Blocked?
  }

  ghost predicate Woken(l: Lock, j: nat) {
    j < |l.threads| && l.threads[j].pc.Retry?
  }

  ghost predicate Inv(l: Lock) {
    && l.semphore <= 1 && NoDup(l.waiters)
    && (forall i: nat :: WaiterAt(l, i)) && (forall i: nat :: OwnerOk(l, i))
    && (forall i :: 0 <= i < |l.threads| ==> DepthOk(l, l.threads[i]))
    && (forall i, j: nat :: IsOwner(l, i) && IsOwner(l, j) ==> i == j)
    && (l.semphore == 0 ==> exists i: nat :: IsOwner(l, i))
    && (l.semphore == 1 ==> l.holder.None? && l.repeat == 0)
    && (l.semphore == 1 && l.waiters != [] ==> exists j: nat :: Woken(l, j))
  }
}
