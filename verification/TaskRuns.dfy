/**
  Whole runs of the process machine: it never stops on a failed assertion, every exit status is
  delivered once, and a sleep takes exactly its number of clock interrupts.
 */
module TaskRuns {
  import opened TaskFamily
  import opened TaskInv
  import opened TaskModel
  import opened TaskSleep
  import opened TaskSteps
  import opened Wrappers

  // ---------- one step ----------

  // The only ways for a step to fail: a kernel task calls fork, exit or waitpid, fork finds the
  // table full, or a sleep is for no time.
  predicate Halts(k: Kernel, op: Op)
    requires Shape(k)
  {
    match op
    case Fork => !T(k, k.current).user || FreeSlot(k.tasks, 0).None?
    case Exit(_) => !T(k, k.current).user
    case Wait(_) => !T(k, k.current).user
    case Sleep(ms) => ms == 0
    case _ => false
  }

  lemma WaitpidStep(k: Kernel, pid: int, scans: nat)
    requires Inv(k) && T(k, k.current).user
    requires scans > 0 ==> T(k, k.current).call == InWait(pid, scans)
    ensures Waitpid(k, pid, scans).Some? && Inv(Waitpid(k, pid, scans).value.0)
  {
    if scans > 0 && pid != -1 { ResumeReaps(k); }
    hide Inv, Scan, FindChild;
    match FindChild(k, pid, 2)
    case None => NoChildStep(k, pid, scans);
    case Some(c) =>
      if T(k, c).state.Died? {
        ReapStep(k, pid, scans, c);
      } else {
        WaitStep(k, pid, scans, c);
        ScheduleStep(Scan(k, pid, scans).value.0);
      }
  }

  lemma CallerIsUser(k: Kernel)
    requires Inv(k) && T(k, k.current).call.InWait?
    ensures T(k, k.current).user
    ensures T(k, k.current).call.pid != -1 ==> T(k, k.current).call.scans == 1
    ensures T(k, k.current).call.scans > 0
  {
    hide QueuesOk, Forest, SleepOk;
    assert SlotOk(k, k.current) && WaitOk(k, k.current);
  }

  lemma StepKeeps(k: Kernel, op: Op)
    requires Inv(k) && CanDo(k, op)
    ensures Step(k, op).None? <==> Halts(k, op)
    ensures Step(k, op).Some? ==> Inv(Step(k, op).value.0)
  {
    assert NodeOk(k, k.current);
    var me := T(k, k.current);
    hide Rest, Schedule, Waitpid, ClockTick, Link, Unblock, FallAsleep, Die, Similar;
    match op
    case Fork => if Spawn(k).Some? { ForkStep(k, Spawn(k).value.0, Spawn(k).value.1); }
    case Exit(status) =>
      if me.user { ExitStep(k, status); ScheduleStep(Die(k, status).value); } else { KernelStays(k, status); }
    case Wait(pid) => if me.user { WaitpidStep(k, pid, 0); }
    case Resume => CallerIsUser(k); WaitpidStep(k, me.call.pid, me.call.scans);
    case Yield => ScheduleStep(k);
    case Block(q) => BlockStep(k, q); ScheduleStep(Link(k, k.current, q, Blocked).value);
    case Unwait(i) => UnwaitStep(k, i);
    case Sleep(ms) => if ms > 0 { SleepStep(k, ms); ScheduleStep(FallAsleep(k, ms).value); } else { NoSleep(k); }
    case Tick => TickStep(k);
  }

  lemma KernelStays(k: Kernel, status: int)
    requires Shape(k) && !T(k, k.current).user
    ensures Die(k, status).None?
  {
  }

  lemma NoSleep(k: Kernel)
    requires Shape(k)
    ensures FallAsleep(k, 0).None?
  {
  }

  // ---------- runs ----------

  ghost predicate Run(k: Kernel, ops: seq<Op>, n: Kernel)
    decreases |ops|
  {
    if ops == [] then n == k
    else Shape(k) && CanDo(k, ops[0]) && Step(k, ops[0]).Some? && Run(Step(k, ops[0]).value.0, ops[1..], n)
  }

  lemma {:induction false} RunKeeps(k: Kernel, ops: seq<Op>, n: Kernel)
    requires Inv(k) && Run(k, ops, n)
    ensures Inv(n)
    decreases |ops|
  {
    hide *;
    if ops == [] {
      RunNone(k, ops, n);
    } else {
      RunFirst(k, ops, n);
      RunKeeps(Step(k, ops[0]).value.0, ops[1..], n);
    }
  }

  lemma RunNone(k: Kernel, ops: seq<Op>, n: Kernel)
    requires Run(k, ops, n) && ops == []
    ensures n == k
  {
  }

  lemma RunFirst(k: Kernel, ops: seq<Op>, n: Kernel)
    requires Inv(k) && Run(k, ops, n) && ops != []
    ensures Shape(k) && CanDo(k, ops[0]) && Step(k, ops[0]).Some? && Inv(Step(k, ops[0]).value.0)
    ensures Run(Step(k, ops[0]).value.0, ops[1..], n)
  {
    hide Step, Halts, Rest, Roots;
    StepKeeps(k, ops[0]);
  }

  // ---------- exit statuses are delivered once ----------

  // The statuses that wait for a parent: pid to status.
  ghost function Zombies(k: Kernel): map<nat, int> {
    map i: nat | i < |k.tasks| && Dead(k, i) :: T(k, i).status
  }

  // A mailbox: exit puts the status under the pid, a successful waitpid takes it out.
  function Mail(box: map<nat, int>, k: Kernel, op: Op, out: Out): map<nat, int> {
    if op.Exit? then box[k.current := op.status]
    else if out.Reaped? then box - {out.pid}
    else box
  }

  // The child that a call of waitpid asks for; -1 stands for any.
  function Asked(k: Kernel, op: Op): int
    requires Shape(k) && CanDo(k, op)
  {
    match op
    case Wait(pid) => pid
    case Resume => T(k, k.current).call.pid
    case _ => -1
  }

  // The caller's own child, and the one asked for.
  predicate OwnChild(k: Kernel, pid: nat, asked: int)
    requires Shape(k)
  {
    Has(k, pid) && T(k, pid).pid == pid && T(k, pid).ppid == T(k, k.current).pid && (asked == -1 || asked == pid)
  }

  // Along the run, whatever waitpid returns is in the mailbox at that moment, under the pid of a
  // child of the caller that it asked for.
  ghost predicate Delivers(box: map<nat, int>, k: Kernel, ops: seq<Op>)
    decreases |ops|
  {
    ops != [] && Shape(k) && CanDo(k, ops[0]) && Step(k, ops[0]).Some? ==>
      var (n, out) := Step(k, ops[0]).value;
      && (out.Reaped? ==> out.pid in box && box[out.pid] == out.status && OwnChild(k, out.pid, Asked(k, ops[0])))
      && Delivers(Mail(box, k, ops[0], out), n, ops[1..])
  }

  lemma SameZombies(k: Kernel, n: Kernel)
    requires forall i: nat :: SameDeadAt(k, n, i)
    ensures Zombies(n) == Zombies(k)
  {
    forall i: nat
      ensures (i in Zombies(k) <==> i in Zombies(n)) && (i in Zombies(k) ==> Zombies(k)[i] == Zombies(n)[i])
    {
      assert SameDeadAt(k, n, i);
    }
  }

  lemma ScheduleDead(k: Kernel)
    requires Core(k)
    ensures Zombies(Schedule(k)) == Zombies(k)
  {
    ScheduleStep(k);
    var n := Schedule(k);
    hide Core, Inv, Schedule;
    forall i: nat ensures SameDeadAt(k, n, i) { assert SimilarAt(k, n, i); }
    SameZombies(k, n);
  }

  // One living task changes and stays alive.
  lemma OneAlive(k: Kernel, n: Kernel, i: nat, t: Task)
    requires Has(k, i) && !T(k, i).state.Died? && !t.state.Died? && n.tasks == k.tasks[i := Some(t)]
    ensures Zombies(n) == Zombies(k)
  {
    forall j: nat ensures SameDeadAt(k, n, j) {}
    SameZombies(k, n);
  }

  lemma ExitMail(k: Kernel, status: int)
    requires Inv(k) && T(k, k.current).user && T(k, k.current).call.NoCall?
    ensures Die(k, status).Some? && Zombies(Die(k, status).value) == Zombies(k)[k.current := status]
  {
    DieIs(k, status);
    ParentOther(k);
    var n := Die(k, status).value;
    hide Inv, Die;
    forall i: nat ensures i in Zombies(n) <==> i in Zombies(k) || i == k.current { assert ExitedAt(k, n, status, i); }
    forall i: nat | i in Zombies(n)
      ensures Zombies(n)[i] == if i == k.current then status else T(k, i).status
    {
      assert ExitedAt(k, n, status, i);
    }
  }

  lemma WaitMail(k: Kernel, pid: int, scans: nat, n: Kernel, out: Out)
    requires Inv(k) && T(k, k.current).user && (scans > 0 ==> T(k, k.current).call == InWait(pid, scans))
    requires Waitpid(k, pid, scans) == Some((n, out))
    ensures out.Reaped? ==> out.pid in Zombies(k) && Zombies(k)[out.pid] == out.status && OwnChild(k, out.pid, pid)
    ensures out.Reaped? ==> Zombies(n) == Zombies(k) - {out.pid}
    ensures !out.Reaped? ==> Zombies(n) == Zombies(k)
  {
    if scans > 0 && pid != -1 { ResumeReaps(k); }
    var me := T(k, k.current);
    match FindChild(k, pid, 2)
    case None =>
      hide Inv;
      OneAlive(k, n, k.current, me.(call := NoCall));
    case Some(c) =>
      assert SlotOk(k, c);
      if T(k, c).state.Died? {
        hide Inv;
        forall i: nat ensures i in Zombies(n) <==> i in Zombies(k) && i != c {}
      } else {
        WaitStep(k, pid, scans, c);
        var k1 := Scan(k, pid, scans).value.0;
        ScheduleDead(k1);
        hide Inv, Core, Schedule;
        OneAlive(k, k1, k.current, T(k1, k.current));
      }
  }

  lemma MailStep(k: Kernel, op: Op, n: Kernel, out: Out)
    requires Inv(k) && CanDo(k, op) && Step(k, op) == Some((n, out))
    ensures out.Reaped? ==>
      out.pid in Zombies(k) && Zombies(k)[out.pid] == out.status && OwnChild(k, out.pid, Asked(k, op))
    ensures Zombies(n) == Mail(Zombies(k), k, op, out)
  {
    StepKeeps(k, op);
    assert NodeOk(k, k.current);
    var me := T(k, k.current);
    match op
    case Fork => ForkMail(k, n, out);
    case Exit(status) =>
      ExitStep(k, status);
      ExitMail(k, status);
      hide Inv, Core;
      ScheduleDead(Die(k, status).value);
    case Wait(pid) => WaitMail(k, pid, 0, n, out);
    case Resume => CallerIsUser(k); WaitMail(k, me.call.pid, me.call.scans, n, out);
    case Yield => ScheduleDead(k);
    case Block(q) =>
      BlockStep(k, q);
      var k1 := Link(k, k.current, q, Blocked).value;
      hide Inv, Core;
      OneAlive(k, k1, k.current, T(k1, k.current));
      ScheduleDead(k1);
    case Unwait(i) =>
      hide Inv;
      OneAlive(k, n, i, T(n, i));
    case Sleep(ms) =>
      SleepStep(k, ms);
      var k1 := FallAsleep(k, ms).value;
      hide Inv, Core;
      OneAlive(k, k1, k.current, T(k1, k.current));
      ScheduleDead(k1);
    case Tick =>
      TickStep(k);
      hide Inv;
      SameZombies(k, n);
  }

  lemma ForkMail(k: Kernel, n: Kernel, out: Out)
    requires Inv(k) && CanDo(k, Fork) && Step(k, Fork) == Some((n, out))
    ensures !out.Reaped? && Zombies(n) == Zombies(k)
  {
    ForkStep(k, n, Spawn(k).value.1);
    hide Inv;
    forall j: nat ensures SameDeadAt(k, n, j) {}
    SameZombies(k, n);
  }

  // In every run each status that waitpid returns is the one that a child of the caller, the one
  // asked for, passed to exit, and no exit is reported twice: the process table is a mailbox.
  lemma {:induction false} StatusesAreDelivered(k: Kernel, ops: seq<Op>)
    requires Inv(k)
    ensures Delivers(Zombies(k), k, ops)
    decreases |ops|
  {
    if ops != [] && CanDo(k, ops[0]) && Step(k, ops[0]).Some? {
      hide Inv, Mail, Zombies, Step, CanDo, Asked, OwnChild;
      var (n, out) := Step(k, ops[0]).value;
      StepKeeps(k, ops[0]);
      MailStep(k, ops[0], n, out);
      StatusesAreDelivered(n, ops[1..]);
    }
  }

  // A wait for one particular child searches the table once more when it is woken, and returns.
  lemma SecondSearchReturns(k: Kernel)
    requires Inv(k) && T(k, k.current).call.InWait? && T(k, k.current).call.pid != -1
    ensures var c := T(k, k.current).call.pid;
      && c in Zombies(k) && Step(k, Resume).Some? && Step(k, Resume).value.1 == Reaped(c, Zombies(k)[c])
      && T(Step(k, Resume).value.0, k.current).call.NoCall?
  {
    ResumeReaps(k);
    var c := T(k, k.current).call.pid;
    ReapStep(k, c, T(k, k.current).call.scans, c);
  }
}
