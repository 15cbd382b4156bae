/**
  Blocking queues are first come, first served, and a time slice ends.
 */
module TaskQueues {
  import opened Lists
  import opened TaskFamily
  import opened TaskInv
  import opened TaskModel
  import opened TaskRuns
  import opened TaskSleep
  import opened TaskSteps
  import opened TaskTheorems
  import opened Wrappers

  // ---------- what a step does to a queue ----------

  // The queue stays, the current task comes in at the back, or somebody leaves.
  ghost predicate QueueStep(k: Kernel, n: Kernel, q: nat)
    requires q < |k.queues| && q < |n.queues|
  {
    || n.queues[q] == k.queues[q]
    || n.queues[q] == k.queues[q] + [k.current]
    || OneLess(k.queues[q], n.queues[q])
  }

  ghost predicate OneLess(s: seq<nat>, r: seq<nat>) {
    exists i: nat :: r == Without(s, i)
  }

  ghost predicate QueueSteps(k: Kernel, n: Kernel) {
    |n.queues| == |k.queues| && forall q: nat :: q < |k.queues| && q != SLEEPING_QUEUE ==> QueueStep(k, n, q)
  }

  lemma WaitQueues(k: Kernel, pid: int, scans: nat)
    requires Inv(k) && T(k, k.current).user && (scans > 0 ==> T(k, k.current).call == InWait(pid, scans))
    ensures Waitpid(k, pid, scans).Some? && QueueSteps(k, Waitpid(k, pid, scans).value.0)
  {
    WaitpidStep(k, pid, scans);
    if scans > 0 && pid != -1 { ResumeReaps(k); }
    match FindChild(k, pid, 2)
    case None => NoChildStep(k, pid, scans); hide Inv;
    case Some(c) =>
      assert SlotOk(k, c);
      if T(k, c).state.Died? { ReapStep(k, pid, scans, c); hide Inv; } else {
        WaitStep(k, pid, scans, c);
        hide Inv, Core;
        ScheduleStep(Scan(k, pid, scans).value.0);
      }
  }

  lemma StepQueues(k: Kernel, op: Op, n: Kernel)
    requires Inv(k) && CanDo(k, op) && Step(k, op).Some? && Step(k, op).value.0 == n
    ensures QueueSteps(k, n)
  {
    var me := T(k, k.current);
    StepKeeps(k, op);
    match op
    case Fork => ForkStep(k, n, Spawn(k).value.1); hide Inv;
    case Exit(status) => DieIs(k, status); ExitStep(k, status); hide Inv, Core; ScheduleStep(Die(k, status).value);
    case Wait(pid) => hide Inv; WaitQueues(k, pid, 0);
    case Resume => CallerIsUser(k); hide Inv; WaitQueues(k, me.call.pid, me.call.scans);
    case Yield => hide Core; ScheduleStep(k);
    case Block(q) => BlockStep(k, q); hide Inv, Core; ScheduleStep(Link(k, k.current, q, Blocked).value);
    case Unwait(i) => UnwaitStep(k, i); hide Inv;
    case Sleep(ms) => SleepStep(k, ms); hide Inv, Core; ScheduleStep(FallAsleep(k, ms).value);
    case Tick => TickStep(k); hide Inv;
  }

  // ---------- first come, first served ----------

  // since tells when a task last went to sleep of any kind.
  datatype Clocked = Clocked(kernel: Kernel, now: nat, since: map<nat, nat>)

  // The current task is the only one that a step can put to sleep.
  function ClockedStep(t: Clocked, op: Op): Option<Clocked>
    requires Shape(t.kernel) && CanDo(t.kernel, op)
  {
    match Step(t.kernel, op)
    case None => None
    case Some((n, _)) =>
      var me := t.kernel.current;
      Some(Clocked(n, t.now + 1, if Has(n, me) && Asleep(T(n, me).state) then t.since[me := t.now] else t.since))
  }

  ghost predicate InOrder(t: Clocked) {
    forall q: nat :: q < |t.kernel.queues| && q != SLEEPING_QUEUE ==> Queued(t.kernel.queues[q], t.since, t.now)
  }

  lemma ClockedKeeps(t: Clocked, op: Op, n: Clocked)
    requires Inv(t.kernel) && InOrder(t) && CanDo(t.kernel, op) && ClockedStep(t, op) == Some(n)
    ensures Inv(n.kernel) && InOrder(n)
  {
    var k, m, me := t.kernel, n.kernel, t.kernel.current;
    StepKeeps(k, op);
    StepQueues(k, op, m);
    forall q: nat | q < |m.queues| && q != SLEEPING_QUEUE ensures Queued(m.queues[q], n.since, n.now) {
      assert QueueStep(k, m, q);
      assert me !in k.queues[q] by { assert Linked(k, q, me) && NodeOk(k, me); }
      if m.queues[q] == k.queues[q] + [me] {
        assert (k.queues[q] + [me])[|k.queues[q]|] == me;
        assert me in m.queues[q];
        assert Linked(m, q, me) && NodeOk(m, me);
        PushQueued(k.queues[q], me, t.since, t.now);
      } else {
        hide Inv;
        Leaves(k.queues[q], m.queues[q], me, t.since, t.now);
      }
    }
  }

  lemma Leaves(s: seq<nat>, r: seq<nat>, x: nat, since: map<nat, nat>, now: nat)
    requires Queued(s, since, now) && x !in s && (r == s || OneLess(s, r))
    ensures Queued(r, since, now + 1) && Queued(r, since[x := now], now + 1)
  {
    if r != s {
      var i: nat :| r == Without(s, i);
      WithoutQueued(s, i, since, now);
    }
    OtherQueued(r, x, since, now);
  }

  function ClockedRun(t: Clocked, ops: seq<Op>): Option<Clocked>
    decreases |ops|
  {
    if ops == [] then Some(t)
    else if !Shape(t.kernel) || !CanDo(t.kernel, ops[0]) then None
    else match ClockedStep(t, ops[0]) case None => None case Some(n) => ClockedRun(n, ops[1..])
  }

  lemma {:induction false} ClockedRunKeeps(t: Clocked, ops: seq<Op>, n: Clocked)
    requires Inv(t.kernel) && InOrder(t) && ClockedRun(t, ops) == Some(n)
    ensures Inv(n.kernel) && InOrder(n)
    decreases |ops|
  {
    hide Inv, InOrder, ClockedStep, CanDo;
    if ops != [] {
      var t1 := ClockedStep(t, ops[0]).value;
      ClockedKeeps(t, ops[0], t1);
      ClockedRunKeeps(t1, ops[1..], n);
    }
  }

  // In every state a run from start-up reaches each blocking queue is in the order in which its
  // tasks blocked.
  lemma QueuesAreInOrder(queues: nat, ops: seq<Op>, n: Clocked, q: nat, i: nat, j: nat)
    requires queues >= 2 && ClockedRun(Clocked(Boot(queues), 0, map[]), ops) == Some(n)
    requires q < |n.kernel.queues| && q != SLEEPING_QUEUE && i < j < |n.kernel.queues[q]|
    ensures var a, b := n.kernel.queues[q][i], n.kernel.queues[q][j];
      a in n.since && b in n.since && n.since[a] < n.since[b]
  {
    BootInv(queues);
    ClockedRunKeeps(Clocked(Boot(queues), 0, map[]), ops, n);
    hide Inv, ClockedRun;
    assert Sooner(n.since, n.kernel.queues[q][i], n.kernel.queues[q][j]);
  }

  // ---------- a time slice ends ----------

  // Every state along the run has the same current task.
  ghost predicate Stays(k: Kernel, ops: seq<Op>, i: nat)
    decreases |ops|
  {
    k.current == i &&
    (ops != [] && Shape(k) && CanDo(k, ops[0]) && Step(k, ops[0]).Some? ==> Stays(Step(k, ops[0]).value.0, ops[1..], i))
  }

  // A switch takes the processor from every task but idle.
  lemma SwitchLeaves(k: Kernel)
    requires Core(k) && k.current != 0
    ensures Schedule(k).current != k.current
  {
    ScheduleStep(k);
    NextRunnable(k);
    assert SlotOk(k, 0) && !T(k, 0).state.Running?;
  }

  // Only the clock counts the time slice of a task down while it runs.
  lemma SliceStays(k: Kernel, op: Op, n: Kernel)
    requires Inv(k) && CanDo(k, op) && Step(k, op).Some? && Step(k, op).value.0 == n
    requires k.current != 0 && n.current == k.current && !op.Tick?
    ensures T(n, n.current).ticks == T(k, k.current).ticks
  {
    var me := T(k, k.current);
    StepKeeps(k, op);
    match op
    case Fork => ForkStep(k, n, Spawn(k).value.1); hide Inv; assert SameTask(k, n, k.current);
    case Exit(status) => DieIs(k, status); ExitStep(k, status); hide Inv, Core; SwitchLeaves(Die(k, status).value);
    case Wait(pid) => hide Inv; WaitSlice(k, pid, 0, n);
    case Resume => CallerIsUser(k); hide Inv; WaitSlice(k, me.call.pid, me.call.scans, n);
    case Yield => hide Core; SwitchLeaves(k);
    case Block(q) => BlockStep(k, q); hide Inv, Core; SwitchLeaves(Link(k, k.current, q, Blocked).value);
    case Unwait(i) => UnwaitStep(k, i); hide Inv; assert SameTask(k, n, k.current);
    case Sleep(ms) => SleepStep(k, ms); hide Inv, Core; SwitchLeaves(FallAsleep(k, ms).value);
  }

  lemma WaitSlice(k: Kernel, pid: int, scans: nat, n: Kernel)
    requires Inv(k) && T(k, k.current).user && (scans > 0 ==> T(k, k.current).call == InWait(pid, scans))
    requires Waitpid(k, pid, scans).Some? && Waitpid(k, pid, scans).value.0 == n
    requires k.current != 0 && n.current == k.current
    ensures T(n, n.current).ticks == T(k, k.current).ticks
  {
    if scans > 0 && pid != -1 { ResumeReaps(k); }
    match FindChild(k, pid, 2)
    case None => NoChildStep(k, pid, scans); hide Inv;
    case Some(c) =>
      assert SlotOk(k, c);
      if T(k, c).state.Died? { ReapStep(k, pid, scans, c); hide Inv; } else {
        WaitStep(k, pid, scans, c);
        hide Inv, Core;
        SwitchLeaves(Scan(k, pid, scans).value.0);
      }
  }

  // A task other than idle stays current through fewer clock interrupts than its time slice has
  // ticks left, whatever it does: at the latest the one that uses the slice up ends it.
  lemma {:induction false} SliceEnds(k: Kernel, ops: seq<Op>, n: Kernel)
    requires Inv(k) && k.current != 0 && Run(k, ops, n) && Stays(k, ops, k.current)
    ensures Ticks(ops) < T(k, k.current).ticks && Inv(n) && n.current == k.current
    ensures T(n, n.current).ticks == T(k, k.current).ticks - Ticks(ops)
    decreases |ops|
  {
    if ops != [] {
      RunFirst(k, ops, n);
      var k1 := Step(k, ops[0]).value.0;
      assert Stays(k1, ops[1..], k.current);
      assert k1.current == k.current;
      if ops[0].Tick? {
        TickStep(k);
        assert TickedAt(k, k1, k.current);
      } else {
        SliceStays(k, ops[0], k1);
      }
      hide Inv, Step;
      SliceEnds(k1, ops[1..], n);
    }
  }
}
