/**
  How long a sleep lasts, how the process tree hangs together, and whom the scheduler picks.
 */
module TaskTheorems {
  import opened TaskFamily
  import opened TaskInv
  import opened TaskModel
  import opened TaskRuns
  import opened TaskSleep
  import opened TaskSteps
  import opened Wrappers

  // ---------- sleeping ----------

  ghost predicate Sleeps(k: Kernel, i: nat, tick: nat) {
    Has(k, i) && T(k, i).state.Sleeping? && T(k, i).ticks == tick
  }

  function Ticks(ops: seq<Op>): nat {
    if ops == [] then 0 else (if ops[0].Tick? then 1 else 0) + Ticks(ops[1..])
  }

  lemma ScheduleSleeper(k: Kernel, i: nat, tick: nat)
    requires Core(k) && Sleeps(k, i, tick)
    ensures Sleeps(Schedule(k), i, tick) && Schedule(k).jiffies == k.jiffies
  {
    ScheduleStep(k);
    hide Core, Inv;
    assert SimilarAt(k, Schedule(k), i);
  }

  // Nothing but the clock wakes a sleeper.
  lemma OnlyClockWakes(k: Kernel, op: Op, n: Kernel, i: nat, tick: nat)
    requires Inv(k) && CanDo(k, op) && !op.Tick? && Step(k, op).Some? && Step(k, op).value.0 == n && Sleeps(k, i, tick)
    ensures Sleeps(n, i, tick) && n.jiffies == k.jiffies
  {
    StepKeeps(k, op);
    assert i != k.current;
    match op
    case Fork => hide Inv; ForkSleeper(k, i, tick);
    case Exit(status) => hide Inv; ExitSleeper(k, status, i, tick);
    case Wait(pid) => WaitSleeper(k, pid, 0, n, i, tick);
    case Resume => CallerIsUser(k); WaitSleeper(k, T(k, k.current).call.pid, T(k, k.current).call.scans, n, i, tick);
    case Yield => ScheduleSleeper(k, i, tick);
    case Block(q) =>
      BlockStep(k, q);
      hide Inv, Core;
      ScheduleSleeper(Link(k, k.current, q, Blocked).value, i, tick);
    case Unwait(_) => hide Inv;
    case Sleep(ms) =>
      SleepStep(k, ms);
      hide Inv, Core;
      ScheduleSleeper(FallAsleep(k, ms).value, i, tick);
  }

  lemma ForkSleeper(k: Kernel, i: nat, tick: nat)
    requires Inv(k) && Spawn(k).Some? && Sleeps(k, i, tick)
    ensures Sleeps(Spawn(k).value.0, i, tick) && Spawn(k).value.0.jiffies == k.jiffies
  {
    hide Inv;
  }

  lemma ExitSleeper(k: Kernel, status: int, i: nat, tick: nat)
    requires Inv(k) && CanDo(k, Exit(status)) && Step(k, Exit(status)).Some? && Sleeps(k, i, tick) && i != k.current
    ensures var n := Step(k, Exit(status)).value.0; Sleeps(n, i, tick) && n.jiffies == k.jiffies
  {
    ExitStep(k, status);
    DieIs(k, status);
    hide Inv, Core;
    assert ExitedAt(k, Die(k, status).value, status, i);
    ScheduleSleeper(Die(k, status).value, i, tick);
  }

  lemma WaitSleeper(k: Kernel, pid: int, scans: nat, n: Kernel, i: nat, tick: nat)
    requires Inv(k) && T(k, k.current).user && (scans > 0 ==> T(k, k.current).call == InWait(pid, scans))
    requires Waitpid(k, pid, scans).Some? && Waitpid(k, pid, scans).value.0 == n && Sleeps(k, i, tick)
    ensures Sleeps(n, i, tick) && n.jiffies == k.jiffies
  {
    if scans > 0 && pid != -1 { ResumeReaps(k); }
    assert i != k.current;
    match FindChild(k, pid, 2)
    case None =>
    case Some(c) =>
      if !T(k, c).state.Died? {
        assert SlotOk(k, c);
        WaitStep(k, pid, scans, c);
        hide Inv, Core;
        ScheduleSleeper(Scan(k, pid, scans).value.0, i, tick);
      }
  }

  // A sleeper with `left` clock interrupts to go is asleep through that many of them.
  lemma {:induction false} StaysAsleep(k: Kernel, ops: seq<Op>, n: Kernel, i: nat, tick: nat)
    requires Inv(k) && Run(k, ops, n) && Sleeps(k, i, tick) && k.jiffies + Ticks(ops) <= tick
    ensures Sleeps(n, i, tick) && n.jiffies == k.jiffies + Ticks(ops) && Inv(n)
    decreases |ops|
  {
    if ops == [] {
    } else {
      RunFirst(k, ops, n);
      var k1 := Step(k, ops[0]).value.0;
      hide Inv, Step;
      if ops[0].Tick? { OneTick(k, i, tick); } else { OnlyClockWakes(k, ops[0], k1, i, tick); }
      StaysAsleep(k1, ops[1..], n, i, tick);
    }
  }

  lemma OneTick(k: Kernel, i: nat, tick: nat)
    requires Inv(k) && Sleeps(k, i, tick)
    ensures Step(k, Tick).Some? && var n := Step(k, Tick).value.0;
      && n.jiffies == k.jiffies + 1 && Inv(n) && Has(n, i)
      && if tick <= k.jiffies then Runnable(T(n, i).state) && T(n, i).ticks == tick else Sleeps(n, i, tick)
  {
    TickStep(k);
    hide Inv;
    assert TickedAt(k, ClockTick(k).value, i);
  }

  // The clock ticks every 10 milliseconds. A task that sleeps for ms milliseconds is asleep until
  // clock interrupts have covered them, whatever else happens, and runnable after the next one.
  // What is left in its field for the time slice is then the number of the interrupt that woke it.
  lemma SleepIsExact(k: Kernel, ms: nat, ops: seq<Op>, n: Kernel)
    requires Inv(k) && CanDo(k, Sleep(ms)) && ms > 0 && Run(k, [Sleep(ms)] + ops, n)
    requires 10 * Ticks(ops) < ms + 10
    ensures Inv(n) && Has(n, k.current) && T(n, k.current).state.Sleeping?
    ensures Step(n, Tick).Some? && var m := Step(n, Tick).value.0;
      && Has(m, k.current) && (Runnable(T(m, k.current).state) <==> ms <= 10 * Ticks(ops))
      && (ms <= 10 * Ticks(ops) ==> T(m, k.current).ticks == n.jiffies)
  {
    var all := [Sleep(ms)] + ops;
    assert all[1..] == ops;
    RunFirst(k, all, n);
    var k1 := Step(k, Sleep(ms)).value.0;
    FirstAsleep(k, ms);
    var tick := k.jiffies + DivRoundUp(ms, JIFFY);
    RoundsUp(ms, Ticks(ops));
    hide Inv, Step, DivRoundUp;
    StaysAsleep(k1, ops, n, k.current, tick);
    OneTick(n, k.current, tick);
  }

  // Whether n clock interrupts cover ms milliseconds.
  lemma RoundsUp(ms: nat, n: nat)
    ensures 10 * n < ms + 10 <==> n <= DivRoundUp(ms, JIFFY)
    ensures ms <= 10 * n <==> DivRoundUp(ms, JIFFY) <= n
  {
  }

  lemma FirstAsleep(k: Kernel, ms: nat)
    requires Inv(k) && CanDo(k, Sleep(ms)) && ms > 0
    ensures Step(k, Sleep(ms)).Some?
    ensures Sleeps(Step(k, Sleep(ms)).value.0, k.current, k.jiffies + DivRoundUp(ms, JIFFY))
    ensures Step(k, Sleep(ms)).value.0.jiffies == k.jiffies
  {
    SleepStep(k, ms);
    hide Inv, Core, DivRoundUp;
    ScheduleSleeper(FallAsleep(k, ms).value, k.current, k.jiffies + DivRoundUp(ms, JIFFY));
  }

  // ---------- the process tree ----------

  function Ancestor(k: Kernel, i: nat, steps: nat): nat
    decreases steps
  {
    if steps == 0 || !Has(k, i) then i else Ancestor(k, T(k, i).ppid, steps - 1)
  }

  lemma {:induction false} ClimbsToIdle(k: Kernel, rank: seq<nat>, i: nat)
    requires Shape(k) && (forall j: nat :: FamilyOk(k, j)) && Ranked(k, rank) && Has(k, i)
    ensures exists d: nat :: Ancestor(k, i, d) == 0
    decreases rank[i]
  {
    if i == 0 {
      assert Ancestor(k, i, 0) == 0;
    } else {
      assert FamilyOk(k, i) && Below(k, rank, i);
      var p := T(k, i).ppid;
      ClimbsToIdle(k, rank, p);
      var d: nat :| Ancestor(k, p, d) == 0;
      var above := d + 1;
      assert Ancestor(k, i, above) == 0;
    }
  }

  // In every reachable state, following parents from any task ends at idle.
  lemma ProcessTree(k: Kernel, ops: seq<Op>, n: Kernel, i: nat)
    requires Inv(k) && Run(k, ops, n) && Has(n, i)
    ensures exists d: nat :: Ancestor(n, i, d) == 0
  {
    RunKeeps(k, ops, n);
    hide QueuesOk, SleepOk;
    var rank :| Ranked(n, rank);
    ClimbsToIdle(n, rank, i);
  }

  // ---------- the choice of the next task ----------

  // d is at least as good as x by both of the search's measures.
  predicate AsGood(d: Task, x: Task) {
    d.ticks >= x.ticks && d.jiffies <= x.jiffies
  }

  predicate Candidate(k: Kernel, i: nat) {
    Has(k, i) && i != k.current && T(k, i).state.Ready?
  }

  ghost predicate Best(k: Kernel, d: nat) {
    Has(k, d) && Candidate(k, d) && forall x: nat :: Candidate(k, x) ==> AsGood(T(k, d), T(k, x))
  }

  lemma {:induction false} BestIsKept(k: Kernel, d: nat, i: nat, best: Option<nat>)
    requires Best(k, d) && (best.Some? ==> Has(k, best.value) && Candidate(k, best.value))
    requires i <= d || (best.Some? && Best(k, best.value))
    ensures var r := Search(k, Ready, i, best); r.Some? && Best(k, r.value)
    decreases |k.tasks| - i
  {
    if i < |k.tasks| {
      if !Candidate(k, i) {
        BestIsKept(k, d, i + 1, best);
      } else if best.None? || Beats(T(k, i), T(k, best.value)) {
        BestIsKept(k, d, i + 1, Some(i));
      } else {
        BestIsKept(k, d, i + 1, best);
      }
    }
  }

  // The search picks a ready task with the highest ticks and the lowest jiffies exactly when one
  // ready task has both.
  lemma ChoiceIsBest(k: Kernel)
    ensures Best(k, Next(k)) <==> exists d: nat :: Best(k, d)
  {
    if d: nat :| Best(k, d) { BestIsKept(k, d, 0, None); }
  }

  ghost predicate Outdone(k: Kernel, r: nat, x: nat) {
    Has(k, r) && Candidate(k, x) && T(k, x).ticks > T(k, r).ticks && T(k, x).jiffies < T(k, r).jiffies
  }

  // ---------- waiting for any child ----------

  // The lowest child in the table from slot 2 on, dead or alive.
  ghost predicate FirstChild(k: Kernel, c: nat)
    requires Shape(k)
  {
    c >= 2 && Matches(k, -1, c) && forall j: nat :: 2 <= j < c ==> !Matches(k, -1, j)
  }

  // A search for any child has to do with the caller's first child only: it returns that child
  // exactly when it is dead, blocks exactly when it lives, and finds none exactly when there is none.
  ghost predicate TakesFirst(k: Kernel, r: Option<(Kernel, Out)>)
    requires Shape(k)
  {
    && r.Some?
    && (r.value.1.Reaped? <==> exists c: nat :: FirstChild(k, c) && Dead(k, c))
    && (r.value.1.Silent? <==> exists c: nat :: FirstChild(k, c) && !Dead(k, c))
    && (r.value.1.NoChild? <==> forall j: nat :: 2 <= j ==> !Matches(k, -1, j))
    && (r.value.1.Reaped? ==> FirstChild(k, r.value.1.pid))
  }

  lemma AnyTakesFirst(k: Kernel, scans: nat)
    requires Inv(k) && T(k, k.current).user && (scans > 0 ==> T(k, k.current).call == InWait(-1, scans))
    ensures TakesFirst(k, Waitpid(k, -1, scans))
  {
    FindChildIs(k, -1, 2);
    assert NodeOk(k, k.current);
    match FindChild(k, -1, 2)
    case None => NoChildStep(k, -1, scans);
    case Some(c) =>
      assert SlotOk(k, c) && FirstChild(k, c);
      assert forall d: nat :: FirstChild(k, d) ==> d == c;
      if T(k, c).state.Died? { ReapStep(k, -1, scans, c); } else { WaitStep(k, -1, scans, c); }
  }

  // So it goes at the call of waitpid(-1), and again at each search after it was woken.
  lemma WaitAnyTakesFirst(k: Kernel)
    requires Inv(k)
    ensures T(k, k.current).user && CanDo(k, Wait(-1)) ==> TakesFirst(k, Step(k, Wait(-1)))
    ensures CanDo(k, Resume) && T(k, k.current).call.pid == -1 ==> TakesFirst(k, Step(k, Resume))
  {
    var me := T(k, k.current);
    if me.call.InWait? { CallerIsUser(k); }
    assert NodeOk(k, k.current) && SlotOk(k, k.current);
    hide Inv, TakesFirst, Waitpid;
    if me.call.InWait? && me.call.pid == -1 { AnyTakesFirst(k, me.call.scans); }
    if me.user { AnyTakesFirst(k, 0); }
  }

  // ---------- after boot ----------

  lemma BootInv(queues: nat)
    requires queues >= 2
    ensures Inv(Boot(queues))
  {
    var k := Boot(queues);
    var rank := seq(NUM_TASKS, i => i);
    forall i: nat ensures Below(k, rank, i) && FamilyOk(k, i) && NodeOk(k, i) && WaitOk(k, i) && SlotOk(k, i) {}
    assert Ranked(k, rank);
    forall q, i: nat | 0 <= q < |k.queues| ensures Linked(k, q, i) {}
  }

  // ---------- every reachable state ----------

  // Exactly the current task is running; a task is in one queue while it is blocked, sleeping or
  // waiting, and in none otherwise; idle is always ready or running.
  lemma SchedulerStates(queues: nat, ops: seq<Op>, n: Kernel)
    requires queues >= 2 && Run(Boot(queues), ops, n)
    ensures forall i: nat :: Has(n, i) ==> (T(n, i).state.Running? <==> i == n.current)
    ensures forall i: nat, q: nat :: Has(n, i) && q < |n.queues| && i in n.queues[q] ==>
      Asleep(T(n, i).state) && forall r: nat :: r < |n.queues| && i in n.queues[r] ==> r == q
    ensures forall i: nat :: Has(n, i) && Asleep(T(n, i).state) ==>
      exists q: nat :: q < |n.queues| && i in n.queues[q]
    ensures Has(n, 0) && Runnable(T(n, 0).state)
  {
    BootInv(queues);
    RunKeeps(Boot(queues), ops, n);
    hide Forest, SleepOk, WaitOk, Run, Boot;
    forall i: nat | Has(n, i) ensures T(n, i).state.Running? <==> i == n.current { assert SlotOk(n, i); }
    forall i: nat, q: nat | Has(n, i) && q < |n.queues| && i in n.queues[q]
      ensures Asleep(T(n, i).state) && forall r: nat :: r < |n.queues| && i in n.queues[r] ==> r == q
    {
      assert Linked(n, q, i) && NodeOk(n, i);
      forall r: nat | r < |n.queues| && i in n.queues[r] ensures r == q { assert Linked(n, r, i); }
    }
    forall i: nat | Has(n, i) && Asleep(T(n, i).state) ensures exists q: nat :: q < |n.queues| && i in n.queues[q] {
      assert NodeOk(n, i);
      var q := T(n, i).node.value;
      assert Linked(n, q, i);
    }
  }

  // Every task that is asleep in waitpid waits for a living child of its own, which its waitpid
  // field names.
  lemma WaitersHaveChildren(queues: nat, ops: seq<Op>, n: Kernel, i: nat)
    requires queues >= 2 && Run(Boot(queues), ops, n) && Has(n, i) && T(n, i).state.Waiting?
    ensures var c := T(n, i).waitpid;
      c >= 0 && Has(n, c) && T(n, c).pid == c && T(n, c).ppid == i && !T(n, c).state.Died?
  {
    BootInv(queues);
    RunKeeps(Boot(queues), ops, n);
    hide QueuesOk, Forest, SleepOk, Run, Boot;
    assert WaitOk(n, i) && SlotOk(n, T(n, i).waitpid);
  }
}
