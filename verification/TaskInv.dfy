/**
  What holds of the process table and the queues whenever no task is in the middle of a step.
 */
module TaskInv {
  import opened Lists
  import opened TaskModel
  import opened Wrappers

  // Slot i holds pid i and a time slice that the clock can count down; the first three tasks
  // are children of idle, which like the third one is the kernel's own and never ends.
  ghost predicate SlotOk(k: Kernel, i: nat) {
    Has(k, i) ==>
      && T(k, i).pid == i && T(k, i).priority >= 1
      && (T(k, i).ticks >= 1 || (i == k.current && !T(k, i).state.Sleeping?))
      && (T(k, i).state.Running? ==> i == k.current)
      && (!T(k, i).user ==> !T(k, i).state.Died? && T(k, i).call.NoCall?)
  }

  ghost predicate Kept(k: Kernel, i: nat) {
    Has(k, i) && T(k, i).ppid == 0
  }

  ghost predicate Roots(k: Kernel) {
    && Kept(k, 0) && Kept(k, 1) && Kept(k, 2) && !T(k, 0).user && !T(k, 2).user
    && Runnable(T(k, 0).state)
  }

  // A task is in the queue that its node says, and in no other.
  ghost predicate Linked(k: Kernel, q: nat, i: nat) {
    q < |k.queues| ==> (i in k.queues[q] <==> Has(k, i) && T(k, i).node == Some(q))
  }

  // It is linked exactly while it is blocked, sleeping or waiting.
  ghost predicate NodeOk(k: Kernel, i: nat) {
    Has(k, i) ==>
      && (T(k, i).node.Some? ==> T(k, i).node.value < |k.queues|)
      && (T(k, i).node.Some? <==> Asleep(T(k, i).state))
      && (T(k, i).node == Some(SLEEPING_QUEUE) <==> T(k, i).state.Sleeping?)
      && (T(k, i).state.Waiting? ==> T(k, i).node == Some(BLOCKED_QUEUE))
  }

  ghost predicate QueuesOk(k: Kernel) {
    && (forall q, i: nat :: 0 <= q < |k.queues| ==> Linked(k, q, i))
    && (forall q :: 0 <= q < |k.queues| ==> NoDup(k.queues[q]))
    && (forall i: nat :: NodeOk(k, i))
  }

  // A parent is a task that has not ended.
  ghost predicate FamilyOk(k: Kernel, i: nat) {
    Has(k, i) ==> Has(k, T(k, i).ppid) && !T(k, T(k, i).ppid).state.Died?
  }

  ghost predicate Below(k: Kernel, rank: seq<nat>, i: nat)
    requires |rank| == NUM_TASKS
  {
    Has(k, i) && i != 0 && i < NUM_TASKS && T(k, i).ppid < NUM_TASKS ==> rank[T(k, i).ppid] < rank[i]
  }

  ghost predicate Ranked(k: Kernel, rank: seq<nat>) {
    |rank| == NUM_TASKS && forall i: nat :: Below(k, rank, i)
  }

  ghost predicate Forest(k: Kernel) {
    (forall i: nat :: FamilyOk(k, i)) && exists rank :: Ranked(k, rank)
  }

  // Task i is asleep in waitpid: its waitpid field names a living child of its own.
  ghost predicate AwaitsChild(k: Kernel, i: nat)
    requires Has(k, i)
  {
    var c := T(k, i).waitpid;
    && T(k, i).call.InWait? && c >= 2 && c != i && Has(k, c) && !T(k, c).state.Died? && T(k, c).ppid == i
    && T(k, i).call.pid in {-1, c} && (T(k, i).call.pid == c ==> T(k, i).call.scans == 1)
  }

  // Task i has been woken in waitpid for one particular child: that child is there to be reaped.
  ghost predicate CanReap(k: Kernel, i: nat)
    requires Has(k, i) && T(k, i).call.InWait?
  {
    var c := T(k, i).call.pid;
    && c >= 2 && c != i && Has(k, c) && T(k, c).state.Died? && T(k, c).ppid == i && T(k, i).call.scans == 1
  }

  ghost predicate WaitOk(k: Kernel, i: nat) {
    Has(k, i) ==>
      && (T(k, i).state.Waiting? ==> AwaitsChild(k, i))
      && (T(k, i).call.InWait? ==> T(k, i).call.scans >= 1 && (T(k, i).state.Waiting? || Runnable(T(k, i).state)))
      && (T(k, i).call.InWait? && Runnable(T(k, i).state) && T(k, i).call.pid != -1 ==> CanReap(k, i))
  }

  // The sleeping queue is sorted by wake tick, and nobody in it is overdue.
  ghost predicate SleepOk(k: Kernel)
    requires Shape(k)
  {
    var q := k.queues[SLEEPING_QUEUE];
    Ascending(WakeTicks(k, q)) && forall n :: 0 <= n < |q| ==> WakeTick(k, q[n]) >= k.jiffies
  }

  ghost predicate Rest(k: Kernel) {
    Shape(k) && QueuesOk(k) && Forest(k) && SleepOk(k) && forall i: nat :: WaitOk(k, i)
  }

  // All of it, except that the current task may be about to give up the processor.
  ghost predicate Core(k: Kernel) {
    Rest(k) && Roots(k) && forall i: nat :: SlotOk(k, i)
  }

  ghost predicate Inv(k: Kernel) {
    Core(k) && T(k, k.current).state.Running? && T(k, k.current).ticks >= 1
  }

  // ---------- what the parts depend on ----------

  // n differs from k only in who is running and in the clocks of tasks that do not sleep.
  ghost predicate SimilarAt(k: Kernel, n: Kernel, i: nat) {
    && (Has(k, i) <==> Has(n, i))
    && (Has(k, i) && Has(n, i) ==>
          var a, b := T(k, i), T(n, i);
          && b == a.(state := b.state, ticks := b.ticks, jiffies := b.jiffies)
          && (a.state == b.state || (Runnable(a.state) && Runnable(b.state)))
          && (a.state.Sleeping? ==> a == b))
  }

  ghost predicate Similar(k: Kernel, n: Kernel) {
    n.queues == k.queues && n.jiffies == k.jiffies && forall i: nat :: SimilarAt(k, n, i)
  }

  // No task but i is touched, and neither the clock nor the current task.
  ghost predicate Only(k: Kernel, n: Kernel, i: nat) {
    && n.current == k.current && n.jiffies == k.jiffies && |n.queues| == |k.queues|
    && forall j: nat :: j != i ==> SameTask(k, n, j)
  }

  ghost predicate SameTask(k: Kernel, n: Kernel, j: nat) {
    (Has(n, j) <==> Has(k, j)) && (Has(k, j) && Has(n, j) ==> T(n, j) == T(k, j))
  }

  ghost predicate SameFamilyAt(k: Kernel, n: Kernel, i: nat) {
    && (Has(k, i) <==> Has(n, i))
    && (Has(k, i) && Has(n, i) ==> T(k, i).ppid == T(n, i).ppid && (T(k, i).state.Died? <==> T(n, i).state.Died?))
  }

  lemma FamilyFrame(k: Kernel, n: Kernel)
    requires Forest(k) && forall i: nat :: SameFamilyAt(k, n, i)
    ensures Forest(n)
  {
    forall i: nat ensures FamilyOk(n, i) {
      assert FamilyOk(k, i) && SameFamilyAt(k, n, i);
      if Has(k, i) { assert SameFamilyAt(k, n, T(k, i).ppid); }
    }
    var rank :| Ranked(k, rank);
    forall i: nat ensures Below(n, rank, i) { assert Below(k, rank, i) && SameFamilyAt(k, n, i); }
    assert Ranked(n, rank);
  }

  lemma SleepFrame(k: Kernel, n: Kernel)
    requires Shape(k) && Shape(n) && SleepOk(k) && n.jiffies == k.jiffies
    requires n.queues[SLEEPING_QUEUE] == k.queues[SLEEPING_QUEUE]
    requires forall i :: i in k.queues[SLEEPING_QUEUE] ==> WakeTick(n, i) == WakeTick(k, i)
    ensures SleepOk(n)
  {
    var q := k.queues[SLEEPING_QUEUE];
    forall m | 0 <= m < |q| ensures WakeTick(n, q[m]) == WakeTick(k, q[m]) { assert q[m] in q; }
    assert WakeTicks(n, q) == WakeTicks(k, q);
  }

  lemma SimilarRest(k: Kernel, n: Kernel)
    requires Rest(k) && Similar(k, n) && Shape(n)
    ensures Rest(n)
  {
    forall q, i: nat | 0 <= q < |n.queues| ensures Linked(n, q, i) { assert Linked(k, q, i) && SimilarAt(k, n, i); }
    forall i: nat ensures NodeOk(n, i) { assert NodeOk(k, i) && SimilarAt(k, n, i); }
    SimilarFamily(k, n);
    SimilarSleep(k, n);
    forall i: nat ensures WaitOk(n, i) {
      assert WaitOk(k, i) && SimilarAt(k, n, i);
      if Has(k, i) {
        if T(k, i).waitpid >= 0 { assert SimilarAt(k, n, T(k, i).waitpid); }
        if T(k, i).call.InWait? && T(k, i).call.pid >= 0 { assert SimilarAt(k, n, T(k, i).call.pid); }
      }
    }
  }

  lemma SimilarFamily(k: Kernel, n: Kernel)
    requires Forest(k) && Similar(k, n)
    ensures Forest(n)
  {
    forall i: nat ensures SameFamilyAt(k, n, i) { assert SimilarAt(k, n, i); }
    FamilyFrame(k, n);
  }

  lemma SimilarSleep(k: Kernel, n: Kernel)
    requires Shape(k) && Shape(n) && QueuesOk(k) && SleepOk(k) && Similar(k, n)
    ensures SleepOk(n)
  {
    forall i | i in k.queues[SLEEPING_QUEUE] ensures WakeTick(n, i) == WakeTick(k, i) {
      assert Linked(k, SLEEPING_QUEUE, i) && NodeOk(k, i) && SimilarAt(k, n, i);
    }
    SleepFrame(k, n);
  }

  // ---------- the dead ----------

  predicate Dead(k: Kernel, i: nat) {
    Has(k, i) && T(k, i).state.Died?
  }

  ghost predicate SameDeadAt(k: Kernel, n: Kernel, i: nat) {
    && (Dead(k, i) <==> Dead(n, i))
    && (Dead(k, i) && Dead(n, i) ==> T(k, i).status == T(n, i).status)
  }
}
