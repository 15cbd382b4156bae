/**
  Falling asleep, and the clock interrupt that wakes sleepers.
 */
module TaskSleep {
  import opened Lists
  import opened TaskInv
  import opened TaskModel
  import opened TaskSteps
  import opened Wrappers

  // ---------- going to sleep ----------

  lemma SleepQueues(k: Kernel, ms: nat)
    requires Inv(k) && ms > 0
    ensures FallAsleep(k, ms).Some? && QueuesOk(FallAsleep(k, ms).value)
  {
    assert NodeOk(k, k.current) && Linked(k, SLEEPING_QUEUE, k.current);
    var i, q := k.current, k.queues[SLEEPING_QUEUE];
    var n := FallAsleep(k, ms).value;
    InsertHas(q, Place(WakeTicks(k, q), k.jiffies + DivRoundUp(ms, JIFFY)), i);
    hide Forest, SleepOk, DivRoundUp;
    forall p, j: nat | 0 <= p < |n.queues| ensures Linked(n, p, j) { assert Linked(k, p, j) && Linked(k, p, i); }
    forall j: nat ensures NodeOk(n, j) { assert NodeOk(k, j); }
  }

  lemma KeysInsert(k: Kernel, n: Kernel, q: seq<nat>, p: nat, i: nat)
    requires p <= |q| && forall j :: j in q ==> WakeTick(n, j) == WakeTick(k, j)
    ensures WakeTicks(n, Insert(q, p, i)) == Insert(WakeTicks(k, q), p, WakeTick(n, i))
  {
    var r := Insert(q, p, i);
    forall m | 0 <= m < |r| ensures WakeTick(n, r[m]) == Insert(WakeTicks(k, q), p, WakeTick(n, i))[m] {
      if m != p { assert r[m] in q; }
    }
  }

  lemma SortedInsert(k: Kernel, n: Kernel, q: seq<nat>, i: nat)
    requires Shape(n) && Ascending(WakeTicks(k, q)) && forall m :: 0 <= m < |q| ==> WakeTick(k, q[m]) >= n.jiffies
    requires WakeTick(n, i) >= n.jiffies && forall j :: j in q ==> WakeTick(n, j) == WakeTick(k, j)
    requires n.queues[SLEEPING_QUEUE] == Insert(q, Place(WakeTicks(k, q), WakeTick(n, i)), i)
    ensures SleepOk(n)
  {
    var p := Place(WakeTicks(k, q), WakeTick(n, i));
    KeysInsert(k, n, q, p, i);
    InsertAscending(WakeTicks(k, q), WakeTick(n, i));
    var r := Insert(q, p, i);
    forall m | 0 <= m < |r| ensures WakeTick(n, r[m]) >= n.jiffies {
      if m != p { assert r[m] == q[if m < p then m else m - 1]; }
    }
  }

  lemma SleepSorted(k: Kernel, ms: nat)
    requires Inv(k) && ms > 0 && FallAsleep(k, ms).Some?
    ensures SleepOk(FallAsleep(k, ms).value)
  {
    var i, q := k.current, k.queues[SLEEPING_QUEUE];
    assert i !in q by { assert Linked(k, SLEEPING_QUEUE, i) && NodeOk(k, i); }
    assert SleepOk(k);
    var n := FallAsleep(k, ms).value;
    hide QueuesOk, Forest, Roots, WaitOk, DivRoundUp, Ascending;
    SortedInsert(k, n, q, i);
  }

  lemma SleepStep(k: Kernel, ms: nat)
    requires Inv(k) && k.current != 0 && T(k, k.current).call.NoCall? && ms > 0
    ensures FallAsleep(k, ms).Some? && var n := FallAsleep(k, ms).value;
      && Core(n) && Only(k, n, k.current)
      && (forall q: nat :: q != SLEEPING_QUEUE && q < |k.queues| && q < |n.queues| ==> n.queues[q] == k.queues[q])
  {
    SleepQueues(k, ms);
    SleepSorted(k, ms);
    var n := FallAsleep(k, ms).value;
    hide QueuesOk, SleepOk;
    forall j: nat ensures SameFamilyAt(k, n, j) {}
    FamilyFrame(k, n);
    hide Forest;
    forall j: nat ensures WaitOk(n, j) { assert WaitOk(k, j); }
    forall j: nat ensures SlotOk(n, j) { assert SlotOk(k, j); }
  }

  // ---------- waking up ----------

  // The first sleeper leaves the queue.
  lemma WakeOne(k: Kernel)
    requires Inv(k) && k.queues[SLEEPING_QUEUE] != []
    ensures var i := k.queues[SLEEPING_QUEUE][0]; Has(k, i) && T(k, i).state.Sleeping? && i != k.current
    ensures var n := Unblock(k, k.queues[SLEEPING_QUEUE][0]); n.Some? && Inv(n.value)
    ensures Unblock(k, k.queues[SLEEPING_QUEUE][0]).value.queues ==
            k.queues[SLEEPING_QUEUE := k.queues[SLEEPING_QUEUE][1..]]
  {
    var q := k.queues[SLEEPING_QUEUE];
    var i := q[0];
    assert i in q && Linked(k, SLEEPING_QUEUE, i) && NodeOk(k, i);
    QueueUnlink(k, i);
    var n := Unblock(k, i).value;
    assert Forest(n) by {
      hide QueuesOk;
      forall j: nat ensures SameFamilyAt(k, n, j) {}
      FamilyFrame(k, n);
    }
    assert SleepOk(n) by {
      forall m | 0 <= m < |q| - 1 ensures WakeTick(n, q[1..][m]) == WakeTick(k, q[m + 1]) {
        assert q[m + 1] != i;
      }
    }
    hide QueuesOk, Forest, SleepOk;
    forall j: nat ensures WaitOk(n, j) { assert WaitOk(k, j) && WaitOk(k, i); }
    forall j: nat ensures SlotOk(n, j) { assert SlotOk(k, j); }
  }

  // What task_wakeup does to task i: a sleeper whose tick has come is ready, others are as before.
  ghost predicate WokenAt(k: Kernel, n: Kernel, i: nat) {
    && (Has(n, i) <==> Has(k, i))
    && (Has(k, i) && Has(n, i) ==>
          T(n, i) == if T(k, i).state.Sleeping? && T(k, i).ticks <= k.jiffies
                     then T(k, i).(node := None, state := Ready) else T(k, i))
  }

  // The walk stops at the first sleeper that is not due, and this releases exactly the due ones.
  lemma {:induction false} WakeupStep(k: Kernel)
    requires Inv(k)
    ensures Wakeup(k, k.queues[SLEEPING_QUEUE]).Some?
    ensures var n := Wakeup(k, k.queues[SLEEPING_QUEUE]).value;
      && Inv(n) && n.current == k.current && n.jiffies == k.jiffies
      && (forall i: nat :: WokenAt(k, n, i))
      && |n.queues| == |k.queues|
      && (forall q: nat :: q != SLEEPING_QUEUE && q < |k.queues| ==> n.queues[q] == k.queues[q])
      && forall i :: i in n.queues[SLEEPING_QUEUE] ==> WakeTick(n, i) > n.jiffies
    decreases |k.queues[SLEEPING_QUEUE]|
  {
    var q := k.queues[SLEEPING_QUEUE];
    if q == [] || WakeTick(k, q[0]) > k.jiffies {
      if q != [] { WakeOne(k); }
      NoneDue(k);
    } else {
      WakeOne(k);
      var k1 := Unblock(k, q[0]).value;
      WakeupStep(k1);
      var n := Wakeup(k1, q[1..]).value;
      hide Inv;
      forall i: nat ensures WokenAt(k, n, i) { assert WokenAt(k1, n, i); }
    }
  }

  lemma NoneDue(k: Kernel)
    requires Inv(k)
    requires var q := k.queues[SLEEPING_QUEUE]; q == [] || WakeTick(k, q[0]) > k.jiffies
    ensures forall i: nat :: WokenAt(k, k, i)
    ensures forall i :: i in k.queues[SLEEPING_QUEUE] ==> WakeTick(k, i) > k.jiffies
  {
    var q := k.queues[SLEEPING_QUEUE];
    hide Forest, Roots, WaitOk;
    forall i | i in q ensures WakeTick(k, i) > k.jiffies {
      var m :| 0 <= m < |q| && q[m] == i;
      assert WakeTicks(k, q)[0] <= WakeTicks(k, q)[m];
    }
    forall i: nat ensures WokenAt(k, k, i) {
      assert Linked(k, SLEEPING_QUEUE, i) && NodeOk(k, i);
    }
  }

  // ---------- the clock interrupt ----------

  // A sleeper whose tick has come.
  predicate Due(k: Kernel, i: nat) {
    Has(k, i) && T(k, i).state.Sleeping? && T(k, i).ticks <= k.jiffies
  }

  // Whom the processor can go to when the current task's time slice is used up.
  predicate CanRun(k: Kernel, i: nat) {
    Has(k, i) && i != k.current && (T(k, i).state.Ready? || Due(k, i))
  }

  // What the interrupt does to task i, with `next` running after it.
  ghost predicate TickedAt(k: Kernel, n: Kernel, i: nat) {
    && (Has(n, i) <==> Has(k, i))
    && (Has(k, i) && Has(n, i) ==>
          var t := T(k, i);
          T(n, i) == if i == k.current then
            t.(jiffies := n.jiffies, ticks := if t.ticks <= 1 then t.priority else t.ticks - 1,
               state := if i == n.current then Running else Ready)
          else
            t.(node := if Due(k, i) then None else t.node,
               state := if i == n.current then Running else if Due(k, i) then Ready else t.state))
  }

  lemma LaterRest(k: Kernel, n: Kernel)
    requires Rest(k) && n == k.(jiffies := k.jiffies + 1)
    requires forall i :: i in k.queues[SLEEPING_QUEUE] ==> WakeTick(k, i) > k.jiffies
    ensures Rest(n)
  {
    var q := k.queues[SLEEPING_QUEUE];
    forall p, i: nat | 0 <= p < |n.queues| ensures Linked(n, p, i) { assert Linked(k, p, i); }
    forall i: nat ensures NodeOk(n, i) { assert NodeOk(k, i); }
    forall i: nat ensures SameFamilyAt(k, n, i) {}
    FamilyFrame(k, n);
    forall i: nat ensures WaitOk(n, i) { assert WaitOk(k, i); }
    forall m | 0 <= m < |q| ensures WakeTick(n, q[m]) >= n.jiffies { assert q[m] in q; }
    assert WakeTicks(n, q) == WakeTicks(k, q);
  }

  lemma CountDownStep(k: Kernel)
    requires Rest(k) && Roots(k) && (forall i: nat :: SlotOk(k, i))
    requires T(k, k.current).state.Running? && T(k, k.current).ticks >= 1
    ensures Core(CountDown(k)) && Similar(k, CountDown(k))
  {
    var n := CountDown(k);
    hide Rest;
    forall i: nat ensures SimilarAt(k, n, i) {}
    SimilarRest(k, n);
    forall i: nat ensures SlotOk(n, i) { assert SlotOk(k, i); }
  }

  // The interrupt never fails, never counts below zero, and wakes exactly the sleepers that are
  // due. The current task goes on while it has some of its time slice left; at the end of it the
  // processor goes to another task, except that idle goes on when nobody else can run.
  lemma TickStep(k: Kernel)
    requires Inv(k)
    ensures ClockTick(k).Some? && Inv(ClockTick(k).value) && ClockTick(k).value.jiffies == k.jiffies + 1
    ensures forall i: nat :: TickedAt(k, ClockTick(k).value, i)
    ensures forall i: nat :: SameDeadAt(k, ClockTick(k).value, i)
    ensures var n := ClockTick(k).value;
      && |n.queues| == |k.queues|
      && forall q: nat :: q != SLEEPING_QUEUE && q < |k.queues| ==> n.queues[q] == k.queues[q]
    ensures T(k, k.current).ticks > 1 ==> ClockTick(k).value.current == k.current
    ensures var next := ClockTick(k).value.current; T(k, k.current).ticks == 1 ==>
      if k.current == 0 && (forall i: nat :: !CanRun(k, i)) then next == 0 else CanRun(k, next)
  {
    WakeupStep(k);
    hide Rest, Roots, Similar, Schedule;
    var k1 := Wakeup(k, k.queues[SLEEPING_QUEUE]).value;
    var later := k1.(jiffies := k1.jiffies + 1);
    LaterRest(k1, later);
    LaterSlots(k1, later);
    CountDownStep(later);
    var k2, n := CountDown(later), ClockTick(k).value;
    assert WokenAt(k, k1, k.current);
    if T(k1, k1.current).ticks == 1 {
      ScheduleStep(k2);
      TickSwitches(k, k1, k2);
    }
    forall i: nat | Has(k, i) ensures T(k, i).priority >= 1 && (T(k, i).state.Running? ==> i == k.current) {
      assert SlotOk(k, i);
    }
    hide Inv, Wakeup;
    TickedFrom(k, k1, k2, n);
  }

  // The ready tasks at the end of the interrupt are those that can run.
  lemma TickSwitches(k: Kernel, k1: Kernel, k2: Kernel)
    requires Core(k2) && Shape(k1) && k1.current == k.current && Has(k, k.current) && T(k, k.current).state.Running?
    requires (forall i: nat :: WokenAt(k, k1, i)) && k2 == CountDown(k1.(jiffies := k1.jiffies + 1))
    ensures if k.current == 0 && (forall i: nat :: !CanRun(k, i)) then Next(k2) == 0 else CanRun(k, Next(k2))
  {
    NextRunnable(k2);
    hide Core;
    forall i: nat ensures CanRun(k, i) <==> i != k2.current && Has(k2, i) && T(k2, i).state.Ready? {
      assert WokenAt(k, k1, i);
    }
  }

  lemma LaterSlots(k: Kernel, n: Kernel)
    requires Core(k) && n == k.(jiffies := k.jiffies + 1)
    ensures Roots(n) && forall i: nat :: SlotOk(n, i)
  {
    hide Rest;
    forall i: nat ensures SlotOk(n, i) { assert SlotOk(k, i); }
  }

  lemma TickedFrom(k: Kernel, k1: Kernel, k2: Kernel, n: Kernel)
    requires Shape(k) && Shape(k1) && k1.current == k.current && k1.jiffies == k.jiffies
    requires T(k, k.current).state.Running? && T(k, k.current).ticks >= 1
    requires (forall i: nat :: WokenAt(k, k1, i)) && k2 == CountDown(k1.(jiffies := k1.jiffies + 1))
    requires forall i: nat :: Has(k, i) && T(k, i).state.Running? ==> i == k.current
    requires forall i: nat :: Has(k, i) ==> T(k, i).priority >= 1
    requires if T(k, k.current).ticks == 1 then n.jiffies == k2.jiffies && forall i: nat :: SwitchedAt(k2, n, i)
             else n == k2
    requires n.current == k.current || CanRun(k, n.current)
    ensures forall i: nat :: TickedAt(k, n, i)
    ensures forall i: nat :: SameDeadAt(k, n, i)
  {
    forall i: nat ensures TickedAt(k, n, i) && SameDeadAt(k, n, i) {
      assert WokenAt(k, k1, i);
      if T(k, k.current).ticks == 1 { assert SwitchedAt(k2, n, i); }
    }
  }
}
