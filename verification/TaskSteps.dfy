/**
  The scheduler and the blocking primitives keep the invariant.
 */
module TaskSteps {
  import opened Lists
  import opened TaskInv
  import opened TaskModel
  import opened Wrappers

  // ---------- task_search and schedule ----------

  // The search returns a task in that state other than the current one, if there is any.
  lemma {:induction false} SearchFinds(k: Kernel, state: State, i: nat, best: Option<nat>)
    requires best.Some? ==> Has(k, best.value) && best.value != k.current && T(k, best.value).state == state
    ensures var r := Search(k, state, i, best);
      && (r.Some? ==> r.value != k.current && T(k, r.value).state == state)
      && (r.None? <==> best.None? && forall j: nat :: i <= j && Has(k, j) && j != k.current ==> T(k, j).state != state)
    decreases |k.tasks| - i
  {
    if i < |k.tasks| {
      if !Has(k, i) || i == k.current || T(k, i).state != state {
        SearchFinds(k, state, i + 1, best);
      } else if best.None? || Beats(T(k, i), T(k, best.value)) {
        SearchFinds(k, state, i + 1, Some(i));
      } else {
        SearchFinds(k, state, i + 1, best);
      }
    }
  }

  predicate Fits(k: Kernel, state: State, i: nat) {
    Has(k, i) && i != k.current && T(k, i).state == state
  }

  // j has more of its time slice left than i, or ran longer ago.
  predicate Ahead(k: Kernel, j: nat, i: nat)
    requires Has(k, i) && Has(k, j)
  {
    T(k, j).ticks > T(k, i).ticks || T(k, j).jiffies < T(k, i).jiffies
  }

  // From slot i on, j is the first task that fits and is ahead of the one held.
  ghost predicate FirstAhead(k: Kernel, state: State, held: nat, i: nat, j: nat)
    requires Has(k, held)
  {
    && i <= j && Fits(k, state, j) && Ahead(k, j, held)
    && forall x: nat :: i <= x < j && Fits(k, state, x) ==> !Ahead(k, x, held)
  }

  // The tasks that the search holds one after the other: each is the first one behind its
  // predecessor that is ahead of it, and none behind the last one is.
  ghost predicate Climb(k: Kernel, state: State, chain: seq<nat>) {
    && chain != [] && (forall a :: 0 <= a < |chain| ==> Has(k, chain[a]))
    && (forall a :: 0 <= a < |chain| - 1 ==> FirstAhead(k, state, chain[a], chain[a] + 1, chain[a + 1]))
    && var last := chain[|chain| - 1]; forall x: nat :: last < x && Fits(k, state, x) ==> !Ahead(k, x, last)
  }

  lemma {:induction false} SearchClimbs(k: Kernel, state: State, i: nat, best: nat) returns (chain: seq<nat>)
    requires best < i && Fits(k, state, best)
    requires forall x: nat :: best < x < i && Fits(k, state, x) ==> !Ahead(k, x, best)
    ensures Climb(k, state, chain) && chain[0] == best && Search(k, state, i, Some(best)) == Some(chain[|chain| - 1])
    decreases |k.tasks| - i
  {
    if i >= |k.tasks| {
      chain := [best];
    } else if Fits(k, state, i) && Ahead(k, i, best) {
      var rest := SearchClimbs(k, state, i + 1, i);
      chain := [best] + rest;
      assert FirstAhead(k, state, best, best + 1, i);
      forall a | 0 <= a < |chain| - 1 ensures FirstAhead(k, state, chain[a], chain[a] + 1, chain[a + 1]) {
        if a > 0 { assert chain[a] == rest[a - 1] && chain[a + 1] == rest[a]; }
      }
    } else {
      chain := SearchClimbs(k, state, i + 1, best);
    }
  }

  // Exactly what the search picks: it starts from the first task that fits, and climbs.
  lemma {:induction false} SearchIs(k: Kernel, state: State, i: nat) returns (chain: seq<nat>)
    ensures var r := Search(k, state, i, None);
      if chain == [] then r.None? && forall x: nat :: i <= x ==> !Fits(k, state, x)
      else
        && Climb(k, state, chain) && r == Some(chain[|chain| - 1])
        && i <= chain[0] && Fits(k, state, chain[0]) && forall x: nat :: i <= x < chain[0] ==> !Fits(k, state, x)
    decreases |k.tasks| - i
  {
    if i >= |k.tasks| {
      chain := [];
    } else if Fits(k, state, i) {
      chain := SearchClimbs(k, state, i + 1, i);
    } else {
      chain := SearchIs(k, state, i + 1);
    }
  }

  // The next task is ready; only when idle is the current task, and nothing else is ready, does
  // the search fall back on idle.
  lemma NextRunnable(k: Kernel)
    requires Core(k)
    ensures Has(k, Next(k)) && Runnable(T(k, Next(k)).state)
    ensures Next(k) == k.current ==> k.current == 0
    ensures Next(k) != k.current ==> T(k, Next(k)).state.Ready?
    ensures Next(k) == k.current <==> k.current == 0 && forall j: nat :: Has(k, j) && j != 0 ==> !T(k, j).state.Ready?
  {
    hide Rest;
    SearchFinds(k, Ready, 0, None);
    assert SlotOk(k, 0);
  }

  // What a switch does to task i: the next one runs, the one that ran is ready, and a time slice
  // that is used up is refilled from the priority.
  ghost predicate SwitchedAt(k: Kernel, n: Kernel, i: nat) {
    && (Has(n, i) <==> Has(k, i))
    && (Has(k, i) && Has(n, i) ==>
          var t := T(k, i);
          T(n, i) == t.(state := if i == n.current then Running else if t.state.Running? then Ready else t.state,
                        ticks := if i == k.current && t.ticks == 0 then t.priority else t.ticks))
  }

  lemma ScheduleStep(k: Kernel)
    requires Core(k)
    ensures Inv(Schedule(k)) && Schedule(k).current == Next(k) && Similar(k, Schedule(k))
    ensures forall i: nat :: SwitchedAt(k, Schedule(k), i)
  {
    NextRunnable(k);
    var n := Schedule(k);
    assert forall i: nat :: SwitchedAt(k, n, i) by {
      hide Rest;
      forall i: nat ensures SwitchedAt(k, n, i) { assert SlotOk(k, i); }
    }
    assert Similar(k, n) by {
      hide Rest;
      forall i: nat ensures SimilarAt(k, n, i) {
        if i == k.current || i == n.current { assert SlotOk(k, i); }
      }
    }
    SimilarRest(k, n);
    hide Rest, Similar;
    forall i: nat ensures SlotOk(n, i) { assert SlotOk(k, i); }
    assert SlotOk(k, k.current) && SlotOk(k, Next(k));
  }

  // ---------- linking and unlinking ----------

  lemma QueueLink(k: Kernel, i: nat, q: nat, state: State)
    requires Shape(k) && QueuesOk(k) && Has(k, i) && q < |k.queues| && T(k, i).node.None?
    requires Asleep(state) && !state.Sleeping? && q != SLEEPING_QUEUE && (state.Waiting? ==> q == BLOCKED_QUEUE)
    ensures Link(k, i, q, state).Some? && QueuesOk(Link(k, i, q, state).value)
  {
    var n := Link(k, i, q, state).value;
    forall p, j: nat | 0 <= p < |n.queues| ensures Linked(n, p, j) { assert Linked(k, p, j) && Linked(k, q, i); }
    assert NoDup(n.queues[q]) by {
      assert Linked(k, q, i);
      forall a | 0 <= a < |k.queues[q]| ensures k.queues[q][a] != i { assert k.queues[q][a] in k.queues[q]; }
    }
    forall j: nat ensures NodeOk(n, j) { assert NodeOk(k, j); }
  }

  lemma QueueUnlink(k: Kernel, i: nat)
    requires Shape(k) && QueuesOk(k) && Has(k, i) && T(k, i).node.Some?
    ensures Unblock(k, i).Some? && QueuesOk(Unblock(k, i).value)
    ensures NodeOk(k, i) && T(k, i).node.value < |k.queues| && i in k.queues[T(k, i).node.value]
  {
    assert NodeOk(k, i);
    var q := T(k, i).node.value;
    assert Linked(k, q, i);
    var n := Unblock(k, i).value;
    WithoutDrops(k.queues[q], i);
    forall p, j: nat | 0 <= p < |n.queues| ensures Linked(n, p, j) { assert Linked(k, p, j) && Linked(k, p, i); }
    forall j: nat ensures NodeOk(n, j) { assert NodeOk(k, j); }
  }

  // Blocking the current task on anything but a child.
  lemma BlockStep(k: Kernel, q: nat)
    requires Inv(k) && k.current != 0 && T(k, k.current).call.NoCall? && q < |k.queues| && q != SLEEPING_QUEUE
    ensures Link(k, k.current, q, Blocked).Some? && var n := Link(k, k.current, q, Blocked).value;
      && Core(n) && Only(k, n, k.current)
      && T(n, k.current) == T(k, k.current).(node := Some(q), state := Blocked)
      && n.queues == k.queues[q := k.queues[q] + [k.current]]
  {
    assert NodeOk(k, k.current);
    QueueLink(k, k.current, q, Blocked);
    var n := Link(k, k.current, q, Blocked).value;
    assert Forest(n) by {
      hide QueuesOk;
      forall i: nat ensures SameFamilyAt(k, n, i) {}
      FamilyFrame(k, n);
    }
    SleepFrame(k, n);
    hide QueuesOk, Forest, SleepOk;
    forall i: nat ensures WaitOk(n, i) { assert WaitOk(k, i); }
    forall i: nat ensures SlotOk(n, i) { assert SlotOk(k, i); }
  }

  // Waking a task that is blocked in some queue.
  lemma UnwaitStep(k: Kernel, i: nat)
    requires Inv(k) && Has(k, i) && T(k, i).state.Blocked?
    ensures Unblock(k, i).Some? && var n := Unblock(k, i).value;
      && Inv(n) && Only(k, n, i) && T(n, i) == T(k, i).(node := None, state := Ready)
      && forall q: nat :: q < |k.queues| && q < |n.queues| ==>
           n.queues[q] == if i in k.queues[q] then Without(k.queues[q], i) else k.queues[q]
  {
    assert NodeOk(k, i);
    forall q: nat | q < |k.queues| ensures i in k.queues[q] <==> T(k, i).node == Some(q) { assert Linked(k, q, i); }
    QueueUnlink(k, i);
    var n := Unblock(k, i).value;
    assert Forest(n) by {
      hide QueuesOk;
      forall j: nat ensures SameFamilyAt(k, n, j) {}
      FamilyFrame(k, n);
    }
    assert Linked(k, SLEEPING_QUEUE, i);
    SleepFrame(k, n);
    hide QueuesOk, Forest, SleepOk;
    forall j: nat ensures WaitOk(n, j) { assert WaitOk(k, j) && WaitOk(k, i); }
    forall j: nat ensures SlotOk(n, j) { assert SlotOk(k, j); }
  }

  // ---------- taking a waiter off its queue by hand ----------

  // list_pop_front on a queue of tasks: the node's links are cleared.
  function PopFront(k: Kernel, q: nat): (Kernel, nat)
    requires q < |k.queues| && k.queues[q] != [] && Has(k, k.queues[q][0])
  {
    var i := k.queues[q][0];
    (Put(k, i, T(k, i).(node := None)).(queues := k.queues[q := k.queues[q][1..]]), i)
  }

  // brelse pops a waiting task and then unblocks it: task_unblock's list_remove asserts that the
  // node is linked, and it is not any more. Unblocking it in place would do.
  lemma WakeAfterPopFails(k: Kernel, q: nat)
    requires Inv(k) && q < |k.queues| && k.queues[q] != []
    ensures Has(k, k.queues[q][0]) && Unblock(k, k.queues[q][0]).Some?
    ensures var (n, i) := PopFront(k, q); Shape(n) && Has(n, i) && Unblock(n, i).None?
  {
    assert k.queues[q][0] in k.queues[q] && Linked(k, q, k.queues[q][0]);
    hide Forest, SleepOk, WaitOk;
    QueueUnlink(k, k.queues[q][0]);
  }
}
