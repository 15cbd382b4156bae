/**
  fork, exit and waitpid: the process tree, and the hand-over of an exit status.
 */
module TaskFamily {
  import opened Lists
  import opened TaskInv
  import opened TaskModel
  import opened TaskSteps
  import opened Wrappers

  // ---------- fork ----------

  // A pid handed out is nobody's parent and nobody waits for it.
  lemma ForkFresh(k: Kernel)
    requires Inv(k) && Spawn(k).Some?
    ensures var c := Spawn(k).value.1;
      && 3 <= c < NUM_TASKS && !Has(k, c)
      && (forall i: nat :: Has(k, i) ==> T(k, i).ppid != c)
      && (forall i: nat :: Has(k, i) && T(k, i).state.Waiting? ==> T(k, i).waitpid != c)
      && (forall i: nat :: Has(k, i) && T(k, i).call.InWait? && Runnable(T(k, i).state) ==> T(k, i).call.pid != c)
  {
    var c := Spawn(k).value.1;
    hide QueuesOk, SleepOk;
    forall i: nat | Has(k, i) ensures T(k, i).ppid != c { assert FamilyOk(k, i); }
    forall i: nat | Has(k, i) && T(k, i).state.Waiting? ensures T(k, i).waitpid != c { assert WaitOk(k, i); }
    forall i: nat | Has(k, i) && T(k, i).call.InWait? && Runnable(T(k, i).state) ensures T(k, i).call.pid != c {
      assert WaitOk(k, i);
    }
  }

  lemma ForkForest(k: Kernel, n: Kernel, c: nat)
    requires Inv(k) && Spawn(k) == Some((n, c))
    ensures Forest(n)
  {
    ForkFresh(k);
    var rank :| Ranked(k, rank);
    var r := rank[c := rank[k.current] + 1];
    assert SlotOk(k, k.current);
    hide QueuesOk, SleepOk;
    forall i: nat ensures FamilyOk(n, i) { assert FamilyOk(k, i); }
    forall i: nat ensures Below(n, r, i) { assert Below(k, rank, i) && FamilyOk(k, i); }
    assert Ranked(n, r);
  }

  lemma ForkStep(k: Kernel, n: Kernel, c: nat)
    requires Inv(k) && Spawn(k) == Some((n, c))
    ensures Inv(n) && Only(k, n, c) && n.queues == k.queues
    ensures !Has(k, c) && forall i: nat :: i < c ==> Has(k, i)
    ensures var me := T(k, k.current);
      T(n, c) == me.(pid := c, ppid := k.current, jiffies := me.priority, state := Ready, call := NoCall)
  {
    ForkFresh(k);
    ForkForest(k, n, c);
    assert SlotOk(k, k.current);
    assert QueuesOk(n) by {
      hide Forest, SleepOk;
      forall q, i: nat | 0 <= q < |n.queues| ensures Linked(n, q, i) { assert Linked(k, q, i); }
      forall i: nat ensures NodeOk(n, i) { assert NodeOk(k, i) && NodeOk(k, k.current); }
    }
    assert SleepOk(n) by {
      forall i | i in k.queues[SLEEPING_QUEUE] ensures WakeTick(n, i) == WakeTick(k, i) {
        assert Linked(k, SLEEPING_QUEUE, i);
      }
      SleepFrame(k, n);
    }
    hide QueuesOk, Forest, SleepOk;
    forall i: nat ensures WaitOk(n, i) { assert WaitOk(k, i); }
    forall i: nat ensures SlotOk(n, i) { assert SlotOk(k, i); }
  }

  // ---------- exit ----------

  // The table right after the dying task's children have got its parent.
  function Buried(k: Kernel, status: int): (n: Kernel)
    requires Shape(k)
    ensures Shape(n)
  {
    var k1 := Put(k, k.current, T(k, k.current).(state := Died, status := status));
    k1.(tasks := Reparent(k1))
  }

  ghost predicate BuriedAt(k: Kernel, n: Kernel, status: int, i: nat)
    requires Shape(k)
  {
    && (Has(n, i) <==> Has(k, i))
    && (Has(k, i) && Has(n, i) ==>
          T(n, i) == if i == k.current then T(k, i).(state := Died, status := status)
                     else if T(k, i).ppid == k.current then T(k, i).(ppid := T(k, k.current).ppid) else T(k, i))
  }

  lemma BuriedIs(k: Kernel, status: int)
    requires Inv(k) && T(k, k.current).user
    ensures var n := Buried(k, status);
      && n.queues == k.queues && n.jiffies == k.jiffies && n.current == k.current
      && forall i: nat :: BuriedAt(k, n, status, i)
    ensures k.current != 0 && k.current != 2
  {
    assert Shape(k) && SlotOk(k, k.current);
    hide Rest;
    forall i: nat ensures BuriedAt(k, Buried(k, status), status, i) {}
  }

  // The dying task's parent is another task, and alive.
  lemma ParentOther(k: Kernel)
    requires Inv(k) && k.current != 0
    ensures var p := T(k, k.current).ppid; p != k.current && Has(k, p) && !T(k, p).state.Died?
  {
    assert FamilyOk(k, k.current);
    var rank :| Ranked(k, rank);
    assert Below(k, rank, k.current);
  }

  lemma BuriedForest(k: Kernel, status: int)
    requires Inv(k) && T(k, k.current).user
    ensures Forest(Buried(k, status))
  {
    BuriedIs(k, status);
    ParentOther(k);
    var n := Buried(k, status);
    var rank :| Ranked(k, rank);
    hide QueuesOk, SleepOk, Buried;
    assert BuriedAt(k, n, status, k.current) && FamilyOk(k, k.current) && Below(k, rank, k.current);
    forall i: nat ensures FamilyOk(n, i) {
      assert FamilyOk(k, i) && BuriedAt(k, n, status, i);
      if Has(k, i) {
        assert BuriedAt(k, n, status, T(k, i).ppid) && BuriedAt(k, n, status, T(k, k.current).ppid);
      }
    }
    forall i: nat ensures Below(n, rank, i) { assert BuriedAt(k, n, status, i) && Below(k, rank, i); }
    assert Ranked(n, rank);
  }

  lemma BuriedQueues(k: Kernel, status: int)
    requires Inv(k) && T(k, k.current).user
    ensures QueuesOk(Buried(k, status)) && SleepOk(Buried(k, status))
  {
    BuriedIs(k, status);
    var n := Buried(k, status);
    hide Forest, Buried;
    forall q, i: nat | 0 <= q < |n.queues| ensures Linked(n, q, i) {
      assert Linked(k, q, i) && BuriedAt(k, n, status, i);
    }
    forall i: nat ensures NodeOk(n, i) { assert NodeOk(k, i) && BuriedAt(k, n, status, i); }
    forall i | i in k.queues[SLEEPING_QUEUE] ensures WakeTick(n, i) == WakeTick(k, i) {
      assert Linked(k, SLEEPING_QUEUE, i) && BuriedAt(k, n, status, i);
    }
    SleepFrame(k, n);
  }

  // Whether exit has to wake the parent.
  predicate WakesParent(k: Kernel)
    requires Shape(k)
  {
    var me := T(k, k.current);
    Has(k, me.ppid) && T(k, me.ppid).state.Waiting? && T(k, me.ppid).waitpid == me.pid
  }

  ghost predicate ExitedAt(k: Kernel, n: Kernel, status: int, i: nat)
    requires Shape(k)
  {
    && (Has(n, i) <==> Has(k, i))
    && (Has(k, i) && Has(n, i) ==>
          T(n, i) == if i == k.current then T(k, i).(state := Died, status := status)
                     else if i == T(k, k.current).ppid && WakesParent(k) then T(k, i).(node := None, state := Ready)
                     else if T(k, i).ppid == k.current then T(k, i).(ppid := T(k, k.current).ppid) else T(k, i))
  }

  // What exit leaves behind, before the processor goes to somebody else.
  lemma DieIs(k: Kernel, status: int)
    requires Inv(k) && T(k, k.current).user
    ensures Die(k, status).Some? && var n := Die(k, status).value;
      && QueuesOk(n) && Forest(n) && SleepOk(n) && n.current == k.current && n.jiffies == k.jiffies
      && (forall i: nat :: ExitedAt(k, n, status, i))
      && n.queues == if !WakesParent(k) then k.queues
                     else k.queues[BLOCKED_QUEUE := Without(k.queues[BLOCKED_QUEUE], T(k, k.current).ppid)]
  {
    BuriedIs(k, status);
    BuriedForest(k, status);
    BuriedQueues(k, status);
    ParentOther(k);
    var p, k2 := T(k, k.current).ppid, Buried(k, status);
    assert NodeOk(k, k.current) && BuriedAt(k, k2, status, p) && SlotOk(k, k.current) && WaitOk(k, p);
    hide Inv, Rest, Buried;
    NotOwnChild(k);
    if WakesParent(k) {
      UnburyStep(k2, p);
      var n := Unblock(k2, p).value;
      assert Die(k, status) == Some(n) by { hide Unblock; assert k2 == Buried(k, status); }
      forall i: nat ensures ExitedAt(k, n, status, i) { assert BuriedAt(k, k2, status, i); }
    } else {
      forall i: nat ensures ExitedAt(k, k2, status, i) { assert BuriedAt(k, k2, status, i); }
    }
  }

  // A parent is never its child's child.
  lemma NotOwnChild(k: Kernel)
    requires Inv(k) && k.current != 0
    ensures var p := T(k, k.current).ppid; Has(k, p) && T(k, p).ppid != k.current
  {
    assert FamilyOk(k, k.current);
    var rank :| Ranked(k, rank);
    assert Below(k, rank, k.current) && Below(k, rank, T(k, k.current).ppid);
  }

  lemma UnburyStep(k: Kernel, p: nat)
    requires Shape(k) && QueuesOk(k) && Forest(k) && SleepOk(k) && Has(k, p) && T(k, p).state.Waiting?
    ensures Unblock(k, p).Some? && var n := Unblock(k, p).value;
      && QueuesOk(n) && Forest(n) && SleepOk(n) && n.current == k.current && n.jiffies == k.jiffies
      && n.queues == k.queues[BLOCKED_QUEUE := Without(k.queues[BLOCKED_QUEUE], p)]
      && n.tasks == k.tasks[p := Some(T(k, p).(node := None, state := Ready))]
  {
    assert NodeOk(k, p);
    QueueUnlink(k, p);
    var n := Unblock(k, p).value;
    forall j: nat ensures SameFamilyAt(k, n, j) {}
    FamilyFrame(k, n);
    assert Linked(k, SLEEPING_QUEUE, p);
    SleepFrame(k, n);
  }

  // Nobody is left waiting for a child that has ended, and whoever was is ready to reap it.
  lemma ExitWaits(k: Kernel, n: Kernel, status: int)
    requires Inv(k) && T(k, k.current).user && T(k, k.current).call.NoCall?
    requires n.current == k.current && forall i: nat :: ExitedAt(k, n, status, i)
    ensures forall i: nat :: WaitOk(n, i) && SlotOk(n, i)
  {
    ParentOther(k);
    assert SlotOk(k, k.current) && ExitedAt(k, n, status, k.current);
    hide QueuesOk, Forest, SleepOk;
    forall i: nat ensures WaitOk(n, i) && SlotOk(n, i) {
      assert WaitOk(k, i) && SlotOk(k, i) && ExitedAt(k, n, status, i);
      if Has(k, i) && T(k, i).state.Waiting? {
        assert ExitedAt(k, n, status, T(k, i).waitpid);
      }
      if Has(k, i) && T(k, i).call.InWait? && Runnable(T(k, i).state) && T(k, i).call.pid != -1 {
        assert ExitedAt(k, n, status, T(k, i).call.pid);
      }
    }
  }

  lemma ExitRoots(k: Kernel, n: Kernel, status: int)
    requires Inv(k) && T(k, k.current).user && n.current == k.current
    requires forall i: nat :: ExitedAt(k, n, status, i)
    ensures Roots(n)
  {
    assert Shape(k) && SlotOk(k, 0);
    hide Rest;
    assert ExitedAt(k, n, status, 0) && ExitedAt(k, n, status, 1) && ExitedAt(k, n, status, 2);
  }

  lemma ExitStep(k: Kernel, status: int)
    requires Inv(k) && T(k, k.current).user && T(k, k.current).call.NoCall?
    ensures Die(k, status).Some? && Core(Die(k, status).value)
  {
    DieIs(k, status);
    var n := Die(k, status).value;
    ExitWaits(k, n, status);
    ExitRoots(k, n, status);
  }

  // No wake-up is lost: a parent that waits for the dying task is ready, and its next search of
  // the table finds the zombie with the status given to exit.
  lemma ExitWakes(k: Kernel, status: int)
    requires Inv(k) && T(k, k.current).user && T(k, k.current).call.NoCall?
    requires WakesParent(k)
    ensures Die(k, status).Some? && var n := Die(k, status).value; var p := T(k, k.current).ppid;
      && Has(n, p) && T(n, p).state.Ready? && T(n, p).node.None?
      && Has(n, k.current) && T(n, k.current).ppid == p && T(n, k.current).status == status
      && (T(n, p).call.InWait? && T(n, p).call.pid != -1 ==> T(n, p).call.pid == k.current)
  {
    DieIs(k, status);
    ParentOther(k);
    var n, p := Die(k, status).value, T(k, k.current).ppid;
    assert SlotOk(k, k.current) && WaitOk(k, p) && ExitedAt(k, n, status, p) && ExitedAt(k, n, status, k.current);
  }

  // ---------- waitpid ----------

  // Task j is a child of the current task that waitpid(pid) looks for.
  predicate Matches(k: Kernel, pid: int, j: nat)
    requires Shape(k)
  {
    Has(k, j) && j != k.current && T(k, j).ppid == T(k, k.current).pid && (pid == -1 || T(k, j).pid == pid)
  }

  // The search finds the lowest matching child from slot i on, and none exactly when there is none.
  lemma {:induction false} FindChildIs(k: Kernel, pid: int, i: nat)
    requires Shape(k)
    ensures var r := FindChild(k, pid, i);
      && (r.Some? ==>
            && i <= r.value && Matches(k, pid, r.value)
            && forall j: nat :: i <= j < r.value ==> !Matches(k, pid, j))
      && (r.None? <==> forall j: nat :: i <= j ==> !Matches(k, pid, j))
    decreases |k.tasks| - i
  {
    if i < |k.tasks| { FindChildIs(k, pid, i + 1); }
  }

  lemma ReapStep(k: Kernel, pid: int, scans: nat, c: nat)
    requires Inv(k) && FindChild(k, pid, 2) == Some(c) && T(k, c).state.Died?
    ensures Scan(k, pid, scans).Some? && Inv(Scan(k, pid, scans).value.0)
    ensures Scan(k, pid, scans).value.1 == Reaped(c, T(k, c).status)
    ensures var n := Scan(k, pid, scans).value.0;
      && n.queues == k.queues && n.jiffies == k.jiffies && n.current == k.current
      && !Has(n, c) && T(n, k.current) == T(k, k.current).(call := NoCall)
      && forall i: nat :: i != c && i != k.current ==> SameTask(k, n, i)
  {
    var n := Scan(k, pid, scans).value.0;
    assert SlotOk(k, k.current) && SlotOk(k, c) && c >= 2;
    assert QueuesOk(n) by {
      hide Forest, SleepOk;
      forall q, i: nat | 0 <= q < |n.queues| ensures Linked(n, q, i) { assert Linked(k, q, i) && NodeOk(k, c); }
      forall i: nat ensures NodeOk(n, i) { assert NodeOk(k, i); }
    }
    assert SleepOk(n) by {
      forall i | i in k.queues[SLEEPING_QUEUE] ensures WakeTick(n, i) == WakeTick(k, i) {
        assert Linked(k, SLEEPING_QUEUE, i) && NodeOk(k, c);
      }
      SleepFrame(k, n);
    }
    hide QueuesOk, SleepOk;
    assert Forest(n) by {
      forall i: nat ensures FamilyOk(n, i) { assert FamilyOk(k, i); }
      var rank :| Ranked(k, rank);
      forall i: nat ensures Below(n, rank, i) { assert Below(k, rank, i); }
      assert Ranked(n, rank);
    }
    forall i: nat ensures WaitOk(n, i) { assert WaitOk(k, i); }
    forall i: nat ensures SlotOk(n, i) { assert SlotOk(k, i); }
  }

  // A specific wait has searched the table once before; it then waits on a living child.
  lemma WaitStep(k: Kernel, pid: int, scans: nat, c: nat)
    requires Inv(k) && T(k, k.current).user && FindChild(k, pid, 2) == Some(c) && !T(k, c).state.Died?
    requires pid == c ==> scans == 0
    ensures Scan(k, pid, scans).Some? && Scan(k, pid, scans).value.1 == Silent && Core(Scan(k, pid, scans).value.0)
    ensures var n := Scan(k, pid, scans).value.0;
      && Only(k, n, k.current) && n.queues == k.queues[BLOCKED_QUEUE := k.queues[BLOCKED_QUEUE] + [k.current]]
      && T(n, k.current) == T(k, k.current).(waitpid := c, call := InWait(pid, scans + 1),
                                             node := Some(BLOCKED_QUEUE), state := Waiting)
  {
    assert SlotOk(k, k.current) && SlotOk(k, c) && NodeOk(k, k.current);
    var k1 := Put(k, k.current, T(k, k.current).(waitpid := c, call := InWait(pid, scans + 1)));
    assert QueuesOk(k1) by {
      hide Forest, SleepOk;
      forall q, i: nat | 0 <= q < |k.queues| ensures Linked(k1, q, i) { assert Linked(k, q, i); }
      forall i: nat ensures NodeOk(k1, i) { assert NodeOk(k, i); }
    }
    QueueLink(k1, k.current, BLOCKED_QUEUE, Waiting);
    var n := Scan(k, pid, scans).value.0;
    SleepFrame(k, n);
    hide QueuesOk, SleepOk;
    assert Forest(n) by {
      forall i: nat ensures SameFamilyAt(k, n, i) {}
      FamilyFrame(k, n);
    }
    hide Forest;
    forall i: nat ensures WaitOk(n, i) { assert WaitOk(k, i); }
    forall i: nat ensures SlotOk(n, i) { assert SlotOk(k, i); }
  }

  lemma NoChildStep(k: Kernel, pid: int, scans: nat)
    requires Inv(k) && FindChild(k, pid, 2).None?
    ensures Scan(k, pid, scans).Some? && Scan(k, pid, scans).value.1 == NoChild && Inv(Scan(k, pid, scans).value.0)
    ensures var n := Scan(k, pid, scans).value.0;
      Only(k, n, k.current) && n.queues == k.queues && T(n, k.current) == T(k, k.current).(call := NoCall)
  {
    var n := Scan(k, pid, scans).value.0;
    assert QueuesOk(n) by {
      hide Forest, SleepOk;
      forall q, i: nat | 0 <= q < |k.queues| ensures Linked(n, q, i) { assert Linked(k, q, i); }
      forall i: nat ensures NodeOk(n, i) { assert NodeOk(k, i); }
    }
    SleepFrame(k, n);
    hide QueuesOk, SleepOk;
    forall i: nat ensures SameFamilyAt(k, n, i) {}
    FamilyFrame(k, n);
    hide Forest;
    forall i: nat ensures WaitOk(n, i) { assert WaitOk(k, i); }
    forall i: nat ensures SlotOk(n, i) { assert SlotOk(k, i); }
  }

  // Woken in waitpid for one particular child, the task reaps it on this second search.
  lemma ResumeReaps(k: Kernel)
    requires Inv(k) && T(k, k.current).call.InWait? && T(k, k.current).call.pid != -1
    ensures var c := T(k, k.current).call.pid;
      && T(k, k.current).call.scans == 1 && c >= 0 && Has(k, c) && FindChild(k, c, 2) == Some(c) && T(k, c).state.Died?
  {
    assert WaitOk(k, k.current);
    var c := T(k, k.current).call.pid;
    assert SlotOk(k, c) && SlotOk(k, k.current);
    hide QueuesOk, Forest, SleepOk;
    FindChildIs(k, c, 2);
    var r := FindChild(k, c, 2);
    assert Matches(k, c, c);
    if r.Some? { assert SlotOk(k, r.value); }
  }
}
