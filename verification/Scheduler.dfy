/**
  src/kernel/task.c as the kernel runs it: the table, the queues and the task control blocks
  updated in place. Each method that can fail on an assertion says so with ok or None.
 */
module Scheduler {
  import opened Lists
  import opened TaskInv
  import opened TaskModel
  import opened TaskSleep
  import opened Wrappers

  class Tasks {
    const taskQueue: array<Option<Task>>
    var current: nat
    var queues: seq<seq<nat>>
    var jiffies: nat

    ghost function Model(): Kernel
      reads this, taskQueue
    {
      Kernel(taskQueue[..], current, queues, jiffies)
    }

    ghost predicate Valid()
      reads this, taskQueue
    {
      Shape(Model())
    }

    // task_init up to the first switch, which is to init.
    constructor (waiters: nat)
      ensures Valid() && Model() == Boot(2 + waiters) && fresh(taskQueue)
    {
      taskQueue := new Option<Task>[NUM_TASKS](_ => None);
      queues := seq(2 + waiters, _ => []);
      current, jiffies := 1, 0;
      new;
      taskQueue[0] := Some(Task(0, 0, false, Ready, 1, 1, 0, 0, 0, None, NoCall));
      taskQueue[1] := Some(Task(1, 0, true, Running, 5, 5, 0, 0, 0, None, NoCall));
      taskQueue[2] := Some(Task(2, 0, false, Ready, 5, 5, 0, 0, 0, None, NoCall));
    }

    method GetFreeTask() returns (r: Option<nat>)
      ensures r == FreeSlot(taskQueue[..], 0)
    {
      var i := 0;
      while i < taskQueue.Length
        invariant 0 <= i <= taskQueue.Length
        invariant FreeSlot(taskQueue[..], 0) == FreeSlot(taskQueue[..], i)
      {
        if taskQueue[i].None? { return Some(i); }
        i := i + 1;
      }
      return None;
    }

    method TaskSearch(state: State) returns (r: Option<nat>)
      requires Valid()
      ensures r == match Search(Model(), state, 0, None)
                   case Some(i) => Some(i)
                   case None => if state == Ready then Some(0) else None
    {
      r := None;
      var i := 0;
      while i < taskQueue.Length
        invariant 0 <= i <= taskQueue.Length
        invariant r.Some? ==> Has(Model(), r.value)
        invariant Search(Model(), state, 0, None) == Search(Model(), state, i, r)
      {
        var task := taskQueue[i];
        if task.Some? && i != current && task.value.state == state
           && (r.None? || task.value.ticks > taskQueue[r.value].value.ticks
               || task.value.jiffies < taskQueue[r.value].value.jiffies) {
          r := Some(i);
        }
        i := i + 1;
      }
      if r.None? && state == Ready { r := Some(0); }
    }

    method Schedule()
      requires Valid()
      modifies this`current, taskQueue
      ensures Valid() && Model() == TaskModel.Schedule(old(Model()))
    {
      var next := TaskSearch(Ready);
      var me := taskQueue[current].value;
      if me.state.Running? { me := me.(state := Ready); }
      if me.ticks == 0 { me := me.(ticks := me.priority); }
      taskQueue[current] := Some(me);
      taskQueue[next.value] := Some(taskQueue[next.value].value.(state := Running));
      current := next.value;
    }

    // list_push_back onto a queue, and off to somebody else if the task blocks itself.
    method TaskBlock(i: nat, queue: Option<nat>, state: State) returns (ok: bool)
      requires Valid() && Has(Model(), i) && (queue.Some? ==> queue.value < |queues|)
      modifies this`current, this`queues, taskQueue
      ensures Valid()
      ensures var q := if queue.Some? then queue.value else BLOCKED_QUEUE;
        var linked := Link(old(Model()), i, q, state);
        (ok <==> linked.Some?) &&
        (ok ==> Model() == if i == old(current) then TaskModel.Schedule(linked.value) else linked.value)
    {
      var task := taskQueue[i].value;
      if task.node.Some? { return false; }
      var q := if queue.Some? then queue.value else BLOCKED_QUEUE;
      queues := queues[q := queues[q] + [i]];
      taskQueue[i] := Some(task.(node := Some(q), state := state));
      if i == current { Schedule(); }
      return true;
    }

    method TaskUnblock(i: nat) returns (ok: bool)
      requires Valid() && Has(Model(), i)
      modifies this`queues, taskQueue
      ensures Valid() && (ok <==> Unblock(old(Model()), i).Some?)
      ensures ok ==> Model() == Unblock(old(Model()), i).value
      ensures !ok ==> Model() == old(Model())
    {
      var task := taskQueue[i].value;
      if task.node.None? || task.node.value >= |queues| { return false; }
      var q := task.node.value;
      queues := queues[q := Without(queues[q], i)];
      taskQueue[i] := Some(task.(node := None, state := Ready));
      return true;
    }

    // list_insert_sort's search: the first sleeper that is to wake no earlier.
    method SleepPlace(q: seq<nat>, tick: nat) returns (n: nat)
      requires forall i :: i in q ==> Has(Model(), i)
      ensures n == Place(WakeTicks(Model(), q), tick)
    {
      ghost var keys := WakeTicks(Model(), q);
      n := 0;
      while n < |q|
        invariant 0 <= n <= |q|
        invariant Place(keys, tick) == n + Place(keys[n..], tick)
      {
        assert q[n] in q;
        if taskQueue[q[n]].value.ticks >= tick { break; }
        n := n + 1;
      }
    }

    method TaskSleep(ms: nat) returns (ok: bool)
      requires Valid() && forall i :: i in queues[SLEEPING_QUEUE] ==> Has(Model(), i)
      modifies this`current, this`queues, taskQueue
      ensures Valid() && (ok <==> FallAsleep(old(Model()), ms).Some?)
      ensures ok ==> Model() == TaskModel.Schedule(FallAsleep(old(Model()), ms).value)
    {
      var task := taskQueue[current].value;
      if ms == 0 || task.node.Some? { return false; }
      hide Place, WakeTicks, DivRoundUp, TaskModel.Schedule;
      var tick := jiffies + DivRoundUp(ms, JIFFY);
      var n := SleepPlace(queues[SLEEPING_QUEUE], tick);
      queues := queues[SLEEPING_QUEUE := Insert(queues[SLEEPING_QUEUE], n, current)];
      taskQueue[current] := Some(task.(node := Some(SLEEPING_QUEUE), state := Sleeping, ticks := tick));
      assert FallAsleep(old(Model()), ms) == Some(Model());
      hide FallAsleep;
      Schedule();
      return true;
    }

    // task_wakeup: the next node is read before task_unblock clears the links.
    method TaskWakeup() returns (ok: bool)
      requires Valid() && Inv(Model())
      modifies this`queues, taskQueue
      ensures Valid() && ok && Wakeup(old(Model()), old(queues)[SLEEPING_QUEUE]) == Some(Model())
    {
      ghost var k := Model();
      var list, n := queues[SLEEPING_QUEUE], 0;
      while n < |list|
        invariant 0 <= n <= |list| && Valid() && Inv(Model()) && queues[SLEEPING_QUEUE] == list[n..]
        invariant current == k.current && jiffies == k.jiffies
        invariant Wakeup(k, list) == Wakeup(Model(), list[n..])
      {
        WakeOne(Model());
        var ptr := list[n];
        assert list[n..][0] == ptr && list[n..][1..] == list[n + 1..];
        if taskQueue[ptr].value.ticks > jiffies { break; }
        hide Inv;
        n := n + 1;
        ok := TaskUnblock(ptr);
      }
      return true;
    }

    method ClockHandler()
      requires Valid() && Inv(Model())
      modifies this, taskQueue
      ensures Valid() && ClockTick(old(Model())) == Some(Model())
    {
      hide Inv;
      var ok := TaskWakeup();
      jiffies := jiffies + 1;
      var me := taskQueue[current].value;
      taskQueue[current] := Some(me.(jiffies := jiffies, ticks := if me.ticks == 0 then U32_MAX else me.ticks - 1));
      if taskQueue[current].value.ticks == 0 { Schedule(); }
    }

    method SysFork() returns (r: Option<nat>)
      requires Valid()
      modifies taskQueue
      ensures Valid() && (r.Some? <==> Spawn(old(Model())).Some?)
      ensures r.Some? ==> Spawn(old(Model())) == Some((Model(), r.value))
    {
      var me := taskQueue[current].value;
      if !me.user || !me.state.Running? || me.node.Some? { return None; }
      var slot := GetFreeTask();
      if slot.None? { return None; }
      // The child's control block starts as a copy of the parent's page.
      taskQueue[slot.value] :=
        Some(me.(pid := slot.value, ppid := me.pid, jiffies := me.priority, state := Ready, call := NoCall));
      return slot;
    }

    // The loop of exit that hands the children to the dying task's parent.
    method ReparentChildren()
      requires Valid()
      modifies taskQueue
      ensures Valid() && taskQueue[..] == Reparent(old(Model()))
    {
      ghost var k := Model();
      var me := taskQueue[current].value;
      var i := 2;
      while i < taskQueue.Length
        invariant 2 <= i <= taskQueue.Length && Has(Model(), 0) && Has(Model(), current)
        invariant taskQueue[current] == Some(me)
        invariant forall j :: 0 <= j < i ==> taskQueue[j] == Reparent(k)[j]
        invariant forall j :: i <= j < taskQueue.Length ==> taskQueue[j] == k.tasks[j]
      {
        if taskQueue[i].Some? && i != current && taskQueue[i].value.ppid == me.pid {
          taskQueue[i] := Some(taskQueue[i].value.(ppid := me.ppid));
        }
        i := i + 1;
      }
    }

    method SysExit(status: int) returns (ok: bool)
      requires Valid()
      modifies this`current, this`queues, taskQueue
      ensures Valid() && (ok <==> Die(old(Model()), status).Some?)
      ensures ok ==> Model() == TaskModel.Schedule(Die(old(Model()), status).value)
    {
      var me := taskQueue[current].value;
      if !me.user || !me.state.Running? || me.node.Some? { return false; }
      taskQueue[current] := Some(me.(state := Died, status := status));
      ReparentChildren();
      hide Reparent, TaskModel.Schedule;
      if me.ppid >= taskQueue.Length || taskQueue[me.ppid].None? { return false; }
      var parent := taskQueue[me.ppid].value;
      if parent.state.Waiting? && (parent.waitpid == me.pid || parent.waitpid == -1) {
        ok := TaskUnblock(me.ppid);
        if !ok { return false; }
      }
      Schedule();
      return true;
    }

    // One search of waitpid's loop; when it blocks, the loop goes on when the task next runs.
    method SearchChildren(pid: int, scans: nat) returns (r: Option<Out>)
      requires Valid()
      modifies this`current, this`queues, taskQueue
      ensures Valid() && (r.Some? <==> Waitpid(old(Model()), pid, scans).Some?)
      ensures r.Some? ==> Waitpid(old(Model()), pid, scans) == Some((Model(), r.value))
    {
      ghost var k := Model();
      var me := taskQueue[current].value;
      var i := 2;
      while i < taskQueue.Length
        invariant 2 <= i <= taskQueue.Length && Model() == k
        invariant FindChild(k, pid, 2) == FindChild(k, pid, i)
      {
        var task := taskQueue[i];
        if task.Some? && i != current && task.value.ppid == me.pid && (task.value.pid == pid || pid == -1) {
          break;
        }
        i := i + 1;
      }
      if i == taskQueue.Length {
        taskQueue[current] := Some(me.(call := NoCall));
        return Some(NoChild);
      }
      var child := taskQueue[i].value;
      if child.state.Died? {
        taskQueue[i] := None;
        taskQueue[current] := Some(me.(call := NoCall));
        assert Model().tasks == k.tasks[current := Some(me.(call := NoCall))][i := None];
        return Some(Reaped(child.pid, child.status));
      }
      taskQueue[current] := Some(me.(waitpid := child.pid, call := InWait(pid, scans + 1)));
      var ok := TaskBlock(current, None, Waiting);
      return if ok then Some(Silent) else None;
    }

    method SysWaitpid(pid: int) returns (r: Option<Out>)
      requires Valid() && CanDo(Model(), Wait(pid))
      modifies this`current, this`queues, taskQueue
      ensures Valid() && (r.Some? <==> Step(old(Model()), Wait(pid)).Some?)
      ensures r.Some? ==> Step(old(Model()), Wait(pid)) == Some((Model(), r.value))
    {
      var me := taskQueue[current].value;
      if !me.user || !me.state.Running? || me.node.Some? { return None; }
      r := SearchChildren(pid, 0);
    }

    method ResumeWaitpid() returns (r: Option<Out>)
      requires Valid() && CanDo(Model(), Resume)
      modifies this`current, this`queues, taskQueue
      ensures Valid() && (r.Some? <==> Step(old(Model()), Resume).Some?)
      ensures r.Some? ==> Step(old(Model()), Resume) == Some((Model(), r.value))
    {
      var me := taskQueue[current].value;
      r := SearchChildren(me.call.pid, me.call.scans);
    }
  }
}
