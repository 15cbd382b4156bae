/**
  The process table, the blocking queues and the scheduler of src/kernel/task.c as one value.
  A step is what one task does between two points where another may run: a system call up to
  the schedule() in it, or a clock interrupt.
 */
module TaskModel {
  import opened Lists
  import opened Wrappers

  const NUM_TASKS := 64
  const CLOCK_HZ := 100                  // clock interrupts per second
  const JIFFY := 1000 / CLOCK_HZ         // milliseconds per clock interrupt
  const BLOCKED_QUEUE := 0               // blocked_queue; queues above 1 belong to mutexes and devices
  const SLEEPING_QUEUE := 1
  const U32_MAX := 0xFFFF_FFFF

  datatype State = Running | Ready | Blocked | Sleeping | Waiting | Died

  // Whether the task will go on inside waitpid(pid), and how often it has searched the table.
  datatype Call = NoCall | InWait(pid: int, scans: nat)

  // node is the list that the task's node is linked into.
  datatype Task = Task(pid: nat, ppid: nat, user: bool, state: State, priority: nat, ticks: nat, jiffies: nat,
                       status: int, waitpid: int, node: Option<nat>, call: Call)

  datatype Kernel = Kernel(tasks: seq<Option<Task>>, current: nat, queues: seq<seq<nat>>, jiffies: nat)

  predicate Has(k: Kernel, i: nat) {
    i < |k.tasks| && k.tasks[i].Some?
  }

  function T(k: Kernel, i: nat): Task
    requires Has(k, i)
  {
    k.tasks[i].value
  }

  function Put(k: Kernel, i: nat, t: Task): Kernel
    requires i < |k.tasks|
  {
    k.(tasks := k.tasks[i := Some(t)])
  }

  // What the kernel cannot run without: its table, its two queues, idle, and a current task.
  predicate Shape(k: Kernel) {
    |k.tasks| == NUM_TASKS && |k.queues| >= 2 && Has(k, 0) && Has(k, k.current)
  }

  predicate Asleep(s: State) {
    s.Blocked? || s.Sleeping? || s.Waiting?
  }

  predicate Runnable(s: State) {
    s.Running? || s.Ready?
  }

  // ---------- choosing and switching ----------

  predicate Beats(a: Task, b: Task) {
    a.ticks > b.ticks || a.jiffies < b.jiffies
  }

  // task_search from slot i on, with the best found so far.
  function Search(k: Kernel, state: State, i: nat, best: Option<nat>): (r: Option<nat>)
    requires best.Some? ==> Has(k, best.value)
    ensures r.Some? ==> Has(k, r.value)
    decreases |k.tasks| - i
  {
    if i >= |k.tasks| then best
    else if !Has(k, i) || i == k.current || T(k, i).state != state then Search(k, state, i + 1, best)
    else if best.None? || Beats(T(k, i), T(k, best.value)) then Search(k, state, i + 1, Some(i))
    else Search(k, state, i + 1, best)
  }

  function Next(k: Kernel): nat {
    match Search(k, Ready, 0, None) case Some(i) => i case None => 0
  }

  function Schedule(k: Kernel): (n: Kernel)
    requires Shape(k)
    ensures Shape(n)
  {
    var me := T(k, k.current);
    var k1 := Put(k, k.current, me.(state := if me.state.Running? then Ready else me.state,
                                    ticks := if me.ticks == 0 then me.priority else me.ticks));
    var next := Next(k);
    Put(k1, next, T(k1, next).(state := Running)).(current := next)
  }

  // ---------- blocking ----------

  // task_block before its schedule(): None when the task is in a list already.
  function Link(k: Kernel, i: nat, q: nat, state: State): (n: Option<Kernel>)
    requires Shape(k) && Has(k, i) && q < |k.queues|
    ensures n.Some? ==> Shape(n.value)
  {
    if T(k, i).node.Some? then None
    else Some(Put(k, i, T(k, i).(node := Some(q), state := state)).(queues := k.queues[q := k.queues[q] + [i]]))
  }

  // task_unblock: None when the task is in no list.
  function Unblock(k: Kernel, i: nat): (n: Option<Kernel>)
    requires Shape(k) && Has(k, i)
    ensures n.Some? ==> Shape(n.value) && n.value.current == k.current && forall j: nat :: Has(n.value, j) == Has(k, j)
  {
    match T(k, i).node
    case None => None
    case Some(q) =>
      if q >= |k.queues| then None
      else Some(Put(k, i, T(k, i).(node := None, state := Ready)).(queues := k.queues[q := Without(k.queues[q], i)]))
  }

  // ---------- sleeping ----------

  function DivRoundUp(a: nat, b: nat): (r: nat)
    requires b > 0
  {
    (a + b - 1) / b
  }

  function WakeTick(k: Kernel, i: nat): nat {
    if Has(k, i) then T(k, i).ticks else 0
  }

  function WakeTicks(k: Kernel, q: seq<nat>): (r: seq<int>)
    ensures |r| == |q| && forall n :: 0 <= n < |q| ==> r[n] == WakeTick(k, q[n])
  {
    seq(|q|, n requires 0 <= n < |q| => WakeTick(k, q[n]))
  }

  // task_sleep before its schedule().
  function FallAsleep(k: Kernel, ms: nat): (n: Option<Kernel>)
    requires Shape(k)
    ensures n.Some? ==> Shape(n.value)
  {
    var i, q := k.current, k.queues[SLEEPING_QUEUE];
    var tick := k.jiffies + DivRoundUp(ms, JIFFY);
    if ms == 0 || T(k, i).node.Some? then None
    else
      Some(Put(k, i, T(k, i).(node := Some(SLEEPING_QUEUE), state := Sleeping, ticks := tick))
           .(queues := k.queues[SLEEPING_QUEUE := Insert(q, Place(WakeTicks(k, q), tick), i)]))
  }

  // task_wakeup: walk the sleeping queue until a task is not due.
  function Wakeup(k: Kernel, list: seq<nat>): (n: Option<Kernel>)
    requires Shape(k)
    ensures n.Some? ==> Shape(n.value) && n.value.current == k.current
    decreases |list|
  {
    if list == [] then Some(k)
    else if !Has(k, list[0]) then None
    else if T(k, list[0]).ticks > k.jiffies then Some(k)
    else match Unblock(k, list[0]) case None => None case Some(k1) => Wakeup(k1, list[1..])
  }

  // The current task has used one more time slice: u32 arithmetic on ticks.
  function CountDown(k: Kernel): (n: Kernel)
    requires Shape(k)
    ensures Shape(n)
  {
    var me := T(k, k.current);
    Put(k, k.current, me.(jiffies := k.jiffies, ticks := if me.ticks == 0 then U32_MAX else me.ticks - 1))
  }

  // The clock interrupt.
  function ClockTick(k: Kernel): (n: Option<Kernel>)
    requires Shape(k)
    ensures n.Some? ==> Shape(n.value)
  {
    match Wakeup(k, k.queues[SLEEPING_QUEUE])
    case None => None
    case Some(k1) =>
      var k2 := CountDown(k1.(jiffies := k1.jiffies + 1));
      Some(if T(k2, k2.current).ticks == 0 then Schedule(k2) else k2)
  }

  // ---------- fork, exit and waitpid ----------

  function FreeSlot(tasks: seq<Option<Task>>, i: nat): (r: Option<nat>)
    ensures r.Some? ==> i <= r.value < |tasks| && tasks[r.value].None?
    ensures r.Some? ==> forall j :: i <= j < r.value ==> tasks[j].Some?
    ensures r.None? ==> forall j :: i <= j < |tasks| ==> tasks[j].Some?
    decreases |tasks| - i
  {
    if i >= |tasks| then None else if tasks[i].None? then Some(i) else FreeSlot(tasks, i + 1)
  }

  // fork is called at user level by a running task; None stands for a failed assertion, or the
  // null pointer that a full table gives.
  function Spawn(k: Kernel): (n: Option<(Kernel, nat)>)
    requires Shape(k)
    ensures n.Some? ==> Shape(n.value.0)
  {
    var me := T(k, k.current);
    if !me.user || !me.state.Running? || me.node.Some? then None
    else match FreeSlot(k.tasks, 0)
      case None => None
      case Some(c) =>
        Some((Put(k, c, me.(pid := c, ppid := me.pid, jiffies := me.priority, state := Ready, call := NoCall)), c))
  }

  // Every child of the dying task gets its parent.
  function Reparent(k: Kernel): (r: seq<Option<Task>>)
    requires Shape(k)
    ensures |r| == |k.tasks|
  {
    var me := T(k, k.current);
    seq(|k.tasks|, i requires 0 <= i < |k.tasks| =>
      if i >= 2 && k.tasks[i].Some? && i != k.current && k.tasks[i].value.ppid == me.pid
      then Some(k.tasks[i].value.(ppid := me.ppid)) else k.tasks[i])
  }

  // exit before its schedule().
  function Die(k: Kernel, status: int): (n: Option<Kernel>)
    requires Shape(k)
    ensures n.Some? ==> Shape(n.value)
  {
    var me := T(k, k.current);
    if !me.user || !me.state.Running? || me.node.Some? then None
    else
      var k1 := Put(k, k.current, me.(state := Died, status := status));
      var k2 := k1.(tasks := Reparent(k1));
      if !Has(k2, me.ppid) then None
      else if T(k2, me.ppid).state.Waiting? && (T(k2, me.ppid).waitpid == me.pid || T(k2, me.ppid).waitpid == -1)
      then Unblock(k2, me.ppid)
      else Some(k2)
  }

  // waitpid's search: the first child that matches, dead or alive.
  function FindChild(k: Kernel, pid: int, i: nat): (r: Option<nat>)
    requires Shape(k)
    ensures r.Some? ==> i <= r.value && Has(k, r.value) && r.value != k.current
                        && T(k, r.value).ppid == T(k, k.current).pid && (pid == -1 || T(k, r.value).pid == pid)
    decreases |k.tasks| - i
  {
    if i >= |k.tasks| then None
    else if Has(k, i) && i != k.current && T(k, i).ppid == T(k, k.current).pid && (pid == -1 || T(k, i).pid == pid)
    then Some(i)
    else FindChild(k, pid, i + 1)
  }

  datatype Out = Silent | Forked(pid: nat) | Reaped(pid: nat, status: int) | NoChild

  // One search of waitpid, after `scans` earlier ones; before the schedule() when it blocks.
  function Scan(k: Kernel, pid: int, scans: nat): (n: Option<(Kernel, Out)>)
    requires Shape(k)
    ensures n.Some? ==> Shape(n.value.0)
  {
    var me := T(k, k.current);
    match FindChild(k, pid, 2)
    case None => Some((Put(k, k.current, me.(call := NoCall)), NoChild))
    case Some(c) =>
      if T(k, c).state.Died? then
        Some((k.(tasks := k.tasks[k.current := Some(me.(call := NoCall))][c := None]),
              Reaped(T(k, c).pid, T(k, c).status)))
      else
        match Link(Put(k, k.current, me.(waitpid := T(k, c).pid, call := InWait(pid, scans + 1))),
                   k.current, BLOCKED_QUEUE, Waiting)
        case None => None
        case Some(k1) => Some((k1, Silent))
  }

  // ---------- the machine ----------

  // Everything but Tick is done by the current task; Unwait is task_unblock as mutexes, devices
  // and the buffer cache use it, on a task that blocked itself.
  datatype Op = Fork | Exit(status: int) | Wait(pid: int) | Resume | Yield | Block(queue: nat) | Unwait(task: nat)
              | Sleep(ms: nat) | Tick

  function Silently(k: Option<Kernel>): Option<(Kernel, Out)> {
    match k case None => None case Some(n) => Some((n, Silent))
  }

  function Then(k: Option<Kernel>): (n: Option<Kernel>)
    requires k.Some? ==> Shape(k.value)
    ensures n.Some? ==> Shape(n.value)
  {
    match k case None => None case Some(k1) => Some(Schedule(k1))
  }

  // Who does what: idle never blocks, only a task that is inside waitpid goes on with it.
  predicate CanDo(k: Kernel, op: Op)
    requires Shape(k)
  {
    var me := T(k, k.current);
    match op
    case Fork => me.call.NoCall?
    case Exit(_) => me.call.NoCall?
    case Wait(_) => me.call.NoCall?
    case Resume => me.call.InWait?
    case Yield => me.call.NoCall?
    case Block(q) => me.call.NoCall? && k.current != 0 && q < |k.queues| && q != SLEEPING_QUEUE
    case Unwait(i) => Has(k, i) && T(k, i).state.Blocked?
    case Sleep(_) => me.call.NoCall? && k.current != 0
    case Tick => true
  }

  function Waitpid(k: Kernel, pid: int, scans: nat): (n: Option<(Kernel, Out)>)
    requires Shape(k)
    ensures n.Some? ==> Shape(n.value.0)
  {
    match Scan(k, pid, scans)
    case None => None
    case Some((k1, out)) => if out.Silent? then Some((Schedule(k1), out)) else Some((k1, out))
  }

  // None: an assertion of the kernel fails.
  function Step(k: Kernel, op: Op): (n: Option<(Kernel, Out)>)
    requires Shape(k) && CanDo(k, op)
    ensures n.Some? ==> Shape(n.value.0)
  {
    var me := T(k, k.current);
    match op
    case Fork => (match Spawn(k) case None => None case Some((n, c)) => Some((n, Forked(c))))
    case Exit(status) => Silently(Then(Die(k, status)))
    case Wait(pid) => if !me.user || !me.state.Running? || me.node.Some? then None else Waitpid(k, pid, 0)
    case Resume => Waitpid(k, me.call.pid, me.call.scans)
    case Yield => Some((Schedule(k), Silent))
    case Block(q) => Silently(Then(Link(k, k.current, q, Blocked)))
    case Unwait(i) => Silently(Unblock(k, i))
    case Sleep(ms) => Silently(Then(FallAsleep(k, ms)))
    case Tick => Silently(ClockTick(k))
  }

  // task_init, and the first switch: init runs.
  function Boot(queues: nat): Kernel
    requires queues >= 2
  {
    Kernel(seq(NUM_TASKS, i requires 0 <= i < NUM_TASKS =>
             if i == 0 then Some(Task(0, 0, false, Ready, 1, 1, 0, 0, 0, None, NoCall))
             else if i == 1 then Some(Task(1, 0, true, Running, 5, 5, 0, 0, 0, None, NoCall))
             else if i == 2 then Some(Task(2, 0, false, Ready, 5, 5, 0, 0, 0, None, NoCall))
             else None),
           1, seq(queues, _ => []), 0)
  }
}
