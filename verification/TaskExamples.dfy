/**
  Two runs from start-up, evaluated step by step on a table of five tasks: one in which the
  scheduler picks a task that another outdoes, and one in which waitpid(-1) blocks beside a dead
  child.
 */
module TaskExamples {
  import opened TaskFamily
  import opened TaskInv
  import opened TaskModel
  import opened TaskRuns
  import opened TaskTheorems
  import opened Wrappers

  type Rows = s: seq<Option<Task>> | |s| == 5 witness [None, None, None, None, None]

  // Nobody is in a queue.
  function Table(rows: Rows, current: nat, jiffies: nat): Kernel {
    Kernel(rows + seq(NUM_TASKS - 5, _ => None), current, [[], []], jiffies)
  }

  // A task in no list and in no call.
  predicate Plain(t: Option<Task>) {
    t.Some? && t.value.node.None? && t.value.call.NoCall?
  }

  predicate Runs(rows: Rows, i: nat) {
    i < 5 && rows[0].Some? && Plain(rows[i]) && rows[i].value.state.Running?
  }

  function In(t: Option<Task>, state: State): Option<Task>
    requires t.Some?
  {
    Some(t.value.(state := state))
  }

  // ---------- whom the search picks ----------

  // One round of the search.
  function Consider(rows: Rows, current: nat, i: nat, best: Option<nat>): (r: Option<nat>)
    requires i < 5 && (best.Some? ==> best.value < 5 && rows[best.value].Some?)
    ensures r.Some? ==> r.value < 5 && rows[r.value].Some?
  {
    if rows[i].Some? && i != current && rows[i].value.state.Ready?
       && (best.None? || Beats(rows[i].value, rows[best.value].value))
    then Some(i) else best
  }

  function Choice(rows: Rows, current: nat): (r: Option<nat>)
    ensures r.Some? ==> r.value < 5 && rows[r.value].Some?
  {
    Consider(rows, current, 4, Consider(rows, current, 3, Consider(rows, current, 2,
             Consider(rows, current, 1, Consider(rows, current, 0, None)))))
  }

  lemma {:induction false} SearchEnds(k: Kernel, i: nat, best: Option<nat>)
    requires (best.Some? ==> Has(k, best.value)) && forall j: nat :: i <= j ==> !Candidate(k, j)
    ensures Search(k, Ready, i, best) == best
    decreases |k.tasks| - i
  {
    if i < |k.tasks| {
      assert !Candidate(k, i);
      SearchEnds(k, i + 1, best);
    }
  }

  lemma SearchRound(rows: Rows, current: nat, jiffies: nat, i: nat, best: Option<nat>)
    requires i < 5 && (best.Some? ==> best.value < 5 && rows[best.value].Some?)
    ensures var k := Table(rows, current, jiffies);
      && (best.Some? ==> Has(k, best.value))
      && Search(k, Ready, i, best) == Search(k, Ready, i + 1, Consider(rows, current, i, best))
  {
  }

  lemma NextIsChoice(rows: Rows, current: nat, jiffies: nat)
    ensures Next(Table(rows, current, jiffies)) == match Choice(rows, current) case Some(i) => i case None => 0
  {
    hide Consider;
    var b0 := Consider(rows, current, 0, None);
    var b1 := Consider(rows, current, 1, b0);
    var b2 := Consider(rows, current, 2, b1);
    var b3 := Consider(rows, current, 3, b2);
    SearchRound(rows, current, jiffies, 0, None);
    SearchRound(rows, current, jiffies, 1, b0);
    SearchRound(rows, current, jiffies, 2, b1);
    SearchRound(rows, current, jiffies, 3, b2);
    SearchRound(rows, current, jiffies, 4, b3);
    SearchEnds(Table(rows, current, jiffies), 5, Consider(rows, current, 4, b3));
  }

  // ---------- steps ----------

  // Who leaves the processor: Ready again, unless it blocked or died.
  function Left(t: Option<Task>): Option<Task>
    requires t.Some?
  {
    if t.value.state.Running? then In(t, Ready) else t
  }

  lemma SwitchTo(rows: Rows, i: nat, jiffies: nat, next: nat)
    requires i < 5 && rows[0].Some? && rows[i].Some? && rows[i].value.ticks > 0
    requires Choice(rows, i) == Some(next) && next != i
    ensures var k := Table(rows, i, jiffies);
      Shape(k) && Schedule(k) == Table(rows[i := Left(rows[i])][next := In(rows[next], Running)], next, jiffies)
  {
    NextIsChoice(rows, i, jiffies);
    hide Choice, Next;
    var k := Table(rows, i, jiffies);
    var n := Table(rows[i := Left(rows[i])][next := In(rows[next], Running)], next, jiffies);
    assert Schedule(k).tasks == n.tasks;
  }

  lemma YieldTo(rows: Rows, i: nat, jiffies: nat, next: nat)
    requires Runs(rows, i) && rows[i].value.ticks > 0 && Choice(rows, i) == Some(next) && next != i
    ensures var k := Table(rows, i, jiffies);
      && Shape(k) && CanDo(k, Yield)
      && Step(k, Yield) == Some((Table(rows[i := In(rows[i], Ready)][next := In(rows[next], Running)], next, jiffies),
                                 Silent))
  {
    SwitchTo(rows, i, jiffies, next);
    hide Choice, Schedule;
  }

  function Used(t: Option<Task>, jiffies: nat): Option<Task>
    requires t.Some? && t.value.ticks > 0
  {
    Some(t.value.(ticks := t.value.ticks - 1, jiffies := jiffies))
  }

  lemma TickOnce(rows: Rows, i: nat, jiffies: nat)
    requires Runs(rows, i) && rows[i].value.ticks > 1
    ensures var k := Table(rows, i, jiffies);
      && Shape(k) && CanDo(k, Tick)
      && Step(k, Tick) == Some((Table(rows[i := Used(rows[i], jiffies + 1)], i, jiffies + 1), Silent))
  {
    var k := Table(rows, i, jiffies);
    var n := Table(rows[i := Used(rows[i], jiffies + 1)], i, jiffies + 1);
    assert Wakeup(k, []) == Some(k);
    assert CountDown(k.(jiffies := jiffies + 1)).tasks == n.tasks;
  }

  function Copy(t: Task, c: nat): Option<Task> {
    Some(t.(pid := c, ppid := t.pid, jiffies := t.priority, state := Ready, call := NoCall))
  }

  lemma ForkInto(rows: Rows, i: nat, jiffies: nat, c: nat)
    requires Runs(rows, i) && rows[i].value.user && 3 <= c < 5 && rows[c].None?
    requires forall j :: 0 <= j < c ==> rows[j].Some?
    ensures var k := Table(rows, i, jiffies);
      && Shape(k) && CanDo(k, Fork)
      && Step(k, Fork) == Some((Table(rows[c := Copy(rows[i].value, c)], i, jiffies), Forked(c)))
  {
    var k := Table(rows, i, jiffies);
    var n := Table(rows[c := Copy(rows[i].value, c)], i, jiffies);
    assert FreeSlot(k.tasks, 0) == Some(c) by { FreeIs(k.tasks, 0, c); }
    assert Put(k, c, n.tasks[c].value).tasks == n.tasks;
  }

  lemma {:induction false} FreeIs(tasks: seq<Option<Task>>, i: nat, c: nat)
    requires i <= c < |tasks| && tasks[c].None? && forall j :: i <= j < c ==> tasks[j].Some?
    ensures FreeSlot(tasks, i) == Some(c)
    decreases c - i
  {
    if i < c { FreeIs(tasks, i + 1, c); }
  }

  function Corpse(t: Option<Task>): Option<Task>
    requires t.Some?
  {
    Some(t.value.(state := Died, status := 0))
  }

  // A user task without children, whose parent does not wait.
  predicate CanExit(rows: Rows, i: nat, next: nat) {
    && Runs(rows, i) && rows[i].value.user && rows[i].value.ticks > 0
    && Choice(rows, i) == Some(next) && next != i
    && (forall j :: 2 <= j < 5 && rows[j].Some? ==> rows[j].value.ppid != rows[i].value.pid)
    && var p := rows[i].value.ppid; p < 5 && p != i && rows[p].Some? && !rows[p].value.state.Waiting?
  }

  lemma DieIn(rows: Rows, i: nat, jiffies: nat, next: nat)
    requires CanExit(rows, i, next)
    ensures var k := Table(rows, i, jiffies);
      && Shape(k) && Die(k, 0) == Some(Table(rows[i := Corpse(rows[i])], i, jiffies))
  {
    var k, n := Table(rows, i, jiffies), Table(rows[i := Corpse(rows[i])], i, jiffies);
    hide Choice;
    assert Put(k, i, Corpse(rows[i]).value).tasks == n.tasks;
    assert Reparent(n) == n.tasks;
  }

  lemma SameChoice(rows: Rows, i: nat, n: Rows)
    requires i < 5 && rows[i].Some? && n[i].Some? && n == rows[i := n[i]]
    ensures Choice(n, i) == Choice(rows, i)
  {
  }

  lemma ExitTo(rows: Rows, i: nat, jiffies: nat, next: nat)
    requires CanExit(rows, i, next)
    ensures var k := Table(rows, i, jiffies);
      && Shape(k) && CanDo(k, Exit(0))
      && Step(k, Exit(0)) ==
         Some((Table(rows[i := Corpse(rows[i])][next := In(rows[next], Running)], next, jiffies), Silent))
  {
    DieIn(rows, i, jiffies, next);
    var dead := rows[i := Corpse(rows[i])];
    SameChoice(rows, i, dead);
    SwitchTo(dead, i, jiffies, next);
    hide Choice, Schedule, Die;
    assert dead[i := Left(dead[i])] == dead;
  }

  // ---------- runs ----------

  lemma {:induction false} RunMore(k: Kernel, ops: seq<Op>, m: Kernel, op: Op, n: Kernel, out: Out)
    requires Run(k, ops, m) && Shape(m) && CanDo(m, op) && Step(m, op) == Some((n, out))
    ensures Run(k, ops + [op], n)
    decreases |ops|
  {
    hide Step, CanDo;
    var all := ops + [op];
    if ops == [] {
      assert all[1..] == [] && Run(n, [], n);
    } else {
      assert all[0] == ops[0] && all[1..] == ops[1..] + [op];
      RunMore(Step(k, ops[0]).value.0, ops[1..], m, op, n, out);
    }
  }

  // The run from start-up gets to this table.
  ghost predicate Gets(ops: seq<Op>, rows: Rows, current: nat, jiffies: nat) {
    Run(Boot(2), ops, Table(rows, current, jiffies))
  }

  lemma Yields(ops: seq<Op>, rows: Rows, i: nat, jiffies: nat, next: nat) returns (more: seq<Op>, n: Rows)
    requires Gets(ops, rows, i, jiffies)
    requires Runs(rows, i) && rows[i].value.ticks > 0 && Choice(rows, i) == Some(next) && next != i
    ensures n == rows[i := In(rows[i], Ready)][next := In(rows[next], Running)] && Gets(more, n, next, jiffies)
  {
    YieldTo(rows, i, jiffies, next);
    n := rows[i := In(rows[i], Ready)][next := In(rows[next], Running)];
    more := ops + [Yield];
    hide Step, CanDo, Run, Boot, Table, Choice;
    RunMore(Boot(2), ops, Table(rows, i, jiffies), Yield, Table(n, next, jiffies), Silent);
  }

  lemma TickPasses(ops: seq<Op>, rows: Rows, i: nat, jiffies: nat) returns (more: seq<Op>, n: Rows)
    requires Gets(ops, rows, i, jiffies)
    requires Runs(rows, i) && rows[i].value.ticks > 1
    ensures n == rows[i := Used(rows[i], jiffies + 1)] && Gets(more, n, i, jiffies + 1)
  {
    TickOnce(rows, i, jiffies);
    n := rows[i := Used(rows[i], jiffies + 1)];
    more := ops + [Tick];
    hide Step, CanDo, Run, Boot, Table;
    RunMore(Boot(2), ops, Table(rows, i, jiffies), Tick, Table(n, i, jiffies + 1), Silent);
  }

  lemma Forks(ops: seq<Op>, rows: Rows, i: nat, jiffies: nat, c: nat) returns (more: seq<Op>, n: Rows)
    requires Gets(ops, rows, i, jiffies)
    requires Runs(rows, i) && rows[i].value.user && 3 <= c < 5 && rows[c].None?
    requires forall j :: 0 <= j < c ==> rows[j].Some?
    ensures n == rows[c := Copy(rows[i].value, c)] && Gets(more, n, i, jiffies)
  {
    ForkInto(rows, i, jiffies, c);
    n := rows[c := Copy(rows[i].value, c)];
    more := ops + [Fork];
    hide Step, CanDo, Run, Boot, Table;
    RunMore(Boot(2), ops, Table(rows, i, jiffies), Fork, Table(n, i, jiffies), Forked(c));
  }

  lemma Exits(ops: seq<Op>, rows: Rows, i: nat, jiffies: nat, next: nat) returns (more: seq<Op>, n: Rows)
    requires Gets(ops, rows, i, jiffies) && CanExit(rows, i, next)
    ensures n == rows[i := Corpse(rows[i])][next := In(rows[next], Running)] && Gets(more, n, next, jiffies)
  {
    ExitTo(rows, i, jiffies, next);
    n := rows[i := Corpse(rows[i])][next := In(rows[next], Running)];
    more := ops + [Exit(0)];
    hide Step, CanDo, Run, Boot, Table;
    RunMore(Boot(2), ops, Table(rows, i, jiffies), Exit(0), Table(n, next, jiffies), Silent);
  }

  // ---------- two runs ----------

  function Idle(): Option<Task> {
    Some(Task(0, 0, false, Ready, 1, 1, 0, 0, 0, None, NoCall))
  }

  function Init(state: State, ticks: nat, jiffies: nat): Option<Task> {
    User(1, 0, state, ticks, jiffies)
  }

  function Test(state: State, ticks: nat, jiffies: nat): Option<Task> {
    Some(Task(2, 0, false, state, 5, ticks, jiffies, 0, 0, None, NoCall))
  }

  function User(pid: nat, ppid: nat, state: State, ticks: nat, jiffies: nat): Option<Task> {
    Some(Task(pid, ppid, true, state, 5, ticks, jiffies, 0, 0, None, NoCall))
  }

  lemma AtBoot()
    ensures Gets([], [Idle(), Init(Running, 5, 0), Test(Ready, 5, 0), None, None], 1, 0)
  {
    assert Boot(2).tasks == Table([Idle(), Init(Running, 5, 0), Test(Ready, 5, 0), None, None], 1, 0).tasks;
  }

  // Where no task is best by both, the search can pick one that another outdoes in both: it only
  // compares a task with the one held so far. Here it passes over init for the first child's child.
  lemma ChoiceCanBeOutdone() returns (ops: seq<Op>, k: Kernel, x: nat)
    ensures Run(Boot(2), ops, k) && Outdone(k, Next(k), x)
  {
    hide Run, Boot, Table, Next;
    AtBoot();
    var r: Rows := [Idle(), Init(Running, 5, 0), Test(Ready, 5, 0), None, None];
    ops := [];
    ops, r := Yields(ops, r, 1, 0, 2);
    assert r == [Idle(), Init(Ready, 5, 0), Test(Running, 5, 0), None, None];
    ops, r := TickPasses(ops, r, 2, 0);
    assert r == [Idle(), Init(Ready, 5, 0), Test(Running, 4, 1), None, None];
    ops, r := TickPasses(ops, r, 2, 1);
    assert r == [Idle(), Init(Ready, 5, 0), Test(Running, 3, 2), None, None];
    ops, r := TickPasses(ops, r, 2, 2);
    assert r == [Idle(), Init(Ready, 5, 0), Test(Running, 2, 3), None, None];
    ops, r := Yields(ops, r, 2, 3, 1);
    assert r == [Idle(), Init(Running, 5, 0), Test(Ready, 2, 3), None, None];
    ops, r := TickPasses(ops, r, 1, 3);
    assert r == [Idle(), Init(Running, 4, 4), Test(Ready, 2, 3), None, None];
    ops, r := Forks(ops, r, 1, 4, 3);
    assert r == [Idle(), Init(Running, 4, 4), Test(Ready, 2, 3), User(3, 1, Ready, 4, 5), None];
    ops, r := Yields(ops, r, 1, 4, 3);
    assert r == [Idle(), Init(Ready, 4, 4), Test(Ready, 2, 3), User(3, 1, Running, 4, 5), None];
    ops, r := TickPasses(ops, r, 3, 4);
    assert r == [Idle(), Init(Ready, 4, 4), Test(Ready, 2, 3), User(3, 1, Running, 3, 5), None];
    ops, r := Forks(ops, r, 3, 5, 4);
    assert r == [Idle(), Init(Ready, 4, 4), Test(Ready, 2, 3), User(3, 1, Running, 3, 5), User(4, 3, Ready, 3, 5)];
    k, x := Table(r, 3, 5), 1;
    NextIsChoice(r, 3, 5);
    OutdoneIn(r, 3, 5, 4, 1);
  }

  lemma OutdoneIn(rows: Rows, current: nat, jiffies: nat, r: nat, x: nat)
    requires x < 5 && r < 5 && rows[r].Some? && rows[x].Some? && x != current && rows[x].value.state.Ready?
    requires rows[x].value.ticks > rows[r].value.ticks && rows[x].value.jiffies < rows[r].value.jiffies
    ensures Outdone(Table(rows, current, jiffies), r, x)
  {
  }

  // init forks twice, and lets the others run.
  lemma TwoChildren() returns (ops: seq<Op>)
    ensures Gets(ops, [Idle(), Init(Ready, 4, 1), Test(Running, 4, 2),
                       User(3, 1, Ready, 5, 5), User(4, 1, Ready, 5, 5)], 2, 2)
  {
    hide Gets;
    AtBoot();
    var r: Rows := [Idle(), Init(Running, 5, 0), Test(Ready, 5, 0), None, None];
    ops := [];
    ops, r := Forks(ops, r, 1, 0, 3);
    assert r == [Idle(), Init(Running, 5, 0), Test(Ready, 5, 0), User(3, 1, Ready, 5, 5), None];
    ops, r := Forks(ops, r, 1, 0, 4);
    assert r == [Idle(), Init(Running, 5, 0), Test(Ready, 5, 0), User(3, 1, Ready, 5, 5), User(4, 1, Ready, 5, 5)];
    ops, r := TickPasses(ops, r, 1, 0);
    assert r == [Idle(), Init(Running, 4, 1), Test(Ready, 5, 0), User(3, 1, Ready, 5, 5), User(4, 1, Ready, 5, 5)];
    ops, r := Yields(ops, r, 1, 1, 2);
    assert r == [Idle(), Init(Ready, 4, 1), Test(Running, 5, 0), User(3, 1, Ready, 5, 5), User(4, 1, Ready, 5, 5)];
    ops, r := TickPasses(ops, r, 2, 1);
    assert r == [Idle(), Init(Ready, 4, 1), Test(Running, 4, 2), User(3, 1, Ready, 5, 5), User(4, 1, Ready, 5, 5)];
  }

  // Its second child exits; the first one goes on, and so does init.
  lemma SecondDies() returns (ops: seq<Op>)
    ensures Gets(ops, [Idle(), Init(Running, 4, 1), Test(Ready, 4, 2),
                       User(3, 1, Ready, 5, 5), User(4, 1, Died, 5, 5)], 1, 2)
  {
    hide Gets;
    ops := TwoChildren();
    var r: Rows := [Idle(), Init(Ready, 4, 1), Test(Running, 4, 2), User(3, 1, Ready, 5, 5), User(4, 1, Ready, 5, 5)];
    ops, r := Yields(ops, r, 2, 2, 3);
    assert r == [Idle(), Init(Ready, 4, 1), Test(Ready, 4, 2), User(3, 1, Running, 5, 5), User(4, 1, Ready, 5, 5)];
    ops, r := Yields(ops, r, 3, 2, 4);
    assert r == [Idle(), Init(Ready, 4, 1), Test(Ready, 4, 2), User(3, 1, Ready, 5, 5), User(4, 1, Running, 5, 5)];
    ops, r := Exits(ops, r, 4, 2, 3);
    assert r == [Idle(), Init(Ready, 4, 1), Test(Ready, 4, 2), User(3, 1, Running, 5, 5), User(4, 1, Died, 5, 5)];
    ops, r := Yields(ops, r, 3, 2, 1);
    assert r == [Idle(), Init(Running, 4, 1), Test(Ready, 4, 2), User(3, 1, Ready, 5, 5), User(4, 1, Died, 5, 5)];
  }

  // waitpid(-1) can block although a child is dead: the first child still lives.
  lemma WaitAnyCanMiss() returns (ops: seq<Op>, k: Kernel, c: nat)
    ensures Run(Boot(2), ops, k) && Shape(k) && CanDo(k, Wait(-1)) && Matches(k, -1, c) && Dead(k, c)
    ensures Step(k, Wait(-1)).Some? && Step(k, Wait(-1)).value.1.Silent?
  {
    hide Run, Boot, Table, Step;
    ops := SecondDies();
    var r: Rows := [Idle(), Init(Running, 4, 1), Test(Ready, 4, 2), User(3, 1, Ready, 5, 5), User(4, 1, Died, 5, 5)];
    k, c := Table(r, 1, 2), 4;
    BootInv(2);
    RunKeeps(Boot(2), ops, k);
    FirstOfTwo(r, 2);
    hide Inv;
    WaitAnyTakesFirst(k);
  }

  lemma FirstOfTwo(rows: Rows, jiffies: nat)
    requires rows == [Idle(), Init(Running, 4, 1), Test(Ready, 4, 2), User(3, 1, Ready, 5, 5), User(4, 1, Died, 5, 5)]
    ensures var k := Table(rows, 1, jiffies);
      && Shape(k) && CanDo(k, Wait(-1)) && k.current == 1 && T(k, 1).user
      && FirstChild(k, 3) && !Dead(k, 3) && Matches(k, -1, 4) && Dead(k, 4)
  {
    var k := Table(rows, 1, jiffies);
    assert !Matches(k, -1, 2) && Matches(k, -1, 3);
  }
}
