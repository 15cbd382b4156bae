/**
  In every interleaving the lock has at most one owner, counts its nesting, fails no assertion
  and strands nobody.
 */
module MutexProofs {
  import opened MutexModel
  import opened Wrappers

  lemma AcquireStep(l: Lock, i: nat)
    requires Inv(l) && i < |l.threads| && (l.threads[i].pc.Take? || l.threads[i].pc.Retry?)
    ensures Acquire(l, i).Some? && Inv(Acquire(l, i).value)
  {
    var n := Acquire(l, i).value;
    assert WaiterAt(l, i) && DepthOk(l, l.threads[i]);
    if l.semphore == 0 {
      var o: nat :| IsOwner(l, o);
      assert IsOwner(n, o);
      forall j | 0 <= j < |l.waiters| ensures l.waiters[j] != i { assert l.waiters[j] in l.waiters; }
    } else {
      assert IsOwner(n, i);
    }
    forall j: nat
      ensures WaiterAt(n, j) && OwnerOk(n, j) && (IsOwner(n, j) <==> IsOwner(l, j) || (j == i && l.semphore == 1))
    {
      assert WaiterAt(l, j) && OwnerOk(l, j);
    }
    forall a, b: nat | IsOwner(n, a) && IsOwner(n, b) ensures a == b {
      assert IsOwner(l, a) && IsOwner(l, b) ==> a == b;
      assert OwnerOk(l, a) && OwnerOk(l, b);
    }
  }

  lemma ReleaseStep(l: Lock, i: nat)
    requires Inv(l) && i < |l.threads| && l.threads[i].pc.GiveBack?
    ensures Release(l, i).Some? && Inv(Release(l, i).value)
  {
    assert IsOwner(l, i) && OwnerOk(l, i) && WaiterAt(l, i);
    if l.waiters != [] {
      assert l.waiters[0] in l.waiters && WaiterAt(l, l.waiters[0]);
    }
    var n := Release(l, i).value;
    forall j: nat ensures WaiterAt(n, j) && !IsOwner(n, j) {
      assert WaiterAt(l, j) && OwnerOk(l, j) && (IsOwner(l, i) && IsOwner(l, j) ==> i == j);
      if l.waiters != [] && j in l.waiters && j != l.waiters[0] { assert j in l.waiters[1..]; }
    }
    if l.waiters != [] { assert Woken(n, l.waiters[0]); }
  }

  // No statement of the lock fails an assertion, whoever runs next.
  lemma StepKeeps(l: Lock, i: nat, m: Move)
    requires Inv(l) && CanMove(l, i, m)
    ensures Step(l, i, m).Some? && Inv(Step(l, i, m).value)
  {
    assert WaiterAt(l, i) && OwnerOk(l, i) && DepthOk(l, l.threads[i]);
    if m.Go? && (l.threads[i].pc.Take? || l.threads[i].pc.Retry?) {
      AcquireStep(l, i);
    } else if m.Go? && l.threads[i].pc.GiveBack? {
      ReleaseStep(l, i);
    } else {
      PlainStep(l, i, m);
    }
  }

  predicate Plain(l: Lock, i: nat, m: Move) {
    CanMove(l, i, m) && !(m.Go? && l.threads[i].pc in {Take, Retry, GiveBack})
  }

  // What the step is to a thread j, which may be i.
  lemma PlainAt(l: Lock, i: nat, m: Move, j: nat)
    requires Inv(l) && Plain(l, i, m) && Step(l, i, m).Some?
    ensures var n := Step(l, i, m).value;
      && WaiterAt(n, j) && (IsOwner(n, j) <==> IsOwner(l, j)) && OwnerOk(n, j) && (Woken(l, j) ==> Woken(n, j))
      && (j < |l.threads| ==> DepthOk(n, n.threads[j]))
  {
    assert WaiterAt(l, i) && OwnerOk(l, i) && DepthOk(l, l.threads[i]);
    assert WaiterAt(l, j) && OwnerOk(l, j) && (j < |l.threads| ==> DepthOk(l, l.threads[j]));
    assert IsOwner(l, i) && IsOwner(l, j) ==> i == j;
    HolderOwns(l, i);
    hide Inv;
  }

  lemma HolderOwns(l: Lock, i: nat)
    requires Inv(l)
    ensures l.holder == Some(i) ==> IsOwner(l, i)
  {
    if l.holder == Some(i) {
      var o: nat :| IsOwner(l, o);
      assert OwnerOk(l, o);
    }
  }

  lemma PlainStep(l: Lock, i: nat, m: Move)
    requires Inv(l) && Plain(l, i, m)
    ensures Step(l, i, m).Some? && Inv(Step(l, i, m).value)
  {
    assert OwnerOk(l, i) && DepthOk(l, l.threads[i]);
    var n := Step(l, i, m).value;
    assert n.semphore == l.semphore && n.waiters == l.waiters && |n.threads| == |l.threads|;
    assert n.semphore == 1 ==> n.holder == l.holder && n.repeat == l.repeat;
    forall j: nat
      ensures WaiterAt(n, j) && (IsOwner(n, j) <==> IsOwner(l, j)) && OwnerOk(n, j) && (Woken(l, j) ==> Woken(n, j))
      ensures j < |l.threads| ==> DepthOk(n, n.threads[j])
    {
      PlainAt(l, i, m, j);
    }
    hide Step, CanMove, WaiterAt, OwnerOk, DepthOk, Woken, IsOwner;
    forall a, b: nat | IsOwner(n, a) && IsOwner(n, b) ensures a == b { assert IsOwner(l, a) && IsOwner(l, b); }
  }

  // ---------- runs ----------

  datatype Turn = Turn(thread: nat, move: Move)

  ghost predicate Run(l: Lock, turns: seq<Turn>, n: Lock)
    decreases |turns|
  {
    if turns == [] then n == l
    else
      CanMove(l, turns[0].thread, turns[0].move) && Step(l, turns[0].thread, turns[0].move).Some? &&
      Run(Step(l, turns[0].thread, turns[0].move).value, turns[1..], n)
  }

  lemma {:induction false} RunKeeps(l: Lock, turns: seq<Turn>, n: Lock)
    requires Inv(l) && Run(l, turns, n)
    ensures Inv(n)
    decreases |turns|
  {
    if turns != [] {
      hide Inv, Step, CanMove;
      StepKeeps(l, turns[0].thread, turns[0].move);
      RunKeeps(Step(l, turns[0].thread, turns[0].move).value, turns[1..], n);
    }
  }

  // The lock protocol over every run of any number of threads.
  lemma LockProtocol(threads: nat, turns: seq<Turn>, l: Lock)
    requires Run(Fresh(threads), turns, l)
    ensures forall i, j: nat :: IsOwner(l, i) && IsOwner(l, j) ==> i == j
    ensures l.semphore == 1 <==> forall i: nat :: !IsOwner(l, i)
    ensures l.semphore == 1 ==> l.holder.None? && l.repeat == 0
    ensures forall i: nat :: IsOwner(l, i) && l.threads[i].pc.Outside? ==>
      l.holder == Some(i) && l.repeat == l.threads[i].depth
  {
    var fresh0 := Fresh(threads);
    assert Inv(fresh0);
    RunKeeps(fresh0, turns, l);
    forall i: nat | IsOwner(l, i) ensures OwnerOk(l, i) {}
  }

  ghost predicate CanHelp(l: Lock, j: nat) {
    && j !in l.waiters && (IsOwner(l, j) || Woken(l, j))
    && (CanMove(l, j, Go) || CanMove(l, j, StartRelease))
  }

  // Nobody is stranded: while a thread waits, another one that is not waiting either owns the
  // mutex or has been woken to try for it, and can go on.
  lemma NobodyStranded(threads: nat, turns: seq<Turn>, l: Lock)
    requires Run(Fresh(threads), turns, l) && l.waiters != []
    ensures exists j: nat :: CanHelp(l, j)
  {
    assert Inv(Fresh(threads));
    RunKeeps(Fresh(threads), turns, l);
    if l.semphore == 0 {
      var j: nat :| IsOwner(l, j);
      assert WaiterAt(l, j) && DepthOk(l, l.threads[j]) && CanHelp(l, j);
    } else {
      var j: nat :| Woken(l, j);
      assert WaiterAt(l, j) && CanHelp(l, j);
    }
  }

  // ---------- every waiter can still get the lock ----------

  // How many statements the owner is away from giving the mutex back.
  function ToGo(t: Thread): nat {
    10 * t.depth +
    match t.pc
    case SetHolder => 23
    case CheckRepeat => 22
    case SetRepeat => 21
    case Compare => 23
    case LoadUp => 22
    case StoreUp(_) => 21
    case Outside => 10
    case CheckHolder => 9
    case TestRepeat => 8
    case LoadDown => 7
    case StoreDown(_) => 6
    case CheckOne => 7
    case ClearHolder => 6
    case ClearRepeat => 5
    case _ => 4
  }

  function NextMove(t: Thread): Move {
    if t.pc.Outside? then StartRelease else Go
  }

  lemma OwnerAdvances(l: Lock, o: nat)
    requires Inv(l) && IsOwner(l, o) && !l.threads[o].pc.GiveBack?
    ensures CanMove(l, o, NextMove(l.threads[o])) && Step(l, o, NextMove(l.threads[o])).Some?
    ensures var n := Step(l, o, NextMove(l.threads[o])).value;
      Inv(n) && IsOwner(n, o) && n.waiters == l.waiters && ToGo(n.threads[o]) < ToGo(l.threads[o])
  {
    assert OwnerOk(l, o) && DepthOk(l, l.threads[o]);
    StepKeeps(l, o, NextMove(l.threads[o]));
  }

  // Left to itself the owner gives the mutex back and wakes the first waiter.
  lemma {:induction false} OwnerFinishes(l: Lock, o: nat) returns (turns: seq<Turn>, n: Lock)
    requires Inv(l) && IsOwner(l, o) && l.waiters != []
    ensures Run(l, turns, n) && Inv(n) && n.semphore == 1
    ensures n.waiters == l.waiters[1..] && Woken(n, l.waiters[0])
    decreases ToGo(l.threads[o])
  {
    var first := Turn(o, NextMove(l.threads[o]));
    if l.threads[o].pc.GiveBack? {
      ReleaseStep(l, o);
      assert l.waiters[0] in l.waiters && WaiterAt(l, l.waiters[0]);
      turns, n := [first], Release(l, o).value;
      assert Run(n, [], n) && turns[1..] == [];
    } else {
      OwnerAdvances(l, o);
      hide Inv, Step, CanMove, IsOwner;
      var rest;
      rest, n := OwnerFinishes(Step(l, o, first.move).value, o);
      turns := [first] + rest;
      assert turns[1..] == rest;
    }
  }

  lemma {:induction false} RunAppend(l: Lock, a: seq<Turn>, m: Lock, b: seq<Turn>, n: Lock)
    requires Run(l, a, m) && Run(m, b, n)
    ensures Run(l, a + b, n)
    decreases |a|
  {
    hide Step, CanMove;
    if a == [] {
      assert a + b == b;
    } else {
      RunAppend(Step(l, a[0].thread, a[0].move).value, a[1..], m, b, n);
      assert (a + b)[1..] == a[1..] + b;
    }
  }

  // A woken thread that runs while the mutex is free takes it.
  lemma WokenTakes(l: Lock, j: nat)
    requires Inv(l) && Woken(l, j) && l.semphore == 1
    ensures CanMove(l, j, Go) && Step(l, j, Go).Some?
    ensures var n := Step(l, j, Go).value; Inv(n) && IsOwner(n, j) && n.waiters == l.waiters && Run(l, [Turn(j, Go)], n)
  {
    AcquireStep(l, j);
    assert Run(Step(l, j, Go).value, [], Step(l, j, Go).value);
  }

  // From every state some way of going on frees the mutex for the first waiter.
  lemma FirstIsWoken(l: Lock) returns (turns: seq<Turn>, n: Lock)
    requires Inv(l) && l.waiters != []
    ensures Run(l, turns, n) && Inv(n) && n.semphore == 1
    ensures n.waiters == l.waiters[1..] && Woken(n, l.waiters[0])
  {
    var start, l1 := [], l;
    if l.semphore == 1 {
      var j: nat :| Woken(l, j);
      WokenTakes(l, j);
      start, l1 := [Turn(j, Go)], Step(l, j, Go).value;
    }
    assert Run(l, start, l1);
    var o: nat :| IsOwner(l1, o);
    hide Inv, IsOwner, Woken, Step, CanMove, Run;
    var rest;
    rest, n := OwnerFinishes(l1, o);
    turns := start + rest;
    RunAppend(l, start, l1, rest, n);
  }

  // From every state of the lock, and for every waiter, some way of going on gives it the lock.
  lemma {:induction false} WaiterCanAcquire(l: Lock, p: nat) returns (turns: seq<Turn>, n: Lock)
    requires Inv(l) && p < |l.waiters|
    ensures Run(l, turns, n) && Inv(n) && IsOwner(n, l.waiters[p])
    decreases p
  {
    hide Inv, IsOwner, Woken, Step, CanMove, Run;
    var start, m := FirstIsWoken(l);
    if p == 0 {
      WokenTakes(m, l.waiters[0]);
      n := Step(m, l.waiters[0], Go).value;
      turns := start + [Turn(l.waiters[0], Go)];
      RunAppend(l, start, m, [Turn(l.waiters[0], Go)], n);
    } else {
      var rest;
      rest, n := WaiterCanAcquire(m, p - 1);
      turns := start + rest;
      RunAppend(l, start, m, rest, n);
    }
  }
}
