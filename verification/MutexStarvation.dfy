/**
  A woken thread is not promised the mutex: between being woken and running it can be overtaken by
  the thread that gave the mutex back, any number of times.
 */
module MutexStarvation {
  import opened MutexModel
  import opened MutexProofs
  import opened Wrappers

  // How often along the run thread i gets to own the mutex.
  function Acquisitions(l: Lock, turns: seq<Turn>, i: nat): nat
    decreases |turns|
  {
    if turns == [] || !CanMove(l, turns[0].thread, turns[0].move) then 0
    else match Step(l, turns[0].thread, turns[0].move)
      case None => 0
      case Some(n) => (if !IsOwner(l, i) && IsOwner(n, i) then 1 else 0) + Acquisitions(n, turns[1..], i)
  }

  lemma {:induction false} AcquisitionsAppend(l: Lock, a: seq<Turn>, m: Lock, b: seq<Turn>, i: nat)
    requires Run(l, a, m)
    ensures Acquisitions(l, a + b, i) == Acquisitions(l, a, i) + Acquisitions(m, b, i)
    decreases |a|
  {
    hide Step, CanMove, IsOwner;
    if a == [] {
      assert a + b == b;
    } else {
      AcquisitionsAppend(Step(l, a[0].thread, a[0].move).value, a[1..], m, b, i);
      assert (a + b)[0] == a[0] && (a + b)[1..] == a[1..] + b;
    }
  }

  // Two threads; nobody owns the mutex, and thread 1 has been woken to try for it again.
  function Contended(): Lock {
    Two(1, [], None, 0, Thread(Outside, 0), Thread(Retry, 0))
  }

  function Two(semphore: nat, waiters: seq<nat>, holder: Option<nat>, repeat: nat, a: Thread, b: Thread): Lock {
    Lock(semphore, waiters, holder, repeat, Pair(a, b))
  }

  function Pair(a: Thread, b: Thread): seq<Thread> {
    [a, b]
  }

  lemma PairUpdates()
    ensures forall a, b, x :: Pair(a, b)[0 := x] == Pair(x, b)
    ensures forall a, b, x :: Pair(a, b)[1 := x] == Pair(a, x)
    ensures forall a, b :: |Pair(a, b)| == 2 && Pair(a, b)[0] == a && Pair(a, b)[1] == b
  {
  }

  lemma Blocks(a: Thread, pc: Pc)
    requires pc.Take? || pc.Retry?
    ensures var l := Two(0, [], Some(0), 1, a, Thread(pc, 0));
      CanMove(l, 1, Go) && Step(l, 1, Go) == Some(Two(0, [1], Some(0), 1, a, Thread(Blocked, 0)))
  {
    var none: seq<nat> := [];
    assert none + [1] == [1];
    PairUpdates();
  }

  lemma Wakes()
    ensures var l := Two(0, [1], None, 0, Thread(GiveBack, 1), Thread(Blocked, 0));
      CanMove(l, 0, Go) && Step(l, 0, Go) == Some(Contended())
  {
    var l := Two(0, [1], None, 0, Thread(GiveBack, 1), Thread(Blocked, 0));
    assert l.waiters[0] == 1 && l.waiters[1..] == [];
    PairUpdates();
    var l1 := Return(l, 0, 0).(semphore := 1);
    assert l1.threads == Pair(Thread(Outside, 0), Thread(Blocked, 0));
    assert Goto(l1, 1, Retry).threads == Contended().threads;
  }

  // From l the run gets to n; thread 0 acquires the mutex c times on the way, thread 1 never.
  ghost predicate Gets(l: Lock, turns: seq<Turn>, n: Lock, c: nat) {
    Run(l, turns, n) && Acquisitions(l, turns, 0) == c && Acquisitions(l, turns, 1) == 0
  }

  lemma GetsBoth(l: Lock, a: seq<Turn>, m: Lock, c: nat, b: seq<Turn>, n: Lock, d: nat)
    requires Gets(l, a, m, c) && Gets(m, b, n, d)
    ensures Gets(l, a + b, n, c + d)
  {
    RunAppend(l, a, m, b, n);
    AcquisitionsAppend(l, a, m, b, 0);
    AcquisitionsAppend(l, a, m, b, 1);
  }

  lemma Moves(l: Lock, turns: seq<Turn>, m: Lock, c: nat, i: nat, move: Move, n: Lock) returns (more: seq<Turn>)
    requires Gets(l, turns, m, c) && CanMove(m, i, move) && Step(m, i, move) == Some(n)
    requires IsOwner(n, 1) ==> IsOwner(m, 1)
    ensures more == turns + [Turn(i, move)]
    ensures Gets(l, more, n, c + if !IsOwner(m, 0) && IsOwner(n, 0) then 1 else 0)
  {
    var last := [Turn(i, move)];
    assert last[0] == Turn(i, move) && last[1..] == [] && Run(n, [], n);
    hide CanMove, Step, IsOwner;
    assert Acquisitions(n, [], 0) == Acquisitions(n, [], 1) == 0;
    assert Run(m, last, n);
    assert Gets(m, last, n, if !IsOwner(m, 0) && IsOwner(n, 0) then 1 else 0);
    GetsBoth(l, turns, m, c, last, n, if !IsOwner(m, 0) && IsOwner(n, 0) then 1 else 0);
    more := turns + last;
  }

  // Thread 0 finds the mutex free and runs mutexlock_acquire to its end.
  lemma TakesIt(b: Thread) returns (turns: seq<Turn>)
    requires !Owns(b)
    ensures Gets(Two(1, [], None, 0, Thread(Outside, 0), b), turns, Two(0, [], Some(0), 1, Thread(Outside, 1), b), 1)
  {
    var l := Two(1, [], None, 0, Thread(Outside, 0), b);
    turns := [];
    assert Gets(l, turns, l, 0);
    PairUpdates();
    hide Gets, Pair;
    turns := Moves(l, turns, l, 0, 0, StartAcquire, Two(1, [], None, 0, Thread(Compare, 0), b));
    turns := Moves(l, turns, Two(1, [], None, 0, Thread(Compare, 0), b), 0, 0, Go,
                   Two(1, [], None, 0, Thread(Take, 0), b));
    turns := Moves(l, turns, Two(1, [], None, 0, Thread(Take, 0), b), 0, 0, Go,
                   Two(0, [], None, 0, Thread(SetHolder, 0), b));
    turns := Moves(l, turns, Two(0, [], None, 0, Thread(SetHolder, 0), b), 1, 0, Go,
                   Two(0, [], Some(0), 0, Thread(CheckRepeat, 0), b));
    turns := Moves(l, turns, Two(0, [], Some(0), 0, Thread(CheckRepeat, 0), b), 1, 0, Go,
                   Two(0, [], Some(0), 0, Thread(SetRepeat, 0), b));
    turns := Moves(l, turns, Two(0, [], Some(0), 0, Thread(SetRepeat, 0), b), 1, 0, Go,
                   Two(0, [], Some(0), 1, Thread(Outside, 1), b));
  }

  // It begins mutexlock_release, and finds that this is its last release.
  lemma LetsGo() returns (turns: seq<Turn>)
    ensures Gets(Two(0, [1], Some(0), 1, Thread(Outside, 1), Thread(Blocked, 0)), turns,
                 Two(0, [1], Some(0), 1, Thread(CheckOne, 1), Thread(Blocked, 0)), 0)
  {
    var b := Thread(Blocked, 0);
    var l := Two(0, [1], Some(0), 1, Thread(Outside, 1), b);
    turns := [];
    assert Gets(l, turns, l, 0);
    PairUpdates();
    hide Gets, Pair;
    turns := Moves(l, turns, l, 0, 0, StartRelease, Two(0, [1], Some(0), 1, Thread(CheckHolder, 1), b));
    turns := Moves(l, turns, Two(0, [1], Some(0), 1, Thread(CheckHolder, 1), b), 0, 0, Go,
                   Two(0, [1], Some(0), 1, Thread(TestRepeat, 1), b));
    turns := Moves(l, turns, Two(0, [1], Some(0), 1, Thread(TestRepeat, 1), b), 0, 0, Go,
                   Two(0, [1], Some(0), 1, Thread(CheckOne, 1), b));
  }

  // It gives the mutex back, which wakes thread 1.
  lemma GivesItBack() returns (turns: seq<Turn>)
    ensures Gets(Two(0, [1], Some(0), 1, Thread(CheckOne, 1), Thread(Blocked, 0)), turns, Contended(), 0)
  {
    var b := Thread(Blocked, 0);
    var l := Two(0, [1], Some(0), 1, Thread(CheckOne, 1), b);
    turns := [];
    assert Gets(l, turns, l, 0);
    PairUpdates();
    Wakes();
    hide Gets, Pair;
    turns := Moves(l, turns, l, 0, 0, Go, Two(0, [1], Some(0), 1, Thread(ClearHolder, 1), b));
    turns := Moves(l, turns, Two(0, [1], Some(0), 1, Thread(ClearHolder, 1), b), 0, 0, Go,
                   Two(0, [1], None, 1, Thread(ClearRepeat, 1), b));
    turns := Moves(l, turns, Two(0, [1], None, 1, Thread(ClearRepeat, 1), b), 0, 0, Go,
                   Two(0, [1], None, 0, Thread(GiveBack, 1), b));
    turns := Moves(l, turns, Two(0, [1], None, 0, Thread(GiveBack, 1), b), 0, 0, Go, Contended());
  }

  // It runs mutexlock_release to its end.
  lemma Releases() returns (turns: seq<Turn>)
    ensures Gets(Two(0, [1], Some(0), 1, Thread(Outside, 1), Thread(Blocked, 0)), turns, Contended(), 0)
  {
    var going := LetsGo();
    var giving := GivesItBack();
    hide Gets;
    GetsBoth(Two(0, [1], Some(0), 1, Thread(Outside, 1), Thread(Blocked, 0)), going,
             Two(0, [1], Some(0), 1, Thread(CheckOne, 1), Thread(Blocked, 0)), 0, giving, Contended(), 0);
    turns := going + giving;
  }

  // Thread 1 runs while thread 0 owns the mutex, and goes to the back of the waiters.
  lemma Misses() returns (turns: seq<Turn>)
    ensures Gets(Two(0, [], Some(0), 1, Thread(Outside, 1), Thread(Retry, 0)), turns,
                 Two(0, [1], Some(0), 1, Thread(Outside, 1), Thread(Blocked, 0)), 0)
  {
    var l := Two(0, [], Some(0), 1, Thread(Outside, 1), Thread(Retry, 0));
    assert Gets(l, [], l, 0);
    PairUpdates();
    Blocks(Thread(Outside, 1), Retry);
    hide Gets, Pair;
    turns := Moves(l, [], l, 0, 1, Go, Two(0, [1], Some(0), 1, Thread(Outside, 1), Thread(Blocked, 0)));
  }

  // Thread 1 is overtaken once, although it runs in between.
  lemma OvertakenOnce() returns (turns: seq<Turn>)
    ensures Gets(Contended(), turns, Contended(), 1)
  {
    var taking := TakesIt(Thread(Retry, 0));
    var missing := Misses();
    var giving := Releases();
    hide Gets;
    GetsBoth(Contended(), taking, Two(0, [], Some(0), 1, Thread(Outside, 1), Thread(Retry, 0)), 1, missing,
             Two(0, [1], Some(0), 1, Thread(Outside, 1), Thread(Blocked, 0)), 0);
    GetsBoth(Contended(), taking + missing, Two(0, [1], Some(0), 1, Thread(Outside, 1), Thread(Blocked, 0)), 1,
             giving, Contended(), 0);
    turns := taking + missing + giving;
  }

  // However large n is, some run from mutexlock_init on has thread 1 ask for the lock and be woken,
  // and then thread 0 acquire the mutex n times more while thread 1 never does.
  lemma CanStarve(n: nat) returns (start: seq<Turn>, turns: seq<Turn>)
    ensures Run(Fresh(2), start, Contended()) && Run(Contended(), turns, Contended())
    ensures Acquisitions(Contended(), turns, 0) == n && Acquisitions(Contended(), turns, 1) == 0
  {
    start := GetsContended();
    turns := OvertakenOften(n);
  }

  lemma {:induction false} OvertakenOften(n: nat) returns (turns: seq<Turn>)
    ensures Gets(Contended(), turns, Contended(), n)
  {
    if n == 0 {
      turns := [];
    } else {
      var less := OvertakenOften(n - 1);
      var once := OvertakenOnce();
      hide Gets;
      GetsBoth(Contended(), less, Contended(), n - 1, once, Contended(), 1);
      turns := less + once;
    }
  }

  // Thread 0 takes the mutex, thread 1 asks for it, and thread 0 gives it back.
  lemma GetsContended() returns (turns: seq<Turn>)
    ensures Run(Fresh(2), turns, Contended())
  {
    var a, l := Thread(Outside, 1), Two(0, [], Some(0), 1, Thread(Outside, 1), Thread(Outside, 0));
    assert Fresh(2) == Two(1, [], None, 0, Thread(Outside, 0), Thread(Outside, 0));
    var taking := TakesIt(Thread(Outside, 0));
    assert Gets(l, [], l, 0);
    PairUpdates();
    var blocked := Two(0, [1], Some(0), 1, a, Thread(Blocked, 0));
    var asking := Moves(l, [], l, 0, 1, StartAcquire, Two(0, [], Some(0), 1, a, Thread(Compare, 0)));
    asking := Moves(l, asking, Two(0, [], Some(0), 1, a, Thread(Compare, 0)), 0, 1, Go,
                    Two(0, [], Some(0), 1, a, Thread(Take, 0)));
    Blocks(a, Take);
    asking := Moves(l, asking, Two(0, [], Some(0), 1, a, Thread(Take, 0)), 0, 1, Go, blocked);
    var giving := Releases();
    hide Run;
    RunAppend(Fresh(2), taking, l, asking, blocked);
    RunAppend(Fresh(2), taking + asking, blocked, giving, Contended());
    turns := taking + asking + giving;
  }
}
