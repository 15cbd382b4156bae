/**
  Waiters are woken in the order in which they blocked, and the nesting depth that the lock keeps
  is the number of acquisitions not yet released.
 */
module MutexQueues {
  import opened Lists
  import opened MutexModel
  import opened MutexProofs
  import opened Wrappers

  predicate Waits(l: Lock, i: nat) {
    i < |l.threads| && l.threads[i].pc.Blocked?
  }

  // ---------- first come, first served ----------

  // since tells when a thread last blocked in mutex_acquire.
  datatype Clocked = Clocked(lock: Lock, now: nat, since: map<nat, nat>)

  function ClockedStep(t: Clocked, i: nat, m: Move): Option<Clocked>
    requires CanMove(t.lock, i, m)
  {
    match Step(t.lock, i, m)
    case None => None
    case Some(n) =>
      Some(Clocked(n, t.now + 1, if Waits(n, i) && !Waits(t.lock, i) then t.since[i := t.now] else t.since))
  }

  ghost predicate InOrder(t: Clocked) {
    Queued(t.lock.waiters, t.since, t.now)
  }

  // A step leaves the waiters, or its thread goes to the back, or the front one is woken.
  lemma WaitersStep(l: Lock, i: nat, m: Move)
    requires Inv(l) && CanMove(l, i, m) && Step(l, i, m).Some?
    ensures var n := Step(l, i, m).value;
      if Waits(n, i) then n.waiters == l.waiters + [i]
      else n.waiters == l.waiters || (l.waiters != [] && n.waiters == l.waiters[1..])
    ensures !Waits(l, i) && i !in l.waiters
  {
    assert WaiterAt(l, i);
  }

  lemma ClockedKeeps(t: Clocked, i: nat, m: Move, n: Clocked)
    requires Inv(t.lock) && InOrder(t) && CanMove(t.lock, i, m) && ClockedStep(t, i, m) == Some(n)
    ensures Inv(n.lock) && InOrder(n)
  {
    var w := t.lock.waiters;
    StepKeeps(t.lock, i, m);
    WaitersStep(t.lock, i, m);
    hide Inv, Step, CanMove;
    if Waits(n.lock, i) {
      PushQueued(w, i, t.since, t.now);
    } else {
      OtherQueued(w, i, t.since, t.now);
      if w != [] { WithoutQueued(w, w[0], t.since, t.now + 1); }
    }
  }

  function ClockedRun(t: Clocked, turns: seq<Turn>): Option<Clocked>
    decreases |turns|
  {
    if turns == [] then Some(t)
    else if !CanMove(t.lock, turns[0].thread, turns[0].move) then None
    else match ClockedStep(t, turns[0].thread, turns[0].move)
      case None => None
      case Some(n) => ClockedRun(n, turns[1..])
  }

  lemma {:induction false} ClockedRunKeeps(t: Clocked, turns: seq<Turn>, n: Clocked)
    requires Inv(t.lock) && InOrder(t) && ClockedRun(t, turns) == Some(n)
    ensures Inv(n.lock) && InOrder(n)
    decreases |turns|
  {
    hide Inv, InOrder, ClockedStep, CanMove;
    if turns != [] {
      var t1 := ClockedStep(t, turns[0].thread, turns[0].move).value;
      ClockedKeeps(t, turns[0].thread, turns[0].move, t1);
      ClockedRunKeeps(t1, turns[1..], n);
    }
  }

  // In every state a run reaches: if a step ends a thread's wait, that thread blocked before every
  // other one that is waiting.
  lemma FirstIsWokenFirst(threads: nat, turns: seq<Turn>, t: Clocked, i: nat, m: Move, woken: nat, other: nat)
    requires ClockedRun(Clocked(Fresh(threads), 0, map[]), turns) == Some(t)
    requires CanMove(t.lock, i, m) && Step(t.lock, i, m).Some?
    requires Waits(t.lock, woken) && !Waits(Step(t.lock, i, m).value, woken)
    requires Waits(t.lock, other) && other != woken
    ensures Waits(Step(t.lock, i, m).value, other)
    ensures woken in t.since && other in t.since && t.since[woken] < t.since[other]
  {
    var l, n := t.lock, Step(t.lock, i, m).value;
    assert Inv(Fresh(threads));
    ClockedRunKeeps(Clocked(Fresh(threads), 0, map[]), turns, t);
    StepKeeps(l, i, m);
    WaitersStep(l, i, m);
    assert WaiterAt(l, woken) && WaiterAt(n, woken) && WaiterAt(l, other) && WaiterAt(n, other);
    hide Inv, Step, CanMove, Fresh;
    FrontLeaves(l.waiters, n.waiters, i, woken, other, t.since, t.now);
  }

  lemma FrontLeaves(w: seq<nat>, r: seq<nat>, i: nat, woken: nat, other: nat, since: map<nat, nat>, now: nat)
    requires Queued(w, since, now) && woken in w && woken !in r && other in w && other != woken
    requires r == w + [i] || r == w || (w != [] && r == w[1..])
    ensures other in r && Sooner(since, woken, other)
  {
    forall x | x in w ensures x in w + [i] && (x == w[0] || x in w[1..]) {
      var p :| 0 <= p < |w| && w[p] == x;
      assert (w + [i])[p] == x && (p > 0 ==> w[1..][p - 1] == x);
    }
    assert woken == w[0];
    var q :| 0 <= q < |w| && w[q] == other;
  }

  // ---------- the nesting depth ----------

  // How often along the run thread i makes that move.
  function Times(turns: seq<Turn>, i: nat, m: Move): nat {
    if turns == [] then 0 else (if turns[0] == Turn(i, m) then 1 else 0) + Times(turns[1..], i, m)
  }

  // The call that a thread is in will add one, or take one away.
  function Pending(pc: Pc): int {
    match pc
    case Outside => 0
    case Compare => 1
    case Take => 1
    case Blocked => 1
    case Retry => 1
    case SetHolder => 1
    case CheckRepeat => 1
    case SetRepeat => 1
    case LoadUp => 1
    case StoreUp(_) => 1
    case _ => -1
  }

  // The depth that thread i gets to when its call returns.
  function Balance(l: Lock, i: nat): int
    requires i < |l.threads|
  {
    l.threads[i].depth + Pending(l.threads[i].pc)
  }

  lemma BalanceStep(l: Lock, j: nat, m: Move, i: nat)
    requires Inv(l) && CanMove(l, j, m) && Step(l, j, m).Some? && i < |l.threads|
    ensures var n := Step(l, j, m).value;
      && |n.threads| == |l.threads|
      && Balance(n, i) == Balance(l, i) + (if j != i then 0 else if m.StartAcquire? then 1
                                           else if m.StartRelease? then -1 else 0)
  {
    assert WaiterAt(l, i) && DepthOk(l, l.threads[i]) && DepthOk(l, l.threads[j]);
    if l.waiters != [] { assert WaiterAt(l, l.waiters[0]) && l.waiters[0] in l.waiters; }
  }

  lemma {:induction false} BalanceRun(l: Lock, turns: seq<Turn>, n: Lock, i: nat)
    requires Inv(l) && Run(l, turns, n) && i < |l.threads|
    ensures |n.threads| == |l.threads|
    ensures Balance(n, i) == Balance(l, i) + Times(turns, i, StartAcquire) - Times(turns, i, StartRelease)
    decreases |turns|
  {
    hide Inv, Step, CanMove, Balance;
    if turns != [] {
      StepKeeps(l, turns[0].thread, turns[0].move);
      BalanceStep(l, turns[0].thread, turns[0].move, i);
      BalanceRun(Step(l, turns[0].thread, turns[0].move).value, turns[1..], n, i);
    }
  }

  // Between calls a thread's depth is the number of times it acquired the lock less the number of
  // times it released it; for the owner that is what the lock's `repeat` says.
  lemma DepthIsCount(threads: nat, turns: seq<Turn>, l: Lock, i: nat)
    requires Run(Fresh(threads), turns, l) && i < threads
    ensures i < |l.threads|
    ensures var held := Times(turns, i, StartAcquire) - Times(turns, i, StartRelease);
      l.threads[i].pc.Outside? ==>
        && l.threads[i].depth == held && (IsOwner(l, i) <==> held > 0)
        && (held > 0 ==> l.holder == Some(i) && l.repeat == held)
  {
    assert Inv(Fresh(threads));
    BalanceRun(Fresh(threads), turns, l, i);
    RunKeeps(Fresh(threads), turns, l);
    assert OwnerOk(l, i);
  }
}
