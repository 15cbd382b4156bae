/**
  Without arrivals a queue drains in one sweep and one sweep back, and the head travels no
  further than that takes.
 */
module ElevatorSweeps {
  import opened ElevatorModel
  import opened ElevatorProofs
  import opened Lists

  // The sectors served, in order, when the request at p is the active one.
  function Drain(keys: seq<int>, p: nat, direction: Direction): seq<int>
    requires p < |keys|
    decreases |keys|
  {
    if |keys| == 1 then [keys[p]]
    else
      var d := TurnedAt(|keys|, p, direction);
      [keys[p]] + Drain(RemoveAt(keys, p), if d.Out? then p else p - 1, d)
  }

  function Reverse(s: seq<int>): seq<int> {
    if s == [] then [] else [s[|s| - 1]] + Reverse(s[..|s| - 1])
  }

  function Sweeps(keys: seq<int>, p: nat, direction: Direction): seq<int>
    requires p < |keys|
  {
    if direction.Out? then keys[p..] + Reverse(keys[..p]) else Reverse(keys[..p + 1]) + keys[p + 1..]
  }

  lemma ReverseTake(keys: seq<int>, p: nat)
    requires p < |keys|
    ensures Reverse(keys[..p + 1]) == [keys[p]] + Reverse(keys[..p])
  {
    assert keys[..p + 1][..p] == keys[..p];
  }

  lemma SweepsOut(keys: seq<int>, p: nat)
    requires p < |keys| - 1
    ensures [keys[p]] + Sweeps(RemoveAt(keys, p), p, Out) == Sweeps(keys, p, Out)
    ensures p == 0 ==> Sweeps(keys, p, Out) == Sweeps(keys, p, In)
  {
    var rest := RemoveAt(keys, p);
    assert rest[p..] == keys[p + 1..] && rest[..p] == keys[..p] && [keys[p]] + keys[p + 1..] == keys[p..];
    ReverseTake(keys, p);
    if p == 0 { assert Sweeps(keys, p, Out) == keys; }
  }

  lemma SweepsIn(keys: seq<int>, p: nat)
    requires 0 < p < |keys|
    ensures [keys[p]] + Sweeps(RemoveAt(keys, p), p - 1, In) == Sweeps(keys, p, In)
    ensures p == |keys| - 1 ==> Sweeps(keys, p, Out) == Sweeps(keys, p, In)
  {
    var rest := RemoveAt(keys, p);
    assert rest[..p] == keys[..p] && rest[p..] == keys[p + 1..];
    ReverseTake(keys, p);
    if p == |keys| - 1 { assert keys[p..] == [keys[p]]; }
  }

  // The queue is served in one sweep from the active request to the end that the head moves to,
  // and one sweep back over the rest.
  lemma {:induction false} DrainIsSweeps(keys: seq<int>, p: nat, direction: Direction)
    requires p < |keys|
    ensures Drain(keys, p, direction) == Sweeps(keys, p, direction)
    decreases |keys|
  {
    if |keys| == 1 {
      ReverseTake(keys, 0);
    } else {
      var d := TurnedAt(|keys|, p, direction);
      DrainIsSweeps(RemoveAt(keys, p), if d.Out? then p else p - 1, d);
      hide Sweeps, RemoveAt;
      if d.Out? { SweepsOut(keys, p); } else { SweepsIn(keys, p); }
    }
  }

  // ---------- the machine does just that ----------

  function Sectors(log: seq<Served>): (r: seq<int>)
    ensures |r| == |log| && forall i :: 0 <= i < |log| ==> r[i] == log[i].idx
  {
    seq(|log|, i requires 0 <= i < |log| => log[i].idx)
  }

  predicate NoArrivals(ops: seq<Op>) {
    forall i :: 0 <= i < |ops| ==> !ops[i].New?
  }

  lemma StartKeys(d: Device, p: nat)
    requires p < |d.list|
    ensures Keys(Start(d, p).list) == Keys(d.list)
  {
  }

  lemma FinishKeys(d: Device, p: nat)
    requires Inv(d) && CanDo(d, End(p)) && |d.list| > 1
    ensures Keys(Finish(d, p).list) == RemoveAt(Keys(d.list), p)
    ensures ActiveAt(Finish(d, p), if Turned(d, p).Out? then p else p - 1)
  {
    var n := Finish(d, p);
    FinishSize(d, p);
    forall j: nat | j < |n.list| ensures Keys(n.list)[j] == RemoveAt(Keys(d.list), p)[j] { FinishAt(d, p, j); }
    FinishAt(d, p, if Turned(d, p).Out? then p else p - 1);
  }

  // Two active requests are one.
  lemma OneActive(d: Device, p: nat, q: nat)
    requires Inv(d) && ActiveAt(d, p) && ActiveAt(d, q)
    ensures p == q
  {
    if p != q { OthersWait(d, p, q); }
  }

  // What is served without arrivals is a beginning of the drain, and all of it once the list is
  // empty.
  ghost predicate Drains(d: Device, p: nat, n: Device, log: seq<Served>) {
    && p < |d.list| && |n.list| + |log| == |d.list|
    && Sectors(log) <= Drain(Keys(d.list), p, d.direction)
    && (n.list == [] ==> Sectors(log) == Drain(Keys(d.list), p, d.direction))
  }

  // A run without arrivals serves requests in the order of Drain.
  lemma {:induction false} RunDrains(d: Device, p: nat, ops: seq<Op>, n: Device, log: seq<Served>)
    requires Inv(d) && ActiveAt(d, p) && Run(d, ops, n, log) && NoArrivals(ops)
    ensures Drains(d, p, n, log)
    decreases |ops|
  {
    DrainSize(Keys(d.list), p, d.direction);
    if ops != [] {
      var op := ops[0];
      RunFirst(d, ops, n, log);
      var (d1, out) := Step(d, op);
      var rest := log[|out|..];
      assert NoArrivals(ops[1..]);
      assert ActiveAt(d, op.at);
      OneActive(d, p, op.at);
      hide Inv, Run, NoArrivals, Drains;
      if op.Begin? {
        assert ActiveAt(d1, p);
        RunDrains(d1, p, ops[1..], n, rest);
        BeginDrains(d, p, n, rest);
        assert log == rest;
      } else if |d.list| == 1 {
        FinishSize(d, p);
        EmptyServes(d1, ops[1..], n, rest);
        LastDrains(d, p, n, log);
      } else {
        var q := if Turned(d, p).Out? then p else p - 1;
        FinishKeys(d, p);
        RunDrains(d1, q, ops[1..], n, rest);
        EndDrains(d, p, n, rest);
        assert log == [out[0]] + rest;
      }
    }
  }

  lemma BeginDrains(d: Device, p: nat, n: Device, log: seq<Served>)
    requires p < |d.list| && Drains(Start(d, p), p, n, log)
    ensures Drains(d, p, n, log)
  {
    StartKeys(d, p);
  }

  lemma LastDrains(d: Device, p: nat, n: Device, log: seq<Served>)
    requires |d.list| == 1 && p == 0 && n.list == [] && |log| == 1 && log[0].idx == d.list[0].idx
    ensures Drains(d, p, n, log)
  {
  }

  lemma EndDrains(d: Device, p: nat, n: Device, rest: seq<Served>)
    requires Inv(d) && CanDo(d, End(p)) && |d.list| > 1
    requires Drains(Finish(d, p), if Turned(d, p).Out? then p else p - 1, n, rest)
    ensures Drains(d, p, n, Step(d, End(p)).1 + rest)
  {
    FinishKeys(d, p);
    FinishSize(d, p);
    var out := Step(d, End(p)).1;
    hide Inv, Finish, NextPosition;
    var keys := Keys(d.list);
    assert Sectors(out + rest) == [keys[p]] + Sectors(rest);
    var d1 := TurnedAt(|keys|, p, d.direction);
    assert Drain(keys, p, d.direction) == [keys[p]] + Drain(RemoveAt(keys, p), if d1.Out? then p else p - 1, d1);
  }

  lemma {:induction false} DrainSize(keys: seq<int>, p: nat, direction: Direction)
    requires p < |keys|
    ensures |Drain(keys, p, direction)| == |keys|
    decreases |keys|
  {
    if |keys| > 1 {
      var d := TurnedAt(|keys|, p, direction);
      DrainSize(RemoveAt(keys, p), if d.Out? then p else p - 1, d);
    }
  }

  lemma EmptyServes(d: Device, ops: seq<Op>, n: Device, log: seq<Served>)
    requires d.list == [] && Run(d, ops, n, log) && NoArrivals(ops)
    ensures n.list == [] && log == []
  {
  }

  // ---------- how far the head travels ----------

  function Distance(a: int, b: int): nat {
    if a <= b then b - a else a - b
  }

  function Travel(from: int, stops: seq<int>): nat
    decreases |stops|
  {
    if stops == [] then 0 else Distance(from, stops[0]) + Travel(stops[0], stops[1..])
  }

  lemma {:induction false} TravelUp(from: int, s: seq<int>)
    requires Ascending([from] + s)
    ensures Travel(from, s) == (if s == [] then 0 else s[|s| - 1] - from)
    decreases |s|
  {
    if s != [] {
      assert ([from] + s)[0] == from && ([from] + s)[1] == s[0] && ([from] + s)[1..] == s && [s[0]] + s[1..] == s;
      TravelUp(s[0], s[1..]);
    }
  }

  lemma {:induction false} TravelDown(s: seq<int>, from: int)
    requires Ascending(s + [from])
    ensures Travel(from, Reverse(s)) == (if s == [] then 0 else from - s[0])
    decreases |s|
  {
    if s != [] {
      var m := |s| - 1;
      var all := s + [from];
      assert all[m] == s[m] && all[m + 1] == from && all[..m + 1] == s && s[..m] + [s[m]] == s;
      assert Reverse(s)[1..] == Reverse(s[..m]);
      TravelDown(s[..m], s[m]);
    }
  }

  lemma {:induction false} TravelAppend(from: int, a: seq<int>, b: seq<int>)
    ensures Travel(from, a + b) == Travel(from, a) + Travel(if a == [] then from else a[|a| - 1], b)
    decreases |a|
  {
    if a == [] {
      assert a + b == b;
    } else {
      assert (a + b)[1..] == a[1..] + b;
      TravelAppend(a[0], a[1..], b);
    }
  }

  lemma TravelOutFirst(keys: seq<int>, p: nat)
    requires p < |keys| && Ascending(keys)
    ensures Travel(keys[p], Sweeps(keys, p, Out)) ==
      (keys[|keys| - 1] - keys[p]) + (if p > 0 then keys[|keys| - 1] - keys[0] else 0)
  {
    var hi := keys[|keys| - 1];
    TravelAppend(keys[p], keys[p..], Reverse(keys[..p]));
    TravelUp(keys[p], keys[p..]);
    TravelDown(keys[..p], hi);
  }

  lemma TravelInFirst(keys: seq<int>, p: nat)
    requires p < |keys| && Ascending(keys)
    ensures Travel(keys[p], Sweeps(keys, p, In)) ==
      (keys[p] - keys[0]) + (if p < |keys| - 1 then keys[|keys| - 1] - keys[0] else 0)
  {
    TravelAppend(keys[p], Reverse(keys[..p + 1]), keys[p + 1..]);
    TravelDown(keys[..p + 1], keys[p]);
    ReverseLast(keys[..p + 1]);
    TravelUp(keys[0], keys[p + 1..]);
  }

  // With the head at the active request of a sorted queue from lo to hi: outwards first, the way
  // to hi and, if anything lies below, the way back to lo; inwards first, the mirror image.
  lemma DrainTravel(keys: seq<int>, p: nat, direction: Direction)
    requires p < |keys| && Ascending(keys)
    ensures var lo, hi, cur := keys[0], keys[|keys| - 1], keys[p];
      Travel(cur, Drain(keys, p, direction)) ==
        if direction.Out? then (hi - cur) + (if p > 0 then hi - lo else 0)
        else (cur - lo) + (if p < |keys| - 1 then hi - lo else 0)
  {
    DrainIsSweeps(keys, p, direction);
    if direction.Out? { TravelOutFirst(keys, p); } else { TravelInFirst(keys, p); }
  }

  lemma {:induction false} ReverseLast(s: seq<int>)
    ensures |Reverse(s)| == |s| && (s != [] ==> Reverse(s)[|s| - 1] == s[0])
  {
    if s != [] { ReverseLast(s[..|s| - 1]); }
  }

  // ---------- every request is executed ----------

  predicate InProgress(d: Device) {
    exists i :: 0 <= i < |d.list| && d.list[i].phase.Executing?
  }

  // The steps left until the list is empty: each request has to be begun and ended.
  function StepsLeft(d: Device): int {
    2 * |d.list| - (if InProgress(d) then 1 else 0)
  }

  predicate GoesOn(d: Device, op: Op) {
    !op.New? && CanDo(d, op)
  }

  // While requests are queued the device is never stuck: the active one can begin or end.
  lemma CanGoOn(d: Device) returns (op: Op)
    requires Inv(d) && d.list != []
    ensures GoesOn(d, op)
  {
    var p: nat :| ActiveAt(d, p);
    op := if d.list[p].phase.Woken? then Begin(p) else End(p);
  }

  // Each step but an arrival takes one off what is left.
  lemma OneStepLess(d: Device, op: Op)
    requires Inv(d) && GoesOn(d, op)
    ensures StepsLeft(Step(d, op).0) == StepsLeft(d) - 1
  {
    var n := Step(d, op).0;
    var p := op.at;
    assert ActiveAt(d, p);
    forall i: nat | i < |d.list| && i != p ensures d.list[i].phase.Waiting? { OthersWait(d, p, i); }
    hide Inv;
    if op.Begin? {
      assert n.list[p].phase.Executing?;
    } else {
      FinishSize(d, p);
      forall j: nat | j < |n.list| ensures !n.list[j].phase.Executing? { FinishAt(d, p, j); }
    }
  }

  // A run without arrivals is no longer than that, and one that leaves nothing to do is as long.
  lemma {:induction false} RunsEnd(d: Device, ops: seq<Op>, n: Device, log: seq<Served>)
    requires Inv(d) && Run(d, ops, n, log) && NoArrivals(ops)
    ensures |ops| + StepsLeft(n) == StepsLeft(d) && StepsLeft(n) >= 0 && Inv(n)
    decreases |ops|
  {
    if ops != [] {
      RunFirst(d, ops, n, log);
      assert GoesOn(d, ops[0]) && NoArrivals(ops[1..]);
      OneStepLess(d, ops[0]);
      hide Inv, Run, NoArrivals, StepsLeft, Step, CanDo;
      RunsEnd(Step(d, ops[0]).0, ops[1..], n, log[|Step(d, ops[0]).1|..]);
    }
  }

  // So once arrivals stop every run comes to an end, and when it cannot go on, every request that
  // was queued has been executed.
  lemma EveryRequestIsExecuted(d: Device, ops: seq<Op>, n: Device, log: seq<Served>, id: nat)
    requires Inv(d) && Run(d, ops, n, log) && NoArrivals(ops) && Pending(d, id)
    requires forall op :: !GoesOn(n, op)
    ensures n.list == [] && Done(log, id)
  {
    RunsEnd(d, ops, n, log);
    if n.list != [] { var op := CanGoOn(n); assert false; }
    ServedOnceAt(d, ops, n, log, id);
  }

  // And there is such a run from every state.
  lemma {:induction false} CanDrain(d: Device) returns (ops: seq<Op>, n: Device, log: seq<Served>)
    requires Inv(d)
    ensures NoArrivals(ops) && Run(d, ops, n, log) && n.list == []
    decreases StepsLeft(d)
  {
    if d.list == [] {
      return [], d, [];
    }
    var op := CanGoOn(d);
    OneStepLess(d, op);
    StepKeeps(d, op);
    var (d1, out) := Step(d, op);
    hide Inv, Step, StepsLeft;
    var rest, more;
    rest, n, more := CanDrain(d1);
    ops, log := [op] + rest, out + more;
    assert ops[1..] == rest && log[..|out|] == out && log[|out|..] == more;
  }
}
