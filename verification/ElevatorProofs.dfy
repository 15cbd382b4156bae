/**
  Every request is executed once, one at a time, and the head serves them in sweeps.
 */
module ElevatorProofs {
  import opened ElevatorModel
  import opened Lists
  import opened Wrappers

  // ---------- one step ----------

  // Where an element of the list was before one was inserted at p.
  function Before(p: nat, i: nat): nat
    requires i != p
  {
    if i < p then i else i - 1
  }

  // Where an element of the list was before the one at p left.
  function Origin(p: nat, i: nat): nat {
    if i < p then i else i + 1
  }

  lemma SubmitAt(d: Device, idx: nat, task: nat, i: nat)
    requires i < |d.list| + 1
    ensures var n := Submit(d, idx, task); var p := Place(Keys(d.list), idx);
      |n.list| == |d.list| + 1 &&
      n.list[i] == if i == p then Request(d.submitted, idx, task, if d.list == [] then Executing else Waiting)
                   else d.list[Before(p, i)]
  {
  }

  lemma SubmitSorted(d: Device, idx: nat, task: nat)
    requires Ascending(Keys(d.list))
    ensures Ascending(Keys(Submit(d, idx, task).list))
  {
    var n := Submit(d, idx, task);
    InsertAscending(Keys(d.list), idx);
    assert Keys(n.list) == Insert(Keys(d.list), Place(Keys(d.list), idx), idx);
  }

  // The list of d with r at position p, in front of the first request with a sector not smaller.
  ghost predicate Placed(d: Device, n: Device, r: Request, p: nat) {
    && p <= |d.list| && |n.list| == |d.list| + 1 && n.direction == d.direction
    && (forall j: nat :: j <= |d.list| ==>
          n.list[j] == if j < p then d.list[j] else if j == p then r else d.list[j - 1])
    && (forall i :: 0 <= i < p ==> d.list[i].idx < r.idx)
    && (forall i :: p <= i < |d.list| ==> d.list[i].idx >= r.idx)
  }

  // A new request has its sector and its task, goes to its place, and is executed at once exactly
  // if the list was empty.
  lemma SubmitPlaces(d: Device, idx: nat, task: nat)
    requires Inv(d)
    ensures Submit(d, idx, task).submitted == d.submitted + 1
    ensures var r := Request(d.submitted, idx, task, if d.list == [] then Executing else Waiting);
      Placed(d, Submit(d, idx, task), r, Place(Keys(d.list), idx))
  {
    var n, p := Submit(d, idx, task), Place(Keys(d.list), idx);
    PlaceSplits(d, idx);
    hide Inv, Keys, Place, Insert;
    var r := Request(d.submitted, idx, task, if d.list == [] then Executing else Waiting);
    assert n == Device(Insert(d.list, p, r), d.direction, d.submitted + 1);
    PlacedBy(d, n, r, p);
    hide Submit, Placed;
  }

  lemma PlacedBy(d: Device, n: Device, r: Request, p: nat)
    requires p <= |d.list| && n.list == Insert(d.list, p, r) && n.direction == d.direction
    requires forall i :: 0 <= i < p ==> d.list[i].idx < r.idx
    requires forall i :: p <= i < |d.list| ==> d.list[i].idx >= r.idx
    ensures Placed(d, n, r, p)
  {
    InsertIs(d.list, p, r);
    hide Insert;
  }

  lemma PlaceSplits(d: Device, idx: nat)
    requires Inv(d)
    ensures var p := Place(Keys(d.list), idx);
      && p <= |d.list| && (forall i :: 0 <= i < p ==> d.list[i].idx < idx)
      && forall i :: p <= i < |d.list| ==> d.list[i].idx >= idx
  {
    var p, keys := Place(Keys(d.list), idx), Keys(d.list);
    assert Ascending(keys);
    hide Inv, Place;
    forall i | p <= i < |d.list| ensures d.list[i].idx >= idx { assert keys[p] >= idx && keys[p] <= keys[i]; }
    forall i | 0 <= i < p ensures d.list[i].idx < idx { assert keys[i] < idx; }
  }

  lemma SubmitStep(d: Device, idx: nat, task: nat)
    requires Inv(d) && CanDo(d, New(idx, task))
    ensures Inv(Submit(d, idx, task))
  {
    SubmitSorted(d, idx, task);
    var n, p := Submit(d, idx, task), Place(Keys(d.list), idx);
    assert |n.list| == |d.list| + 1 && n.submitted == d.submitted + 1;
    forall i: nat | i < |n.list|
      ensures n.list[i] == if i == p then Request(d.submitted, idx, task, if d.list == [] then Executing else Waiting)
                           else d.list[Before(p, i)]
    {
      SubmitAt(d, idx, task, i);
    }
    hide Submit, Keys, Ascending, Place;
    forall i: nat ensures IdOk(n, i) { assert i != p ==> IdOk(d, Before(p, i)); }
    forall i: nat, j: nat ensures Apart(n, i, j) {
      if i < j < |n.list| {
        if i == p { assert IdOk(d, Before(p, j)); }
        else if j == p { assert IdOk(d, Before(p, i)); }
        else { assert Apart(d, Before(p, i), Before(p, j)); }
      }
    }
    if d.list == [] {
      assert ActiveAt(n, 0);
    } else {
      var i: nat :| ActiveAt(d, i);
      assert Before(p, if i < p then i else i + 1) == i && ActiveAt(n, if i < p then i else i + 1);
    }
  }

  lemma StartStep(d: Device, p: nat)
    requires Inv(d) && CanDo(d, Begin(p))
    ensures Inv(Start(d, p)) && Start(d, p) == d.(list := d.list[p := d.list[p].(phase := Executing)])
  {
    var n := Start(d, p);
    assert Keys(n.list) == Keys(d.list);
    hide Keys, Ascending;
    forall i: nat ensures IdOk(n, i) { assert IdOk(d, i); }
    forall i: nat, j: nat ensures Apart(n, i, j) { assert Apart(d, i, j); }
    assert ActiveAt(n, p);
  }

  lemma FinishAt(d: Device, p: nat, j: nat)
    requires p < |d.list| && j < |d.list| - 1
    ensures |Finish(d, p).list| == |d.list| - 1
    ensures var i := Origin(p, j);
      Finish(d, p).list[j] == if NextPosition(d, p) == Some(i) then d.list[i].(phase := Woken) else d.list[i]
  {
  }

  // While one request is executed all the others wait.
  lemma OthersWait(d: Device, p: nat, i: nat)
    requires Inv(d) && ActiveAt(d, p) && i < |d.list| && i != p
    ensures d.list[i].phase.Waiting?
  {
    assert if i < p then Apart(d, i, p) else Apart(d, p, i);
  }

  // n has the requests of d but p, all still waiting except that q is active now, if there is a q.
  ghost predicate Handed(d: Device, n: Device, p: nat, q: Option<nat>)
    requires p < |d.list|
  {
    && |n.list| == |d.list| - 1 && n.submitted == d.submitted
    && forall j: nat :: j < |n.list| ==>
         var i := Origin(p, j);
         n.list[j] == (if q == Some(i) then d.list[i].(phase := Woken) else d.list[i]) && d.list[i].phase.Waiting?
  }

  lemma FinishHands(d: Device, p: nat)
    requires Inv(d) && CanDo(d, End(p))
    ensures Handed(d, Finish(d, p), p, NextPosition(d, p))
  {
    var n := Finish(d, p);
    assert |n.list| == |d.list| - 1 && n.submitted == d.submitted;
    assert ActiveAt(d, p);
    forall j: nat | j < |n.list|
      ensures var i := Origin(p, j);
        n.list[j] == (if NextPosition(d, p) == Some(i) then d.list[i].(phase := Woken) else d.list[i]) &&
        d.list[i].phase.Waiting?
    {
      FinishAt(d, p, j);
      OthersWait(d, p, Origin(p, j));
    }
  }

  // Handing over keeps requests different and one of them active.
  lemma HandedApart(d: Device, n: Device, p: nat, q: Option<nat>)
    requires p < |d.list| && Handed(d, n, p, q)
    requires (forall i: nat :: IdOk(d, i)) && (forall i: nat, j: nat :: Apart(d, i, j))
    requires q.Some? ==> q.value < |d.list| && q.value != p
    ensures (forall i: nat :: IdOk(n, i)) && (forall i: nat, j: nat :: Apart(n, i, j))
    ensures q.Some? ==> exists j: nat :: ActiveAt(n, j)
  {
    forall i: nat ensures IdOk(n, i) { assert IdOk(d, Origin(p, i)); }
    forall i: nat, j: nat ensures Apart(n, i, j) { assert Apart(d, Origin(p, i), Origin(p, j)); }
    if q.Some? {
      var j: nat := if q.value < p then q.value else q.value - 1;
      assert Origin(p, j) == q.value && ActiveAt(n, j);
    }
  }

  lemma FinishStep(d: Device, p: nat)
    requires Inv(d) && CanDo(d, End(p))
    ensures Inv(Finish(d, p)) && Handed(d, Finish(d, p), p, NextPosition(d, p))
    ensures Finish(d, p).direction == Turned(d, p)
  {
    FinishSorted(d, p);
    FinishHands(d, p);
    hide Finish, Keys, Ascending, Turned;
    HandedApart(d, Finish(d, p), p, NextPosition(d, p));
    hide Handed, IdOk, Apart;
  }

  lemma FinishSorted(d: Device, p: nat)
    requires p < |d.list| && Ascending(Keys(d.list))
    ensures Ascending(Keys(Finish(d, p).list))
  {
    var k, n := Keys(d.list), Finish(d, p);
    forall j | 0 <= j < |n.list| ensures Keys(n.list)[j] == k[if j < p then j else j + 1] {}
  }

  // The head goes on to the nearest request in its direction, and turns only when none is left
  // on that side.
  lemma NextIsNearest(d: Device, p: nat)
    requires Inv(d) && CanDo(d, End(p))
    ensures forall q :: NextPosition(d, p) == Some(q) ==>
      if Turned(d, p).Out?
      then d.list[q].idx >= d.list[p].idx && forall i :: 0 <= i < |d.list| && i > p ==> d.list[i].idx >= d.list[q].idx
      else d.list[q].idx <= d.list[p].idx && forall i :: 0 <= i < p ==> d.list[i].idx <= d.list[q].idx
    ensures Turned(d, p) != d.direction ==> forall i :: 0 <= i < |d.list| ==>
      if d.direction.Out? then d.list[i].idx <= d.list[p].idx else d.list[i].idx >= d.list[p].idx
  {
    var k := Keys(d.list);
    assert forall i, j :: 0 <= i <= j < |k| ==> k[i] <= k[j];
  }

  // ---------- runs ----------

  ghost predicate Run(d: Device, ops: seq<Op>, n: Device, log: seq<Served>)
    decreases |ops|
  {
    if ops == [] then n == d && log == []
    else
      CanDo(d, ops[0]) && var (d1, out) := Step(d, ops[0]);
      |out| <= |log| && log[..|out|] == out && Run(d1, ops[1..], n, log[|out|..])
  }

  lemma StepKeeps(d: Device, op: Op)
    requires Inv(d) && CanDo(d, op)
    ensures Inv(Step(d, op).0)
  {
    hide Inv, Submit, Start, Finish;
    match op
    case New(idx, task) => SubmitStep(d, idx, task);
    case Begin(p) => StartStep(d, p);
    case End(p) => FinishStep(d, p);
  }

  lemma {:induction false} RunKeeps(d: Device, ops: seq<Op>, n: Device, log: seq<Served>)
    requires Inv(d) && Run(d, ops, n, log)
    ensures Inv(n)
    decreases |ops|
  {
    if ops != [] {
      hide Inv, Step, CanDo;
      StepKeeps(d, ops[0]);
      var (d1, out) := Step(d, ops[0]);
      RunKeeps(d1, ops[1..], n, log[|out|..]);
    }
  }

  // ---------- each request is served once ----------

  ghost predicate HasId(d: Device, i: nat, id: nat) {
    i < |d.list| && d.list[i].id == id
  }

  ghost predicate Pending(d: Device, id: nat) {
    exists i: nat :: HasId(d, i, id)
  }

  ghost predicate Done(log: seq<Served>, id: nat) {
    exists i :: 0 <= i < |log| && log[i].id == id
  }

  lemma PendingNew(d: Device, idx: nat, task: nat, id: nat)
    ensures Pending(Submit(d, idx, task), id) <==> Pending(d, id) || id == d.submitted
  {
    var n, p := Submit(d, idx, task), Place(Keys(d.list), idx);
    if Pending(d, id) {
      var i: nat :| HasId(d, i, id);
      var j := if i < p then i else i + 1;
      SubmitAt(d, idx, task, j);
      assert HasId(n, j, id);
    }
    SubmitAt(d, idx, task, p);
    assert HasId(n, p, d.submitted);
    if Pending(n, id) {
      var j: nat :| HasId(n, j, id);
      SubmitAt(d, idx, task, j);
      assert j != p ==> HasId(d, Before(p, j), id);
    }
  }

  lemma PendingEnd(d: Device, p: nat, id: nat)
    requires Inv(d) && p < |d.list|
    ensures Pending(Finish(d, p), id) <==> Pending(d, id) && id != d.list[p].id
  {
    var n := Finish(d, p);
    hide Ascending, Keys, Finish;
    if Pending(n, id) {
      var j: nat :| HasId(n, j, id);
      assert |n.list| == |d.list| - 1 by { FinishSize(d, p); }
      FinishAt(d, p, j);
      var i := Origin(p, j);
      assert HasId(d, i, id) && Apart(d, i, p) && Apart(d, p, i);
    }
    if Pending(d, id) && id != d.list[p].id {
      var i: nat :| HasId(d, i, id);
      var j := if i < p then i else i - 1;
      FinishAt(d, p, j);
      assert HasId(n, j, id);
    }
  }

  lemma FinishSize(d: Device, p: nat)
    requires p < |d.list|
    ensures |Finish(d, p).list| == |d.list| - 1
  {
  }

  lemma PendingStep(d: Device, op: Op, id: nat)
    requires Inv(d) && CanDo(d, op)
    ensures var (n, out) := Step(d, op);
      && (Pending(n, id) <==> (Pending(d, id) && !Done(out, id)) || (op.New? && id == d.submitted))
      && (Done(out, id) ==> Pending(d, id))
      && n.submitted == d.submitted + (if op.New? then 1 else 0)
  {
    var (n, out) := Step(d, op);
    match op
    case New(idx, task) => PendingNew(d, idx, task, id);
    case Begin(p) =>
      forall i: nat ensures HasId(n, i, id) <==> HasId(d, i, id) {}
    case End(p) =>
      PendingEnd(d, p, id);
      assert out[0].id == d.list[p].id && HasId(d, p, d.list[p].id);
  }

  // What becomes of one request along a run.
  lemma {:induction false} ServedOnceAt(d: Device, ops: seq<Op>, n: Device, log: seq<Served>, id: nat)
    requires Inv(d) && Run(d, ops, n, log)
    ensures Pending(n, id) || Done(log, id) <==> Pending(d, id) || d.submitted <= id < n.submitted
    ensures !(Pending(n, id) && Done(log, id)) && n.submitted >= d.submitted
    decreases |ops|
  {
    if ops != [] {
      RunFirst(d, ops, n, log);
      var (d1, out) := Step(d, ops[0]);
      PendingStep(d, ops[0], id);
      IdsBelow(d);
      IdsBelow(d1);
      hide Inv, Step, CanDo, Pending, Done, Run;
      ServedOnceAt(d1, ops[1..], n, log[|out|..], id);
      DoneAppend(out, log[|out|..], id);
    }
  }

  predicate Different(log: seq<Served>) {
    forall i, j :: 0 <= i < j < |log| ==> log[i].id != log[j].id
  }

  lemma DifferentCons(out: seq<Served>, rest: seq<Served>)
    requires Different(rest) && |out| <= 1 && (out != [] ==> !Done(rest, out[0].id))
    ensures Different(out + rest)
  {
    var log := out + rest;
    forall i, j | 0 <= i < j < |log| ensures log[i].id != log[j].id {
      assert log[j] == rest[j - |out|];
    }
  }

  // What has just been served is served no more.
  lemma NotAgain(d: Device, op: Op, ops: seq<Op>, n: Device, log: seq<Served>)
    requires Inv(d) && CanDo(d, op) && Inv(Step(d, op).0) && Run(Step(d, op).0, ops, n, log)
    ensures var out := Step(d, op).1; |out| <= 1 && (out != [] ==> !Done(log, out[0].id))
  {
    var (d1, out) := Step(d, op);
    if out != [] {
      assert Done(out, out[0].id);
      PendingStep(d, op, out[0].id);
      IdsBelow(d);
      hide Inv, Step, CanDo, Run, Pending;
      ServedOnceAt(d1, ops, n, log, out[0].id);
    }
  }

  lemma {:induction false} NoneTwice(d: Device, ops: seq<Op>, n: Device, log: seq<Served>)
    requires Inv(d) && Run(d, ops, n, log)
    ensures Different(log)
    decreases |ops|
  {
    if ops != [] {
      RunFirst(d, ops, n, log);
      hide Inv, Step, CanDo, Run, Different, Done;
      var (d1, out) := Step(d, ops[0]);
      NotAgain(d, ops[0], ops[1..], n, log[|out|..]);
      NoneTwice(d1, ops[1..], n, log[|out|..]);
      DifferentCons(out, log[|out|..]);
    }
  }

  // Conservation: along every run a request is pending or has been served, never both, and
  // nothing is served twice.
  lemma ServedOnce(d: Device, ops: seq<Op>, n: Device, log: seq<Served>)
    requires Inv(d) && Run(d, ops, n, log)
    ensures forall id: nat :: (Pending(n, id) || Done(log, id)) <==> (Pending(d, id) || d.submitted <= id < n.submitted)
    ensures forall id: nat :: !(Pending(n, id) && Done(log, id))
    ensures Different(log) && n.submitted >= d.submitted
  {
    hide Inv, Run, Pending, Done;
    forall id: nat
      ensures (Pending(n, id) || Done(log, id)) <==> (Pending(d, id) || d.submitted <= id < n.submitted)
      ensures !(Pending(n, id) && Done(log, id))
    {
      ServedOnceAt(d, ops, n, log, id);
    }
    ServedOnceAt(d, ops, n, log, 0);
    NoneTwice(d, ops, n, log);
  }

  lemma IdsBelow(d: Device)
    requires Inv(d)
    ensures forall id: nat :: Pending(d, id) ==> id < d.submitted
  {
    forall id: nat | Pending(d, id) ensures id < d.submitted {
      var i: nat :| HasId(d, i, id);
      assert IdOk(d, i);
    }
  }

  lemma DoneAppend(a: seq<Served>, b: seq<Served>, id: nat)
    ensures Done(a + b, id) <==> Done(a, id) || Done(b, id)
  {
    if Done(a, id) { var i :| 0 <= i < |a| && a[i].id == id; assert (a + b)[i].id == id; }
    if Done(b, id) { var i :| 0 <= i < |b| && b[i].id == id; assert (a + b)[|a| + i].id == id; }
  }

  // ---------- the order of service ----------

  predicate Follows(a: Served, idx: nat) {
    a.last || (if a.on.Out? then a.idx <= idx else a.idx >= idx)
  }

  predicate InSweeps(log: seq<Served>) {
    forall i :: 0 <= i < |log| - 1 ==> Follows(log[i], log[i + 1].idx)
  }

  // Whatever has just been served, the request that is active now follows it.
  ghost predicate ActiveFollows(d: Device, a: Served) {
    !a.last ==> d.list != [] && forall i: nat :: ActiveAt(d, i) ==> Follows(a, d.list[i].idx)
  }

  lemma FollowsStep(d: Device, op: Op, a: Served)
    requires Inv(d) && CanDo(d, op) && ActiveFollows(d, a) && !op.End?
    ensures ActiveFollows(Step(d, op).0, a)
  {
    var n := Step(d, op).0;
    if !a.last {
      hide Inv, Ascending;
      match op
      case New(idx, task) =>
        var p := Place(Keys(d.list), idx);
        SubmitSize(d, idx, task);
        forall i: nat | ActiveAt(n, i) ensures Follows(a, n.list[i].idx) {
          SubmitAt(d, idx, task, i);
          assert ActiveAt(d, Before(p, i));
        }
      case Begin(p) =>
        forall i: nat | ActiveAt(n, i) ensures Follows(a, n.list[i].idx) { assert ActiveAt(d, i); }
    }
  }

  lemma SubmitSize(d: Device, idx: nat, task: nat)
    ensures |Submit(d, idx, task).list| == |d.list| + 1
  {
  }

  lemma EndFollows(d: Device, p: nat)
    requires Inv(d) && CanDo(d, End(p))
    ensures NextFollows(d, p)
  {
    var (n, out) := Step(d, End(p));
    NextIsNearest(d, p);
    FinishSize(d, p);
    hide Ascending, Keys;
    forall j: nat | ActiveAt(n, j) ensures Follows(out[0], n.list[j].idx) {
      FinishAt(d, p, j);
      OthersWait(d, p, Origin(p, j));
    }
  }

  // The request made active by the end of another follows it.
  ghost predicate NextFollows(d: Device, p: nat)
    requires CanDo(d, End(p))
  {
    ActiveFollows(Step(d, End(p)).0, Step(d, End(p)).1[0])
  }

  // With arrivals at any time, the head moves outwards through served requests while the
  // direction is out and inwards while it is in, as long as there is work.
  lemma {:induction false} ServedInSweeps(d: Device, ops: seq<Op>, n: Device, log: seq<Served>, a: Option<Served>)
    requires Inv(d) && Run(d, ops, n, log) && (a.Some? ==> ActiveFollows(d, a.value))
    ensures InSweeps(log) && (a.Some? && log != [] ==> Follows(a.value, log[0].idx))
    decreases |ops|
  {
    if ops != [] {
      RunFirst(d, ops, n, log);
      var (d1, out) := Step(d, ops[0]);
      var rest := log[|out|..];
      if ops[0].End? {
        EndFollows(d, ops[0].at);
        FollowedBy(d, ops[0], a);
        assert |out| == 1;
        hide Inv, Step, CanDo, Run, InSweeps, ActiveFollows, Follows;
        ServedInSweeps(d1, ops[1..], n, rest, Some(out[0]));
        SweepsCons(out[0], rest);
        assert log == [out[0]] + rest;
      } else {
        if a.Some? { FollowsStep(d, ops[0], a.value); }
        assert out == [];
        hide Inv, Step, CanDo, Run, InSweeps, ActiveFollows, Follows;
        ServedInSweeps(d1, ops[1..], n, rest, a);
        assert log == rest;
      }
    }
  }

  // A request that comes and goes before another one does.
  function Single(idx: nat, task: nat): seq<Op> {
    [New(idx, task), End(0)]
  }

  // Across an idle moment nothing of that holds: each request that is alone turns the direction,
  // wherever it lies.
  lemma IdleTurns(d: Device, a: nat, b: nat, task: nat) returns (n: Device, log: seq<Served>)
    requires d.list == [] && a < 0x8000_0000 && b < 0x8000_0000
    ensures Run(d, Single(a, task) + Single(b, task), n, log)
    ensures |log| == 2 && log[0].idx == a && log[1].idx == b
    ensures log[0].on != d.direction && log[1].on == d.direction && n.direction == d.direction && n.list == []
  {
    var m, x := Alone(d, a, task);
    var y;
    n, y := Alone(m, b, task);
    assert Run(n, [], n, []);
    hide Run, Single, Step, CanDo;
    RunAlone(m, b, task, n, y, [], n, []);
    assert Single(b, task) + [] == Single(b, task) && [y] + [] == [y];
    RunAlone(d, a, task, m, x, Single(b, task), n, [y]);
    log := [x] + [y];
  }

  lemma RunAlone(d: Device, a: nat, task: nat, m: Device, x: Served, ops: seq<Op>, n: Device, log: seq<Served>)
    requires CanDo(d, New(a, task)) && Step(d, New(a, task)).1 == []
    requires var d1 := Step(d, New(a, task)).0; CanDo(d1, End(0)) && Step(d1, End(0)) == (m, [x])
    requires Run(m, ops, n, log)
    ensures Run(d, Single(a, task) + ops, n, [x] + log)
  {
    var d1 := Step(d, New(a, task)).0;
    assert Single(a, task) + ops == [New(a, task)] + ([End(0)] + ops);
    hide Step, CanDo, Run, Single;
    RunBefore(d1, End(0), m, [x], ops, n, log);
    RunBefore(d, New(a, task), d1, [], [End(0)] + ops, n, [x] + log);
  }

  lemma RunBefore(d: Device, op: Op, m: Device, out: seq<Served>, ops: seq<Op>, n: Device, log: seq<Served>)
    requires CanDo(d, op) && Step(d, op) == (m, out) && Run(m, ops, n, log)
    ensures Run(d, [op] + ops, n, out + log)
    ensures [op] + [] == [op] && out + [] == out && [] + log == log
  {
    var all := [op] + ops;
    assert all[0] == op && all[1..] == ops && (out + log)[..|out|] == out && (out + log)[|out|..] == log;
    hide Step, CanDo;
  }

  // A request that finds the list empty.
  lemma Alone(d: Device, a: nat, task: nat) returns (n: Device, x: Served)
    requires d.list == [] && a < 0x8000_0000
    ensures CanDo(d, New(a, task)) && Step(d, New(a, task)).1 == []
    ensures var d1 := Step(d, New(a, task)).0; CanDo(d1, End(0)) && Step(d1, End(0)) == (n, [x])
    ensures n.list == [] && n.direction != d.direction && x.idx == a && x.on == n.direction && x.last
  {
    var d1 := Step(d, New(a, task)).0;
    assert |d1.list| == 1;
    n, x := Step(d1, End(0)).0, Step(d1, End(0)).1[0];
  }

  lemma RunFirst(d: Device, ops: seq<Op>, n: Device, log: seq<Served>)
    requires Inv(d) && Run(d, ops, n, log) && ops != []
    ensures CanDo(d, ops[0]) && Inv(Step(d, ops[0]).0)
    ensures var (d1, out) := Step(d, ops[0]);
      |out| <= |log| && log == out + log[|out|..] && Run(d1, ops[1..], n, log[|out|..])
  {
    hide Inv, Step, CanDo;
    StepKeeps(d, ops[0]);
  }

  lemma SweepsCons(a: Served, rest: seq<Served>)
    requires InSweeps(rest) && (rest != [] ==> Follows(a, rest[0].idx))
    ensures InSweeps([a] + rest)
  {
    var log := [a] + rest;
    forall i | 0 <= i < |log| - 1 ensures Follows(log[i], log[i + 1].idx) {
      if i > 0 { assert log[i] == rest[i - 1] && log[i + 1] == rest[i]; }
    }
  }

  lemma FollowedBy(d: Device, op: Op, a: Option<Served>)
    requires CanDo(d, op) && op.End? && (a.Some? ==> ActiveFollows(d, a.value))
    ensures a.Some? ==> Follows(a.value, Step(d, op).1[0].idx)
  {
    assert ActiveAt(d, op.at);
  }
}
