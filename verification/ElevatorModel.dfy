/**
  The request queue of a block device in src/kernel/device.c: a list sorted by sector, a head
  that moves in one direction, and the hand-over from a finished request to the next.
 */
module ElevatorModel {
  import opened Lists
  import opened Wrappers

  datatype Direction = In | Out

  // Waiting: the submitting task is blocked. Woken: it has been made ready and will go on.
  // Executing: it is inside do_dev_request.
  datatype Phase = Waiting | Woken | Executing

  datatype Request = Request(id: nat, idx: nat, task: nat, phase: Phase)

  // submitted counts the requests so far; a request's id is its number.
  datatype Device = Device(list: seq<Request>, direction: Direction, submitted: nat)

  function Keys(list: seq<Request>): (r: seq<int>)
    ensures |r| == |list| && forall i :: 0 <= i < |list| ==> r[i] == list[i].idx
  {
    seq(|list|, i requires 0 <= i < |list| => list[i].idx)
  }

  // dev_request up to task_block: only a request that finds the list empty goes on at once.
  function Submit(d: Device, idx: nat, task: nat): Device {
    var r := Request(d.submitted, idx, task, if d.list == [] then Executing else Waiting);
    d.(list := Insert(d.list, Place(Keys(d.list), idx), r), submitted := d.submitted + 1)
  }

  // The direction turns at the end of the list.
  function TurnedAt(size: nat, p: nat, direction: Direction): Direction
    requires p < size
  {
    if direction.Out? && p == size - 1 then In
    else if direction.In? && p == 0 then Out
    else direction
  }

  function Turned(d: Device, p: nat): Direction
    requires p < |d.list|
  {
    TurnedAt(|d.list|, p, d.direction)
  }

  function NextPosition(d: Device, p: nat): (r: Option<nat>)
    requires p < |d.list|
    ensures r.None? <==> |d.list| == 1
    ensures r.Some? ==> r.value < |d.list| && r.value != p
  {
    if |d.list| == 1 then None
    else if Turned(d, p).Out? then Some(p + 1)
    else Some(p - 1)
  }

  // The end of dev_request: choose the next one, leave the list, wake the next one's task.
  function Finish(d: Device, p: nat): Device
    requires p < |d.list|
  {
    var list :=
      match NextPosition(d, p)
      case None => d.list
      case Some(q) => d.list[q := d.list[q].(phase := Woken)];
    Device(RemoveAt(list, p), Turned(d, p), d.submitted)
  }

  function Start(d: Device, p: nat): Device
    requires p < |d.list|
  {
    d.(list := d.list[p := d.list[p].(phase := Executing)])
  }

  datatype Op = New(idx: nat, task: nat) | Begin(at: nat) | End(at: nat)

  // What the log keeps of a finished request: `on` is the direction the head leaves in, `last`
  // that nothing was left to do.
  datatype Served = Served(id: nat, idx: nat, on: Direction, last: bool)

  // A task with a request in the list is blocked, or busy with it, and submits no other; sector
  // numbers compare as the signed integers they are read as.
  predicate CanDo(d: Device, op: Op) {
    match op
    case New(idx, task) => idx < 0x8000_0000 && forall p :: 0 <= p < |d.list| ==> d.list[p].task != task
    case Begin(p) => p < |d.list| && d.list[p].phase.Woken?
    case End(p) => p < |d.list| && d.list[p].phase.Executing?
  }

  function Step(d: Device, op: Op): (Device, seq<Served>)
    requires CanDo(d, op)
  {
    match op
    case New(idx, task) => (Submit(d, idx, task), [])
    case Begin(p) => (Start(d, p), [])
    case End(p) => (Finish(d, p), [Served(d.list[p].id, d.list[p].idx, Turned(d, p), |d.list| == 1)])
  }

  // ---------- the invariant ----------

  predicate Active(r: Request) {
    !r.phase.Waiting?
  }

  // Two requests are different, of different tasks, and not both active.
  predicate Apart(d: Device, i: nat, j: nat) {
    i < j < |d.list| ==>
      d.list[i].id != d.list[j].id && d.list[i].task != d.list[j].task && !(Active(d.list[i]) && Active(d.list[j]))
  }

  ghost predicate ActiveAt(d: Device, i: nat) {
    i < |d.list| && Active(d.list[i])
  }

  predicate IdOk(d: Device, i: nat) {
    i < |d.list| ==> d.list[i].id < d.submitted
  }

  // The list is sorted, and exactly one request of a non-empty list is active.
  ghost predicate Inv(d: Device) {
    && Ascending(Keys(d.list)) && (forall i: nat :: IdOk(d, i)) && (forall i: nat, j: nat :: Apart(d, i, j))
    && (d.list != [] ==> exists i: nat :: ActiveAt(d, i))
  }
}
