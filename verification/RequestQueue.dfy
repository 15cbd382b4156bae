/**
  The block device's request list as the kernel updates it.
 */
module RequestQueue {
  import opened ElevatorModel
  import opened Lists
  import opened Wrappers

  class BlockDevice {
    var requestList: seq<Request>
    var direction: Direction
    var submitted: nat

    ghost function Model(): Device
      reads this
    {
      Device(requestList, direction, submitted)
    }

    // device_init; the direction starts inwards, being zero.
    constructor ()
      ensures Model() == Device([], In, 0)
    {
      requestList, direction, submitted := [], In, 0;
    }

    // list_insert_sort: walk to the first request with a sector that is not smaller.
    method InsertSorted(r: Request)
      modifies this`requestList
      ensures requestList == Insert(old(requestList), Place(Keys(old(requestList)), r.idx), r)
    {
      var n := 0;
      ghost var keys := Keys(requestList);
      while n < |requestList|
        invariant 0 <= n <= |requestList| && requestList == old(requestList)
        invariant Place(keys, r.idx) == n + Place(keys[n..], r.idx)
      {
        if requestList[n].idx >= r.idx { break; }
        n := n + 1;
      }
      requestList := Insert(requestList, n, r);
    }

    // dev_request up to where it either blocks or goes on to the device.
    method SubmitRequest(idx: nat, task: nat) returns (goesOn: bool)
      modifies this
      ensures Model() == Submit(old(Model()), idx, task) && (goesOn <==> old(requestList) == [])
    {
      goesOn := requestList == [];
      InsertSorted(Request(submitted, idx, task, if goesOn then Executing else Waiting));
      submitted := submitted + 1;
    }

    method NextRequest(p: nat) returns (next: Option<nat>)
      requires p < |requestList|
      modifies this`direction
      ensures direction == Turned(old(Model()), p) && next == NextPosition(old(Model()), p)
    {
      if direction == Out && p == |requestList| - 1 {
        direction := In;
      } else if direction == In && p == 0 {
        direction := Out;
      }
      if |requestList| == 1 { return None; }
      match direction
      case Out => return Some(p + 1);
      case In => return Some(p - 1);
    }

    // dev_request after do_dev_request: choose the next, leave the list, wake the next one's task.
    method FinishRequest(p: nat)
      requires p < |requestList|
      modifies this
      ensures Model() == Finish(old(Model()), p)
    {
      var next := NextRequest(p);
      var list := requestList;
      if next.Some? {
        list := list[next.value := list[next.value].(phase := Woken)];
      }
      requestList := RemoveAt(list, p);
    }
  }
}
