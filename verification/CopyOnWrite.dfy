/**
  Copy-on-write refines "fork copies everything": over every run of loads, stores, forks,
  brk calls and exits, each task sees exactly what it would see if every task owned
  its own copy of every page.
 */
module CopyOnWrite {
  import opened AddressSpaces
  import opened PageOps
  import opened PageLemmas
  import opened PageSteps
  import opened UserSpace
  import opened FaultProofs
  import opened BrkProofs
  import opened ForkProofs
  import opened ExitProofs
  import opened Wrappers

  // ---------- the simple machine: every task owns its pages ----------

  datatype Private = Private(pages: map<nat, Page>, brk: nat)

  type Deep = map<nat, Private>

  // What tasks do. `residue` is what a frame holds when it is first mapped: the kernel does
  // not clear it, so both machines take it as an input.
  datatype Op =
    | Enter(pid: nat)
    | Load(pid: nat, vaddr: nat, residue: Page)
    | Store(pid: nat, vaddr: nat, byte: u8, residue: Page)
    | Fork(pid: nat, child: nat)
    | SetBrk(pid: nat, brk: nat)
    | Exit(pid: nat)

  datatype Out = Byte(b: u8) | Done | Refused

  predicate Allowed(pids: set<nat>, op: Op) {
    match op
    case Enter(p) => p !in pids && |pids| < NUM_TASKS
    case Load(p, _, _) => p in pids
    case Store(p, _, _, _) => p in pids
    case Fork(p, c) => p in pids && c !in pids && |pids| < NUM_TASKS
    case SetBrk(p, brk) => p in pids && brk % PAGE_SIZE == 0
    case Exit(p) => p in pids
  }

  function Touch(s: Private, v: nat, residue: Page): (r: Private)
    ensures v in r.pages
  {
    if v in s.pages then s else s.(pages := s.pages[v := residue])
  }

  function Poke(s: Private, vaddr: nat, b: u8): Private
    requires vaddr / PAGE_SIZE in s.pages
  {
    var page: Page := s.pages[vaddr / PAGE_SIZE][vaddr % PAGE_SIZE := b];
    s.(pages := s.pages[vaddr / PAGE_SIZE := page])
  }

  function Trim(s: Private, brk: nat): Private {
    Private(map v | v in s.pages && !(brk <= v * PAGE_SIZE < s.brk) :: s.pages[v], brk)
  }

  function DeepStep(d: Deep, op: Op, refused: bool): (Deep, Out)
    requires Allowed(d.Keys, op)
  {
    match op
    case Enter(p) => (d[p := Private(map[], KERNEL_MEMORY_SIZE)], Done)
    case Load(p, vaddr, residue) =>
      var s := Touch(d[p], vaddr / PAGE_SIZE, residue);
      (d[p := s], Byte(s.pages[vaddr / PAGE_SIZE][vaddr % PAGE_SIZE]))
    case Store(p, vaddr, b, residue) =>
      (d[p := Poke(Touch(d[p], vaddr / PAGE_SIZE, residue), vaddr, b)], Done)
    case Fork(p, c) => (d[c := d[p]], Done)
    case SetBrk(p, brk) =>
      if refused then (d, Refused) else (d[p := Trim(d[p], brk)], Done)
    case Exit(p) => (d - {p}, Done)
  }

  function DeepRun(d: Deep, ops: seq<Op>, refusals: seq<bool>): Option<(Deep, seq<Out>)>
    requires |ops| == |refusals|
    decreases |ops|
  {
    if ops == [] then Some((d, []))
    else if !Allowed(d.Keys, ops[0]) then None
    else
      var (d1, out) := DeepStep(d, ops[0], refusals[0]);
      match DeepRun(d1, ops[1..], refusals[1..])
      case None => None
      case Some((d2, outs)) => Some((d2, [out] + outs))
  }

  // ---------- the kernel ----------

  function Enter(m: Mem, p: nat): Mem {
    m.(spaces := m.spaces[p := Space(map[], {}, KERNEL_MEMORY_SIZE)])
  }

  function LoadByte(m: Mem, p: nat, vaddr: nat): u8 {
    match Reads(m, p, vaddr / PAGE_SIZE)
    case None => 0
    case Some(page) => page[vaddr % PAGE_SIZE]
  }

  // One operation of the kernel; None when it halts.
  function Step(m: Mem, op: Op): Option<(Mem, Out)>
    requires Allowed(m.spaces.Keys, op)
  {
    match op
    case Enter(p) => Some((Enter(m, p), Done))
    case Load(p, vaddr, residue) =>
      (match Access(m, p, vaddr, false, residue)
       case None => None
       case Some(n) => Some((n, Byte(LoadByte(n, p, vaddr)))))
    case Store(p, vaddr, b, residue) =>
      (match Access(m, p, vaddr, true, residue)
       case None => None
       case Some(n) =>
         if Mapped(n, p, vaddr / PAGE_SIZE) && FrameOf(n, p, vaddr / PAGE_SIZE) in n.data
         then Some((UserSpace.Store(n, p, vaddr, b), Done)) else None)
    case Fork(p, c) =>
      (match UserSpace.Fork(m, p, c)
       case None => None
       case Some(n) => Some((n, Done)))
    case SetBrk(p, brk) =>
      (match UserSpace.Brk(m, p, brk)
       case None => None
       case Some((n, ok)) => Some((n, if ok then Done else Refused)))
    case Exit(p) =>
      (match UserSpace.Exit(m, p)
       case None => None
       case Some(n) => Some((n, Done)))
  }

  function Run(m: Mem, ops: seq<Op>): Option<(Mem, seq<Out>)>
    decreases |ops|
  {
    if ops == [] then Some((m, []))
    else if !Allowed(m.spaces.Keys, ops[0]) then None
    else match Step(m, ops[0])
      case None => None
      case Some((m1, out)) =>
        match Run(m1, ops[1..])
        case None => None
        case Some((m2, outs)) => Some((m2, [out] + outs))
  }

  // ---------- refinement ----------

  function Lookup(d: Deep, p: nat, v: nat): Option<Page> {
    if p in d && v in d[p].pages then Some(d[p].pages[v]) else None
  }

  ghost predicate Agrees(m: Mem, d: Deep) {
    && m.spaces.Keys == d.Keys
    && (forall p :: p in d ==> m.spaces[p].brk == d[p].brk)
    && (forall p: nat, v: nat :: Reads(m, p, v) == Lookup(d, p, v))
  }

  function Refusals(outs: seq<Out>): (r: seq<bool>)
    ensures |r| == |outs| && forall i :: 0 <= i < |outs| ==> r[i] == outs[i].Refused?
  {
    seq(|outs|, i requires 0 <= i < |outs| => outs[i].Refused?)
  }

  lemma EnterCore(m: Mem, p: nat)
    requires Inv(m) && p !in m.spaces && |m.spaces| < NUM_TASKS
    ensures Core(Enter(m, p)) && forall q: nat, v: nat :: SameEntry(m, Enter(m, p), q, v)
  {
    var n := Enter(m, p);
    forall q: nat, v: nat ensures SameEntry(m, n, q, v) {}
    forall r, g: nat ensures Names(n, r, g) <==> Names(m, r, g) {
      if r.AtPage? { assert SameEntry(m, n, r.pid, r.page); }
    }
    forall g | KERNEL_PAGES <= g < |n.refs| ensures Counted(n, g) {
      assert Counted(m, g) && Refs(n, g) == Refs(m, g);
    }
    assert FreeFrames(n) == FreeFrames(m);
    forall q: nat, v: nat ensures SoloAt(n, q, v) && LegalAt(n, q, v) {
      assert SoloAt(m, q, v) && LegalAt(m, q, v) && SameEntry(m, n, q, v);
    }
  }

  lemma EnterStep(m: Mem, p: nat)
    requires Inv(m) && p !in m.spaces && |m.spaces| < NUM_TASKS
    ensures Inv(Enter(m, p)) && forall q: nat, v: nat :: Reads(Enter(m, p), q, v) == Reads(m, q, v)
  {
    hide Core;
    var n := Enter(m, p);
    EnterCore(m, p);
    forall q | q in n.spaces ensures VmapAgrees(n, q) {
      if q != p { assert VmapAgrees(m, q); }
      forall v: nat ensures v in n.spaces[q].vmap <==> Mapped(n, q, v) { assert SameEntry(m, n, q, v); }
    }
    forall q: nat, v: nat ensures Reads(n, q, v) == Reads(m, q, v) { assert SameEntry(m, n, q, v); }
  }

  // The states agree and the operation gives the result the simple machine gives.
  ghost predicate Simulates(d: Deep, op: Op, n: Mem, out: Out) {
    Allowed(d.Keys, op) &&
    var (d1, expected) := DeepStep(d, op, out.Refused?);
    Inv(n) && Agrees(n, d1) && expected == out
  }

  lemma EnterRefines(m: Mem, d: Deep, p: nat)
    requires Inv(m) && Agrees(m, d) && Allowed(m.spaces.Keys, Op.Enter(p))
    ensures Inv(Enter(m, p)) && Agrees(Enter(m, p), d[p := Private(map[], KERNEL_MEMORY_SIZE)])
  {
    hide Inv;
    EnterStep(m, p);
    forall v: nat ensures Reads(m, p, v) == None {}
  }

  lemma LoadRefines(m: Mem, d: Deep, p: nat, vaddr: nat, residue: Page, n: Mem)
    requires Inv(m) && Agrees(m, d) && p in m.spaces
    requires Access(m, p, vaddr, false, residue) == Some(n)
    ensures Inv(n) && Agrees(n, d[p := Touch(d[p], vaddr / PAGE_SIZE, residue)])
    ensures LoadByte(n, p, vaddr) == Touch(d[p], vaddr / PAGE_SIZE, residue).pages[vaddr / PAGE_SIZE][vaddr % PAGE_SIZE]
  {
    hide Inv, Access, Mapped, Reads;
    AccessStep(m, p, vaddr, false, residue);
    TouchAgrees(m, n, d, p, vaddr / PAGE_SIZE, residue);
    assert Reads(n, p, vaddr / PAGE_SIZE)
        == Lookup(d[p := Touch(d[p], vaddr / PAGE_SIZE, residue)], p, vaddr / PAGE_SIZE);
  }

  lemma TouchAgrees(m: Mem, n: Mem, d: Deep, p: nat, v: nat, residue: Page)
    requires Inv(m) && Agrees(m, d) && p in m.spaces && SameLimits(m, n) && ReadsBut(m, n, p, v)
    requires Reads(n, p, v) == if Mapped(m, p, v) then Reads(m, p, v) else Some(residue)
    ensures Agrees(n, d[p := Touch(d[p], v, residue)])
  {
    hide Inv, Mapped, Reads;
    ReadsMapped(m, p, v);
    var d1 := d[p := Touch(d[p], v, residue)];
    forall q: nat, w: nat ensures Reads(n, q, w) == Lookup(d1, q, w) {
      assert Reads(m, q, w) == Lookup(d, q, w);
      if (q, w) != (p, v) { assert Reads(n, q, w) == Reads(m, q, w); }
    }
  }

  lemma PokeAgrees(m: Mem, n: Mem, d: Deep, p: nat, vaddr: nat, b: u8)
    requires Agrees(m, d) && p in m.spaces && SameLimits(m, n) && ReadsBut(m, n, p, vaddr / PAGE_SIZE)
    requires Reads(m, p, vaddr / PAGE_SIZE).Some?
    requires Reads(n, p, vaddr / PAGE_SIZE) == Some(Reads(m, p, vaddr / PAGE_SIZE).value[vaddr % PAGE_SIZE := b])
    ensures vaddr / PAGE_SIZE in d[p].pages && Agrees(n, d[p := Poke(d[p], vaddr, b)])
  {
    hide Mapped, Reads;
    var v := vaddr / PAGE_SIZE;
    assert Reads(m, p, v) == Lookup(d, p, v);
    var d1 := d[p := Poke(d[p], vaddr, b)];
    forall q: nat, w: nat ensures Reads(n, q, w) == Lookup(d1, q, w) {
      assert Reads(m, q, w) == Lookup(d, q, w);
      if (q, w) != (p, v) { assert Reads(n, q, w) == Reads(m, q, w); }
    }
  }

  lemma StoreRefines(m: Mem, d: Deep, p: nat, vaddr: nat, b: u8, residue: Page, n: Mem)
    requires Inv(m) && Agrees(m, d) && p in m.spaces
    requires Access(m, p, vaddr, true, residue) == Some(n)
    ensures Mapped(n, p, vaddr / PAGE_SIZE) && FrameOf(n, p, vaddr / PAGE_SIZE) in n.data
    ensures Inv(UserSpace.Store(n, p, vaddr, b))
    ensures Agrees(UserSpace.Store(n, p, vaddr, b), d[p := Poke(Touch(d[p], vaddr / PAGE_SIZE, residue), vaddr, b)])
  {
    hide Inv, Access, Agrees, UserSpace.Store;
    var v := vaddr / PAGE_SIZE;
    assert p in d by { AgreesKeys(m, d); }
    AccessStep(m, p, vaddr, true, residue);
    TouchAgrees(m, n, d, p, v, residue);
    StoreStep(n, p, vaddr, b);
    ReadsMapped(n, p, v);
    PokeAgrees(n, UserSpace.Store(n, p, vaddr, b), d[p := Touch(d[p], v, residue)], p, vaddr, b);
    assert d[p := Touch(d[p], v, residue)][p := Poke(Touch(d[p], v, residue), vaddr, b)]
        == d[p := Poke(Touch(d[p], v, residue), vaddr, b)];
  }

  lemma AgreesKeys(m: Mem, d: Deep)
    requires Agrees(m, d)
    ensures m.spaces.Keys == d.Keys
  {
  }

  lemma ForkRefines(m: Mem, d: Deep, p: nat, c: nat, n: Mem)
    requires Inv(m) && Agrees(m, d) && Allowed(m.spaces.Keys, Op.Fork(p, c))
    requires UserSpace.Fork(m, p, c) == Some(n)
    ensures Inv(n) && Agrees(n, d[c := d[p]])
  {
    hide Inv, Agrees, Cloned, UserSpace.Fork;
    AgreesKeys(m, d);
    ForkStep(m, p, c);
    ForkAgrees(m, n, d, p, c);
  }

  lemma ForkAgrees(m: Mem, n: Mem, d: Deep, p: nat, c: nat)
    requires Agrees(m, d) && p in m.spaces && p in d && Cloned(m, n, p, c)
    ensures Agrees(n, d[c := d[p]])
  {
    hide Reads;
    var d1 := d[c := d[p]];
    forall q: nat, w: nat ensures Reads(n, q, w) == Lookup(d1, q, w) {
      var o := if q == c then p else q;
      assert Reads(n, q, w) == Reads(m, o, w) && Reads(m, o, w) == Lookup(d, o, w);
    }
  }

  lemma BrkRefines(m: Mem, d: Deep, p: nat, brk: nat, n: Mem, ok: bool)
    requires Inv(m) && Agrees(m, d) && p in m.spaces && brk % PAGE_SIZE == 0
    requires Brk(m, p, brk) == Some((n, ok))
    ensures Inv(n) && Agrees(n, if ok then d[p := Trim(d[p], brk)] else d)
  {
    hide Inv, Reads, Brk;
    BrkStep(m, p, brk);
    if ok {
      var d1 := d[p := Trim(d[p], brk)];
      forall q: nat, w: nat ensures Reads(n, q, w) == Lookup(d1, q, w) {
        assert Reads(m, q, w) == Lookup(d, q, w);
      }
    }
  }

  lemma ExitRefines(m: Mem, d: Deep, p: nat, n: Mem)
    requires Inv(m) && Agrees(m, d) && p in m.spaces && UserSpace.Exit(m, p) == Some(n)
    ensures Inv(n) && Agrees(n, d - {p})
  {
    hide Inv, Reads, UserSpace.Exit;
    ExitStep(m, p);
    var d1 := d - {p};
    forall q: nat, w: nat ensures Reads(n, q, w) == Lookup(d1, q, w) {
      assert Reads(m, q, w) == Lookup(d, q, w);
    }
  }

  // Every operation the kernel completes is the simple machine's operation, with the same result.
  lemma StepRefines(m: Mem, d: Deep, op: Op, n: Mem, out: Out)
    requires Inv(m) && Agrees(m, d) && Allowed(m.spaces.Keys, op) && Step(m, op) == Some((n, out))
    ensures Simulates(d, op, n, out)
  {
    hide Inv, Agrees, Access, Brk, UserSpace.Fork, UserSpace.Exit, UserSpace.Store, LoadByte, Touch, Poke, Trim;
    AgreesKeys(m, d);
    match op
    case Enter(p) => EnterRefines(m, d, p);
    case Load(p, vaddr, residue) => LoadRefines(m, d, p, vaddr, residue, n);
    case Store(p, vaddr, b, residue) =>
      StoreRefines(m, d, p, vaddr, b, residue, Access(m, p, vaddr, true, residue).value);
    case Fork(p, c) => ForkRefines(m, d, p, c, n);
    case SetBrk(p, brk) => BrkRefines(m, d, p, brk, n, Brk(m, p, brk).value.1);
    case Exit(p) => ExitRefines(m, d, p, n);
  }

  lemma RunHead(m: Mem, ops: seq<Op>, n: Mem, outs: seq<Out>)
    requires ops != [] && Run(m, ops) == Some((n, outs))
    ensures outs != [] && Allowed(m.spaces.Keys, ops[0]) && Step(m, ops[0]).Some?
    ensures Step(m, ops[0]).value.1 == outs[0]
    ensures Run(Step(m, ops[0]).value.0, ops[1..]) == Some((n, outs[1..]))
  {
    hide Step;
  }

  lemma DeepHead(d: Deep, ops: seq<Op>, outs: seq<Out>)
    requires |ops| == |outs| && ops != [] && Allowed(d.Keys, ops[0])
    requires DeepStep(d, ops[0], outs[0].Refused?).1 == outs[0]
    requires DeepRun(DeepStep(d, ops[0], outs[0].Refused?).0, ops[1..], Refusals(outs[1..])).Some?
    requires DeepRun(DeepStep(d, ops[0], outs[0].Refused?).0, ops[1..], Refusals(outs[1..])).value.1 == outs[1..]
    ensures DeepRun(d, ops, Refusals(outs)).Some?
    ensures DeepRun(d, ops, Refusals(outs)).value.1 == outs
    ensures DeepRun(d, ops, Refusals(outs)).value.0 ==
      DeepRun(DeepStep(d, ops[0], outs[0].Refused?).0, ops[1..], Refusals(outs[1..])).value.0
  {
    hide DeepStep;
    assert Refusals(outs)[1..] == Refusals(outs[1..]);
    assert [outs[0]] + outs[1..] == outs;
  }

  // The refinement theorem.
  lemma {:induction false} CopyOnWriteIsDeepCopy(m: Mem, d: Deep, ops: seq<Op>, n: Mem, outs: seq<Out>)
    requires Inv(m) && Agrees(m, d) && Run(m, ops) == Some((n, outs))
    ensures |outs| == |ops| && Inv(n)
    ensures DeepRun(d, ops, Refusals(outs)).Some?
    ensures Agrees(n, DeepRun(d, ops, Refusals(outs)).value.0)
    ensures DeepRun(d, ops, Refusals(outs)).value.1 == outs
    decreases |ops|
  {
    hide Inv, Step, DeepStep, Agrees;
    if ops != [] {
      RunHead(m, ops, n, outs);
      var (m1, out) := Step(m, ops[0]).value;
      StepRefines(m, d, ops[0], m1, out);
      var d1 := DeepStep(d, ops[0], out.Refused?).0;
      CopyOnWriteIsDeepCopy(m1, d1, ops[1..], n, outs[1..]);
      DeepHead(d, ops, outs);
    }
  }

  // What the other tasks do never changes what a task reads.
  lemma {:induction false} Isolation(m: Mem, ops: seq<Op>, n: Mem, outs: seq<Out>, q: nat, v: nat)
    requires Inv(m) && Run(m, ops) == Some((n, outs)) && q in m.spaces
    requires forall i :: 0 <= i < |ops| ==> ops[i].pid != q
    ensures q in n.spaces && Reads(n, q, v) == Reads(m, q, v)
    decreases |ops|
  {
    hide Inv, Step, Reads;
    if ops != [] {
      RunHead(m, ops, n, outs);
      var (m1, out) := Step(m, ops[0]).value;
      StepOther(m, ops[0], m1, out, q, v);
      Isolation(m1, ops[1..], n, outs[1..], q, v);
    }
  }

  lemma StepOther(m: Mem, op: Op, n: Mem, out: Out, q: nat, v: nat)
    requires Inv(m) && Allowed(m.spaces.Keys, op) && Step(m, op) == Some((n, out))
    requires q in m.spaces && op.pid != q
    ensures Inv(n) && q in n.spaces && Reads(n, q, v) == Reads(m, q, v)
  {
    hide Inv, Step, Reads;
    var d := Flatten(m);
    FlattenAgrees(m);
    StepRefines(m, d, op, n, out);
    assert Reads(m, q, v) == Lookup(d, q, v);
    var d1 := DeepStep(d, op, out.Refused?).0;
    assert q in d && d1[q] == d[q] by { hide Flatten; DeepOther(d, op, out.Refused?, q); }
    assert Reads(n, q, v) == Lookup(d1, q, v);
  }

  lemma DeepOther(d: Deep, op: Op, refused: bool, q: nat)
    requires Allowed(d.Keys, op) && q in d && op.pid != q
    ensures q in DeepStep(d, op, refused).0 && DeepStep(d, op, refused).0[q] == d[q]
  {
  }

  // The simple machine's state that a kernel state stands for.
  ghost function Flatten(m: Mem): Deep {
    map p | p in m.spaces ::
      Private(map v | 0 <= v < VIRTUAL_PAGES && Reads(m, p, v).Some? :: Reads(m, p, v).value, m.spaces[p].brk)
  }

  lemma FlattenAgrees(m: Mem)
    requires Inv(m)
    ensures Agrees(m, Flatten(m))
  {
    forall p: nat, v: nat ensures Reads(m, p, v) == Lookup(Flatten(m), p, v) {
      if Mapped(m, p, v) { assert LegalAt(m, p, v); }
    }
  }

  // ---------- the first state ----------

  // After memory_map_init and kernel_map_init: the kernel's frames are in use, the rest are free.
  function Boot(start: nat, total: nat): Mem
    requires start <= KERNEL_PAGES <= total
  {
    Mem(start, seq(total, i => if 0 <= i < KERNEL_PAGES then 1 else 0), total - KERNEL_PAGES, map[], map[], map[])
  }

  lemma BootInv(start: nat, total: nat)
    requires start <= KERNEL_PAGES <= total
    ensures Inv(Boot(start, total)) && Agrees(Boot(start, total), map[])
  {
    var m := Boot(start, total);
    assert forall r, f: nat :: !Names(m, r, f);
    forall f | KERNEL_PAGES <= f < |m.refs| ensures Counted(m, f) { assert Refs(m, f) == {}; }
    assert FreeFrames(m) == Interval(KERNEL_PAGES, total);
    forall p: nat, v: nat ensures SoloAt(m, p, v) && LegalAt(m, p, v) {}
  }

  // Frame accounting in every state that a run from start-up reaches: a counter is the number of
  // table and directory entries that name the frame, and at most the number of tasks; a writable
  // page's frame is named once; the free counter is the number of zero counters; a bit of a
  // task's bitmap is set exactly for its mapped pages, and these lie in its heap or stack.
  lemma FrameAccounting(start: nat, total: nat, ops: seq<Op>, n: Mem, outs: seq<Out>)
    requires start <= KERNEL_PAGES <= total && Run(Boot(start, total), ops) == Some((n, outs))
    ensures forall f :: KERNEL_PAGES <= f < |n.refs| ==> n.refs[f] as int == |Refs(n, f)| <= NUM_TASKS
    ensures forall p: nat, v: nat :: Mapped(n, p, v) && EntryOf(n, p, v).write ==>
      FrameOf(n, p, v) < |n.refs| && n.refs[FrameOf(n, p, v)] == 1
    ensures n.free == |FreeFrames(n)|
    ensures forall p, v: nat :: p in n.spaces ==> (v in n.spaces[p].vmap <==> Mapped(n, p, v))
    ensures forall p: nat, v: nat :: Mapped(n, p, v) ==> LegalPage(v, n.spaces[p].brk)
  {
    BootInv(start, total);
    CopyOnWriteIsDeepCopy(Boot(start, total), map[], ops, n, outs);
    hide Boot, Run, Refs, FreeFrames, LegalPage;
    forall f | KERNEL_PAGES <= f < |n.refs| ensures n.refs[f] as int == |Refs(n, f)| <= NUM_TASKS {
      assert Counted(n, f);
      CountBounded(n, f);
    }
    forall p: nat, v: nat | Mapped(n, p, v)
      ensures LegalPage(v, n.spaces[p].brk)
      ensures EntryOf(n, p, v).write ==> FrameOf(n, p, v) < |n.refs| && n.refs[FrameOf(n, p, v)] == 1
    {
      assert LegalAt(n, p, v) && SoloAt(n, p, v);
    }
    forall p, v: nat | p in n.spaces ensures v in n.spaces[p].vmap <==> Mapped(n, p, v) { assert VmapAgrees(n, p); }
  }

  // ---------- a shrink that halts ----------

  // Two tasks grow their heaps by a page, and the second one touches its page.
  function Squeeze(residue: Page): seq<Op> {
    var limit := KERNEL_MEMORY_SIZE + PAGE_SIZE;
    [Op.Enter(0), Op.SetBrk(0, limit), Op.Enter(1), Op.SetBrk(1, limit), Op.Load(1, KERNEL_MEMORY_SIZE, residue)]
  }

  // The state before the touch, on a machine with two free frames.
  function Grown(start: nat): Mem
    requires start <= KERNEL_PAGES
  {
    var s := Space(map[], {}, KERNEL_MEMORY_SIZE + PAGE_SIZE);
    Boot(start, KERNEL_PAGES + 2).(spaces := map[0 := s, 1 := s])
  }

  lemma RunCons(m: Mem, op: Op, rest: seq<Op>)
    requires Allowed(m.spaces.Keys, op) && Step(m, op).Some?
    ensures Run(m, [op] + rest).Some? <==> Run(Step(m, op).value.0, rest).Some?
    ensures Run(m, [op] + rest).Some? ==> Run(m, [op] + rest).value.0 == Run(Step(m, op).value.0, rest).value.0
  {
    hide Step;
    assert ([op] + rest)[1..] == rest;
  }

  lemma GrowsTo(start: nat, m: Mem, residue: Page, ops: seq<Op>)
    requires start <= KERNEL_PAGES && m == Boot(start, KERNEL_PAGES + 2)
    ensures Run(m, Squeeze(residue)[..4] + ops).Some? <==> Run(Grown(start), ops).Some?
    ensures Run(Grown(start), ops).Some? ==>
      Run(m, Squeeze(residue)[..4] + ops).value.0 == Run(Grown(start), ops).value.0
  {
    var limit := KERNEL_MEMORY_SIZE + PAGE_SIZE;
    var m1 := Enter(m, 0);
    var m2 := PageOps.SetBrk(m1, 0, limit);
    var m3 := Enter(m2, 1);
    var m4 := PageOps.SetBrk(m3, 1, limit);
    assert m4 == Grown(start);
    assert Step(m, Op.Enter(0)) == Some((m1, Done));
    assert Step(m1, Op.SetBrk(0, limit)) == Some((m2, Done));
    assert Step(m2, Op.Enter(1)) == Some((m3, Done));
    assert Step(m3, Op.SetBrk(1, limit)) == Some((m4, Done));
    hide Step, Run, Boot, Grown;
    RunCons(m3, Op.SetBrk(1, limit), ops);
    RunCons(m2, Op.Enter(1), [Op.SetBrk(1, limit)] + ops);
    RunCons(m1, Op.SetBrk(0, limit), [Op.Enter(1)] + ([Op.SetBrk(1, limit)] + ops));
    RunCons(m, Op.Enter(0), [Op.SetBrk(0, limit)] + ([Op.Enter(1)] + ([Op.SetBrk(1, limit)] + ops)));
    assert Squeeze(residue)[..4] + ops
        == [Op.Enter(0)] + ([Op.SetBrk(0, limit)] + ([Op.Enter(1)] + ([Op.SetBrk(1, limit)] + ops)));
  }

  lemma LowestIs(refs: seq<u8>, i: nat, f: nat)
    requires i <= f < |refs| && refs[f] == 0 && forall j :: i <= j < f ==> refs[j] != 0
    ensures Lowest(refs, i) == Some(f)
  {
  }

  // The touch takes both free frames: one for the page table, one for the page.
  lemma TouchTakesBoth(start: nat, residue: Page)
    requires start <= KERNEL_PAGES
    ensures var r := Access(Grown(start), 1, KERNEL_MEMORY_SIZE, false, residue);
      && r.Some? && Mapped(r.value, 1, KERNEL_PAGES)
      && r.value.start == start && |r.value.refs| == KERNEL_PAGES + 2
      && (forall f :: 0 <= f < KERNEL_PAGES + 2 ==> r.value.refs[f] == 1)
      && 0 in r.value.spaces && r.value.spaces[0] == Space(map[], {}, KERNEL_MEMORY_SIZE + PAGE_SIZE)
  {
    var m := Grown(start);
    LowestIs(m.refs, start, KERNEL_PAGES);
    var m1 := NewTable(m, 1, KERNEL_TABLES, KERNEL_PAGES, EmptyTable());
    assert GetTable(m, 1, KERNEL_TABLES) == Some(m1);
    LowestIs(m1.refs, start, KERNEL_PAGES + 1);
    assert !Mapped(m1, 1, KERNEL_PAGES) && HasTable(m1, 1, KERNEL_TABLES);
    assert LinkPage(m, 1, KERNEL_PAGES, residue) == Some(MapPage(m1, 1, KERNEL_PAGES, KERNEL_PAGES + 1, residue));
  }

  // A run from start-up after which a legal shrink halts: the heap page was never touched, so the
  // page table of it that unlink_page asks for has to be created, and no frame is free.
  lemma ShrinkCanHalt(start: nat, residue: Page)
    requires start <= KERNEL_PAGES
    ensures Run(Boot(start, KERNEL_PAGES + 2), Squeeze(residue)).Some?
    ensures ShrinkHalts(Run(Boot(start, KERNEL_PAGES + 2), Squeeze(residue)).value.0, 0, KERNEL_MEMORY_SIZE)
  {
    var m, load := Grown(start), Op.Load(1, KERNEL_MEMORY_SIZE, residue);
    TouchTakesBoth(start, residue);
    var n := Access(m, 1, KERNEL_MEMORY_SIZE, false, residue).value;
    assert m.spaces.Keys == {0, 1};
    assert Step(m, load).Some? && Step(m, load).value.0 == n by { hide Access, Grown, LoadByte; }
    NoFrameNoShrink(n);
    hide Step, Access, Boot, Grown, ShrinkHalts;
    RunCons(m, load, []);
    GrowsTo(start, Boot(start, KERNEL_PAGES + 2), residue, [load]);
    assert [load] + [] == [load] && Squeeze(residue) == Squeeze(residue)[..4] + [load];
  }

  // The limit is legal and below the present one, and brk halts.
  predicate ShrinkHalts(m: Mem, p: nat, brk: nat) {
    p in m.spaces && KERNEL_MEMORY_SIZE <= brk < m.spaces[p].brk && brk % PAGE_SIZE == 0 && Brk(m, p, brk).None?
  }

  lemma NoFrameNoShrink(m: Mem)
    requires 0 in m.spaces && m.spaces[0] == Space(map[], {}, KERNEL_MEMORY_SIZE + PAGE_SIZE)
    requires m.start <= |m.refs| && forall f :: 0 <= f < |m.refs| ==> m.refs[f] == 1
    ensures ShrinkHalts(m, 0, KERNEL_MEMORY_SIZE)
  {
    assert Lowest(m.refs, m.start) == None;
    assert GetTable(m, 0, KERNEL_TABLES) == None;
    assert UnlinkPage(m, 0, KERNEL_PAGES) == None;
    assert UnlinkRange(m, 0, KERNEL_PAGES, KERNEL_PAGES + 1) == None;
  }
}
