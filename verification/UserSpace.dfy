/**
  The memory side of the user-visible operations: page faults, brk, fork and exit,
  as functions on `Mem`. None is a halt: a failed assert or a panic in the kernel.
 */
module UserSpace {
  import opened AddressSpaces
  import opened PageOps
  import opened PageSteps
  import opened Wrappers

  // free_page with its assertions.
  function FreePage(m: Mem, f: nat): Option<Mem> {
    if !(m.start <= f < |m.refs| && m.refs[f] >= 1) then None
    else
      var n := Release(m, f);
      if n.refs[f] == 0 && !(0 < n.free < |n.refs|) then None else Some(n)
  }

  function LinkPage(m: Mem, p: nat, v: nat, residue: Page): Option<Mem>
    requires p in m.spaces
  {
    match GetTable(m, p, v / PAGE_ENTRIES)
    case None => None
    case Some(m1) =>
      if Mapped(m1, p, v) then
        if v in m1.spaces[p].vmap then Some(m1) else None
      else if v in m1.spaces[p].vmap || !HasTable(m1, p, v / PAGE_ENTRIES) then None
      else match Lowest(m1.refs, m1.start)
        case None => None
        case Some(f) => Some(MapPage(m1, p, v, f, residue))
  }

  function UnlinkPage(m: Mem, p: nat, v: nat): Option<Mem>
    requires p in m.spaces
  {
    match GetTable(m, p, v / PAGE_ENTRIES)
    case None => None
    case Some(m1) =>
      if !Mapped(m1, p, v) then
        if v in m1.spaces[p].vmap then None else Some(m1)
      else if v !in m1.spaces[p].vmap then None
      else
        var e := EntryOf(m1, p, v);
        FreePage(SetEntry(SetVmap(m1, p, m1.spaces[p].vmap - {v}), p, v, e.(present := false)), e.index)
  }

  // The copy-on-write branch of page_fault_handler, with its assertions on the counter.
  function WriteFault(m: Mem, p: nat, v: nat): Option<Mem>
    requires Mapped(m, p, v)
  {
    var g := FrameOf(m, p, v);
    if g >= |m.refs| || m.refs[g] == 0 || g !in m.data then None
    else if m.refs[g] == 1 then Some(MakeWritable(m, p, v))
    else match Lowest(m.refs, m.start)
      case None => None
      case Some(f) => Some(CopyPage(m, p, v, f))
  }

  function PageFault(m: Mem, p: nat, vaddr: nat, write: bool, residue: Page): Option<Mem>
    requires p in m.spaces
  {
    var v := vaddr / PAGE_SIZE;
    if !(KERNEL_MEMORY_SIZE <= vaddr < USER_STACK_TOP) then None
    else if Mapped(m, p, v) then
      if write then WriteFault(m, p, v) else None
    else if vaddr < m.spaces[p].brk || vaddr > USER_STACK_BOTTOM then LinkPage(m, p, v, residue)
    else None
  }

  predicate Permitted(m: Mem, p: nat, v: nat, write: bool) {
    Mapped(m, p, v) && (write ==> EntryOf(m, p, v).write)
  }

  // A user access: straight through if the entry permits it, else the fault handler first.
  function Access(m: Mem, p: nat, vaddr: nat, write: bool, residue: Page): Option<Mem>
    requires p in m.spaces
  {
    if Permitted(m, p, vaddr / PAGE_SIZE, write) then Some(m) else PageFault(m, p, vaddr, write, residue)
  }

  function Store(m: Mem, p: nat, vaddr: nat, b: u8): Mem
    requires Mapped(m, p, vaddr / PAGE_SIZE) && FrameOf(m, p, vaddr / PAGE_SIZE) in m.data
  {
    var f := FrameOf(m, p, vaddr / PAGE_SIZE);
    m.(data := m.data[f := m.data[f][vaddr % PAGE_SIZE := b]])
  }

  function UnlinkRange(m: Mem, p: nat, v: nat, end: nat): Option<Mem>
    requires p in m.spaces
    decreases end - v
  {
    if v >= end then Some(m)
    else match UnlinkPage(m, p, v)
      case None => None
      case Some(m1) => if p in m1.spaces then UnlinkRange(m1, p, v + 1, end) else None
  }

  // sys_brk; the flag is false when it returns -1.
  function Brk(m: Mem, p: nat, brk: nat): Option<(Mem, bool)>
    requires p in m.spaces
  {
    var before := m.spaces[p].brk;
    if !(KERNEL_MEMORY_SIZE <= brk < USER_STACK_BOTTOM) then None
    else if before > brk then
      match UnlinkRange(m, p, brk / PAGE_SIZE, before / PAGE_SIZE)
      case None => None
      case Some(m1) => if p in m1.spaces then Some((SetBrk(m1, p, brk), true)) else None
    else if (brk - before) / PAGE_SIZE > m.free then Some((m, false))
    else Some((SetBrk(m, p, brk), true))
  }

  // copy_pgdir from table d on.
  function ForkDir(m: Mem, p: nat, c: nat, d: nat): Option<Mem>
    requires p in m.spaces && c in m.spaces
    decreases LAST_TABLE - d
  {
    if d >= LAST_TABLE then Some(m)
    else if d !in m.spaces[p].dir then ForkDir(m, p, c, d + 1)
    else if !HasTable(m, p, d) || !Room(m.refs, TableOf(m, p, d)) then None
    else match Lowest(ShareTable(m, p, d).refs, m.start)
      case None => None
      case Some(f) => ForkDir(ForkTable(m, p, c, d, f), p, c, d + 1)
  }

  function AddSpace(m: Mem, p: nat, c: nat): Mem
    requires p in m.spaces
  {
    m.(spaces := m.spaces[c := Space(map[], {}, m.spaces[p].brk)])
  }

  function Fork(m: Mem, p: nat, c: nat): Option<Mem>
    requires p in m.spaces && c !in m.spaces
  {
    match ForkDir(AddSpace(m, p, c), p, c, KERNEL_TABLES)
    case None => None
    case Some(n) => if c in n.spaces then Some(SetVmap(n, c, m.spaces[p].vmap)) else None
  }

  // free_pgdir's inner loop on table d from slot t on.
  function DropPages(m: Mem, p: nat, d: nat, t: nat): Option<Mem>
    requires p in m.spaces
    decreases PAGE_ENTRIES - t
  {
    if t >= PAGE_ENTRIES then Some(m)
    else
      var v := Vpn(d, t);
      if !Mapped(m, p, v) then DropPages(m, p, d, t + 1)
      else
        var e := EntryOf(m, p, v);
        var m1 := SetEntry(SetVmap(m, p, m.spaces[p].vmap - {v}), p, v, e.(present := false));
        match FreePage(m1, e.index)
        case None => None
        case Some(n) => if p in n.spaces then DropPages(n, p, d, t + 1) else None
  }

  function DropDir(m: Mem, p: nat, d: nat): Option<Mem>
    requires p in m.spaces
    decreases LAST_TABLE - d
  {
    if d >= LAST_TABLE then Some(m)
    else if d !in m.spaces[p].dir then DropDir(m, p, d + 1)
    else match DropPages(m, p, d, 0)
      case None => None
      case Some(m1) =>
        if !(p in m1.spaces && d in m1.spaces[p].dir) then None
        else match FreePage(m1, m1.spaces[p].dir[d])
          case None => None
          case Some(m2) =>
            var s := m1.spaces[p];
            DropDir(m2.(spaces := m1.spaces[p := s.(dir := s.dir - {d})]), p, d + 1)
  }

  // The task and its page directory go away; freed frames keep their old contents.
  function Exit(m: Mem, p: nat): Option<Mem>
    requires p in m.spaces
  {
    match DropDir(m, p, KERNEL_TABLES)
    case None => None
    case Some(n) => Some(Mem(m.start, n.refs, n.free, m.tables, m.data, m.spaces - {p}))
  }
}
