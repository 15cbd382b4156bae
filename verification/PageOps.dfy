/**
  What the memory manager's operations do to the frame table and the page tables,
  as functions on `Mem`. None is a kernel panic (out of memory or a failed assert).
 */
module PageOps {
  import opened AddressSpaces
  import opened Wrappers

  // The first free frame at or after i: the scan of alloc_page.
  function Lowest(refs: seq<u8>, i: nat): (f: Option<nat>)
    ensures f.Some? ==> i <= f.value < |refs| && refs[f.value] == 0
    ensures f.Some? ==> forall j :: i <= j < f.value ==> refs[j] != 0
    ensures f.None? ==> forall j :: i <= j < |refs| ==> refs[j] != 0
    decreases |refs| - i
  {
    if i >= |refs| then None else if refs[i] == 0 then Some(i) else Lowest(refs, i + 1)
  }

  function Alloc(m: Mem, f: nat): Mem
    requires f < |m.refs|
  {
    m.(refs := m.refs[f := 1], free := m.free - 1)
  }

  function Release(m: Mem, f: nat): Mem
    requires f < |m.refs| && m.refs[f] >= 1
  {
    m.(refs := m.refs[f := m.refs[f] - 1], free := if m.refs[f] == 1 then m.free + 1 else m.free)
  }

  function SetEntry(m: Mem, p: nat, v: nat, e: Entry): Mem
    requires HasTable(m, p, v / PAGE_ENTRIES)
  {
    var f := m.spaces[p].dir[v / PAGE_ENTRIES];
    m.(tables := m.tables[f := m.tables[f][v % PAGE_ENTRIES := e]])
  }

  function SetVmap(m: Mem, p: nat, vmap: set<nat>): Mem
    requires p in m.spaces
  {
    m.(spaces := m.spaces[p := m.spaces[p].(vmap := vmap)])
  }

  function SetBrk(m: Mem, p: nat, brk: nat): Mem
    requires p in m.spaces
  {
    m.(spaces := m.spaces[p := m.spaces[p].(brk := brk)])
  }

  function NewTable(m: Mem, p: nat, d: nat, f: nat, t: Table): Mem
    requires p in m.spaces && f < |m.refs|
  {
    var s := m.spaces[p];
    Alloc(m, f).(tables := m.tables[f := t], spaces := m.spaces[p := s.(dir := s.dir[d := f])])
  }

  // get_pte with `create`: the table is there, or a frame becomes an empty table.
  function GetTable(m: Mem, p: nat, d: nat): Option<Mem>
    requires p in m.spaces
  {
    if d in m.spaces[p].dir then Some(m)
    else match Lowest(m.refs, m.start)
      case None => None
      case Some(f) => Some(NewTable(m, p, d, f, EmptyTable()))
  }

  // Map page v to frame f, whose contents are whatever the frame held.
  function MapPage(m: Mem, p: nat, v: nat, f: nat, residue: Page): Mem
    requires HasTable(m, p, v / PAGE_ENTRIES) && f < |m.refs|
  {
    var m1 := SetVmap(m, p, m.spaces[p].vmap + {v});
    SetEntry(Alloc(m1, f).(data := m.data[f := residue]), p, v, Entry(true, true, f))
  }

  function UnmapPage(m: Mem, p: nat, v: nat): Mem
    requires Mapped(m, p, v) && FrameOf(m, p, v) < |m.refs| && m.refs[FrameOf(m, p, v)] >= 1
  {
    var e := EntryOf(m, p, v);
    Release(SetEntry(SetVmap(m, p, m.spaces[p].vmap - {v}), p, v, e.(present := false)), e.index)
  }

  // A copy-on-write fault on page v: copy_page, then the entry points at the copy.
  function CopyPage(m: Mem, p: nat, v: nat, f: nat): Mem
    requires Mapped(m, p, v) && f < |m.refs|
    requires FrameOf(m, p, v) < |m.refs| && FrameOf(m, p, v) in m.data && m.refs[FrameOf(m, p, v)] >= 1
  {
    var g := FrameOf(m, p, v);
    var m1 := SetEntry(Alloc(m, f).(data := m.data[f := m.data[g]]), p, v, Entry(true, true, f));
    m1.(refs := m1.refs[g := m.refs[g] - 1])
  }

  function Protect(t: Table): (r: Table) {
    seq(PAGE_ENTRIES, i requires 0 <= i < PAGE_ENTRIES => if t[i].present then t[i].(write := false) else t[i])
  }

  predicate Listed(t: Table, f: nat, below: nat)
    requires below <= PAGE_ENTRIES
  {
    exists i :: 0 <= i < below && t[i].present && t[i].index == f
  }

  predicate Room(refs: seq<u8>, t: Table) {
    forall i :: 0 <= i < PAGE_ENTRIES && t[i].present ==> t[i].index < |refs| && 0 < refs[t[i].index] < 254
  }

  function Share(refs: seq<u8>, t: Table): (r: seq<u8>)
    requires Room(refs, t)
  {
    seq(|refs|, f requires 0 <= f < |refs| => if Listed(t, f, PAGE_ENTRIES) then refs[f] + 1 else refs[f])
  }

  function ShareTable(m: Mem, p: nat, d: nat): (r: Mem)
    requires HasTable(m, p, d) && Room(m.refs, TableOf(m, p, d))
    ensures r.spaces == m.spaces && |r.refs| == |m.refs|
  {
    Mem(m.start, Share(m.refs, TableOf(m, p, d)), m.free,
        m.tables[m.spaces[p].dir[d] := Protect(TableOf(m, p, d))], m.data, m.spaces)
  }

  // One round of copy_pgdir: every page of p's table d becomes read-only and gains
  // a reference, then the child c receives a copy of the table in frame f.
  function ForkTable(m: Mem, p: nat, c: nat, d: nat, f: nat): Mem
    requires HasTable(m, p, d) && c in m.spaces && f < |m.refs| && Room(m.refs, TableOf(m, p, d))
  {
    NewTable(ShareTable(m, p, d), c, d, f, Protect(TableOf(m, p, d)))
  }

  function DropTable(m: Mem, p: nat, d: nat): Mem
    requires p in m.spaces && d in m.spaces[p].dir
    requires m.spaces[p].dir[d] < |m.refs| && m.refs[m.spaces[p].dir[d]] >= 1
  {
    var s := m.spaces[p];
    Release(m, s.dir[d]).(spaces := m.spaces[p := s.(dir := s.dir - {d})])
  }
}
