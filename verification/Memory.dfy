/**
  The memory manager as the kernel runs it: in-place updates of memory_map, the free
  counter and the page tables. Every method is tied to its function on `Mem`.
 */
module Memory {
  import opened AddressSpaces
  import opened PageOps
  import opened PageLemmas
  import opened PageSteps
  import opened ForkSteps
  import opened FaultProofs
  import opened BrkProofs
  import opened ForkProofs
  import opened ExitProofs
  import US = UserSpace
  import Cow = CopyOnWrite
  import opened Wrappers

  class MemoryManager {
    const startPage: nat
    const memoryMap: array<u8>
    var freePages: nat
    var tables: map<nat, Table>
    var data: map<nat, Page>
    var spaces: map<nat, Space>

    ghost function Model(): (m: Mem)
      reads this, memoryMap
    {
      Mem(startPage, memoryMap[..], freePages, tables, data, spaces)
    }

    // memory_map_init, then kernel_map_init's pass over the kernel's 16 MB.
    constructor (totalPages: nat)
      requires KERNEL_PAGES <= totalPages <= VIRTUAL_PAGES
      ensures fresh(memoryMap)
      ensures startPage == StartPage(totalPages) <= KERNEL_PAGES
      ensures Model() == Cow.Boot(startPage, totalPages)
    {
      startPage := ALLOC_BASE_PAGE + (totalPages + PAGE_SIZE - 1) / PAGE_SIZE;
      memoryMap := new u8[totalPages](_ => 0);
      freePages := totalPages - ALLOC_BASE_PAGE - (totalPages + PAGE_SIZE - 1) / PAGE_SIZE;
      tables, data, spaces := map[], map[], map[];
      new;
      for i := 0 to startPage
        invariant freePages == totalPages - startPage && tables == map[] && data == map[] && spaces == map[]
        invariant forall j :: 0 <= j < totalPages ==> memoryMap[j] == if j < i then 1 else 0
      {
        memoryMap[i] := 1;
      }
      for index := 1 to KERNEL_PAGES
        invariant tables == map[] && data == map[] && spaces == map[]
        invariant forall j :: 0 <= j < totalPages ==>
          memoryMap[j] == if j < startPage || j < index then 1 else 0
        invariant freePages == totalPages - (if index < startPage then startPage else index)
      {
        if memoryMap[index] == 0 { freePages := freePages - 1; }
        memoryMap[index] := 1;
      }
      assert memoryMap[..] == Cow.Boot(startPage, totalPages).refs;
    }

    // None is the out-of-memory panic.
    method AllocPage() returns (r: Option<nat>)
      requires Lowest(memoryMap[..], startPage).Some? ==> freePages > 0
      modifies this`freePages, memoryMap
      ensures r == Lowest(old(memoryMap[..]), startPage)
      ensures r.None? ==> Model() == old(Model())
      ensures r.Some? ==> Model() == Alloc(old(Model()), r.value)
    {
      var i := startPage;
      while i < memoryMap.Length
        invariant memoryMap[..] == old(memoryMap[..]) && freePages == old(freePages)
        invariant Lowest(memoryMap[..], i) == Lowest(memoryMap[..], startPage)
        decreases memoryMap.Length - i
      {
        if memoryMap[i] == 0 {
          memoryMap[i] := 1;
          assert freePages > 0;
          freePages := freePages - 1;
          return Some(i);
        }
        i := i + 1;
      }
      return None;
    }

    method FreePage(f: nat)
      requires startPage <= f < memoryMap.Length && memoryMap[f] >= 1
      requires memoryMap[f] == 1 ==> freePages + 1 < memoryMap.Length
      modifies this`freePages, memoryMap
      ensures Model() == Release(old(Model()), f)
    {
      memoryMap[f] := memoryMap[f] - 1;
      if memoryMap[f] == 0 {
        freePages := freePages + 1;
        assert 0 < freePages < memoryMap.Length;
      }
    }

    // get_pte with `create`.
    method GetPte(p: nat, v: nat) returns (ok: bool)
      requires Inv(Model()) && p in spaces
      modifies this, memoryMap
      ensures ok <==> GetTable(old(Model()), p, v / PAGE_ENTRIES).Some?
      ensures ok ==> Model() == GetTable(old(Model()), p, v / PAGE_ENTRIES).value
    {
      var d := v / PAGE_ENTRIES;
      if d !in spaces[p].dir {
        LowestFree(Model());
        var f := AllocPage();
        if f.None? { return false; }
        tables := tables[f.value := EmptyTable()];
        spaces := spaces[p := spaces[p].(dir := spaces[p].dir[d := f.value])];
      }
      return true;
    }

    // link_page; `residue` is what the new frame holds.
    method LinkPage(p: nat, v: nat, residue: Page) returns (ok: bool)
      requires Inv(Model()) && p in spaces && LegalPage(v, spaces[p].brk)
      modifies this, memoryMap
      ensures ok <==> US.LinkPage(old(Model()), p, v, residue).Some?
      ensures ok ==> Model() == US.LinkPage(old(Model()), p, v, residue).value && Inv(Model())
    {
      hide Core, Reads;
      ghost var m := Model();
      GetTableStep(m, p, v);
      LinkPageStep(m, p, v, residue);
      ok := GetPte(p, v);
      if !ok { return; }
      ghost var m1 := Model();
      assert SameEntry(m, m1, p, v) by { assert SameEntries(m, m1, p); }
      assert VmapAgrees(m1, p);
      if tables[spaces[p].dir[v / PAGE_ENTRIES]][v % PAGE_ENTRIES].present {
        assert v in spaces[p].vmap;
        return;
      }
      assert v !in spaces[p].vmap;
      LowestFree(m1);
      ok := Map(p, v, residue);
    }

    // The part of link_page after its assertion that the page is not in the bitmap.
    method Map(p: nat, v: nat, residue: Page) returns (ok: bool)
      requires HasTable(Model(), p, v / PAGE_ENTRIES)
      requires Lowest(memoryMap[..], startPage).Some? ==> freePages > 0
      modifies this, memoryMap
      ensures ok <==> Lowest(old(memoryMap[..]), startPage).Some?
      ensures ok ==> Model() == MapPage(old(Model()), p, v, Lowest(old(memoryMap[..]), startPage).value, residue)
    {
      spaces := spaces[p := spaces[p].(vmap := spaces[p].vmap + {v})];
      var f := AllocPage();
      if f.None? { return false; }
      data := data[f.value := residue];
      var tf := spaces[p].dir[v / PAGE_ENTRIES];
      tables := tables[tf := tables[tf][v % PAGE_ENTRIES := Entry(true, true, f.value)]];
      return true;
    }

    // The part of unlink_page after its assertion that the page is in the bitmap.
    method Unmap(p: nat, v: nat)
      requires Core(Model()) && Mapped(Model(), p, v)
      modifies this, memoryMap
      ensures FrameOf(old(Model()), p, v) < |old(Model()).refs| && old(Model()).refs[FrameOf(old(Model()), p, v)] >= 1
      ensures Model() == UnmapPage(old(Model()), p, v)
    {
      FreePageOfUnmap(Model(), p, v);
      var tf := spaces[p].dir[v / PAGE_ENTRIES];
      var e := tables[tf][v % PAGE_ENTRIES];
      spaces := spaces[p := spaces[p].(vmap := spaces[p].vmap - {v})];
      tables := tables[tf := tables[tf][v % PAGE_ENTRIES := e.(present := false)]];
      FreePage(e.index);
    }

    method UnlinkPage(p: nat, v: nat) returns (ok: bool)
      requires Inv(Model()) && p in spaces && KERNEL_PAGES <= v && v * PAGE_SIZE < USER_STACK_TOP
      modifies this, memoryMap
      ensures ok <==> US.UnlinkPage(old(Model()), p, v).Some?
      ensures ok ==> Model() == US.UnlinkPage(old(Model()), p, v).value && Inv(Model())
    {
      hide ReadsBut, Reads;
      UnlinkPageStep(Model(), p, v);
      GetTableStep(Model(), p, v);
      ok := GetPte(p, v);
      if !ok { return; }
      ghost var m1 := Model();
      assert VmapAgrees(m1, p);
      if !tables[spaces[p].dir[v / PAGE_ENTRIES]][v % PAGE_ENTRIES].present {
        assert v !in spaces[p].vmap;
        return;
      }
      assert v in spaces[p].vmap;
      FreePageOfUnmap(m1, p, v);
      Unmap(p, v);
    }

    // The copy-on-write branch of page_fault_handler.
    method WriteFault(p: nat, v: nat) returns (ok: bool)
      requires Inv(Model()) && Mapped(Model(), p, v)
      modifies this, memoryMap
      ensures ok <==> US.WriteFault(old(Model()), p, v).Some?
      ensures ok ==> Model() == US.WriteFault(old(Model()), p, v).value
    {
      ghost var m := Model();
      var tf := spaces[p].dir[v / PAGE_ENTRIES];
      var e := tables[tf][v % PAGE_ENTRIES];
      assert Names(m, AtPage(p, v), e.index);
      CountOne(m, AtPage(p, v), e.index);
      assert memoryMap[e.index] > 0;
      if memoryMap[e.index] == 1 {
        tables := tables[tf := tables[tf][v % PAGE_ENTRIES := e.(write := true)]];
      } else {
        LowestFree(m);
        var f := AllocPage();
        if f.None? { return false; }
        data := data[f.value := data[e.index]];
        tables := tables[tf := tables[tf][v % PAGE_ENTRIES := Entry(true, true, f.value)]];
        memoryMap[e.index] := memoryMap[e.index] - 1;
      }
      assert memoryMap[e.index] > 0;
      return true;
    }

    method PageFault(p: nat, vaddr: nat, write: bool, residue: Page) returns (ok: bool)
      requires Inv(Model()) && p in spaces && !US.Permitted(Model(), p, vaddr / PAGE_SIZE, write)
      modifies this, memoryMap
      ensures ok <==> US.PageFault(old(Model()), p, vaddr, write, residue).Some?
      ensures ok ==> Model() == US.PageFault(old(Model()), p, vaddr, write, residue).value
    {
      hide Inv;
      if !(KERNEL_MEMORY_SIZE <= vaddr < USER_STACK_TOP) { return false; }
      var v := vaddr / PAGE_SIZE;
      if v / PAGE_ENTRIES in spaces[p].dir && spaces[p].dir[v / PAGE_ENTRIES] in tables
        && tables[spaces[p].dir[v / PAGE_ENTRIES]][v % PAGE_ENTRIES].present {
        assert write;
        ok := WriteFault(p, v);
      } else if vaddr < spaces[p].brk || vaddr > USER_STACK_BOTTOM {
        BrkBelowStack(Model(), p);
        ok := LinkPage(p, v, residue);
      } else {
        return false;
      }
    }

    // A user load; None when the kernel halts in the fault it causes.
    method LoadByte(p: nat, vaddr: nat, residue: Page) returns (b: Option<u8>)
      requires Inv(Model()) && p in spaces
      modifies this, memoryMap
      ensures b.Some? <==> Cow.Step(old(Model()), Cow.Op.Load(p, vaddr, residue)).Some?
      ensures b.Some? ==> Cow.Step(old(Model()), Cow.Op.Load(p, vaddr, residue)) == Some((Model(), Cow.Byte(b.value)))
    {
      ghost var m := Model();
      var v := vaddr / PAGE_SIZE;
      AccessStep(m, p, vaddr, false, residue);
      hide Inv;
      var mapped := v / PAGE_ENTRIES in spaces[p].dir && spaces[p].dir[v / PAGE_ENTRIES] in tables
        && tables[spaces[p].dir[v / PAGE_ENTRIES]][v % PAGE_ENTRIES].present;
      if !mapped {
        var ok := PageFault(p, vaddr, false, residue);
        if !ok { return None; }
      }
      ReadsMapped(Model(), p, v);
      var f := tables[spaces[p].dir[v / PAGE_ENTRIES]][v % PAGE_ENTRIES].index;
      return Some(data[f][vaddr % PAGE_SIZE]);
    }

    method StoreByte(p: nat, vaddr: nat, b: u8, residue: Page) returns (ok: bool)
      requires Inv(Model()) && p in spaces
      modifies this, memoryMap
      ensures ok <==> Cow.Step(old(Model()), Cow.Op.Store(p, vaddr, b, residue)).Some?
      ensures ok ==> Cow.Step(old(Model()), Cow.Op.Store(p, vaddr, b, residue)) == Some((Model(), Cow.Done))
    {
      ghost var m := Model();
      var v := vaddr / PAGE_SIZE;
      AccessStep(m, p, vaddr, true, residue);
      hide Inv;
      var writable := v / PAGE_ENTRIES in spaces[p].dir && spaces[p].dir[v / PAGE_ENTRIES] in tables
        && tables[spaces[p].dir[v / PAGE_ENTRIES]][v % PAGE_ENTRIES].present
        && tables[spaces[p].dir[v / PAGE_ENTRIES]][v % PAGE_ENTRIES].write;
      if !writable {
        ok := PageFault(p, vaddr, true, residue);
        if !ok { return; }
      }
      ReadsMapped(Model(), p, v);
      var f := tables[spaces[p].dir[v / PAGE_ENTRIES]][v % PAGE_ENTRIES].index;
      data := data[f := data[f][vaddr % PAGE_SIZE := b]];
      return true;
    }

    // The loop of sys_brk over the pages between the new and the old limit.
    method UnlinkRange(p: nat, brk: nat, before: nat) returns (ok: bool)
      requires Inv(Model()) && p in spaces && brk % PAGE_SIZE == 0 && before % PAGE_SIZE == 0
      requires KERNEL_MEMORY_SIZE <= brk <= before < USER_STACK_TOP
      modifies this, memoryMap
      ensures ok <==> US.UnlinkRange(old(Model()), p, brk / PAGE_SIZE, before / PAGE_SIZE).Some?
      ensures ok ==> US.UnlinkRange(old(Model()), p, brk / PAGE_SIZE, before / PAGE_SIZE) == Some(Model())
      ensures ok ==> p in spaces
    {
      hide Inv, US.UnlinkRange, US.UnlinkPage;
      var addr := brk;
      while addr < before
        invariant brk <= addr <= before && addr % PAGE_SIZE == 0
        invariant p in old(spaces) && p in spaces && Inv(Model())
        invariant US.UnlinkRange(Model(), p, addr / PAGE_SIZE, before / PAGE_SIZE)
               == US.UnlinkRange(old(Model()), p, brk / PAGE_SIZE, before / PAGE_SIZE)
        decreases before - addr
      {
        UnlinkOne(Model(), p, addr / PAGE_SIZE, before / PAGE_SIZE);
        ok := UnlinkPage(p, addr / PAGE_SIZE);
        if !ok { return; }
        addr := addr + PAGE_SIZE;
      }
      UnlinkNone(Model(), p, addr / PAGE_SIZE);
      return true;
    }

    // sys_brk. `halted` is a failed assert or the out-of-memory panic; `ok` is false for -1.
    method Brk(p: nat, brk: nat) returns (halted: bool, ok: bool)
      requires Inv(Model()) && p in spaces && brk % PAGE_SIZE == 0
      modifies this, memoryMap
      ensures halted <==> US.Brk(old(Model()), p, brk).None?
      ensures !halted ==> US.Brk(old(Model()), p, brk) == Some((Model(), ok))
    {
      hide Inv;
      if !(KERNEL_MEMORY_SIZE <= brk < USER_STACK_BOTTOM) { return true, false; }
      var before := spaces[p].brk;
      if before > brk {
        BrkBelowStack(Model(), p);
        ok := UnlinkRange(p, brk, before);
        if !ok { return true, false; }
      } else if (brk - before) / PAGE_SIZE > freePages {
        return false, false;
      }
      spaces := spaces[p := spaces[p].(brk := brk)];
      return false, true;
    }

    // copy_pgdir's inner loop on the table in frame tf: share each page and write-protect it.
    method ShareEntries(tf: nat)
      requires tf in tables && Room(memoryMap[..], tables[tf]) && Distinct(tables[tf])
      modifies this`tables, memoryMap
      ensures memoryMap[..] == Share(old(memoryMap[..]), old(tables[tf]))
      ensures tables == old(tables)[tf := Protect(old(tables[tf]))]
    {
      ghost var t0, r0 := tables[tf], memoryMap[..];
      ghost var others := tables;
      for t := 0 to PAGE_ENTRIES
        invariant tf in tables && tables == others[tf := tables[tf]]
        invariant forall i :: t <= i < PAGE_ENTRIES ==> tables[tf][i] == t0[i]
        invariant forall i :: 0 <= i < t ==> tables[tf][i] == Protect(t0)[i]
        invariant forall f :: 0 <= f < |r0| ==> memoryMap[f] == if Listed(t0, f, t) then r0[f] + 1 else r0[f]
      {
        var e := tables[tf][t];
        if e.present {
          assert !Listed(t0, e.index, t);
          assert memoryMap[e.index] > 0;
          memoryMap[e.index] := memoryMap[e.index] + 1;
          tables := tables[tf := tables[tf][t := e.(write := false)]];
          assert memoryMap[e.index] < 255;
        }
        forall f | 0 <= f < |r0|
          ensures Listed(t0, f, t + 1) <==> Listed(t0, f, t) || (t0[t].present && t0[t].index == f)
        {
          ListedMore(t0, f, t);
        }
      }
      assert tables[tf] == Protect(t0);
      assert memoryMap[..] == Share(r0, t0);
    }

    // The machine's fields are those of g, whose extra task is still under construction.
    ghost predicate Holds(g: Mem)
      reads this, memoryMap
    {
      && g.start == startPage && g.refs == memoryMap[..] && g.free == freePages
      && g.tables == tables && g.data == data
    }

    // copy_pgdir on the parent's present table d: share its pages, then copy the table.
    method CopyTable(p: nat, d: nat, ghost m0: Mem, ghost g: Mem, ghost c: nat) returns (f: Option<nat>)
      requires p in spaces && d in spaces[p].dir && Forking(m0, g, p, c, d) && Holds(g) && g.spaces[p] == spaces[p]
      modifies this`freePages, this`tables, memoryMap
      ensures p in g.spaces && c in g.spaces
      ensures f.None? ==> US.ForkDir(g, p, c, d).None?
      ensures f.Some? ==> Fresh(g, f.value) && HasTable(g, p, d) && Room(g.refs, TableOf(g, p, d))
      ensures f.Some? ==> Holds(ForkTable(g, p, c, d, f.value))
      ensures f.Some? ==> US.ForkDir(g, p, c, d) == US.ForkDir(ForkTable(g, p, c, d, f.value), p, c, d + 1)
    {
      TableNames(g, p, d);
      ForkRoom(g, p, d);
      TableDistinct(g, p, d);
      ShareZeros(g, p, d);
      LowestFree(g);
      assert d < LAST_TABLE;
      var tf := spaces[p].dir[d];
      ShareEntries(tf);
      hide Forking, Core;
      f := AllocPage();
      if f.Some? {
        tables := tables[f.value := tables[tf]];
      }
    }

    // copy_pgdir: the child's page directory, or None when a frame for a table is missing.
    method CopyPgdir(p: nat, ghost c: nat) returns (dir: Option<map<nat, nat>>)
      requires Inv(Model()) && p in spaces && c !in spaces && |spaces| < NUM_TASKS
      modifies this`freePages, this`tables, memoryMap
      ensures dir.None? <==> US.Fork(old(Model()), p, c).None?
      ensures dir.Some? ==> US.Fork(old(Model()), p, c) == Some(WithChild(Model(), p, c, dir.value))
    {
      hide Inv, Copying, Forking, US.ForkDir, ForkTable, HasTable, Room;
      ghost var m, m0 := Model(), US.AddSpace(Model(), p, c);
      ghost var g := m0;
      var pageDir: map<nat, nat> := spaces[p].dir;
      CopyingStart(m, p, c);
      for d := KERNEL_TABLES to LAST_TABLE
        invariant Holds(g) && spaces == old(spaces)
        invariant Copying(m0, g, p, c, d, pageDir)
      {
        CopyingKeys(m0, g, p, c, d, pageDir);
        if d in pageDir {
          var f := CopyTable(p, d, m0, g, c);
          if f.None? { return None; }
          CopyingTable(m0, g, p, c, d, pageDir, f.value);
          g := ForkTable(g, p, c, d, f.value);
          pageDir := pageDir[d := f.value];
        } else {
          CopyingSkip(m0, g, p, c, d, pageDir);
        }
      }
      CopyingEnd(m, m0, g, p, c, pageDir);
      return Some(pageDir);
    }

    // sys_fork's memory side.
    method Fork(p: nat, c: nat) returns (ok: bool)
      requires Inv(Model()) && p in spaces && c !in spaces && |spaces| < NUM_TASKS
      modifies this, memoryMap
      ensures ok <==> US.Fork(old(Model()), p, c).Some?
      ensures ok ==> US.Fork(old(Model()), p, c) == Some(Model())
    {
      hide Inv, US.Fork;
      var vmap := spaces[p].vmap;
      var dir := CopyPgdir(p, c);
      if dir.None? { return false; }
      spaces := spaces[c := Space(dir.value, vmap, spaces[p].brk)];
      return true;
    }

    // The counters are those of g, which has already forgotten what was freed.
    ghost predicate Counts(g: Mem)
      reads this, memoryMap
    {
      g.start == startPage && g.refs == memoryMap[..] && g.free == freePages
    }

    // free_pgdir's inner loop on table d.
    method FreeTablePages(p: nat, d: nat, ghost m0: Mem, ghost g: Mem) returns (ghost h: Mem)
      requires p in spaces && d in spaces[p].dir && spaces[p].dir[d] in tables
      requires m0.tables == tables && m0.spaces == spaces && Counts(g)
      requires p in g.spaces && Dropping(m0, g, p, d * PAGE_ENTRIES, d)
      modifies this`freePages, memoryMap
      ensures Counts(h) && p in h.spaces && h.spaces[p].dir == g.spaces[p].dir
      ensures Dropping(m0, h, p, (d + 1) * PAGE_ENTRIES, d)
      ensures US.DropPages(g, p, d, 0) == Some(h)
    {
      hide Dropping, US.DropPages, UnmapPage, Mapped, EntryOf;
      h := g;
      for t := 0 to PAGE_ENTRIES
        invariant Counts(h) && p in h.spaces && h.spaces[p].dir == g.spaces[p].dir
        invariant Dropping(m0, h, p, d * PAGE_ENTRIES + t, d)
        invariant US.DropPages(h, p, d, t) == US.DropPages(g, p, d, 0)
      {
        var e := tables[spaces[p].dir[d]][t];
        ghost var h1 := FreeRound(m0, h, p, d, t, e);
        if e.present {
          FreePage(e.index);
        }
        h := h1;
      }
      DropPagesEnd(h, p, d);
    }

    // free_pgdir, then the page directory and the task are gone.
    method Exit(p: nat)
      requires Inv(Model()) && p in spaces
      modifies this, memoryMap
      ensures US.Exit(old(Model()), p) == Some(Model())
    {
      hide Inv, Dropping, US.DropDir, US.DropPages, DropTable;
      ghost var m0 := Model();
      DropStart(m0, p);
      ghost var g := m0;
      for d := KERNEL_TABLES to LAST_TABLE
        invariant Counts(g) && p in g.spaces && spaces == old(spaces) && tables == old(tables) && data == old(data)
        invariant Dropping(m0, g, p, d * PAGE_ENTRIES, d)
        invariant US.DropDir(g, p, d) == US.DropDir(m0, p, KERNEL_TABLES)
      {
        DropDirKeys(m0, g, p, d);
        if d in spaces[p].dir {
          ghost var h := FreeTablePages(p, d, m0, g);
          ghost var h1 := FreeTableRound(m0, g, h, p, d);
          FreePage(spaces[p].dir[d]);
          g := h1;
        } else {
          DropNoTable(m0, g, p, d);
          DropDirSkip(g, p, d);
        }
      }
      DropDirEnd(g, p);
      spaces := spaces - {p};
    }
  }

  lemma BrkBelowStack(m: Mem, p: nat)
    requires Inv(m) && p in m.spaces
    ensures m.spaces[p].brk <= USER_STACK_BOTTOM && m.spaces[p].brk % PAGE_SIZE == 0
  {
  }

  lemma UnlinkOne(m: Mem, p: nat, v: nat, end: nat)
    requires Inv(m) && p in m.spaces && KERNEL_PAGES <= v < end && v * PAGE_SIZE < USER_STACK_TOP
    ensures US.UnlinkPage(m, p, v).None? ==> US.UnlinkRange(m, p, v, end).None?
    ensures US.UnlinkPage(m, p, v).Some? ==> var n := US.UnlinkPage(m, p, v).value;
      Inv(n) && p in n.spaces && US.UnlinkRange(m, p, v, end) == US.UnlinkRange(n, p, v + 1, end)
  {
    UnlinkPageStep(m, p, v);
    hide Inv, US.UnlinkPage;
  }

  lemma UnlinkNone(m: Mem, p: nat, v: nat)
    requires p in m.spaces
    ensures US.UnlinkRange(m, p, v, v) == Some(m)
  {
  }

  // No frame is in a table twice.
  ghost predicate Distinct(t: Table) {
    forall i, j :: 0 <= i < j < PAGE_ENTRIES && t[i].present && t[j].present ==> t[i].index != t[j].index
  }

  lemma ListedMore(t: Table, f: nat, i: nat)
    requires i < PAGE_ENTRIES
    ensures Listed(t, f, i + 1) <==> Listed(t, f, i) || (t[i].present && t[i].index == f)
  {
  }

  lemma TableDistinct(m: Mem, p: nat, d: nat)
    requires Core(m) && HasTable(m, p, d)
    ensures Distinct(TableOf(m, p, d))
  {
    var t := TableOf(m, p, d);
    forall i, j | 0 <= i < j < PAGE_ENTRIES && t[i].present && t[j].present ensures t[i].index != t[j].index {
      assert Names(m, AtPage(p, Vpn(d, i)), t[i].index);
      assert Names(m, AtPage(p, Vpn(d, j)), t[j].index);
    }
  }

  function WithChild(m: Mem, p: nat, c: nat, dir: map<nat, nat>): Mem
    requires p in m.spaces
  {
    m.(spaces := m.spaces[c := Space(dir, m.spaces[p].vmap, m.spaces[p].brk)])
  }

  // copy_pgdir has handled the tables below d; pageDir is the directory it is building.
  ghost predicate Copying(m0: Mem, g: Mem, p: nat, c: nat, d: nat, pageDir: map<nat, nat>) {
    && Forking(m0, g, p, c, d) && p in g.spaces && c in g.spaces && g.spaces[p] == m0.spaces[p]
    && pageDir.Keys == g.spaces[p].dir.Keys
    && (forall e :: e in pageDir && e < d ==> e in g.spaces[c].dir && pageDir[e] == g.spaces[c].dir[e])
    && US.ForkDir(g, p, c, d) == US.ForkDir(m0, p, c, KERNEL_TABLES)
  }

  lemma CopyingStart(m: Mem, p: nat, c: nat)
    requires Inv(m) && p in m.spaces && c !in m.spaces && |m.spaces| < NUM_TASKS
    ensures Copying(US.AddSpace(m, p, c), US.AddSpace(m, p, c), p, c, KERNEL_TABLES, m.spaces[p].dir)
  {
    AddSpaceCore(m, p, c);
    hide US.ForkDir;
  }

  lemma CopyingKeys(m0: Mem, g: Mem, p: nat, c: nat, d: nat, pageDir: map<nat, nat>)
    requires Copying(m0, g, p, c, d, pageDir)
    ensures Forking(m0, g, p, c, d) && p in g.spaces && g.spaces[p] == m0.spaces[p]
    ensures pageDir.Keys == g.spaces[p].dir.Keys
    ensures US.ForkDir(g, p, c, d) == US.ForkDir(m0, p, c, KERNEL_TABLES)
  {
    hide US.ForkDir, Forking;
  }

  lemma CopyingTable(m0: Mem, g: Mem, p: nat, c: nat, d: nat, pageDir: map<nat, nat>, f: nat)
    requires Copying(m0, g, p, c, d, pageDir) && d in pageDir && Fresh(g, f)
    requires HasTable(g, p, d) && Room(g.refs, TableOf(g, p, d)) && p in g.spaces && c in g.spaces
    requires US.ForkDir(g, p, c, d) == US.ForkDir(ForkTable(g, p, c, d, f), p, c, d + 1)
    ensures Copying(m0, ForkTable(g, p, c, d, f), p, c, d + 1, pageDir[d := f])
  {
    ForkingTable(m0, g, p, c, d, f);
    assert p != c;
    hide US.ForkDir, Forking;
  }

  lemma CopyingSkip(m0: Mem, g: Mem, p: nat, c: nat, d: nat, pageDir: map<nat, nat>)
    requires Copying(m0, g, p, c, d, pageDir) && d !in pageDir && d < LAST_TABLE
    ensures Copying(m0, g, p, c, d + 1, pageDir)
  {
    ForkingSkip(m0, g, p, c, d);
    hide US.ForkDir, Forking;
  }

  lemma CopyingSpaces(m0: Mem, g: Mem, p: nat, c: nat, pageDir: map<nat, nat>)
    requires Copying(m0, g, p, c, LAST_TABLE, pageDir)
    ensures c != p && c in g.spaces && g.spaces[c].dir == pageDir && g.spaces[c].brk == m0.spaces[p].brk
    ensures g.spaces.Keys == m0.spaces.Keys && forall q :: q in g.spaces && q != c ==> g.spaces[q] == m0.spaces[q]
    ensures US.ForkDir(m0, p, c, KERNEL_TABLES) == Some(g)
  {
    ForkDirEnd(m0, g, p, c, LAST_TABLE);
    hide US.ForkDir, ForkedAll;
    assert forall e :: e in pageDir ==> e < LAST_TABLE;
    assert pageDir == g.spaces[c].dir;
  }

  lemma CopyingEnd(m: Mem, m0: Mem, g: Mem, p: nat, c: nat, pageDir: map<nat, nat>)
    requires p in m.spaces && c !in m.spaces && m0 == US.AddSpace(m, p, c) && g.start == m.start
    requires Copying(m0, g, p, c, LAST_TABLE, pageDir)
    ensures US.Fork(m, p, c) ==
      Some(WithChild(Mem(g.start, g.refs, g.free, g.tables, g.data, m.spaces), p, c, pageDir))
  {
    hide US.ForkDir, Copying;
    CopyingSpaces(m0, g, p, c, pageDir);
    assert SetVmap(g, c, m.spaces[p].vmap).spaces == m.spaces[c := Space(pageDir, m.spaces[p].vmap, m.spaces[p].brk)];
  }

  // The entry that free_pgdir reads is the one the reference state still has, free_page's
  // assertions hold for it, and freeing it is one round of the specification.
  lemma FreeRound(m0: Mem, h: Mem, p: nat, d: nat, t: nat, e: Entry) returns (n: Mem)
    requires t < PAGE_ENTRIES && Dropping(m0, h, p, d * PAGE_ENTRIES + t, d) && p in h.spaces
    requires HasTable(m0, p, d) && e == TableOf(m0, p, d)[t]
    ensures e.present ==>
      && h.start <= e.index < |h.refs| && h.refs[e.index] >= 1
      && (h.refs[e.index] == 1 ==> h.free + 1 < |h.refs|)
      && n.refs == Release(h, e.index).refs && n.free == Release(h, e.index).free && n.start == h.start
    ensures !e.present ==> n == h
    ensures p in n.spaces && n.spaces[p].dir == h.spaces[p].dir
    ensures Dropping(m0, n, p, d * PAGE_ENTRIES + t + 1, d)
    ensures US.DropPages(h, p, d, t) == US.DropPages(n, p, d, t + 1)
  {
    var v := Vpn(d, t);
    assert DroppedAt(m0, h, p, v, p, v);
    if e.present {
      assert Mapped(h, p, v) && EntryOf(h, p, v) == e;
      assert Names(h, AtPage(p, v), e.index);
      DropOnePage(m0, h, p, d, v);
      FreePageOfUnmap(h, p, v);
      n := UnmapPage(h, p, v);
      FreeBelowTotal(n);
    } else {
      DropNoPage(m0, h, p, d, v);
      n := h;
    }
  }

  lemma FreeTableRound(m0: Mem, g: Mem, h: Mem, p: nat, d: nat) returns (n: Mem)
    requires Dropping(m0, h, p, (d + 1) * PAGE_ENTRIES, d) && d < LAST_TABLE
    requires p in m0.spaces && p in g.spaces && p in h.spaces && d in g.spaces[p].dir
    requires h.spaces[p].dir == g.spaces[p].dir && US.DropPages(g, p, d, 0) == Some(h)
    ensures d in m0.spaces[p].dir
    ensures var f := m0.spaces[p].dir[d];
      && h.start <= f < |h.refs| && h.refs[f] >= 1 && (h.refs[f] == 1 ==> h.free + 1 < |h.refs|)
      && n.refs == Release(h, f).refs && n.free == Release(h, f).free && n.start == h.start
    ensures p in n.spaces && Dropping(m0, n, p, (d + 1) * PAGE_ENTRIES, d + 1)
    ensures US.DropDir(g, p, d) == US.DropDir(n, p, d + 1)
  {
    DropOneTable(m0, h, p, d);
    n := DropTable(h, p, d);
    FreeBelowTotal(n);
    TableNames(h, p, d);
    hide Dropping, US.DropPages;
  }

  lemma DropDirKeys(m0: Mem, g: Mem, p: nat, d: nat)
    requires Dropping(m0, g, p, d * PAGE_ENTRIES, d) && p in m0.spaces && Inv(m0)
    ensures p in g.spaces && (d in g.spaces[p].dir <==> d in m0.spaces[p].dir)
    ensures d in m0.spaces[p].dir ==> m0.spaces[p].dir[d] in m0.tables
  {
    hide DroppedAll;
  }

  lemma DropDirSkip(g: Mem, p: nat, d: nat)
    requires p in g.spaces && d !in g.spaces[p].dir && d < LAST_TABLE
    ensures US.DropDir(g, p, d) == US.DropDir(g, p, d + 1)
  {
  }
}
