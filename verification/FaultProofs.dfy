/**
  Page faults and stores: when they halt, what they keep, and what tasks read after them.
 */
module FaultProofs {
  import opened AddressSpaces
  import opened PageOps
  import opened PageLemmas
  import opened PageSteps
  import opened UserSpace
  import opened Wrappers

  // alloc_page panics exactly when the free counter is zero, and its own assertion holds.
  lemma LowestFree(m: Mem)
    requires Core(m)
    ensures m.free >= 0
    ensures Lowest(m.refs, m.start).None? <==> m.free == 0
    ensures Lowest(m.refs, m.start).Some? ==> Fresh(m, Lowest(m.refs, m.start).value)
  {
    if Lowest(m.refs, m.start).Some? {
      assert Lowest(m.refs, m.start).value in FreeFrames(m);
    } else {
      assert FreeFrames(m) == {};
    }
  }

  // Only task p changes, and it keeps its heap limit.
  ghost predicate SameLimits(m: Mem, n: Mem) {
    m.spaces.Keys == n.spaces.Keys && forall q :: q in m.spaces ==> n.spaces[q].brk == m.spaces[q].brk
  }

  ghost predicate ReadsBut(m: Mem, n: Mem, p: nat, w: nat) {
    forall q: nat, v: nat :: (q, v) != (p, w) ==> Reads(n, q, v) == Reads(m, q, v)
  }

  lemma GetTableStep(m: Mem, p: nat, v: nat)
    requires Inv(m) && p in m.spaces && KERNEL_PAGES <= v && v * PAGE_SIZE < USER_STACK_TOP
    ensures var r := GetTable(m, p, v / PAGE_ENTRIES);
      && (r.None? <==> v / PAGE_ENTRIES !in m.spaces[p].dir && m.free == 0)
      && (r.Some? ==>
            && Inv(r.value) && SameLimits(m, r.value) && HasTable(r.value, p, v / PAGE_ENTRIES)
            && (forall q :: SameEntries(m, r.value, q))
            && r.value.free == m.free - (if v / PAGE_ENTRIES in m.spaces[p].dir then 0 else 1)
            && (forall q: nat, w: nat :: Reads(r.value, q, w) == Reads(m, q, w))
            && r.value.spaces[p].dir.Keys == m.spaces[p].dir.Keys + {v / PAGE_ENTRIES})
  {
    var d := v / PAGE_ENTRIES;
    LowestFree(m);
    if d in m.spaces[p].dir {
      TableNames(m, p, d);
    } else if m.free > 0 {
      var f := Lowest(m.refs, m.start).value;
      var n := NewTable(m, p, d, f, EmptyTable());
      NewTableCore(m, p, d, f, EmptyTable());
      NewTableNames(m, p, d, f, EmptyTable());
      forall q: nat, w: nat
        ensures Reads(n, q, w) == Reads(m, q, w)
        ensures q in n.spaces ==> (w in n.spaces[q].vmap <==> Mapped(n, q, w))
      {
        assert SameEntries(m, n, q) && SameEntry(m, n, q, w);
        if q in m.spaces { assert VmapAgrees(m, q); }
      }
      assert forall q :: q in n.spaces ==> VmapAgrees(n, q);
    }
  }

  lemma VmapAfterEntry(m: Mem, n: Mem, p: nat, v: nat)
    requires SameEntriesBut(m, n, p, v) && m.spaces.Keys == n.spaces.Keys && p in m.spaces
    requires forall q :: q in m.spaces ==> VmapAgrees(m, q)
    requires forall q :: q in m.spaces && q != p ==> n.spaces[q].vmap == m.spaces[q].vmap
    requires forall w :: w != v ==> (w in n.spaces[p].vmap <==> w in m.spaces[p].vmap)
    requires v in n.spaces[p].vmap <==> Mapped(n, p, v)
    ensures forall q :: q in n.spaces ==> VmapAgrees(n, q)
  {
    forall q, w: nat | q in n.spaces ensures w in n.spaces[q].vmap <==> Mapped(n, q, w) {
      assert VmapAgrees(m, q);
      if (q, w) != (p, v) { assert SameEntry(m, n, q, w); }
    }
  }

  lemma EntryInv(m: Mem, n: Mem, p: nat, v: nat)
    requires Inv(m) && Core(n) && EntryStep(m, n, p, v) && SameLimits(m, n) && p in m.spaces
    requires forall q :: q in m.spaces && q != p ==> n.spaces[q].vmap == m.spaces[q].vmap
    requires forall w :: w != v ==> (w in n.spaces[p].vmap <==> w in m.spaces[p].vmap)
    requires v in n.spaces[p].vmap <==> Mapped(n, p, v)
    requires forall f :: f in m.data && n.data[f] != m.data[f] ==> Fresh(m, f)
    ensures Inv(n) && ReadsBut(m, n, p, v)
  {
    EntryReads(m, n, p, v);
    VmapAfterEntry(m, n, p, v);
  }

  lemma MapPageInv(m: Mem, p: nat, v: nat, f: nat, residue: Page)
    requires Inv(m) && HasTable(m, p, v / PAGE_ENTRIES) && !Mapped(m, p, v) && Fresh(m, f)
    requires LegalPage(v, m.spaces[p].brk)
    ensures var n := MapPage(m, p, v, f, residue);
      && Inv(n) && SameLimits(m, n) && Permitted(n, p, v, true)
      && ReadsBut(m, n, p, v) && Reads(n, p, v) == Some(residue)
  {
    MapPageStep(m, p, v, f, residue);
    EntryInv(m, MapPage(m, p, v, f, residue), p, v);
  }

  lemma CopyPageInv(m: Mem, p: nat, v: nat, f: nat)
    requires Inv(m) && Mapped(m, p, v) && Fresh(m, f)
    requires FrameOf(m, p, v) < |m.refs| && m.refs[FrameOf(m, p, v)] > 1
    ensures FrameOf(m, p, v) in m.data
    ensures var n := CopyPage(m, p, v, f);
      && Inv(n) && SameLimits(m, n) && Permitted(n, p, v, true)
      && ReadsBut(m, n, p, v) && Reads(n, p, v) == Reads(m, p, v)
  {
    CopyPageStep(m, p, v, f);
    assert VmapAgrees(m, p);
    EntryInv(m, CopyPage(m, p, v, f), p, v);
  }

  lemma MakeWritableInv(m: Mem, p: nat, v: nat)
    requires Inv(m) && Mapped(m, p, v)
    requires FrameOf(m, p, v) < |m.refs| && m.refs[FrameOf(m, p, v)] == 1
    ensures var n := MakeWritable(m, p, v);
      && Inv(n) && SameLimits(m, n) && Permitted(n, p, v, true)
      && ReadsBut(m, n, p, v) && Reads(n, p, v) == Reads(m, p, v)
  {
    MakeWritableStep(m, p, v);
    assert VmapAgrees(m, p);
    EntryInv(m, MakeWritable(m, p, v), p, v);
  }

  // No frame in front of f is free.
  predicate NoneBelow(m: Mem, f: nat) {
    forall g :: m.start <= g < f && g < |m.refs| ==> m.refs[g] != 0
  }

  lemma LinkPageStep(m: Mem, p: nat, v: nat, residue: Page)
    requires Inv(m) && p in m.spaces && LegalPage(v, m.spaces[p].brk)
    ensures Mapped(m, p, v) ==> LinkPage(m, p, v, residue) == Some(m)
    ensures var r := LinkPage(m, p, v, residue); !Mapped(m, p, v) ==>
      && (r.None? <==> m.free < (if v / PAGE_ENTRIES in m.spaces[p].dir then 1 else 2))
      && (r.Some? ==> var n := r.value;
            && Inv(n) && SameLimits(m, n) && Permitted(n, p, v, true)
            && n.free == m.free - (if v / PAGE_ENTRIES in m.spaces[p].dir then 1 else 2)
            && NoneBelow(n, FrameOf(n, p, v))
            && ReadsBut(m, n, p, v) && Reads(n, p, v) == Some(residue))
  {
    GetTableStep(m, p, v);
    LowestFree(m);
    if GetTable(m, p, v / PAGE_ENTRIES).Some? {
      var m1 := GetTable(m, p, v / PAGE_ENTRIES).value;
      assert SameEntry(m, m1, p, v) by { assert SameEntries(m, m1, p); }
      assert VmapAgrees(m1, p);
      if Mapped(m, p, v) {
        TableNames(m, p, v / PAGE_ENTRIES);
      } else {
        hide Inv, Reads, Mapped, GetTable;
        LinksNew(m1, p, v, residue);
      }
    }
  }

  // A page that is not mapped, once its table is there.
  lemma LinksNew(m: Mem, p: nat, v: nat, residue: Page)
    requires Inv(m) && HasTable(m, p, v / PAGE_ENTRIES) && !Mapped(m, p, v) && LegalPage(v, m.spaces[p].brk)
    ensures v !in m.spaces[p].vmap && (m.free == 0 <==> Lowest(m.refs, m.start).None?) && m.free >= 0
    ensures Lowest(m.refs, m.start).Some? ==>
      var f := Lowest(m.refs, m.start).value; var n := MapPage(m, p, v, f, residue);
      && Inv(n) && SameLimits(m, n) && Permitted(n, p, v, true) && n.free == m.free - 1
      && NoneBelow(n, FrameOf(n, p, v)) && ReadsBut(m, n, p, v) && Reads(n, p, v) == Some(residue)
  {
    LowestFree(m);
    assert VmapAgrees(m, p);
    if Lowest(m.refs, m.start).Some? {
      var f := Lowest(m.refs, m.start).value;
      MapPageInv(m, p, v, f, residue);
      MapPageStep(m, p, v, f, residue);
      MapPageRefs(m, p, v, f, residue);
      hide Inv, Core, MapPage, Reads;
    }
  }

  lemma MapPageRefs(m: Mem, p: nat, v: nat, f: nat, residue: Page)
    requires HasTable(m, p, v / PAGE_ENTRIES) && f < |m.refs|
    ensures var n := MapPage(m, p, v, f, residue);
      n.refs == m.refs[f := 1] && n.free == m.free - 1 && n.start == m.start
  {
  }

  // Frames that an access needs before it can go through.
  function Needed(m: Mem, p: nat, v: nat, write: bool): nat
    requires p in m.spaces
  {
    if Permitted(m, p, v, write) then 0
    else if Mapped(m, p, v) then
      if FrameOf(m, p, v) < |m.refs| && m.refs[FrameOf(m, p, v)] == 1 then 0 else 1
    else if v / PAGE_ENTRIES in m.spaces[p].dir then 1 else 2
  }

  predicate UserArea(vaddr: nat, brk: nat) {
    vaddr < brk || USER_STACK_BOTTOM < vaddr < USER_STACK_TOP
  }

  lemma WriteFaultStep(m: Mem, p: nat, v: nat)
    requires Inv(m) && Mapped(m, p, v)
    ensures FrameOf(m, p, v) < |m.refs|
    ensures var r := WriteFault(m, p, v);
      && (r.None? <==> m.free == 0 && m.refs[FrameOf(m, p, v)] != 1)
      && (r.Some? ==> var n := r.value;
            && Inv(n) && SameLimits(m, n) && Permitted(n, p, v, true)
            && n.free == m.free - (if m.refs[FrameOf(m, p, v)] == 1 then 0 else 1)
            && (m.refs[FrameOf(m, p, v)] == 1 ==> FrameOf(n, p, v) == FrameOf(m, p, v))
            && (m.refs[FrameOf(m, p, v)] != 1 ==> NoneBelow(n, FrameOf(n, p, v)))
            && ReadsBut(m, n, p, v) && Reads(n, p, v) == Reads(m, p, v))
  {
    var g := FrameOf(m, p, v);
    assert Names(m, AtPage(p, v), g);
    CountOne(m, AtPage(p, v), g);
    LowestFree(m);
    if m.refs[g] == 1 {
      MakeWritableInv(m, p, v);
    } else if m.free > 0 {
      CopyPageInv(m, p, v, Lowest(m.refs, m.start).value);
    }
  }

  // An access halts exactly when it is in the kernel's area, or outside the task's heap and stack,
  // or frames ran out; otherwise it only changes how the task's own page is mapped, and takes just
  // the frames it needs.
  lemma AccessStep(m: Mem, p: nat, vaddr: nat, write: bool, residue: Page)
    requires Inv(m) && p in m.spaces
    ensures var v, r := vaddr / PAGE_SIZE, Access(m, p, vaddr, write, residue);
      && (r.None? <==>
            || vaddr < KERNEL_MEMORY_SIZE
            || (!Mapped(m, p, v) && !UserArea(vaddr, m.spaces[p].brk))
            || m.free < Needed(m, p, v, write))
      && (r.Some? ==> var n := r.value;
            && Inv(n) && SameLimits(m, n) && Permitted(n, p, v, write)
            && n.free == m.free - Needed(m, p, v, write) && ReadsBut(m, n, p, v)
            && Reads(n, p, v) == if Mapped(m, p, v) then Reads(m, p, v) else Some(residue))
  {
    var v := vaddr / PAGE_SIZE;
    LowestFree(m);
    assert LegalAt(m, p, v);
    if Permitted(m, p, v, write) {
    } else if Mapped(m, p, v) {
      assert Names(m, AtPage(p, v), FrameOf(m, p, v));
      WriteFaultStep(m, p, v);
    } else if KERNEL_MEMORY_SIZE <= vaddr && UserArea(vaddr, m.spaces[p].brk) {
      assert LegalPage(v, m.spaces[p].brk);
      LinkPageStep(m, p, v, residue);
    }
  }

  // A first touch of the lowest page of the stack halts at its first byte, and there only.
  lemma StackBottom(m: Mem, p: nat, vaddr: nat, write: bool, residue: Page)
    requires Inv(m) && p in m.spaces && vaddr / PAGE_SIZE == USER_STACK_BOTTOM / PAGE_SIZE
    requires !Mapped(m, p, vaddr / PAGE_SIZE) && m.free >= 2
    ensures Access(m, p, vaddr, write, residue).None? <==> vaddr == USER_STACK_BOTTOM
  {
    AccessStep(m, p, vaddr, write, residue);
    assert Legal(m);
    hide Inv, Access, Reads, ReadsBut, Mapped;
  }

  // With the same tables and counters every reference and every count is the same.
  lemma SameRefsCore(m: Mem, n: Mem)
    requires Core(m) && SameDirs(m, n) && n.tables == m.tables
    requires n.refs == m.refs && n.start == m.start && n.free == m.free
    requires forall f: nat :: f in m.data ==> f in n.data
    ensures Shape(n) && Unique(n) && Exact(n) && Solo(n)
    ensures forall q: nat, v: nat :: SameEntry(m, n, q, v)
  {
    forall q: nat, v: nat ensures SameEntry(m, n, q, v) {}
    forall r, g: nat ensures Names(n, r, g) <==> Names(m, r, g) {
      if r.AtPage? { assert SameEntry(m, n, r.pid, r.page); }
    }
    forall g | KERNEL_PAGES <= g < |n.refs| ensures Counted(n, g) {
      assert Counted(m, g) && Refs(n, g) == Refs(m, g);
    }
    assert FreeFrames(n) == FreeFrames(m);
    forall q: nat, v: nat ensures SoloAt(n, q, v) { assert SoloAt(m, q, v) && SameEntry(m, n, q, v); }
  }

  // A permitted store changes one byte of one page of one task.
  lemma StoreStep(m: Mem, p: nat, vaddr: nat, b: u8)
    requires Inv(m) && Permitted(m, p, vaddr / PAGE_SIZE, true)
    ensures FrameOf(m, p, vaddr / PAGE_SIZE) in m.data
    ensures var v, n := vaddr / PAGE_SIZE, Store(m, p, vaddr, b);
      && Inv(n) && SameLimits(m, n) && ReadsBut(m, n, p, v)
      && Reads(n, p, v) == Some(Reads(m, p, v).value[vaddr % PAGE_SIZE := b])
  {
    var v := vaddr / PAGE_SIZE;
    var f := FrameOf(m, p, v);
    assert Names(m, AtPage(p, v), f);
    assert SoloAt(m, p, v);
    var n := Store(m, p, vaddr, b);
    SameRefsCore(m, n);
    CountOne(m, AtPage(p, v), f);
    forall q: nat, w: nat | (q, w) != (p, v) ensures Reads(n, q, w) == Reads(m, q, w) {
      if Mapped(m, q, w) {
        assert Names(m, AtPage(q, w), FrameOf(m, q, w));
      }
    }
    forall q | q in n.spaces ensures VmapAgrees(n, q) { assert VmapAgrees(m, q); }
    forall q: nat, w: nat ensures LegalAt(n, q, w) { assert LegalAt(m, q, w); }
  }
}
