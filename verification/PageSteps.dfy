/**
  The single page operations keep the invariant, and what each task then reads.
 */
module PageSteps {
  import opened AddressSpaces
  import opened PageOps
  import opened PageLemmas
  import opened Wrappers

  // The page that task p reads at virtual page v.
  function Reads(m: Mem, p: nat, v: nat): Option<Page> {
    if Mapped(m, p, v) && FrameOf(m, p, v) in m.data then Some(m.data[FrameOf(m, p, v)]) else None
  }

  // Bits 22 to 31 of an address choose the page table, bits 12 to 21 the entry in it, and the rest
  // the byte in the page.
  lemma Translation(m: Mem, p: nat, vaddr: nat)
    requires p in m.spaces
    ensures var v, dir := vaddr / PAGE_SIZE, m.spaces[p].dir;
      Mapped(m, p, v) <==>
        && vaddr / 0x40_0000 in dir && dir[vaddr / 0x40_0000] in m.tables
        && m.tables[dir[vaddr / 0x40_0000]][vaddr / 0x1000 % 0x400].present
    ensures Mapped(m, p, vaddr / PAGE_SIZE) ==>
      FrameOf(m, p, vaddr / PAGE_SIZE) == m.tables[m.spaces[p].dir[vaddr / 0x40_0000]][vaddr / 0x1000 % 0x400].index
  {
    assert vaddr / 0x1000 / 0x400 == vaddr / 0x40_0000;
  }

  lemma TableNames(m: Mem, p: nat, d: nat)
    requires Core(m) && p in m.spaces && d in m.spaces[p].dir
    ensures HasTable(m, p, d)
    ensures Names(m, AtTable(p, d), m.spaces[p].dir[d])
    ensures KERNEL_PAGES <= m.spaces[p].dir[d] < |m.refs| && m.refs[m.spaces[p].dir[d]] == 1
  {
    var f := m.spaces[p].dir[d];
    assert Names(m, AtTable(p, d), f);
    CountOne(m, AtTable(p, d), f);
    forall q | Names(m, q, f) ensures q == AtTable(p, d) {
      assert SamePlace(q, AtTable(p, d));
    }
  }

  // ---------- a new page table ----------

  // No entry of the table is present.
  predicate Blank(t: Table) {
    forall e :: 0 <= e < PAGE_ENTRIES ==> !t[e].present
  }

  lemma NewTableNames(m: Mem, p: nat, d: nat, f: nat, t: Table)
    requires Core(m) && p in m.spaces && d !in m.spaces[p].dir && Fresh(m, f) && Blank(t)
    ensures var n := NewTable(m, p, d, f, t);
      && (forall q :: SameEntries(m, n, q))
      && forall r, g: nat :: Names(n, r, g) <==> Names(m, r, g) || (r == AtTable(p, d) && g == f)
  {
    var n := NewTable(m, p, d, f, t);
    CountZero(m, f);
    forall q: nat, v: nat ensures SameEntry(m, n, q, v) {
      if HasTable(m, q, v / PAGE_ENTRIES) {
        assert Names(m, AtTable(q, v / PAGE_ENTRIES), m.spaces[q].dir[v / PAGE_ENTRIES]);
      }
    }
    forall r, g: nat ensures Names(n, r, g) <==> Names(m, r, g) || (r == AtTable(p, d) && g == f) {
      if r.AtPage? { assert SameEntry(m, n, r.pid, r.page); }
    }
  }

  lemma NewTableCore(m: Mem, p: nat, d: nat, f: nat, t: Table)
    requires Core(m) && p in m.spaces && d !in m.spaces[p].dir && Fresh(m, f) && Blank(t)
    requires KERNEL_TABLES <= d < LAST_TABLE
    ensures Core(NewTable(m, p, d, f, t))
  {
    var n := NewTable(m, p, d, f, t);
    NewTableNames(m, p, d, f, t);
    CountZero(m, f);
    assert Shape(n);
    forall g | KERNEL_PAGES <= g < |n.refs| ensures Counted(n, g) {
      assert Counted(m, g);
      CountDelta(m, n, g, if g == f then {AtTable(p, d)} else {}, {});
    }
    FreeDelta(m, n, f);
    forall q: nat, v: nat ensures LegalAt(n, q, v) && SoloAt(n, q, v) {
      assert LegalAt(m, q, v) && SoloAt(m, q, v);
      assert SameEntries(m, n, q) && SameEntry(m, n, q, v);
    }
  }

  // get_pte does not clear the frame: the table t is what the frame held before. The invariant is
  // kept exactly when none of it reads as a present entry.
  lemma NewTableInv(m: Mem, p: nat, d: nat, f: nat, t: Table)
    requires Inv(m) && p in m.spaces && d !in m.spaces[p].dir && Fresh(m, f)
    requires KERNEL_TABLES <= d < LAST_TABLE
    ensures Inv(NewTable(m, p, d, f, t)) <==> Blank(t)
  {
    var n := NewTable(m, p, d, f, t);
    if Blank(t) {
      NewTableNames(m, p, d, f, t);
      NewTableCore(m, p, d, f, t);
      hide Core;
      forall q | q in n.spaces ensures VmapAgrees(n, q) {
        assert VmapAgrees(m, q) && SameEntries(m, n, q);
        forall v: nat ensures v in n.spaces[q].vmap <==> Mapped(n, q, v) { assert SameEntry(m, n, q, v); }
      }
    } else {
      hide Core;
      var e :| 0 <= e < PAGE_ENTRIES && t[e].present;
      var v := d * PAGE_ENTRIES + e;
      assert v / PAGE_ENTRIES == d && v % PAGE_ENTRIES == e;
      assert Mapped(n, p, v) && !Mapped(m, p, v) && VmapAgrees(m, p);
      assert !VmapAgrees(n, p);
    }
  }

  // ---------- one page ----------

  lemma MapPageStep(m: Mem, p: nat, v: nat, f: nat, residue: Page)
    requires Core(m) && HasTable(m, p, v / PAGE_ENTRIES) && !Mapped(m, p, v) && Fresh(m, f)
    requires v < VIRTUAL_PAGES && LegalPage(v, m.spaces[p].brk)
    ensures var n := MapPage(m, p, v, f, residue);
      && EntryStep(m, n, p, v) && Core(n)
      && Mapped(n, p, v) && FrameOf(n, p, v) == f && EntryOf(n, p, v).write
  {
    var n := MapPage(m, p, v, f, residue);
    EntryWritten(m, n, p, v, Entry(true, true, f));
    FreeDelta(m, n, f);
    EntryCore(m, n, p, v);
  }

  lemma UnmapPageStep(m: Mem, p: nat, v: nat)
    requires Core(m) && Mapped(m, p, v)
    ensures FrameOf(m, p, v) < |m.refs| && m.refs[FrameOf(m, p, v)] >= 1
    ensures var n := UnmapPage(m, p, v);
      EntryStep(m, n, p, v) && Core(n) && !Mapped(n, p, v)
  {
    var f := FrameOf(m, p, v);
    assert Names(m, AtPage(p, v), f);
    CountOne(m, AtPage(p, v), f);
    var e := EntryOf(m, p, v);
    var n := UnmapPage(m, p, v);
    EntryWritten(m, n, p, v, e.(present := false));
    FreeDelta(m, n, f);
    EntryCore(m, n, p, v);
  }

  lemma CopyPageStep(m: Mem, p: nat, v: nat, f: nat)
    requires Core(m) && Mapped(m, p, v) && Fresh(m, f)
    requires FrameOf(m, p, v) < |m.refs| && m.refs[FrameOf(m, p, v)] > 1
    ensures FrameOf(m, p, v) in m.data
    ensures var n := CopyPage(m, p, v, f);
      && EntryStep(m, n, p, v) && Core(n)
      && Mapped(n, p, v) && FrameOf(n, p, v) == f && EntryOf(n, p, v).write
  {
    var g := FrameOf(m, p, v);
    assert Names(m, AtPage(p, v), g);
    CountZero(m, f);
    var n := CopyPage(m, p, v, f);
    EntryWritten(m, n, p, v, Entry(true, true, f));
    assert FreeFrames(n) == FreeFrames(m) - {f};
    assert LegalAt(m, p, v);
    EntryCore(m, n, p, v);
  }

  function MakeWritable(m: Mem, p: nat, v: nat): Mem
    requires Mapped(m, p, v)
  {
    SetEntry(m, p, v, EntryOf(m, p, v).(write := true))
  }

  lemma MakeWritableStep(m: Mem, p: nat, v: nat)
    requires Core(m) && Mapped(m, p, v)
    requires FrameOf(m, p, v) < |m.refs| && m.refs[FrameOf(m, p, v)] == 1
    ensures var n := MakeWritable(m, p, v);
      && EntryStep(m, n, p, v) && Core(n)
      && Mapped(n, p, v) && FrameOf(n, p, v) == FrameOf(m, p, v) && EntryOf(n, p, v).write
  {
    var n := MakeWritable(m, p, v);
    EntryWritten(m, n, p, v, EntryOf(m, p, v).(write := true));
    assert Names(m, AtPage(p, v), FrameOf(m, p, v));
    assert FreeFrames(n) == FreeFrames(m);
    assert LegalAt(m, p, v);
    EntryCore(m, n, p, v);
  }

  // A change to one entry leaves every other page as it reads, if data only changes in free frames.
  lemma EntryReads(m: Mem, n: Mem, p: nat, w: nat)
    requires Core(m) && EntryStep(m, n, p, w)
    requires forall f :: f in m.data && n.data[f] != m.data[f] ==> Fresh(m, f)
    ensures forall q: nat, v: nat :: (q, v) != (p, w) ==> Reads(n, q, v) == Reads(m, q, v)
  {
    forall q: nat, v: nat | (q, v) != (p, w) ensures Reads(n, q, v) == Reads(m, q, v) {
      assert SameEntry(m, n, q, v);
      if Mapped(m, q, v) {
        var f := FrameOf(m, q, v);
        assert Names(m, AtPage(q, v), f);
        if Fresh(m, f) { CountZero(m, f); }
      }
    }
  }
}
