/**
  exit gives back every frame the task held and leaves every other task alone.
 */
module ExitProofs {
  import opened AddressSpaces
  import opened PageOps
  import opened PageLemmas
  import opened PageSteps
  import opened ForkSteps
  import opened UserSpace
  import opened FaultProofs
  import opened BrkProofs
  import opened Wrappers

  // Pages of p below v are gone; every other mapping is as in m0.
  ghost predicate DroppedAt(m0: Mem, m: Mem, p: nat, v: nat, q: nat, w: nat) {
    if q == p && w < v then !Mapped(m, q, w) else SameEntry(m0, m, q, w)
  }

  ghost predicate DroppedAll(m0: Mem, m: Mem, p: nat, v: nat) {
    forall q: nat, w: nat :: DroppedAt(m0, m, p, v, q, w)
  }

  ghost predicate Dropping(m0: Mem, m: Mem, p: nat, v: nat, d: nat) {
    && Core(m) && p in m.spaces && m.spaces.Keys == m0.spaces.Keys
    && (forall q :: q in m.spaces && q != p ==> m.spaces[q] == m0.spaces[q])
    && m.data == m0.data && m.start == m0.start && |m.refs| == |m0.refs|
    && (forall e :: e in m.spaces[p].dir <==> e in m0.spaces[p].dir && d <= e)
    && (forall e :: e in m.spaces[p].dir ==> m.spaces[p].dir[e] == m0.spaces[p].dir[e])
    && DroppedAll(m0, m, p, v)
  }

  lemma DropOnePage(m0: Mem, m: Mem, p: nat, d: nat, v: nat)
    requires Dropping(m0, m, p, v, d) && Mapped(m, p, v)
    ensures FrameOf(m, p, v) < |m.refs| && m.refs[FrameOf(m, p, v)] >= 1
    ensures Dropping(m0, UnmapPage(m, p, v), p, v + 1, d)
    ensures UnmapPage(m, p, v).spaces[p].dir == m.spaces[p].dir
  {
    FreePageOfUnmap(m, p, v);
    var n := UnmapPage(m, p, v);
    var next := v + 1;
    forall q: nat, w: nat ensures DroppedAt(m0, n, p, next, q, w) {
      assert DroppedAt(m0, m, p, v, q, w);
      if (q, w) != (p, v) { assert SameEntry(m, n, q, w); }
    }
  }

  lemma DropNoPage(m0: Mem, m: Mem, p: nat, d: nat, v: nat)
    requires Dropping(m0, m, p, v, d) && !Mapped(m, p, v)
    ensures Dropping(m0, m, p, v + 1, d)
  {
    var next := v + 1;
    forall q: nat, w: nat ensures DroppedAt(m0, m, p, next, q, w) {
      assert DroppedAt(m0, m, p, v, q, w);
    }
  }

  // One round of free_pgdir's inner loop; free_page's assertions hold.
  lemma DropRound(m0: Mem, m: Mem, p: nat, d: nat, t: nat) returns (n: Mem)
    requires t < PAGE_ENTRIES && Dropping(m0, m, p, Vpn(d, t), d)
    ensures Dropping(m0, n, p, d * PAGE_ENTRIES + t + 1, d)
    ensures p in m.spaces && p in n.spaces && n.spaces[p].dir == m.spaces[p].dir
    ensures DropPages(m, p, d, t) == DropPages(n, p, d, t + 1)
  {
    var v := Vpn(d, t);
    if Mapped(m, p, v) {
      DropOnePage(m0, m, p, d, v);
      FreePageOfUnmap(m, p, v);
      n := UnmapPage(m, p, v);
    } else {
      DropNoPage(m0, m, p, d, v);
      n := m;
    }
  }

  lemma DropPagesEnd(m: Mem, p: nat, d: nat)
    requires p in m.spaces
    ensures DropPages(m, p, d, PAGE_ENTRIES) == Some(m)
  {
  }

  lemma {:induction false} DropPagesStep(m0: Mem, m: Mem, p: nat, d: nat, t: nat) returns (n: Mem)
    requires p in m.spaces && t <= PAGE_ENTRIES && Dropping(m0, m, p, d * PAGE_ENTRIES + t, d)
    ensures DropPages(m, p, d, t) == Some(n) && Dropping(m0, n, p, (d + 1) * PAGE_ENTRIES, d)
    ensures p in n.spaces && n.spaces[p].dir == m.spaces[p].dir
    decreases PAGE_ENTRIES - t
  {
    hide *;
    if t == PAGE_ENTRIES {
      DropPagesEnd(m, p, d);
      n := m;
    } else {
      assert Vpn(d, t) == d * PAGE_ENTRIES + t by { VpnIs(d, t); }
      var m1 := DropRound(m0, m, p, d, t);
      n := DropPagesStep(m0, m1, p, d, t + 1);
    }
  }

  lemma VpnIs(d: nat, t: nat)
    requires t < PAGE_ENTRIES
    ensures Vpn(d, t) == d * PAGE_ENTRIES + t
  {
  }

  lemma DropOneTable(m0: Mem, m: Mem, p: nat, d: nat)
    requires Dropping(m0, m, p, (d + 1) * PAGE_ENTRIES, d) && d in m.spaces[p].dir
    ensures m.spaces[p].dir[d] < |m.refs| && m.refs[m.spaces[p].dir[d]] >= 1
    ensures Dropping(m0, DropTable(m, p, d), p, (d + 1) * PAGE_ENTRIES, d + 1)
    ensures var s := m.spaces[p];
      && FreePage(m, s.dir[d]).Some?
      && FreePage(m, s.dir[d]).value.(spaces := m.spaces[p := s.(dir := s.dir - {d})]) == DropTable(m, p, d)
  {
    var end := (d + 1) * PAGE_ENTRIES;
    forall v: nat | v / PAGE_ENTRIES == d ensures !Mapped(m, p, v) {
      assert DroppedAt(m0, m, p, end, p, v);
    }
    TableNames(m, p, d);
    DropTableCore(m, p, d);
    DropTableNames(m, p, d);
    var n := DropTable(m, p, d);
    forall q: nat, w: nat ensures DroppedAt(m0, n, p, end, q, w) {
      assert DroppedAt(m0, m, p, end, q, w);
      assert SameEntries(m, n, q) && SameEntry(m, n, q, w);
    }
    FreeBelowTotal(n);
    LowestFree(m);
  }

  lemma DropNoTable(m0: Mem, m: Mem, p: nat, d: nat)
    requires Dropping(m0, m, p, d * PAGE_ENTRIES, d) && d !in m.spaces[p].dir
    ensures Dropping(m0, m, p, (d + 1) * PAGE_ENTRIES, d + 1)
  {
    var end := (d + 1) * PAGE_ENTRIES;
    var from := d * PAGE_ENTRIES;
    forall q: nat, w: nat ensures DroppedAt(m0, m, p, end, q, w) {
      assert DroppedAt(m0, m, p, from, q, w);
    }
  }

  // One round of free_pgdir's outer loop.
  lemma DropDirRound(m0: Mem, m: Mem, p: nat, d: nat) returns (n: Mem)
    requires d < LAST_TABLE && Dropping(m0, m, p, d * PAGE_ENTRIES, d)
    ensures p in m.spaces && p in n.spaces
    ensures Dropping(m0, n, p, (d + 1) * PAGE_ENTRIES, d + 1)
    ensures DropDir(m, p, d) == DropDir(n, p, d + 1)
  {
    if d in m.spaces[p].dir {
      var m1 := DropPagesStep(m0, m, p, d, 0);
      DropOneTable(m0, m1, p, d);
      n := DropTable(m1, p, d);
    } else {
      DropNoTable(m0, m, p, d);
      n := m;
    }
  }

  lemma DropDirEnd(m: Mem, p: nat)
    requires p in m.spaces
    ensures DropDir(m, p, LAST_TABLE) == Some(m)
  {
  }

  lemma {:induction false} DropDirStep(m0: Mem, m: Mem, p: nat, d: nat) returns (n: Mem)
    requires p in m.spaces && d <= LAST_TABLE && Dropping(m0, m, p, d * PAGE_ENTRIES, d)
    ensures DropDir(m, p, d) == Some(n) && Dropping(m0, n, p, LAST_TABLE * PAGE_ENTRIES, LAST_TABLE)
    decreases LAST_TABLE - d
  {
    hide *;
    if d == LAST_TABLE {
      DropDirEnd(m, p);
      n := m;
    } else {
      var m1 := DropDirRound(m0, m, p, d);
      n := DropDirStep(m0, m1, p, d + 1);
    }
  }

  function Exited(m: Mem, n: Mem, p: nat): Mem {
    Mem(m.start, n.refs, n.free, m.tables, m.data, m.spaces - {p})
  }

  lemma DropStart(m: Mem, p: nat)
    requires Inv(m) && p in m.spaces
    ensures Dropping(m, m, p, KERNEL_TABLES * PAGE_ENTRIES, KERNEL_TABLES)
  {
    var first := KERNEL_TABLES * PAGE_ENTRIES;
    forall q: nat, w: nat ensures DroppedAt(m, m, p, first, q, w) {
      if Mapped(m, q, w) { assert HasTable(m, q, w / PAGE_ENTRIES); }
    }
  }

  lemma ExitNames(m: Mem, n: Mem, p: nat)
    requires Core(m) && Dropping(m, n, p, LAST_TABLE * PAGE_ENTRIES, LAST_TABLE)
    ensures forall q: nat, v: nat :: q != p ==> SameEntry(m, Exited(m, n, p), q, v) && SameEntry(m, n, q, v)
    ensures forall r, g: nat :: Names(Exited(m, n, p), r, g) <==> Names(n, r, g)
    ensures forall r, g: nat :: Names(n, r, g) ==> r.pid != p
  {
    var x := Exited(m, n, p);
    var end := LAST_TABLE * PAGE_ENTRIES;
    forall q: nat, v: nat | q != p ensures SameEntry(m, x, q, v) && SameEntry(m, n, q, v) {
      assert DroppedAt(m, n, p, end, q, v);
    }
    forall r, g: nat ensures (Names(n, r, g) ==> r.pid != p) && (Names(x, r, g) <==> Names(n, r, g)) {
      if r.AtPage? {
        if r.pid != p { assert SameEntry(m, x, r.pid, r.page) && SameEntry(m, n, r.pid, r.page); }
        else { assert DroppedAt(m, n, p, end, p, r.page); }
      }
    }
  }

  lemma ExitCore(m: Mem, n: Mem, p: nat)
    requires Core(m) && Dropping(m, n, p, LAST_TABLE * PAGE_ENTRIES, LAST_TABLE)
    ensures Core(Exited(m, n, p))
  {
    var x := Exited(m, n, p);
    ExitNames(m, n, p);
    forall g | KERNEL_PAGES <= g < |x.refs| ensures Counted(x, g) {
      assert Counted(n, g) && Refs(x, g) == Refs(n, g);
    }
    assert FreeFrames(x) == FreeFrames(n);
    forall q: nat, v: nat ensures SoloAt(x, q, v) && LegalAt(x, q, v) {
      assert SoloAt(n, q, v) && LegalAt(m, q, v);
      if q != p { assert SameEntry(m, x, q, v); }
    }
  }

  // exit never halts: it returns the task's frames, and every other task keeps its pages.
  lemma ExitStep(m: Mem, p: nat)
    requires Inv(m) && p in m.spaces
    ensures Exit(m, p).Some? && Inv(Exit(m, p).value)
    ensures var n := Exit(m, p).value;
      && n.spaces == m.spaces - {p}
      && (forall q: nat, v: nat :: Reads(n, q, v) == if q == p then None else Reads(m, q, v))
  {
    DropStart(m, p);
    var n := DropDirStep(m, m, p, KERNEL_TABLES);
    ExitCore(m, n, p);
    ExitNames(m, n, p);
    ExitFinish(m, n, p);
  }

  lemma ExitFinish(m: Mem, n: Mem, p: nat)
    requires Inv(m) && p in m.spaces && Core(Exited(m, n, p))
    requires forall q: nat, v: nat :: q != p ==> SameEntry(m, Exited(m, n, p), q, v) && SameEntry(m, n, q, v)
    ensures Inv(Exited(m, n, p))
    ensures forall q: nat, v: nat :: Reads(Exited(m, n, p), q, v) == if q == p then None else Reads(m, q, v)
  {
    hide Core;
    var x := Exited(m, n, p);
    SubsetCard(x.spaces.Keys, m.spaces.Keys);
    forall q | q in x.spaces ensures VmapAgrees(x, q) {
      assert VmapAgrees(m, q);
      forall v: nat ensures v in x.spaces[q].vmap <==> Mapped(x, q, v) { assert SameEntry(m, x, q, v); }
    }
    forall q: nat, v: nat ensures Reads(x, q, v) == if q == p then None else Reads(m, q, v) {
      if q != p { assert SameEntry(m, x, q, v); }
    }
  }
}
