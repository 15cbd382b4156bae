/**
  fork: when it halts, what it keeps, and what tasks read after it.
 */
module ForkProofs {
  import opened AddressSpaces
  import opened PageOps
  import opened PageLemmas
  import opened PageSteps
  import opened ForkSteps
  import opened UserSpace
  import opened FaultProofs
  import opened Wrappers

  // What page v of task q maps to once the tables of p below d are shared with c.
  ghost predicate ForkedAt(m0: Mem, m: Mem, p: nat, c: nat, d: nat, q: nat, v: nat) {
    Target(m, q, v) ==
      if q != c then Target(m0, q, v) else if v / PAGE_ENTRIES < d then Target(m0, p, v) else None
  }

  ghost predicate ForkedAll(m0: Mem, m: Mem, p: nat, c: nat, d: nat) {
    forall q: nat, v: nat :: ForkedAt(m0, m, p, c, d, q, v)
  }

  // m0 is the parent's state with an empty child c; tables below d have been shared.
  ghost predicate Forking(m0: Mem, m: Mem, p: nat, c: nat, d: nat) {
    && Core(m) && p in m0.spaces && c in m0.spaces && c != p && m.spaces.Keys == m0.spaces.Keys
    && |m.spaces| <= NUM_TASKS
    && (forall q :: q in m.spaces && q != c ==> m.spaces[q] == m0.spaces[q])
    && m.spaces[c].brk == m.spaces[p].brk
    && (forall e :: e in m.spaces[c].dir <==> e in m.spaces[p].dir && e < d)
    && m.data == m0.data
    && ForkedAll(m0, m, p, c, d)
  }

  lemma ForkingTable(m0: Mem, m: Mem, p: nat, c: nat, d: nat, f: nat)
    requires Forking(m0, m, p, c, d) && d in m.spaces[p].dir && Fresh(m, f)
    ensures HasTable(m, p, d) && Room(m.refs, TableOf(m, p, d))
    ensures Forking(m0, ForkTable(m, p, c, d, f), p, c, d + 1)
    ensures ForkTable(m, p, c, d, f).free == m.free - 1
  {
    TableNames(m, p, d);
    ForkRoom(m, p, d);
    ForkTableCore(m, p, c, d, f);
    ForkTableEntries(m, p, c, d, f);
    ForkingTargets(m0, m, p, c, d, f);
  }

  lemma ForkingTargets(m0: Mem, m: Mem, p: nat, c: nat, d: nat, f: nat)
    requires Forking(m0, m, p, c, d) && HasTable(m, p, d) && Fresh(m, f) && Room(m.refs, TableOf(m, p, d))
    ensures ForkedAll(m0, ForkTable(m, p, c, d, f), p, c, d + 1)
  {
    var n := ForkTable(m, p, c, d, f);
    ForkTableEntries(m, p, c, d, f);
    var next := d + 1;
    forall q: nat, v: nat ensures ForkedAt(m0, n, p, c, next, q, v) {
      var e := v / PAGE_ENTRIES;
      assert ForkedAt(m0, m, p, c, d, q, v) && ForkedAt(m0, m, p, c, d, p, v);
      if (q, e) != (p, d) && (q, e) != (c, d) {
        assert SameEntry(m, n, q, v);
      }
    }
  }

  lemma ForkingSkip(m0: Mem, m: Mem, p: nat, c: nat, d: nat)
    requires Forking(m0, m, p, c, d) && d !in m.spaces[p].dir
    ensures Forking(m0, m, p, c, d + 1)
    ensures d < LAST_TABLE ==> ForkDir(m, p, c, d) == ForkDir(m, p, c, d + 1)
  {
    var next := d + 1;
    forall q: nat, v: nat ensures ForkedAt(m0, m, p, c, next, q, v) {
      assert ForkedAt(m0, m, p, c, d, q, v) && ForkedAt(m0, m, p, c, d, p, v);
    }
  }

  ghost function TablesFrom(dir: map<nat, nat>, d: nat): set<nat> {
    set e | e in dir && d <= e
  }

  // One round of copy_pgdir on a present table: its assertions hold, and it panics
  // exactly when no frame is left for the child's copy of the table.
  lemma ForkRound(m0: Mem, m: Mem, p: nat, c: nat, d: nat) returns (n: Mem)
    requires Forking(m0, m, p, c, d) && d in m.spaces[p].dir
    ensures d < LAST_TABLE && m.free >= 0
    ensures m.free == 0 ==> ForkDir(m, p, c, d).None?
    ensures m.free > 0 ==>
      && Forking(m0, n, p, c, d + 1) && n.free == m.free - 1
      && p in n.spaces && c in n.spaces && n.spaces[p] == m.spaces[p]
      && ForkDir(m, p, c, d) == ForkDir(n, p, c, d + 1)
  {
    LowestFree(m);
    TableNames(m, p, d);
    ForkRoom(m, p, d);
    ShareZeros(m, p, d);
    n := m;
    if m.free > 0 {
      var f := Lowest(m.refs, m.start).value;
      ForkingTable(m0, m, p, c, d, f);
      n := ForkTable(m, p, c, d, f);
    }
  }

  lemma TablesFromNext(dir: map<nat, nat>, d: nat)
    ensures d !in dir ==> TablesFrom(dir, d) == TablesFrom(dir, d + 1)
    ensures d in dir ==> |TablesFrom(dir, d)| == |TablesFrom(dir, d + 1)| + 1
  {
    if d in dir {
      assert TablesFrom(dir, d) == {d} + TablesFrom(dir, d + 1);
    } else {
      assert TablesFrom(dir, d) == TablesFrom(dir, d + 1);
    }
  }

  lemma ForkDirEnd(m0: Mem, m: Mem, p: nat, c: nat, d: nat)
    requires Forking(m0, m, p, c, d)
    ensures p in m.spaces && c in m.spaces && m.free >= 0
    ensures d >= LAST_TABLE ==> ForkDir(m, p, c, d) == Some(m) && |TablesFrom(m.spaces[p].dir, d)| == 0
    ensures d == LAST_TABLE ==> Forking(m0, m, p, c, LAST_TABLE)
    ensures d !in m.spaces[p].dir ==> TablesFrom(m.spaces[p].dir, d) == TablesFrom(m.spaces[p].dir, d + 1)
    ensures d in m.spaces[p].dir ==> |TablesFrom(m.spaces[p].dir, d)| == |TablesFrom(m.spaces[p].dir, d + 1)| + 1
  {
    LowestFree(m);
    TablesFromNext(m.spaces[p].dir, d);
    if d >= LAST_TABLE { assert TablesFrom(m.spaces[p].dir, d) == {}; }
    hide Forking, Core, TablesFrom;
  }

  lemma {:induction false} ForkDirEnough(m0: Mem, m: Mem, p: nat, c: nat, d: nat)
    requires p in m.spaces && c in m.spaces && Forking(m0, m, p, c, d)
    ensures ForkDir(m, p, c, d).None? <==> m.free < |TablesFrom(m.spaces[p].dir, d)|
    ensures ForkDir(m, p, c, d).Some? ==> ForkDir(m, p, c, d).value.free == m.free - |TablesFrom(m.spaces[p].dir, d)|
    decreases LAST_TABLE - d
  {
    hide *;
    ForkDirEnd(m0, m, p, c, d);
    if d < LAST_TABLE {
      if d !in m.spaces[p].dir {
        ForkingSkip(m0, m, p, c, d);
        ForkDirEnough(m0, m, p, c, d + 1);
      } else {
        var n := ForkRound(m0, m, p, c, d);
        if m.free > 0 { ForkDirEnough(m0, n, p, c, d + 1); }
      }
    }
  }

  lemma {:induction false} ForkDirStep(m0: Mem, m: Mem, p: nat, c: nat, d: nat, r: Mem)
    requires p in m.spaces && c in m.spaces && Forking(m0, m, p, c, d)
    requires d <= LAST_TABLE && ForkDir(m, p, c, d) == Some(r)
    ensures Forking(m0, r, p, c, LAST_TABLE)
    decreases LAST_TABLE - d
  {
    hide *;
    ForkDirEnd(m0, m, p, c, d);
    if d < LAST_TABLE {
      if d !in m.spaces[p].dir {
        ForkingSkip(m0, m, p, c, d);
        ForkDirStep(m0, m, p, c, d + 1, r);
      } else {
        var n := ForkRound(m0, m, p, c, d);
        ForkDirStep(m0, n, p, c, d + 1, r);
      }
    }
  }

  // Sharing a table frees and takes no frame, so alloc_page finds what it would have found before.
  lemma ShareZeros(m: Mem, p: nat, d: nat)
    requires HasTable(m, p, d) && Room(m.refs, TableOf(m, p, d))
    ensures Lowest(ShareTable(m, p, d).refs, m.start) == Lowest(m.refs, m.start)
  {
    var rs := ShareTable(m, p, d).refs;
    forall g | 0 <= g < |m.refs| ensures rs[g] == 0 <==> m.refs[g] == 0 {}
    LowestSame(m.refs, rs, m.start);
  }

  lemma {:induction false} LowestSame(a: seq<u8>, b: seq<u8>, i: nat)
    requires |a| == |b| && forall g :: 0 <= g < |a| ==> (a[g] == 0 <==> b[g] == 0)
    ensures Lowest(a, i) == Lowest(b, i)
    decreases |a| - i
  {
    if i < |a| { LowestSame(a, b, i + 1); }
  }

  lemma AddSpaceCore(m: Mem, p: nat, c: nat)
    requires Inv(m) && p in m.spaces && c !in m.spaces && |m.spaces| < NUM_TASKS
    ensures Forking(AddSpace(m, p, c), AddSpace(m, p, c), p, c, KERNEL_TABLES)
    ensures forall q: nat, v: nat :: SameEntry(m, AddSpace(m, p, c), q, v)
  {
    var n := AddSpace(m, p, c);
    forall q: nat, v: nat ensures SameEntry(m, n, q, v) {}
    forall r, g: nat ensures Names(n, r, g) <==> Names(m, r, g) {
      if r.AtPage? { assert SameEntry(m, n, r.pid, r.page); }
    }
    forall g | KERNEL_PAGES <= g < |n.refs| ensures Counted(n, g) {
      assert Counted(m, g) && Refs(n, g) == Refs(m, g);
    }
    assert FreeFrames(n) == FreeFrames(m);
    forall q: nat, v: nat ensures SoloAt(n, q, v) && LegalAt(n, q, v) {
      assert SoloAt(m, q, v) && LegalAt(m, q, v) && SameEntry(m, n, q, v);
    }
    forall q: nat, v: nat ensures ForkedAt(n, n, p, c, KERNEL_TABLES, q, v) {
      if Mapped(n, p, v) { assert LegalAt(m, p, v); }
    }
  }

  lemma ForkTargets(m: Mem, m0: Mem, m1: Mem, p: nat, c: nat, q: nat, v: nat)
    requires p in m.spaces && m0 == AddSpace(m, p, c) && Legal(m) && Forking(m0, m1, p, c, LAST_TABLE)
    requires SameEntry(m, m0, p, v) && SameEntry(m, m0, q, v)
    ensures Target(SetVmap(m1, c, m.spaces[p].vmap), q, v) == Target(m, if q == c then p else q, v)
  {
    assert ForkedAt(m0, m1, p, c, LAST_TABLE, q, v) && LegalAt(m, p, v);
  }

  lemma CoreLegal(m: Mem)
    requires Core(m)
    ensures Legal(m)
  {
  }

  lemma SetVmapCore(m: Mem, c: nat, vmap: set<nat>)
    requires Core(m) && c in m.spaces
    ensures Core(SetVmap(m, c, vmap))
  {
    var n := SetVmap(m, c, vmap);
    SameRefsCore(m, n);
    forall q: nat, v: nat ensures LegalAt(n, q, v) {
      assert SameEntry(m, n, q, v) && LegalAt(m, q, v);
    }
  }

  lemma ForkFinish(m: Mem, m0: Mem, m1: Mem, p: nat, c: nat)
    requires Inv(m) && p in m.spaces && c !in m.spaces && |m.spaces| < NUM_TASKS
    requires m0 == AddSpace(m, p, c) && Forking(m0, m1, p, c, LAST_TABLE)
    requires forall q: nat, v: nat :: SameEntry(m, m0, q, v)
    ensures Inv(SetVmap(m1, c, m.spaces[p].vmap))
  {
    hide Core;
    var n := SetVmap(m1, c, m.spaces[p].vmap);
    SetVmapCore(m1, c, m.spaces[p].vmap);
    forall q | q in n.spaces ensures VmapAgrees(n, q) {
      assert VmapAgrees(m, if q == c then p else q);
      forall v: nat ensures v in n.spaces[q].vmap <==> Mapped(n, q, v) {
        CoreLegal(m);
        ForkTargets(m, m0, m1, p, c, q, v);
      }
    }
  }

  // Task c of n is a copy of task p of m, and every other task is as in m.
  ghost predicate Cloned(m: Mem, n: Mem, p: nat, c: nat)
    requires p in m.spaces
  {
    && n.spaces.Keys == m.spaces.Keys + {c}
    && (forall q :: q in n.spaces ==> n.spaces[q].brk == m.spaces[if q == c then p else q].brk)
    && (forall q: nat, v: nat :: Reads(n, q, v) == Reads(m, if q == c then p else q, v))
  }

  // fork halts exactly when the free frames do not cover the parent's page tables; otherwise
  // the child reads what the parent reads, nobody's reads change, and no other frame is taken.
  lemma ForkStep(m: Mem, p: nat, c: nat)
    requires Inv(m) && p in m.spaces && c !in m.spaces && |m.spaces| < NUM_TASKS
    ensures Fork(m, p, c).None? <==> m.free < |m.spaces[p].dir|
    ensures Fork(m, p, c).Some? ==> Inv(Fork(m, p, c).value) && Cloned(m, Fork(m, p, c).value, p, c)
    ensures Fork(m, p, c).Some? ==> Fork(m, p, c).value.free == m.free - |m.spaces[p].dir|
  {
    var m0 := AddSpace(m, p, c);
    AddSpaceCore(m, p, c);
    ForkDirEnough(m0, m0, p, c, KERNEL_TABLES);
    assert TablesFrom(m.spaces[p].dir, KERNEL_TABLES) == m.spaces[p].dir.Keys;
    CoreLegal(m);
    hide Inv, Core, Legal;
    var r := ForkDir(m0, p, c, KERNEL_TABLES);
    if r.Some? {
      ForkDirStep(m0, m0, p, c, KERNEL_TABLES, r.value);
      ForkFinish(m, m0, r.value, p, c);
      ForkCloned(m, m0, r.value, p, c);
    }
  }

  lemma ForkReads(m: Mem, m0: Mem, m1: Mem, p: nat, c: nat, q: nat, v: nat)
    requires p in m.spaces && Legal(m) && m0 == AddSpace(m, p, c) && Forking(m0, m1, p, c, LAST_TABLE)
    requires SameEntry(m, m0, p, v) && SameEntry(m, m0, q, v) && c in m1.spaces && m1.data == m.data
    ensures Reads(SetVmap(m1, c, m.spaces[p].vmap), q, v) == Reads(m, if q == c then p else q, v)
  {
    ForkTargets(m, m0, m1, p, c, q, v);
    hide Legal, Forking, SameEntry;
  }

  lemma ForkLimits(m: Mem, m0: Mem, m1: Mem, p: nat, c: nat)
    requires p in m.spaces && c !in m.spaces && m0 == AddSpace(m, p, c) && Forking(m0, m1, p, c, LAST_TABLE)
    ensures c in m1.spaces && m1.data == m.data && m1.spaces.Keys == m.spaces.Keys + {c}
    ensures forall q :: q in m1.spaces ==> m1.spaces[q].brk == m.spaces[if q == c then p else q].brk
  {
    hide Core, ForkedAll;
  }

  lemma ForkCloned(m: Mem, m0: Mem, m1: Mem, p: nat, c: nat)
    requires Legal(m) && p in m.spaces && c !in m.spaces
    requires m0 == AddSpace(m, p, c) && Forking(m0, m1, p, c, LAST_TABLE)
    requires forall q: nat, v: nat :: SameEntry(m, m0, q, v)
    ensures Cloned(m, SetVmap(m1, c, m.spaces[p].vmap), p, c)
  {
    hide Legal, Forking, SameEntry, Reads, AddSpace;
    ForkLimits(m, m0, m1, p, c);
    var n := SetVmap(m1, c, m.spaces[p].vmap);
    forall q: nat, v: nat ensures Reads(n, q, v) == Reads(m, if q == c then p else q, v) {
      ForkReads(m, m0, m1, p, c, q, v);
    }
  }
}
