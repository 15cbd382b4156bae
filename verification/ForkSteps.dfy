/**
  Fork and exit, one page table at a time.
 */
module ForkSteps {
  import opened AddressSpaces
  import opened PageOps
  import opened PageLemmas
  import opened PageSteps

  // The conditions under which copy_pgdir handles table d for a child c.
  ghost predicate CanFork(m: Mem, p: nat, c: nat, d: nat, f: nat) {
    && Core(m) && HasTable(m, p, d) && c in m.spaces && c != p && d !in m.spaces[c].dir
    && m.spaces[c].brk == m.spaces[p].brk && |m.spaces| <= NUM_TASKS && Fresh(m, f)
  }

  // The assertions in copy_pgdir's inner loop hold: no counter is 0 or reaches 255.
  lemma ForkRoom(m: Mem, p: nat, d: nat)
    requires Core(m) && HasTable(m, p, d) && |m.spaces| <= NUM_TASKS
    ensures Room(m.refs, TableOf(m, p, d))
  {
    var t := TableOf(m, p, d);
    forall i | 0 <= i < PAGE_ENTRIES && t[i].present
      ensures t[i].index < |m.refs| && 0 < m.refs[t[i].index] < 254
    {
      var v := Vpn(d, i);
      assert Names(m, AtPage(p, v), t[i].index);
      CountOne(m, AtPage(p, v), t[i].index);
      CountBounded(m, t[i].index);
    }
  }

  lemma ForkTableEntries(m: Mem, p: nat, c: nat, d: nat, f: nat)
    requires CanFork(m, p, c, d, f) && Room(m.refs, TableOf(m, p, d))
    ensures var n := ForkTable(m, p, c, d, f);
      && (forall q: nat, v: nat ::
            (q, v / PAGE_ENTRIES) != (p, d) && (q, v / PAGE_ENTRIES) != (c, d) ==> SameEntry(m, n, q, v))
      && (forall v: nat :: v / PAGE_ENTRIES == d ==>
            && (Mapped(n, p, v) <==> Mapped(m, p, v)) && (Mapped(n, c, v) <==> Mapped(m, p, v))
            && (Mapped(m, p, v) ==> EntryOf(n, p, v) == EntryOf(n, c, v) == EntryOf(m, p, v).(write := false)))
  {
    var n := ForkTable(m, p, c, d, f);
    TableNames(m, p, d);
    CountZero(m, f);
    forall q: nat, v: nat | (q, v / PAGE_ENTRIES) != (p, d) && (q, v / PAGE_ENTRIES) != (c, d)
      ensures SameEntry(m, n, q, v)
    {
      var e := v / PAGE_ENTRIES;
      if HasTable(m, q, e) {
        assert Names(m, AtTable(q, e), m.spaces[q].dir[e]);
        assert !SamePlace(AtTable(q, e), AtTable(p, d));
      }
    }
  }

  lemma ForkTableNames(m: Mem, p: nat, c: nat, d: nat, f: nat)
    requires CanFork(m, p, c, d, f) && Room(m.refs, TableOf(m, p, d))
    ensures var n := ForkTable(m, p, c, d, f);
      forall r, g: nat :: Names(n, r, g) <==>
        || Names(m, r, g)
        || (r == AtTable(c, d) && g == f)
        || (r.AtPage? && r.pid == c && r.page / PAGE_ENTRIES == d && Names(m, AtPage(p, r.page), g))
  {
    var n := ForkTable(m, p, c, d, f);
    ForkTableEntries(m, p, c, d, f);
    forall r, g: nat ensures Names(n, r, g) <==>
        || Names(m, r, g)
        || (r == AtTable(c, d) && g == f)
        || (r.AtPage? && r.pid == c && r.page / PAGE_ENTRIES == d && Names(m, AtPage(p, r.page), g))
    {
      if r.AtPage? {
        var e := r.page / PAGE_ENTRIES;
        if (r.pid, e) != (p, d) && (r.pid, e) != (c, d) { assert SameEntry(m, n, r.pid, r.page); }
      }
    }
  }

  // A frame is listed in a table exactly when one page of that table maps to it.
  lemma ListedPage(m: Mem, p: nat, d: nat, g: nat) returns (v: nat)
    requires HasTable(m, p, d) && Listed(TableOf(m, p, d), g, PAGE_ENTRIES)
    ensures v / PAGE_ENTRIES == d && Names(m, AtPage(p, v), g)
  {
    var t := TableOf(m, p, d);
    var i :| 0 <= i < PAGE_ENTRIES && t[i].present && t[i].index == g;
    v := Vpn(d, i);
  }

  lemma ForkTableExact(m: Mem, p: nat, c: nat, d: nat, f: nat, g: nat)
    requires CanFork(m, p, c, d, f) && Room(m.refs, TableOf(m, p, d))
    requires Shape(ForkTable(m, p, c, d, f)) && KERNEL_PAGES <= g < |m.refs|
    ensures var n := ForkTable(m, p, c, d, f); Counted(n, g)
  {
    var n := ForkTable(m, p, c, d, f);
    ForkTableNames(m, p, c, d, f);
    CountZero(m, f);
    var t := TableOf(m, p, d);
    assert Counted(m, g);
    if Listed(t, g, PAGE_ENTRIES) {
      var v := ListedPage(m, p, d, g);
      forall w: nat | Names(m, AtPage(p, w), g) ensures w == v {
        assert SamePlace(AtPage(p, w), AtPage(p, v));
      }
      CountDelta(m, n, g, {AtPage(c, v)}, {});
    } else {
      forall w: nat | w / PAGE_ENTRIES == d ensures !Names(m, AtPage(p, w), g) {
        assert Vpn(d, w % PAGE_ENTRIES) == w;
      }
      CountDelta(m, n, g, if g == f then {AtTable(c, d)} else {}, {});
    }
  }

  lemma ForkTableSolo(m: Mem, p: nat, c: nat, d: nat, f: nat)
    requires CanFork(m, p, c, d, f) && Room(m.refs, TableOf(m, p, d))
    ensures Solo(ForkTable(m, p, c, d, f))
  {
    var n := ForkTable(m, p, c, d, f);
    ForkTableEntries(m, p, c, d, f);
    CountZero(m, f);
    forall q: nat, v: nat ensures SoloAt(n, q, v) {
      if Mapped(n, q, v) && EntryOf(n, q, v).write {
        assert SameEntry(m, n, q, v) && SoloAt(m, q, v);
        var g := FrameOf(m, q, v);
        assert Names(m, AtPage(q, v), g);
        CountOne(m, AtPage(q, v), g);
        if Listed(TableOf(m, p, d), g, PAGE_ENTRIES) {
          var w := ListedPage(m, p, d, g);
          assert false;
        }
      }
    }
  }

  lemma ForkTableShape(m: Mem, p: nat, c: nat, d: nat, f: nat)
    requires CanFork(m, p, c, d, f) && Room(m.refs, TableOf(m, p, d))
    ensures Shape(ForkTable(m, p, c, d, f)) && Unique(ForkTable(m, p, c, d, f))
  {
    var n := ForkTable(m, p, c, d, f);
    ForkTableNames(m, p, c, d, f);
    CountZero(m, f);
    forall g | 0 <= g < KERNEL_PAGES ensures n.refs[g] == 1 {
      if Listed(TableOf(m, p, d), g, PAGE_ENTRIES) { var v := ListedPage(m, p, d, g); }
    }
    forall r, q, g: nat | Names(n, r, g) && Names(n, q, g) ensures SamePlace(r, q) {
      var r' := if Names(m, r, g) || r.AtTable? then r else AtPage(p, r.page);
      var q' := if Names(m, q, g) || q.AtTable? then q else AtPage(p, q.page);
      if g != f {
        assert Names(m, r', g) && Names(m, q', g);
        assert SamePlace(r', q');
      }
    }
  }

  lemma ForkTableCore(m: Mem, p: nat, c: nat, d: nat, f: nat)
    requires CanFork(m, p, c, d, f) && Room(m.refs, TableOf(m, p, d))
    ensures Core(ForkTable(m, p, c, d, f))
  {
    var n := ForkTable(m, p, c, d, f);
    ForkTableShape(m, p, c, d, f);
    ForkTableSolo(m, p, c, d, f);
    forall g | KERNEL_PAGES <= g < |n.refs| ensures Counted(n, g) {
      ForkTableExact(m, p, c, d, f, g);
    }
    CountZero(m, f);
    assert FreeFrames(n) == FreeFrames(m) - {f};
    ForkTableEntries(m, p, c, d, f);
    forall q: nat, v: nat ensures LegalAt(n, q, v) {
      var e := v / PAGE_ENTRIES;
      assert LegalAt(m, q, v) && LegalAt(m, p, v);
      if (q, e) != (p, d) && (q, e) != (c, d) { assert SameEntry(m, n, q, v); }
    }
  }

  // ---------- giving a table back ----------

  lemma DropTableNames(m: Mem, p: nat, d: nat)
    requires Core(m) && p in m.spaces && d in m.spaces[p].dir
    requires forall v: nat :: v / PAGE_ENTRIES == d ==> !Mapped(m, p, v)
    ensures m.spaces[p].dir[d] < |m.refs| && m.refs[m.spaces[p].dir[d]] >= 1
    ensures var n := DropTable(m, p, d);
      && (forall q :: SameEntries(m, n, q))
      && forall r, g: nat :: Names(n, r, g) <==> Names(m, r, g) && r != AtTable(p, d)
  {
    TableNames(m, p, d);
    var n := DropTable(m, p, d);
    forall q: nat, v: nat ensures SameEntry(m, n, q, v) {}
    forall r, g: nat ensures Names(n, r, g) <==> Names(m, r, g) && r != AtTable(p, d) {
      if r.AtPage? { assert SameEntry(m, n, r.pid, r.page); }
    }
  }

  lemma DropTableCore(m: Mem, p: nat, d: nat)
    requires Core(m) && p in m.spaces && d in m.spaces[p].dir
    requires forall v: nat :: v / PAGE_ENTRIES == d ==> !Mapped(m, p, v)
    ensures m.spaces[p].dir[d] < |m.refs| && m.refs[m.spaces[p].dir[d]] == 1
    ensures Core(DropTable(m, p, d))
  {
    var f := m.spaces[p].dir[d];
    DropTableNames(m, p, d);
    TableNames(m, p, d);
    var n := DropTable(m, p, d);
    assert Shape(n);
    forall g | KERNEL_PAGES <= g < |n.refs| ensures Counted(n, g) {
      assert Counted(m, g);
      CountDelta(m, n, g, {}, if g == f then {AtTable(p, d)} else {});
    }
    FreeDelta(m, n, f);
    forall q: nat, v: nat ensures LegalAt(n, q, v) && SoloAt(n, q, v) {
      assert LegalAt(m, q, v) && SoloAt(m, q, v);
      assert SameEntries(m, n, q) && SameEntry(m, n, q, v);
      if Mapped(m, q, v) {
        assert Names(m, AtPage(q, v), FrameOf(m, q, v));
        assert FrameOf(m, q, v) != f;
      }
    }
  }
}
