/**
  Each page operation keeps the invariant, and what it does to the mappings.
 */
module PageLemmas {
  import opened AddressSpaces
  import opened Wrappers

  ghost predicate SameEntry(m: Mem, n: Mem, q: nat, v: nat) {
    && (Mapped(n, q, v) <==> Mapped(m, q, v))
    && (Mapped(m, q, v) ==> EntryOf(n, q, v) == EntryOf(m, q, v))
  }

  // Task q maps the same pages through the same entries in both states.
  ghost predicate SameEntries(m: Mem, n: Mem, q: nat) {
    forall v: nat :: SameEntry(m, n, q, v)
  }

  ghost predicate SameEntriesBut(m: Mem, n: Mem, p: nat, w: nat) {
    forall q: nat, v: nat :: (q, v) != (p, w) ==> SameEntry(m, n, q, v)
  }

  ghost predicate SameDirs(m: Mem, n: Mem) {
    m.spaces.Keys == n.spaces.Keys && forall p :: p in m.spaces ==> n.spaces[p].dir == m.spaces[p].dir
  }

  lemma CountDelta(m: Mem, n: Mem, f: nat, added: set<Ref>, removed: set<Ref>)
    requires Shape(m) && Shape(n)
    requires forall r :: Names(n, r, f) <==> (Names(m, r, f) && r !in removed) || r in added
    requires forall r :: r in added ==> !Names(m, r, f)
    requires forall r :: r in removed ==> Names(m, r, f)
    ensures |Refs(n, f)| == |Refs(m, f)| + |added| - |removed|
  {
    var a, b := Refs(m, f), Refs(n, f);
    forall r ensures r in b <==> r in (a - removed) + added {}
    assert b == (a - removed) + added;
    assert removed <= a;
    assert a == (a - removed) + removed;
  }

  lemma FreeDelta(m: Mem, n: Mem, f: nat)
    requires m.start == n.start && |m.refs| == |n.refs| && m.start <= f < |m.refs|
    requires FreeCounted(m)
    requires forall g :: 0 <= g < |m.refs| && g != f ==> n.refs[g] == m.refs[g]
    requires n.free == m.free + (if n.refs[f] == 0 then 1 else 0) - (if m.refs[f] == 0 then 1 else 0)
    ensures FreeCounted(n)
  {
    if n.refs[f] == 0 && m.refs[f] != 0 {
      assert FreeFrames(n) == FreeFrames(m) + {f};
    } else if n.refs[f] != 0 && m.refs[f] == 0 {
      assert FreeFrames(n) == FreeFrames(m) - {f};
    } else {
      assert FreeFrames(n) == FreeFrames(m);
    }
  }

  // Writing one entry of one table changes what exactly one page of one task maps to.
  lemma EntryWritten(m: Mem, n: Mem, p: nat, v: nat, e: Entry)
    requires Unique(m) && HasTable(m, p, v / PAGE_ENTRIES) && SameDirs(m, n)
    requires var f := m.spaces[p].dir[v / PAGE_ENTRIES]; n.tables == m.tables[f := m.tables[f][v % PAGE_ENTRIES := e]]
    ensures SameEntriesBut(m, n, p, v) && HasTable(n, p, v / PAGE_ENTRIES) && EntryOf(n, p, v) == e
  {
    forall q: nat, w: nat | (q, w) != (p, v) ensures SameEntry(m, n, q, w) {
      if HasTable(m, q, w / PAGE_ENTRIES) {
        var f, g := m.spaces[p].dir[v / PAGE_ENTRIES], m.spaces[q].dir[w / PAGE_ENTRIES];
        assert Names(m, AtTable(p, v / PAGE_ENTRIES), f);
        assert Names(m, AtTable(q, w / PAGE_ENTRIES), g);
        if f == g {
          assert SamePlace(AtTable(p, v / PAGE_ENTRIES), AtTable(q, w / PAGE_ENTRIES));
        }
      }
    }
  }

  lemma NamesFrom(m: Mem, n: Mem, p: nat, w: nat)
    requires SameEntriesBut(m, n, p, w) && SameDirs(m, n)
    ensures forall r, f: nat :: r != AtPage(p, w) ==> (Names(n, r, f) <==> Names(m, r, f))
  {
    forall r, f: nat | r != AtPage(p, w) ensures Names(n, r, f) <==> Names(m, r, f) {
      if r.AtPage? { assert SameEntry(m, n, r.pid, r.page); }
    }
  }

  // ---------- operations that change one page-table entry ----------

  function Target(m: Mem, p: nat, w: nat): Option<nat> {
    if Mapped(m, p, w) then Some(FrameOf(m, p, w)) else None
  }

  function Counts(t: Option<nat>, f: nat): int {
    if t == Some(f) then 1 else 0
  }

  // Only the entry of page w of task p changes: it keeps its frame, loses it, or
  // takes a frame that was free, and the counters move with it.
  ghost predicate EntryStep(m: Mem, n: Mem, p: nat, w: nat) {
    && SameEntriesBut(m, n, p, w) && SameDirs(m, n)
    && n.start == m.start && |n.refs| == |m.refs| && m.tables.Keys == n.tables.Keys
    && (forall f: nat :: f in m.data ==> f in n.data)
    && (forall f :: 0 <= f < |m.refs| ==>
          n.refs[f] as int == m.refs[f] as int + Counts(Target(n, p, w), f) - Counts(Target(m, p, w), f))
    && (Target(n, p, w) == Target(m, p, w) || Target(n, p, w).None? || Fresh(m, Target(n, p, w).value))
    && (Mapped(n, p, w) ==> FrameOf(n, p, w) in n.data && w < VIRTUAL_PAGES)
  }

  ghost predicate Fresh(m: Mem, f: nat) {
    m.start <= f < |m.refs| && m.refs[f] == 0
  }

  lemma EntryShape(m: Mem, n: Mem, p: nat, w: nat)
    requires Core(m) && EntryStep(m, n, p, w)
    ensures Shape(n)
  {
    NamesFrom(m, n, p, w);
    if Mapped(m, p, w) { assert Names(m, AtPage(p, w), FrameOf(m, p, w)); }
    if Mapped(n, p, w) && Target(n, p, w) != Target(m, p, w) { CountZero(m, FrameOf(n, p, w)); }
    forall r, f: nat | Names(n, r, f) ensures KERNEL_PAGES <= f < |n.refs| && (r.AtPage? ==> f in n.data) {
      if r != AtPage(p, w) { assert Names(m, r, f); }
    }
  }

  lemma EntryUnique(m: Mem, n: Mem, p: nat, w: nat)
    requires Core(m) && EntryStep(m, n, p, w)
    ensures Unique(n)
  {
    NamesFrom(m, n, p, w);
    if Mapped(n, p, w) && Target(n, p, w) != Target(m, p, w) {
      CountZero(m, FrameOf(n, p, w));
    }
    forall r, q, f: nat | Names(n, r, f) && Names(n, q, f) ensures SamePlace(r, q) {
      if Target(n, p, w) == Target(m, p, w) {
        assert Names(m, r, f) && Names(m, q, f);
      }
    }
  }

  lemma EntryExact(m: Mem, n: Mem, p: nat, w: nat, f: nat)
    requires Core(m) && EntryStep(m, n, p, w) && Shape(n) && KERNEL_PAGES <= f < |n.refs|
    ensures Counted(n, f)
  {
    NamesFrom(m, n, p, w);
    var r := AtPage(p, w);
    var s, t := Target(m, p, w), Target(n, p, w);
    assert Counted(m, f);
    if s == t {
      CountDelta(m, n, f, {}, {});
    } else {
      if t.Some? { CountZero(m, t.value); }
      CountDelta(m, n, f, if t == Some(f) then {r} else {}, if s == Some(f) then {r} else {});
    }
  }

  lemma EntrySolo(m: Mem, n: Mem, p: nat, w: nat)
    requires Core(m) && EntryStep(m, n, p, w) && Shape(n)
    requires Mapped(n, p, w) && EntryOf(n, p, w).write ==>
               FrameOf(n, p, w) < |n.refs| && n.refs[FrameOf(n, p, w)] == 1
    ensures Solo(n)
  {
    forall q: nat, v: nat ensures SoloAt(n, q, v) {
      assert SoloAt(m, q, v);
      if (q, v) != (p, w) && Mapped(n, q, v) && EntryOf(n, q, v).write {
        assert SameEntry(m, n, q, v);
        var f := FrameOf(m, q, v);
        assert Names(m, AtPage(q, v), f);
        CountOne(m, AtPage(q, v), f);
        if Mapped(m, p, w) { assert Names(m, AtPage(p, w), FrameOf(m, p, w)); }
      }
    }
  }

  lemma EntryCore(m: Mem, n: Mem, p: nat, w: nat)
    requires Core(m) && EntryStep(m, n, p, w)
    requires Mapped(n, p, w) && EntryOf(n, p, w).write ==>
               FrameOf(n, p, w) < |n.refs| && n.refs[FrameOf(n, p, w)] == 1
    requires FreeCounted(n)
    requires forall q :: q in m.spaces ==> n.spaces[q].brk == m.spaces[q].brk
    requires Mapped(n, p, w) ==> p in m.spaces && LegalPage(w, m.spaces[p].brk)
    ensures Core(n)
  {
    EntryShape(m, n, p, w);
    EntryUnique(m, n, p, w);
    forall f | KERNEL_PAGES <= f < |n.refs| ensures Counted(n, f) {
      EntryExact(m, n, p, w, f);
    }
    EntrySolo(m, n, p, w);
    forall q: nat, v: nat ensures LegalAt(n, q, v) {
      assert LegalAt(m, q, v);
      if (q, v) != (p, w) { assert SameEntry(m, n, q, v); }
    }
  }
}
