/**
  brk: when it refuses, when it halts, and what tasks read after it.
 */
module BrkProofs {
  import opened AddressSpaces
  import opened PageOps
  import opened PageLemmas
  import opened PageSteps
  import opened UserSpace
  import opened FaultProofs
  import opened Wrappers

  ghost function Interval(lo: nat, hi: nat): (s: set<nat>)
    requires lo <= hi
    ensures forall f :: f in s <==> lo <= f < hi
    ensures |s| == hi - lo
    decreases hi - lo
  {
    if lo == hi then {} else {lo} + Interval(lo + 1, hi)
  }

  // The counter stays below the number of frames, because the kernel's frames are never free.
  lemma FreeBelowTotal(m: Mem)
    requires Core(m)
    ensures m.free < |m.refs|
  {
    forall f | f in FreeFrames(m) ensures f in Interval(KERNEL_PAGES, |m.refs|) { CountZero(m, f); }
    SubsetCard(FreeFrames(m), Interval(KERNEL_PAGES, |m.refs|));
  }

  // free_page's assertions hold when one mapped page is removed.
  lemma FreePageOfUnmap(m: Mem, p: nat, v: nat)
    requires Core(m) && Mapped(m, p, v)
    ensures FrameOf(m, p, v) < |m.refs| && m.refs[FrameOf(m, p, v)] >= 1
    ensures var e := EntryOf(m, p, v);
      FreePage(SetEntry(SetVmap(m, p, m.spaces[p].vmap - {v}), p, v, e.(present := false)), e.index)
        == Some(UnmapPage(m, p, v))
    ensures Core(UnmapPage(m, p, v)) && EntryStep(m, UnmapPage(m, p, v), p, v) && !Mapped(UnmapPage(m, p, v), p, v)
  {
    UnmapPageStep(m, p, v);
    var n := UnmapPage(m, p, v);
    assert Names(m, AtPage(p, v), FrameOf(m, p, v));
    FreeBelowTotal(n);
    LowestFree(m);
  }

  // Page v of task p is mapped, and nobody else has its frame.
  predicate Sole(m: Mem, p: nat, v: nat) {
    Mapped(m, p, v) && FrameOf(m, p, v) < |m.refs| && m.refs[FrameOf(m, p, v)] == 1
  }

  // The page tables that get_pte creates for page v.
  function NewTables(m: Mem, p: nat, v: nat): nat
    requires p in m.spaces
  {
    if v / PAGE_ENTRIES in m.spaces[p].dir then 0 else 1
  }

  // A new page table takes a frame that no page has.
  lemma TableSole(m: Mem, p: nat, v: nat)
    requires Inv(m) && p in m.spaces && KERNEL_PAGES <= v && v * PAGE_SIZE < USER_STACK_TOP
    requires GetTable(m, p, v / PAGE_ENTRIES).Some?
    ensures var n := GetTable(m, p, v / PAGE_ENTRIES).value;
      forall x: nat :: Sole(n, p, x) <==> Sole(m, p, x)
  {
    GetTableStep(m, p, v);
    var n := GetTable(m, p, v / PAGE_ENTRIES).value;
    LowestFree(m);
    assert SameEntries(m, n, p);
    forall x: nat ensures Sole(n, p, x) <==> Sole(m, p, x) {
      assert SameEntry(m, n, p, x);
      if Mapped(m, p, x) {
        assert Names(m, AtPage(p, x), FrameOf(m, p, x));
        CountOne(m, AtPage(p, x), FrameOf(m, p, x));
      }
    }
  }

  // Unmapping a page lowers a counter that no other page of the task has.
  lemma UnmapSole(m: Mem, p: nat, v: nat)
    requires Core(m) && Mapped(m, p, v)
    ensures FrameOf(m, p, v) < |m.refs| && m.refs[FrameOf(m, p, v)] >= 1
    ensures var n := UnmapPage(m, p, v);
      && n.free == m.free + (if Sole(m, p, v) then 1 else 0)
      && (forall x: nat :: x != v ==> (Sole(n, p, x) <==> Sole(m, p, x)))
  {
    UnmapPageStep(m, p, v);
    var n := UnmapPage(m, p, v);
    assert Names(m, AtPage(p, v), FrameOf(m, p, v));
    hide Exact, Solo, Legal;
    forall x: nat | x != v ensures Sole(n, p, x) <==> Sole(m, p, x) {
      assert SameEntry(m, n, p, x);
      if Mapped(m, p, x) {
        assert Names(m, AtPage(p, x), FrameOf(m, p, x));
      }
    }
  }

  lemma UnlinkPageStep(m: Mem, p: nat, v: nat)
    requires Inv(m) && p in m.spaces && KERNEL_PAGES <= v && v * PAGE_SIZE < USER_STACK_TOP
    ensures var r := UnlinkPage(m, p, v);
      && (r.None? <==> v / PAGE_ENTRIES !in m.spaces[p].dir && m.free == 0)
      && (r.Some? ==> var n := r.value;
            && Inv(n) && SameLimits(m, n) && ReadsBut(m, n, p, v) && !Mapped(n, p, v)
            && n.spaces[p].dir.Keys == m.spaces[p].dir.Keys + {v / PAGE_ENTRIES}
            && n.free == m.free - NewTables(m, p, v) + (if Sole(m, p, v) then 1 else 0)
            && (forall x: nat :: x != v ==> (Sole(n, p, x) <==> Sole(m, p, x))))
  {
    GetTableStep(m, p, v);
    if GetTable(m, p, v / PAGE_ENTRIES).Some? {
      var m1 := GetTable(m, p, v / PAGE_ENTRIES).value;
      TableSole(m, p, v);
      assert VmapAgrees(m1, p);
      if Mapped(m1, p, v) {
        FreePageOfUnmap(m1, p, v);
        EntryInv(m1, UnmapPage(m1, p, v), p, v);
        UnmapSole(m1, p, v);
      }
    }
  }

  // The tables that unlinking [v, end) would have to create.
  ghost function Missing(dir: map<nat, nat>, v: nat, end: nat): set<nat> {
    set d | v / PAGE_ENTRIES <= d <= end / PAGE_ENTRIES && d !in dir
  }

  ghost predicate RangeGone(m: Mem, n: Mem, p: nat, v: nat, end: nat) {
    && SameLimits(m, n)
    && (forall w: nat :: v <= w < end ==> !Mapped(n, p, w))
    && (forall q: nat, w: nat :: q != p || w < v || end <= w ==> Reads(n, q, w) == Reads(m, q, w))
  }

  lemma RangeGoneMore(m: Mem, m1: Mem, n: Mem, p: nat, v: nat, end: nat)
    requires v < end && Inv(m1) && Inv(n)
    requires SameLimits(m, m1) && ReadsBut(m, m1, p, v) && !Mapped(m1, p, v)
    requires RangeGone(m1, n, p, v + 1, end)
    ensures RangeGone(m, n, p, v, end)
  {
    ReadsMapped(m1, p, v);
    ReadsMapped(n, p, v);
    assert Reads(n, p, v) == Reads(m1, p, v);
  }

  lemma {:induction false} UnlinkRangeStep(m: Mem, p: nat, v: nat, end: nat, n: Mem)
    requires Inv(m) && p in m.spaces && KERNEL_PAGES <= v && end * PAGE_SIZE < USER_STACK_TOP
    requires UnlinkRange(m, p, v, end) == Some(n)
    ensures Inv(n) && RangeGone(m, n, p, v, end)
    decreases end - v
  {
    if v < end {
      hide Inv, RangeGone, ReadsBut, SameLimits, Mapped, UnlinkPage;
      UnlinkPageStep(m, p, v);
      var m1 := UnlinkPage(m, p, v).value;
      UnlinkRangeStep(m1, p, v + 1, end, n);
      RangeGoneMore(m, m1, n, p, v, end);
    } else {
      hide Inv, Reads, Mapped;
    }
  }

  // ---------- when the loop halts ----------

  // The pages of [v, w) whose frames unlinking them makes free.
  ghost function Freed(m: Mem, p: nat, v: nat, w: nat): set<nat> {
    set x: nat | v <= x < w && Sole(m, p, x)
  }

  // By page w the loop needs more frames for page tables than were free at first or came free on
  // the way.
  ghost predicate RunsOut(m: Mem, p: nat, v: nat, w: nat)
    requires p in m.spaces
  {
    m.free + |Freed(m, p, v, w)| < |Missing(m.spaces[p].dir, v, w)|
  }

  lemma RunsOutAtOnce(m: Mem, p: nat, v: nat)
    requires p in m.spaces && m.free >= 0
    ensures RunsOut(m, p, v, v) <==> v / PAGE_ENTRIES !in m.spaces[p].dir && m.free == 0
  {
    assert Freed(m, p, v, v) == {};
    var d := v / PAGE_ENTRIES;
    assert Missing(m.spaces[p].dir, v, v) == if d in m.spaces[p].dir then {} else {d};
  }

  lemma FreedNext(m: Mem, n: Mem, p: nat, v: nat, w: nat)
    requires v < w && forall x: nat :: x != v ==> (Sole(n, p, x) <==> Sole(m, p, x))
    ensures |Freed(m, p, v, w)| == |Freed(n, p, v + 1, w)| + (if Sole(m, p, v) then 1 else 0)
  {
    var rest := Freed(n, p, v + 1, w);
    assert v !in rest;
    assert Freed(m, p, v, w) == if Sole(m, p, v) then {v} + rest else rest;
  }

  lemma MissingNext(dir: map<nat, nat>, more: map<nat, nat>, v: nat, w: nat)
    requires v < w && more.Keys == dir.Keys + {v / PAGE_ENTRIES}
    ensures |Missing(dir, v, w)| == |Missing(more, v + 1, w)| + (if v / PAGE_ENTRIES in dir then 0 else 1)
  {
    var rest := Missing(more, v + 1, w);
    assert v / PAGE_ENTRIES !in rest;
    assert Missing(dir, v, w) == if v / PAGE_ENTRIES in dir then rest else {v / PAGE_ENTRIES} + rest;
  }

  // What is left to run out of is the same after the first page as before it.
  lemma RunsOutNext(m: Mem, n: Mem, p: nat, v: nat, w: nat)
    requires p in m.spaces && p in n.spaces && v < w
    requires n.spaces[p].dir.Keys == m.spaces[p].dir.Keys + {v / PAGE_ENTRIES}
    requires n.free == m.free - NewTables(m, p, v) + (if Sole(m, p, v) then 1 else 0)
    requires forall x: nat :: x != v ==> (Sole(n, p, x) <==> Sole(m, p, x))
    ensures RunsOut(m, p, v, w) <==> RunsOut(n, p, v + 1, w)
  {
    FreedNext(m, n, p, v, w);
    MissingNext(m.spaces[p].dir, n.spaces[p].dir, v, w);
    hide Freed, Missing, Sole;
  }

  // Some page of the range is one where the loop runs out.
  ghost predicate RunsOutIn(m: Mem, p: nat, v: nat, end: nat)
    requires p in m.spaces
  {
    exists w: nat :: v <= w < end && RunsOut(m, p, v, w)
  }

  // That is the first page, or one that the state after it runs out at.
  lemma RunsOutLater(m: Mem, n: Mem, p: nat, v: nat, next: nat, end: nat)
    requires p in m.spaces && p in n.spaces && v < end && next == v + 1
    requires n.spaces[p].dir.Keys == m.spaces[p].dir.Keys + {v / PAGE_ENTRIES}
    requires n.free == m.free - NewTables(m, p, v) + (if Sole(m, p, v) then 1 else 0)
    requires forall x: nat :: x != v ==> (Sole(n, p, x) <==> Sole(m, p, x))
    ensures RunsOutIn(m, p, v, end) <==> RunsOut(m, p, v, v) || RunsOutIn(n, p, next, end)
  {
    hide RunsOut, Sole, NewTables;
    forall w: nat | v < w < end ensures RunsOut(m, p, v, w) <==> RunsOut(n, p, next, w) {
      RunsOutNext(m, n, p, v, w);
    }
  }

  // What the first page does to that: it halts, or leaves the rest to the state after it.
  lemma RunsOutFirst(m: Mem, p: nat, v: nat, end: nat)
    requires Inv(m) && p in m.spaces && KERNEL_PAGES <= v < end && end * PAGE_SIZE < USER_STACK_TOP
    ensures var r := UnlinkPage(m, p, v);
      && (r.None? ==> RunsOutIn(m, p, v, end))
      && (r.Some? ==>
            && Inv(r.value) && p in r.value.spaces
            && (RunsOutIn(m, p, v, end) <==> RunsOutIn(r.value, p, v + 1, end)))
  {
    UnlinkPageStep(m, p, v);
    FreeNotNegative(m);
    RunsOutAtOnce(m, p, v);
    var r := UnlinkPage(m, p, v);
    hide Inv, RunsOut, ReadsBut, Mapped, Sole, UnlinkPage, Freed, Missing;
    if r.Some? {
      hide RunsOutIn;
      RunsOutLater(m, r.value, p, v, v + 1, end);
    } else {
      assert RunsOut(m, p, v, v);
    }
  }

  // Unlinking a range halts exactly when some page of it is reached with no frame left for its
  // page table; all of that can be read off the state before the first page.
  lemma {:induction false} UnlinkRangeHalts(m: Mem, p: nat, v: nat, end: nat)
    requires Inv(m) && p in m.spaces && KERNEL_PAGES <= v && end * PAGE_SIZE < USER_STACK_TOP
    ensures UnlinkRange(m, p, v, end).None? <==> RunsOutIn(m, p, v, end)
    decreases end - v
  {
    if v < end {
      hide Inv, RunsOutIn, UnlinkPage, UnlinkRange;
      RunsOutFirst(m, p, v, end);
      UnlinkRangeFirst(m, p, v, end);
      var r := UnlinkPage(m, p, v);
      if r.Some? { UnlinkRangeHalts(r.value, p, v + 1, end); }
    } else {
      hide Inv, RunsOut;
    }
  }

  lemma UnlinkRangeFirst(m: Mem, p: nat, v: nat, end: nat)
    requires p in m.spaces && v < end
    ensures UnlinkPage(m, p, v).None? ==> UnlinkRange(m, p, v, end).None?
    ensures var r := UnlinkPage(m, p, v); r.Some? && p in r.value.spaces ==>
      UnlinkRange(m, p, v, end) == UnlinkRange(r.value, p, v + 1, end)
  {
    hide UnlinkPage;
  }

  lemma FreeNotNegative(m: Mem)
    requires Inv(m)
    ensures m.free >= 0
  {
    LowestFree(m);
  }

  // A page is mapped exactly when it reads as something.
  lemma ReadsMapped(m: Mem, p: nat, v: nat)
    requires Inv(m)
    ensures Reads(m, p, v).Some? <==> Mapped(m, p, v)
  {
    if Mapped(m, p, v) { assert Names(m, AtPage(p, v), FrameOf(m, p, v)); }
  }

  lemma SetBrkStep(m: Mem, p: nat, brk: nat)
    requires Inv(m) && p in m.spaces && brk % PAGE_SIZE == 0
    requires KERNEL_MEMORY_SIZE <= brk < USER_STACK_BOTTOM
    requires forall v: nat :: Mapped(m, p, v) && brk <= v * PAGE_SIZE ==> USER_STACK_BOTTOM <= v * PAGE_SIZE
    ensures Inv(SetBrk(m, p, brk))
  {
    var n := SetBrk(m, p, brk);
    SameRefsCore(m, n);
    forall q | q in n.spaces ensures VmapAgrees(n, q) { assert VmapAgrees(m, q); }
    SetBrkLegal(m, p, brk);
  }

  lemma SetBrkLegal(m: Mem, p: nat, brk: nat)
    requires Legal(m) && p in m.spaces && brk % PAGE_SIZE == 0
    requires KERNEL_MEMORY_SIZE <= brk < USER_STACK_BOTTOM
    requires forall v: nat :: Mapped(m, p, v) && brk <= v * PAGE_SIZE ==> USER_STACK_BOTTOM <= v * PAGE_SIZE
    ensures Legal(SetBrk(m, p, brk))
    ensures forall q: nat, w: nat :: Reads(SetBrk(m, p, brk), q, w) == Reads(m, q, w)
  {
    var n := SetBrk(m, p, brk);
    forall q: nat, v: nat ensures LegalAt(n, q, v) {
      assert LegalAt(m, q, v) && (Mapped(n, q, v) <==> Mapped(m, q, v));
    }
  }

  // What brk leaves: the new limit, and no page between it and the old one.
  ghost predicate Trimmed(m: Mem, n: Mem, p: nat, brk: nat)
    requires p in m.spaces
  {
    && n.spaces.Keys == m.spaces.Keys
    && (forall q :: q in m.spaces ==> n.spaces[q].brk == if q == p then brk else m.spaces[q].brk)
    && (forall q: nat, w: nat ::
          Reads(n, q, w) == if q == p && brk <= w * PAGE_SIZE < m.spaces[p].brk then None else Reads(m, q, w))
  }

  lemma LegalAbove(m: Mem, p: nat, brk: nat)
    requires Inv(m) && p in m.spaces
    requires forall v: nat :: Mapped(m, p, v) && brk <= v * PAGE_SIZE ==> m.spaces[p].brk <= v * PAGE_SIZE
    ensures Legal(m) && forall v: nat :: Mapped(m, p, v) && brk <= v * PAGE_SIZE ==> USER_STACK_BOTTOM <= v * PAGE_SIZE
  {
    forall v: nat | Mapped(m, p, v) && brk <= v * PAGE_SIZE ensures USER_STACK_BOTTOM <= v * PAGE_SIZE {
      assert LegalAt(m, p, v);
    }
  }

  lemma Shrinks(m: Mem, p: nat, brk: nat, n: Mem)
    requires Inv(m) && p in m.spaces && brk % PAGE_SIZE == 0 && m.spaces[p].brk % PAGE_SIZE == 0
    requires KERNEL_MEMORY_SIZE <= brk < m.spaces[p].brk < USER_STACK_BOTTOM
    requires UnlinkRange(m, p, brk / PAGE_SIZE, m.spaces[p].brk / PAGE_SIZE) == Some(n)
    ensures p in n.spaces && Inv(SetBrk(n, p, brk)) && Trimmed(m, SetBrk(n, p, brk), p, brk)
  {
    hide Inv, Mapped, UnlinkRange, Reads, Trimmed, SetBrk;
    UnlinkRangeStep(m, p, brk / PAGE_SIZE, m.spaces[p].brk / PAGE_SIZE, n);
    ShrinkReads(m, p, brk, n);
    LegalAbove(n, p, brk);
    SetBrkStep(n, p, brk);
    SetBrkLegal(n, p, brk);
    TrimmedBy(m, n, p, brk);
  }

  lemma TrimmedBy(m: Mem, n: Mem, p: nat, brk: nat)
    requires p in m.spaces && SameLimits(m, n)
    requires forall q: nat, w: nat ::
      Reads(n, q, w) == if q == p && brk <= w * PAGE_SIZE < m.spaces[p].brk then None else Reads(m, q, w)
    requires forall q: nat, w: nat :: Reads(SetBrk(n, p, brk), q, w) == Reads(n, q, w)
    ensures Trimmed(m, SetBrk(n, p, brk), p, brk)
  {
    hide Reads;
  }

  lemma ShrinkReads(m: Mem, p: nat, brk: nat, n: Mem)
    requires Inv(n) && p in m.spaces && p in n.spaces && brk % PAGE_SIZE == 0 && m.spaces[p].brk % PAGE_SIZE == 0
    requires n.spaces[p].brk == m.spaces[p].brk && RangeGone(m, n, p, brk / PAGE_SIZE, m.spaces[p].brk / PAGE_SIZE)
    ensures forall v: nat :: Mapped(n, p, v) && brk <= v * PAGE_SIZE ==> n.spaces[p].brk <= v * PAGE_SIZE
    ensures forall q: nat, w: nat ::
      Reads(n, q, w) == if q == p && brk <= w * PAGE_SIZE < m.spaces[p].brk then None else Reads(m, q, w)
  {
    forall w: nat | brk <= w * PAGE_SIZE < m.spaces[p].brk ensures Reads(n, p, w) == None && !Mapped(n, p, w) {
      ReadsMapped(n, p, w);
    }
    hide Inv, Mapped, Reads;
  }

  lemma Grows(m: Mem, p: nat, brk: nat)
    requires Inv(m) && p in m.spaces && brk % PAGE_SIZE == 0
    requires KERNEL_MEMORY_SIZE <= brk < USER_STACK_BOTTOM && m.spaces[p].brk <= brk
    ensures Inv(SetBrk(m, p, brk)) && Trimmed(m, SetBrk(m, p, brk), p, brk)
  {
    hide Inv, Mapped;
    LegalAbove(m, p, brk);
    SetBrkStep(m, p, brk);
    SetBrkLegal(m, p, brk);
    hide Reads;
  }

  // brk halts exactly for a limit outside the heap, or when a shrink runs out of frames for page
  // tables; it refuses exactly when a growth exceeds the free frames; else no page between the
  // new limit and the old is left and everything else reads as before.
  lemma BrkStep(m: Mem, p: nat, brk: nat)
    requires Inv(m) && p in m.spaces && brk % PAGE_SIZE == 0
    ensures var r, before := Brk(m, p, brk), m.spaces[p].brk;
      && (r.None? <==>
            !(KERNEL_MEMORY_SIZE <= brk < USER_STACK_BOTTOM) ||
            RunsOutIn(m, p, brk / PAGE_SIZE, before / PAGE_SIZE))
      && (r == Some((m, false)) <==>
            KERNEL_MEMORY_SIZE <= brk < USER_STACK_BOTTOM && before <= brk && m.free < (brk - before) / PAGE_SIZE)
      && (r.Some? && !r.value.1 ==> r.value.0 == m)
      && (r.Some? && r.value.1 ==> Inv(r.value.0) && Trimmed(m, r.value.0, p, brk))
  {
    var before := m.spaces[p].brk;
    assert Legal(m);
    if KERNEL_MEMORY_SIZE <= brk < USER_STACK_BOTTOM {
      hide Inv, Trimmed, UnlinkRange, RunsOut;
      if before > brk {
        UnlinkRangeHalts(m, p, brk / PAGE_SIZE, before / PAGE_SIZE);
        var r := UnlinkRange(m, p, brk / PAGE_SIZE, before / PAGE_SIZE);
        if r.Some? { Shrinks(m, p, brk, r.value); }
      } else {
        Grows(m, p, brk);
      }
    }
  }
}
