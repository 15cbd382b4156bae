/**
  Which pages the kernel's page bitmap hands out: how far it reaches, and when heap pages run into
  the buffer cache, whose area it covers too.
 */
module KernelPages {
  import Paging = AddressSpaces
  import Buffers = CacheModel
  import opened Bitmaps
  import opened HeapModel
  import opened HeapTheorems
  import opened Wrappers

  const KERNEL_PAGES := Paging.KERNEL_PAGES
  const BUFFER_PAGE := Buffers.KERNEL_BUFFER_BASE / PAGE_SIZE

  // ---------- the end of the bitmap ----------

  // kernel_vmap_init: one bit for each page from `start`, rounded up to whole bytes.
  function VmapBytes(start: nat): nat
    requires start <= KERNEL_PAGES
  {
    (KERNEL_PAGES - start + 7) / 8
  }

  // A run of the heap from arena_init on gets here.
  ghost predicate Reached(h: Heap, start: nat)
    requires start <= KERNEL_PAGES
  {
    exists ops :: Run(Fresh(start, 8 * VmapBytes(start)), ops, h)
  }

  // The pages handed out lie below the kernel's last one.
  predicate InKernel(h: Heap, n: nat) {
    TakePages(h, n).Some? ==> TakePages(h, n).value.1 + n <= KERNEL_PAGES
  }

  // Every page that kalloc_page can hand out, in whatever state a run gets to, is the kernel's
  // exactly when the number of pages in the bitmap divides by eight.
  lemma VmapEnd(start: nat)
    requires start <= KERNEL_PAGES
    ensures (forall h, n: nat :: Reached(h, start) && n > 0 ==> InKernel(h, n)) <==> (KERNEL_PAGES - start) % 8 == 0
  {
    hide Reached, InKernel;
    if (KERNEL_PAGES - start) % 8 == 0 {
      forall h, n: nat | Reached(h, start) && n > 0 ensures InKernel(h, n) { WholeBytes(start, h, n); }
    } else {
      var h := PartOfByte(start);
    }
  }

  lemma WholeBytes(start: nat, h: Heap, n: nat)
    requires start <= KERNEL_PAGES && (KERNEL_PAGES - start) % 8 == 0 && Reached(h, start) && n > 0
    ensures InKernel(h, n)
  {
    var bits := 8 * VmapBytes(start);
    var ops :| Run(Fresh(start, bits), ops, h);
    assert bits == KERNEL_PAGES - start;
    FreshInv(start, bits);
    hide Inv, Run, VmapBytes, FirstFit, Mark;
    RunSize(Fresh(start, bits), ops, h);
    assert |h.used| == bits && h.base == start;
    hide Fresh;
  }

  lemma PartOfByte(start: nat) returns (h: Heap)
    requires start <= KERNEL_PAGES && (KERNEL_PAGES - start) % 8 != 0
    ensures Reached(h, start) && !InKernel(h, 1)
  {
    var bits := 8 * VmapBytes(start);
    AllButOne(start, bits);
    h := TakePages(Fresh(start, bits), bits - 1).value.0;
    hide Run, Fresh;
  }

  // A run that takes all pages but the last.
  lemma AllButOne(start: nat, bits: nat)
    requires bits > 1
    ensures var r := TakePages(Fresh(start, bits), bits - 1);
      && r.Some? && Run(Fresh(start, bits), [Take(bits - 1)], r.value.0)
      && r.value.0.base == start && FirstFit(r.value.0.used, 1, 0) == Some(bits - 1)
  {
    var fresh0 := Fresh(start, bits);
    assert Clear(fresh0.used, 0, bits - 1);
    var h := TakePages(fresh0, bits - 1).value.0;
    LastFits(h.used);
    assert Step(fresh0, Take(bits - 1)) == Some(h) && Run(h, [], h);
  }

  lemma {:induction false} RunSize(h: Heap, ops: seq<Op>, n: Heap)
    requires Inv(h) && Run(h, ops, n)
    ensures n.base == h.base && |n.used| == |h.used|
    decreases |ops|
  {
    if ops != [] {
      hide Inv, Step, CanDo;
      StepKeeps(h, ops[0]);
      StepMarks(h, ops[0]);
      RunSize(Step(h, ops[0]).value, ops[1..], n);
    }
  }

  lemma LastFits(used: seq<bool>)
    requires used != [] && forall i :: 0 <= i < |used| ==> used[i] == (i != |used| - 1)
    ensures FirstFit(used, 1, 0) == Some(|used| - 1)
  {
    assert Clear(used, |used| - 1, 1);
    forall t | 0 <= t < |used| - 1 ensures !Clear(used, t, 1) { assert used[t]; }
  }

  // With the memory manager's own start page that is when memory_map fills a multiple of eight
  // pages.
  lemma VmapEndOf(totalPages: nat)
    requires Paging.StartPage(totalPages) <= KERNEL_PAGES
    ensures (forall h, n: nat :: Reached(h, Paging.StartPage(totalPages)) && n > 0 ==> InKernel(h, n)) <==>
            (totalPages + PAGE_SIZE - 1) / PAGE_SIZE % 8 == 0
  {
    hide Reached, InKernel;
    var filled := (totalPages + PAGE_SIZE - 1) / PAGE_SIZE;
    assert (KERNEL_PAGES - Paging.StartPage(totalPages)) % 8 == 0 <==> filled % 8 == 0;
    VmapEnd(Paging.StartPage(totalPages));
  }

  // ---------- the buffer area ----------

  // A run of n free pages below the buffer cache.
  ghost predicate RoomBelow(h: Heap, n: nat) {
    exists s: nat :: Clear(h.used, s, n) && h.base + s + n <= BUFFER_PAGE
  }

  // The pages handed out end below the buffers exactly while there is a free run below them.
  lemma TakenBelow(h: Heap, n: nat)
    requires n > 0
    ensures RoomBelow(h, n)
      <==> FirstFit(h.used, n, 0).Some? && h.base + FirstFit(h.used, n, 0).value + n <= BUFFER_PAGE
  {
  }

  // No page of the buffer area, or above, is taken.
  predicate ClearOfBuffers(h: Heap) {
    forall s :: 0 <= s < |h.used| && h.used[s] ==> h.base + s < BUFFER_PAGE
  }

  // The fresh pages that a step asks for.
  function PagesAsked(h: Heap, op: Op): nat
    requires |h.free| == DESC_COUNT
  {
    match op
    case Kmalloc(size) =>
      if size > MAX_BLOCK_SIZE then PagesFor(size) else if h.free[DescFor(size)] == [] then 1 else 0
    case Take(n) => n
    case _ => 0
  }

  // What a step does to the bitmap: it marks the first fit of what it asks for, or clears marks.
  lemma StepMarks(h: Heap, op: Op)
    requires Inv(h) && CanDo(h, op) && |h.free| == DESC_COUNT && Step(h, op).Some?
    ensures var n := Step(h, op).value; var k := PagesAsked(h, op);
      && n.base == h.base && |n.used| == |h.used|
      && (k > 0 ==> FirstFit(h.used, k, 0).Some? && n.used == Mark(h.used, FirstFit(h.used, k, 0).value, k, true))
      && (k == 0 ==> forall s :: 0 <= s < |h.used| && n.used[s] ==> h.used[s])
  {
    hide Inv, Size, Total, PageOf, DescFrom;
  }

  // A step keeps clear of the buffers exactly if it asks for no page, or finds room below them.
  lemma StepStaysBelow(h: Heap, op: Op)
    requires Inv(h) && CanDo(h, op) && |h.free| == DESC_COUNT && Step(h, op).Some? && ClearOfBuffers(h)
    ensures ClearOfBuffers(Step(h, op).value) <==> PagesAsked(h, op) == 0 || RoomBelow(h, PagesAsked(h, op))
  {
    StepMarks(h, op);
    var k, n := PagesAsked(h, op), Step(h, op).value;
    hide Inv, Step, CanDo, PagesAsked, RoomBelow;
    if k > 0 {
      TakenBelow(h, k);
      var s := FirstFit(h.used, k, 0).value;
      assert n.used[s + k - 1];
    }
  }

  // Along the run every step that asks for pages finds them below the buffers.
  ghost predicate AlwaysRoom(h: Heap, ops: seq<Op>)
    decreases |ops|
  {
    ops != [] && |h.free| == DESC_COUNT && CanDo(h, ops[0]) && Step(h, ops[0]).Some? ==>
      && (PagesAsked(h, ops[0]) == 0 || RoomBelow(h, PagesAsked(h, ops[0])))
      && AlwaysRoom(Step(h, ops[0]).value, ops[1..])
  }

  lemma {:induction false} RunStaysBelow(h: Heap, ops: seq<Op>, n: Heap)
    requires Inv(h) && ClearOfBuffers(h) && Run(h, ops, n) && AlwaysRoom(h, ops)
    ensures ClearOfBuffers(n)
    decreases |ops|
  {
    if ops != [] {
      hide Inv, Step, CanDo, PagesAsked, RoomBelow, ClearOfBuffers;
      StepKeeps(h, ops[0]);
      StepStaysBelow(h, ops[0]);
      RunStaysBelow(Step(h, ops[0]).value, ops[1..], n);
    }
  }

  // Nothing but that room keeps them apart: once the pages below are taken, the next one handed
  // out is the first of the buffer cache.
  lemma RunReachesBuffers(base: nat, pages: nat)
    requires base < BUFFER_PAGE < base + pages
    ensures TakePages(Fresh(base, pages), BUFFER_PAGE - base).Some?
    ensures var h := TakePages(Fresh(base, pages), BUFFER_PAGE - base).value.0;
      TakePages(h, 1).Some? && TakePages(h, 1).value.1 * PAGE_SIZE == Buffers.KERNEL_BUFFER_BASE
  {
    var n := BUFFER_PAGE - base;
    var fresh0 := Fresh(base, pages);
    assert Clear(fresh0.used, 0, n);
    var h := TakePages(fresh0, n).value.0;
    assert Clear(h.used, n, 1);
    forall t | 0 <= t < n ensures !Clear(h.used, t, 1) { assert h.used[t]; }
  }
}
