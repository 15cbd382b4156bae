/**
  kmalloc and kfree over the kernel's page bitmap, in place.
 */
module KernelHeap {
  import opened Bitmaps
  import opened HeapModel
  import opened HeapSteps
  import opened Lists
  import opened Wrappers

  // The blocks of the page before index i.
  predicate Among(page: nat, k: nat, i: nat, b: nat)
    requires k < DESC_COUNT
  {
    exists j: nat :: j < i && b == BlockAt(page, k, j)
  }

  function Keep(list: seq<nat>, page: nat, k: nat, i: nat): (r: seq<nat>)
    requires k < DESC_COUNT
    ensures forall b :: b in r <==> b in list && !Among(page, k, i, b)
  {
    if list == [] then []
    else if Among(page, k, i, list[0]) then Keep(list[1..], page, k, i)
    else [list[0]] + Keep(list[1..], page, k, i)
  }

  // Removing the next block of the page.
  lemma {:induction false} KeepNext(list: seq<nat>, page: nat, k: nat, i: nat)
    requires k < DESC_COUNT && NoDup(list) && i < Total(k)
    ensures Without(Keep(list, page, k, i), BlockAt(page, k, i)) == Keep(list, page, k, i + 1)
    decreases |list|
  {
    if list != [] {
      var x, b := list[0], BlockAt(page, k, i);
      KeepNext(list[1..], page, k, i);
      AmongNext(page, k, i, x);
      hide BlockAt, Total, Among;
      if x == b {
        forall m | 0 <= m < |list[1..]| ensures list[1..][m] != x { assert list[m + 1] != list[0]; }
        assert b !in Keep(list[1..], page, k, i);
      }
    }
  }

  lemma AmongNext(page: nat, k: nat, i: nat, x: nat)
    requires k < DESC_COUNT && i < Total(k)
    ensures Among(page, k, i + 1, x) <==> Among(page, k, i, x) || x == BlockAt(page, k, i)
    ensures !Among(page, k, i, BlockAt(page, k, i))
  {
    forall j: nat | j < i ensures BlockAt(page, k, j) != BlockAt(page, k, i) { BlocksApart(page, k, j, i); }
    hide BlockAt, Total;
    if Among(page, k, i, x) { var j: nat :| j < i && x == BlockAt(page, k, j); assert j < i + 1; }
  }

  // With all of them gone the list has nothing left in the page.
  lemma {:induction false} KeepAll(list: seq<nat>, page: nat, k: nat)
    requires k < DESC_COUNT && forall b :: b in list && PageOf(b) == page ==> IsBlock(page, k, b)
    ensures Keep(list, page, k, Total(k)) == OutsidePage(list, page)
    decreases |list|
  {
    if list != [] {
      KeepAll(list[1..], page, k);
      forall j: nat | j < Total(k) ensures PageOf(BlockAt(page, k, j)) == page { BlockInPage(page, k, j); }
      hide BlockAt, Total, PageOf;
      assert list[0] in list;
    }
  }

  lemma {:induction false} KeepNone(list: seq<nat>, page: nat, k: nat)
    requires k < DESC_COUNT
    ensures Keep(list, page, k, 0) == list
  {
    if list != [] { KeepNone(list[1..], page, k); }
  }

  // What kfree finds in the books.
  lemma FreeFacts(h: Heap, p: nat)
    requires Inv(h) && p in h.live
    ensures PageOf(p) in h.arenas && var page := PageOf(p); var a := h.arenas[page];
      && h.base <= page && page - h.base + Pages(a) <= |h.used|
      && (forall s :: page - h.base <= s < page - h.base + Pages(a) ==> h.used[s])
      && (a.Small? ==> a.desc < DESC_COUNT && NoDup(h.free[a.desc] + [p]))
      && (a.Small? ==> forall b :: b in h.free[a.desc] + [p] && PageOf(b) == page ==> IsBlock(page, a.desc, b))
      && (a.Small? && a.count + 1 == Total(a.desc) ==>
            forall i: nat :: i < Total(a.desc) ==> BlockAt(page, a.desc, i) in h.free[a.desc] + [p])
  {
    var page := PageOf(p);
    assert LiveOk(h, p) && ArenaOk(h, page);
    var a := h.arenas[page];
    forall s: nat | page - h.base <= s < page - h.base + Pages(a) ensures h.used[s] {
      assert UsedOk(h, s) && Covers(h, page, s);
    }
    if a.Small? {
      PushStep(h, p, a.desc);
      var h1 := Pushed(h, p, a.desc);
      PushedFacts(h1, page, a.desc);
      hide Core, PageOf, BlockAt, Size, Total;
    }
  }

  lemma PushedFacts(h: Heap, page: nat, k: nat)
    requires Core(h) && SmallAt(h, page, k)
    ensures NoDup(h.free[k]) && forall b :: b in h.free[k] && PageOf(b) == page ==> IsBlock(page, k, b)
    ensures h.arenas[page].count == Total(k) ==> forall i: nat :: i < Total(k) ==> BlockAt(page, k, i) in h.free[k]
  {
    assert ArenaOk(h, page);
    FreeIdxFull(h, page, k);
    forall b | b in h.free[k] && PageOf(b) == page ensures IsBlock(page, k, b) { assert FreeOk(h, k, b); }
    hide PageOf, BlockAt, Size, Total, FreeIdx;
    if h.arenas[page].count == Total(k) {
      forall i: nat | i < Total(k) ensures BlockAt(page, k, i) in h.free[k] { assert IsFree(h, page, k, i); }
    }
  }

  lemma TakeFacts(h: Heap, k: nat, size: nat)
    requires Inv(h) && k < DESC_COUNT && size <= Size(k)
    ensures |h.free| == DESC_COUNT && (h.free[k] != [] ==> PopBlock(h, k, size).Some?)
    ensures h.free[k] == [] && NewArena(h, k).Some? ==>
      |NewArena(h, k).value.free| == DESC_COUNT && PopBlock(NewArena(h, k).value, k, size).Some?
  {
    CoreLists(h);
    hide Core, Size, Total;
    if h.free[k] != [] {
      PopStep(h, k, size);
    } else {
      NewArenaStep(h, k);
      if NewArena(h, k).Some? { PopStep(NewArena(h, k).value, k, size); }
    }
  }

  class Kmem {
    const kernelVmap: Bitmap
    var arenas: map<nat, Arena>
    var freeLists: seq<seq<nat>>
    ghost var live: map<nat, nat>
    ghost var other: seq<bool>

    ghost function Model(): Heap
      reads this, kernelVmap.bits
    {
      Heap(kernelVmap.offset, kernelVmap.Contents(), arenas, freeLists, live, other)
    }

    // kernel_vmap_init and arena_init.
    constructor (base: nat, bytes: nat)
      ensures Model() == Fresh(base, 8 * bytes)
      ensures fresh(kernelVmap.bits)
    {
      kernelVmap := new Bitmap(bytes, base);
      arenas, freeLists, live := map[], seq(DESC_COUNT, _ => []), map[];
      other := seq(8 * bytes, _ => false);
    }

    // kalloc_page, without the panic: None when no run of pages is free.
    method ScanPages(count: nat) returns (r: Option<nat>)
      requires count > 0
      modifies kernelVmap.bits
      ensures r == match FirstFit(old(Model()).used, count, 0)
                   case None => None
                   case Some(s) => Some(kernelVmap.offset + s)
      ensures Model().used == match FirstFit(old(Model()).used, count, 0)
                              case None => old(Model()).used
                              case Some(s) => Mark(old(Model()).used, s, count, true)
    {
      r := kernelVmap.InsertBits(count);
    }

    // kfree_page: every page must be marked.
    method ResetPages(page: nat, count: nat) returns (ok: bool)
      requires kernelVmap.offset <= page && page - kernelVmap.offset + count <= 8 * kernelVmap.bits.Length
      modifies kernelVmap.bits
      ensures ok <==>
        forall s :: page - kernelVmap.offset <= s < page - kernelVmap.offset + count ==> old(Model()).used[s]
      ensures ok ==> Model().used == Mark(old(Model()).used, page - kernelVmap.offset, count, false)
    {
      ghost var was := kernelVmap.Contents();
      var i := 0;
      while i < count
        invariant 0 <= i <= count
        invariant forall s :: page - kernelVmap.offset <= s < page - kernelVmap.offset + i ==> was[s]
        invariant forall s :: 0 <= s < |was| ==>
          kernelVmap.Contents()[s] == (was[s] && !(page - kernelVmap.offset <= s < page - kernelVmap.offset + i))
      {
        var used := kernelVmap.Contains(page + i);
        if !used {
          assert !old(Model()).used[page - kernelVmap.offset + i];
          return false;
        }
        kernelVmap.Set(page + i, false);
        i := i + 1;
      }
      return true;
    }

    // A page is cut into blocks, which go on the free list one by one.
    method CutPage(page: nat, k: nat)
      requires k < DESC_COUNT && |freeLists| == DESC_COUNT
      modifies this`arenas, this`freeLists
      ensures arenas == old(arenas)[page := Small(k, Total(k))]
      ensures freeLists == old(freeLists)[k := old(freeLists)[k] + Blocks(page, k, Total(k))]
    {
      arenas := arenas[page := Small(k, Total(k))];
      var i := 0;
      assert freeLists[k] + Blocks(page, k, 0) == freeLists[k];
      while i < Total(k)
        invariant 0 <= i <= Total(k) && |freeLists| == DESC_COUNT && arenas == old(arenas)[page := Small(k, Total(k))]
        invariant freeLists == old(freeLists)[k := old(freeLists)[k] + Blocks(page, k, i)]
      {
        var block := BlockAt(page, k, i);
        assert Blocks(page, k, i + 1) == Blocks(page, k, i) + [block];
        assert old(freeLists)[k] + Blocks(page, k, i) + [block] == old(freeLists)[k] + Blocks(page, k, i + 1);
        freeLists := freeLists[k := freeLists[k] + [block]];
        i := i + 1;
      }
    }

    method Kmalloc(size: nat) returns (r: Option<nat>)
      requires Inv(Model())
      modifies this`arenas, this`freeLists, this`live, kernelVmap.bits
      ensures r.None? <==> Alloc(old(Model()), size).None?
      ensures r.Some? ==> Alloc(old(Model()), size) == Some((Model(), r.value))
      ensures r.Some? ==> Inv(Model())
    {
      AllocStep(Model(), size);
      ghost var h := Model();
      assert |h.free| == DESC_COUNT;
      hide Inv, Mark, FirstFit;
      if size > MAX_BLOCK_SIZE {
        var count := PagesFor(size);
        var page := ScanPages(count);
        if page.None? { return None; }
        arenas := arenas[page.value := Large(count)];
        var addr := page.value * PAGE_SIZE + ARENA_HEADER;
        live := live[addr := size];
        return Some(addr);
      }
      var k := 0;
      while Size(k) < size
        invariant k < DESC_COUNT && DescFrom(size, 0) == DescFrom(size, k)
        decreases DESC_COUNT - k
      {
        k := k + 1;
      }
      hide Size, Total;
      r := TakeBlock(k, size);
    }

    method TakeBlock(k: nat, size: nat) returns (r: Option<nat>)
      requires Inv(Model()) && k < DESC_COUNT && size <= Size(k)
      modifies this`arenas, this`freeLists, this`live, kernelVmap.bits
      ensures |old(freeLists)| == DESC_COUNT
      ensures var h := old(Model());
        var got := if h.free[k] != [] then PopBlock(h, k, size)
                   else match NewArena(h, k) case None => None case Some(h1) => PopBlock(h1, k, size);
        (r.None? <==> got.None?) && (r.Some? ==> got == Some((Model(), r.value)))
    {
      TakeFacts(Model(), k, size);
      hide Inv, Core, Mark, FirstFit, Size, Total, PopBlock, NewArena;
      if freeLists[k] == [] {
        var grown := Grow(k);
        if !grown { return None; }
      }
      r := Pop(k, size);
    }

    // A page for blocks of descriptor k; false when there is none.
    method Grow(k: nat) returns (ok: bool)
      requires k < DESC_COUNT && |freeLists| == DESC_COUNT
      modifies this`arenas, this`freeLists, kernelVmap.bits
      ensures ok <==> NewArena(old(Model()), k).Some?
      ensures ok ==> NewArena(old(Model()), k) == Some(Model())
    {
      hide Mark, FirstFit, Size, Total, Blocks;
      var page := ScanPages(1);
      if page.None? { return false; }
      CutPage(page.value, k);
      return true;
    }

    method Pop(k: nat, size: nat) returns (r: Option<nat>)
      requires k < DESC_COUNT && |freeLists| == DESC_COUNT && PopBlock(Model(), k, size).Some?
      modifies this`arenas, this`freeLists, this`live
      ensures r.Some? && PopBlock(old(Model()), k, size) == Some((Model(), r.value))
    {
      var block := freeLists[k][0];
      freeLists := freeLists[k := freeLists[k][1..]];
      var page := PageOf(block);
      arenas := arenas[page := arenas[page].(count := arenas[page].count - 1)];
      live := live[block := size];
      return Some(block);
    }

    // The blocks of a page that is all free leave the list one by one; each must be in it.
    method RemoveBlocks(page: nat, k: nat)
      requires k < DESC_COUNT && |freeLists| == DESC_COUNT && NoDup(freeLists[k])
      requires forall b :: b in freeLists[k] && PageOf(b) == page ==> IsBlock(page, k, b)
      requires forall i: nat :: i < Total(k) ==> BlockAt(page, k, i) in freeLists[k]
      modifies this`freeLists
      ensures freeLists == old(freeLists)[k := OutsidePage(old(freeLists)[k], page)]
    {
      ghost var list := freeLists[k];
      KeepNone(list, page, k);
      hide BlockAt, Size, Total, PageOf, IsBlock, Among;
      var i := 0;
      while i < Total(k)
        invariant 0 <= i <= Total(k) && |freeLists| == DESC_COUNT
        invariant freeLists == old(freeLists)[k := Keep(list, page, k, i)]
      {
        var block := BlockAt(page, k, i);
        AmongNext(page, k, i, block);
        assert block in freeLists[k];
        KeepNext(list, page, k, i);
        freeLists := freeLists[k := Without(freeLists[k], block)];
        AmongNext(page, k, i, block);
        assert block !in freeLists[k];
        i := i + 1;
      }
      KeepAll(list, page, k);
    }

    // The caller gives back what it holds.
    method Kfree(ptr: nat)
      requires Inv(Model()) && ptr in live
      modifies this`arenas, this`freeLists, this`live, kernelVmap.bits
      ensures |old(freeLists)| == DESC_COUNT && Free(old(Model()), ptr) == Some(Model())
      ensures Inv(Model())
    {
      ghost var h := Model();
      FreeStep(h, ptr);
      var page := PageOf(ptr);
      FreeFacts(h, ptr);
      hide Inv, Mark, PageOf, BlockAt, Size, Total;
      var arena := arenas[page];
      live := live - {ptr};
      if arena.Large? {
        arenas := arenas - {page};
        var ok := ResetPages(page, arena.count);
        return;
      }
      var k := arena.desc;
      freeLists := freeLists[k := freeLists[k] + [ptr]];
      arenas := arenas[page := Small(k, arena.count + 1)];
      if arena.count + 1 == Total(k) {
        RemoveBlocks(page, k);
        arenas := arenas - {page};
        assert arenas == h.arenas - {page};
        assert freeLists == h.free[k := OutsidePage(h.free[k] + [ptr], page)];
        var ok := ResetPages(page, 1);
      }
    }
  }
}
