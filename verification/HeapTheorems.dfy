/**
  What the heap promises its callers, in every state it can get into.
 */
module HeapTheorems {
  import opened Bitmaps
  import opened HeapModel
  import opened HeapSteps
  import opened Wrappers

  // The bytes that belong to a block in a caller's hands.
  function Extent(h: Heap, p: nat): nat
    requires PageOf(p) in h.arenas
  {
    match h.arenas[PageOf(p)]
    case Small(k, _) => if k < DESC_COUNT then Size(k) else 0
    case Large(count) => if count * PAGE_SIZE >= ARENA_HEADER then count * PAGE_SIZE - ARENA_HEADER else 0
  }

  // A caller's block is as large as it asked for and lies in its arena behind the header.
  lemma LiveInside(h: Heap, p: nat)
    requires Inv(h) && p in h.live
    ensures PageOf(p) in h.arenas && h.live[p] <= Extent(h, p)
    ensures PageOf(p) * PAGE_SIZE + ARENA_HEADER <= p
    ensures p + Extent(h, p) <= (PageOf(p) + Pages(h.arenas[PageOf(p)])) * PAGE_SIZE
  {
    assert LiveOk(h, p) && ArenaOk(h, PageOf(p));
    var page := PageOf(p);
    if h.arenas[page].Small? {
      var k := h.arenas[page].desc;
      var i: nat :| i < Total(k) && p == BlockAt(page, k, i);
      BlockInPage(page, k, i);
    }
  }

  // Two callers never share a byte.
  lemma LiveDisjoint(h: Heap, p: nat, q: nat)
    requires Inv(h) && p in h.live && q in h.live && p < q
    ensures PageOf(p) in h.arenas && p + Extent(h, p) <= q
  {
    LiveInside(h, p);
    LiveInside(h, q);
    assert LiveOk(h, p) && LiveOk(h, q);
    var a, b := PageOf(p), PageOf(q);
    if a == b {
      if h.arenas[a].Small? {
        var k := h.arenas[a].desc;
        var i: nat :| i < Total(k) && p == BlockAt(a, k, i);
        var j: nat :| j < Total(k) && q == BlockAt(a, k, j);
        if i < j { BlocksApart(a, k, i, j); } else if j < i { BlocksApart(a, k, j, i); }
      }
    } else {
      assert ApartAt(h, a, b);
    }
  }

  // No caller's block touches an arena's header.
  lemma HeadersApart(h: Heap, p: nat, page: nat)
    requires Inv(h) && p in h.live && page in h.arenas
    ensures PageOf(p) in h.arenas
    ensures p + Extent(h, p) <= page * PAGE_SIZE || page * PAGE_SIZE + ARENA_HEADER <= p
  {
    LiveInside(h, p);
    assert ApartAt(h, PageOf(p), page);
  }

  // Nor a block on a free list.
  lemma FreeApart(h: Heap, p: nat, k: nat, b: nat)
    requires Inv(h) && p in h.live && k < DESC_COUNT && b in h.free[k]
    ensures PageOf(p) in h.arenas
    ensures p + Extent(h, p) <= b || b + Size(k) <= p
  {
    LiveInside(h, p);
    assert FreeOk(h, k, b) && LiveOk(h, p);
    var a, c := PageOf(p), PageOf(b);
    var j: nat :| j < Total(k) && b == BlockAt(c, k, j);
    BlockInPage(c, k, j);
    if a == c {
      var i: nat :| i < Total(k) && p == BlockAt(a, k, i);
      assert BlockOk(h, a, k, i) && BlockOk(h, a, k, j);
      if i < j { BlocksApart(a, k, i, j); } else if j < i { BlocksApart(a, k, j, i); }
    } else {
      assert ApartAt(h, a, c);
    }
  }

  // ---------- giving pages back ----------

  // The page of a freed block leaves the heap exactly when every other block of it is free, and
  // then no free list has a node in it.
  lemma PageReturned(h: Heap, p: nat)
    requires Inv(h) && p in h.live && PageOf(p) in h.arenas && h.arenas[PageOf(p)].Small?
    ensures Free(h, p).Some? && var h1 := Free(h, p).value; var page := PageOf(p); var k := h.arenas[page].desc;
      && k < DESC_COUNT
      && (page !in h1.arenas <==> forall i: nat :: i < Total(k) && BlockAt(page, k, i) != p ==> IsFree(h, page, k, i))
      && (page !in h1.arenas ==> forall j, b :: 0 <= j < DESC_COUNT && b in h1.free[j] ==> PageOf(b) != page)
  {
    FreeStep(h, p);
    var page := PageOf(p);
    assert LiveOk(h, p) && ArenaOk(h, page);
    var k, h1 := h.arenas[page].desc, Free(h, p).value;
    PushStep(h, p, k);
    var i0: nat :| i0 < Total(k) && p == BlockAt(page, k, i0);
    PushFree(h, p, k, i0);
    var n := Total(k);
    FreeIdxFull(Pushed(h, p, k), page, k);
    CountIsFull(h, p, k, i0);
    hide Core, PageOf, BlockAt, Size, Total;
    assert page !in h1.arenas <==> h.arenas[page].count + 1 == Total(k);
    forall j: nat, b | j < DESC_COUNT && b in h1.free[j] && page !in h1.arenas ensures PageOf(b) != page {
      NodesInArenas(h1, j, b);
    }
  }

  lemma NodesInArenas(h: Heap, k: nat, b: nat)
    requires Core(h) && k < DESC_COUNT && b in h.free[k]
    ensures PageOf(b) in h.arenas
  {
    assert FreeOk(h, k, b);
  }

  lemma CountIsFull(h: Heap, p: nat, k: nat, i0: nat)
    requires Inv(h) && p in h.live && SmallAt(h, PageOf(p), k) && i0 < Total(k) && p == BlockAt(PageOf(p), k, i0)
    ensures h.arenas[PageOf(p)].count + 1 == Total(k) <==>
      forall i: nat :: i < Total(k) && BlockAt(PageOf(p), k, i) != p ==> IsFree(h, PageOf(p), k, i)
  {
    var page, n := PageOf(p), Total(k);
    assert ArenaOk(h, page) && BlockOk(h, page, k, i0);
    var all := set i: nat | i < n && Index(i, n);
    Below(n);
    assert FreeIdx(h, page, k) <= all - {i0} by {
      forall i: nat | i in FreeIdx(h, page, k) ensures i in all - {i0} { assert Index(i, n); }
    }
    assert Index(i0, n) && i0 in all;
    SubsetSize(FreeIdx(h, page, k), all - {i0});
    hide Inv, Core, PageOf, BlockAt, Size, Total;
    forall i: nat | i < n ensures (BlockAt(page, k, i) != p <==> i != i0) && Index(i, n) {
      BlockIs(page, k, i, page, i0);
    }
    if h.arenas[page].count + 1 == n {
      forall i: nat | i < n && BlockAt(page, k, i) != p ensures IsFree(h, page, k, i) { assert i in all - {i0}; }
    } else {
      assert FreeIdx(h, page, k) != all - {i0};
    }
  }

  // ---------- kfree undoes kmalloc ----------

  // Apart from the order of one free list, kfree takes the heap back to where kmalloc found it.
  ghost predicate Undone(h: Heap, h1: Heap) {
    && h1.used == h.used && h1.arenas == h.arenas && h1.live == h.live && h1.other == h.other && h1.base == h.base
    && |h1.free| == |h.free| && forall k :: 0 <= k < |h.free| ==> multiset(h1.free[k]) == multiset(h.free[k])
  }

  lemma FreeUndoesAlloc(h: Heap, size: nat)
    requires Inv(h) && Alloc(h, size).Some?
    ensures var (h1, p) := Alloc(h, size).value; Free(h1, p).Some? && Undone(h, Free(h1, p).value)
  {
    AllocStep(h, size);
    var (h1, p) := Alloc(h, size).value;
    if size > MAX_BLOCK_SIZE {
      LargeUndone(h, size);
    } else if h.free[DescFor(size)] != [] {
      PopUndone(h, DescFor(size), size);
    } else {
      NewUndone(h, DescFor(size), size);
    }
  }

  lemma LargeUndone(h: Heap, size: nat)
    requires Inv(h) && size > MAX_BLOCK_SIZE && Alloc(h, size).Some?
    ensures var (h1, p) := Alloc(h, size).value; Free(h1, p).Some? && Undone(h, Free(h1, p).value)
  {
    var (h1, p) := Alloc(h, size).value;
    var n, s := PagesFor(size), FirstFit(h.used, PagesFor(size), 0).value;
    ClearIsNew(h, s, n);
    assert p !in h.live && PageOf(p) == h.base + s by { AllocStep(h, size); }
    var h2 := Free(h1, p).value;
    hide Inv;
    assert h2.used == h.used;
    assert h2.arenas == h.arenas;
    assert h2.live == h.live;
  }

  lemma PopUndone(h: Heap, k: nat, size: nat)
    requires Inv(h) && k < DESC_COUNT && size <= Size(k) && h.free[k] != []
    ensures PopBlock(h, k, size).Some?
    ensures var (h1, p) := PopBlock(h, k, size).value; Free(h1, p).Some? && Undone(h, Free(h1, p).value)
  {
    var b := h.free[k][0];
    assert b in h.free[k] && FreeOk(h, k, b) && ArenaOk(h, PageOf(b)) && NotAllFree(h, PageOf(b));
    PopStep(h, k, size);
    var h1 := PopBlock(h, k, size).value.0;
    assert ArenaOk(h1, PageOf(b));
    hide Inv, Core, Total, Size;
    PutBack(h, k, size);
  }

  // kfree of a block popped from a page in which another block is in use.
  lemma PutBack(h: Heap, k: nat, size: nat)
    requires k < DESC_COUNT == |h.free| && h.free[k] != [] && PopBlock(h, k, size).Some?
    requires var b := h.free[k][0];
      && b !in h.live && PageOf(b) in h.arenas && PageOf(b) >= h.base
      && exists c: nat :: h.arenas[PageOf(b)] == Small(k, c) && 0 < c != Total(k)
    ensures var (h1, p) := PopBlock(h, k, size).value; Free(h1, p).Some? && Undone(h, Free(h1, p).value)
  {
    hide PageOf, Total;
    var b := h.free[k][0];
    var (h1, p) := PopBlock(h, k, size).value;
    var h2 := Free(h1, p).value;
    assert h2.live == h.live && h2.arenas == h.arenas;
    assert h2.free[k] == h.free[k][1..] + [b] && h.free[k] == [b] + h.free[k][1..];
  }

  lemma NewPopped(h: Heap, k: nat, size: nat, s: nat)
    requires k < DESC_COUNT == |h.free| && h.free[k] == [] && FirstFit(h.used, 1, 0) == Some(s)
    requires NewArena(h, k).Some? && PopBlock(NewArena(h, k).value, k, size).Some?
    requires PageOf(BlockAt(h.base + s, k, 0)) == h.base + s
    ensures var page, h0 := h.base + s, NewArena(h, k).value; var (h1, p) := PopBlock(h0, k, size).value;
      && h0.free[k] == Blocks(page, k, Total(k)) && p == h0.free[k][0]
      && h1 == Heap(h.base, Mark(h.used, s, 1, true), h0.arenas[page := Small(k, Total(k) - 1)],
                    h0.free[k := h0.free[k][1..]], h.live[p := size], h.other)
  {
    hide FirstFit, PageOf, BlockAt, Total;
    var page, h0 := h.base + s, NewArena(h, k).value;
    assert h0.free[k] == Blocks(page, k, Total(k));
  }

  // The page taken for the block goes back with it.
  lemma NewUndone(h: Heap, k: nat, size: nat)
    requires Inv(h) && k < DESC_COUNT && size <= Size(k) && h.free[k] == [] && NewArena(h, k).Some?
    ensures PopBlock(NewArena(h, k).value, k, size).Some?
    ensures var (h1, p) := PopBlock(NewArena(h, k).value, k, size).value;
      Free(h1, p).Some? && Undone(h, Free(h1, p).value)
  {
    var s := FirstFit(h.used, 1, 0).value;
    var page, h0 := h.base + s, NewArena(h, k).value;
    ClearIsNew(h, s, 1);
    NewArenaStep(h, k);
    PopStep(h0, k, size);
    BlocksNoDup(page, k);
    BlockInPage(page, k, 0);
    NewPopped(h, k, size, s);
    var (h1, p) := PopBlock(h0, k, size).value;
    hide NewArena, PopBlock, Alloc, Inv, Core, Size, PageOf, Total, BlockAt, Blocks, FirstFit, Mark, IsBlock;
    NewBack(h, h1, s, k, p, size);
  }

  lemma NewBack(h: Heap, h1: Heap, s: nat, k: nat, p: nat, size: nat)
    requires |h.free| == DESC_COUNT && |h1.free| == DESC_COUNT && k < DESC_COUNT && h.free[k] == []
    requires s < |h.used| && !h.used[s] && h.base + s !in h.arenas && p !in h.live && PageOf(p) == h.base + s
    requires h1.base == h.base && h1.used == Mark(h.used, s, 1, true) && h1.other == h.other
    requires h1.arenas == h.arenas[h.base + s := Small(k, Total(k) - 1)] && h1.live == h.live[p := size]
    requires h1.free == h.free[k := h1.free[k]] && forall b :: b in h1.free[k] ==> PageOf(b) == h.base + s
    ensures Free(h1, p).Some? && Undone(h, Free(h1, p).value)
  {
    hide PageOf, Total;
    var h2 := Free(h1, p).value;
    assert h2.used == h.used;
    assert h2.arenas == h.arenas;
    assert h2.live == h.live;
    AllInPage(h1.free[k] + [p], h.base + s);
  }

  lemma {:induction false} AllInPage(list: seq<nat>, page: nat)
    requires forall b :: b in list ==> PageOf(b) == page
    ensures OutsidePage(list, page) == []
  {
    if list != [] { AllInPage(list[1..], page); }
  }

  // ---------- runs ----------

  datatype Op = Kmalloc(size: nat) | Kfree(p: nat) | Take(pages: nat) | Give(page: nat, pages: nat)

  // Callers free what they hold and give back pages that they took.
  ghost predicate CanDo(h: Heap, op: Op) {
    match op
    case Kmalloc(_) => true
    case Kfree(p) => p in h.live
    case Take(n) => n > 0
    case Give(page, n) =>
      && h.base <= page && page - h.base + n <= |h.other| && n > 0
      && forall s :: page - h.base <= s < page - h.base + n ==> h.other[s]
  }

  ghost function Step(h: Heap, op: Op): Option<Heap>
    requires |h.free| == DESC_COUNT
  {
    match op
    case Kmalloc(size) => if Alloc(h, size).Some? then Some(Alloc(h, size).value.0) else None
    case Kfree(p) => Free(h, p)
    case Take(n) => if TakePages(h, n).Some? then Some(TakePages(h, n).value.0) else None
    case Give(page, n) => GivePages(h, page, n)
  }

  lemma OtherStep(h: Heap, h1: Heap)
    requires Inv(h) && h1 == h.(used := h1.used, other := h1.other) && |h1.used| == |h.used| == |h1.other|
    requires forall s: nat :: UsedOk(h1, s)
    ensures Inv(h1)
  {
    hide UsedOk, Size, Total, PageOf, BlockAt;
    forall q: nat ensures ArenaOk(h1, q) && NotAllFree(h1, q) {
      assert ArenaOk(h, q) && NotAllFree(h, q);
      SameFreeIdx(h, h1, q);
    }
    hide FreeIdx, ArenaOk;
    forall x: nat, y: nat ensures ApartAt(h1, x, y) { assert ApartAt(h, x, y); }
    forall q: nat, k: nat, i: nat ensures BlockOk(h1, q, k, i) { assert BlockOk(h, q, k, i); }
    forall k: nat, b: nat ensures FreeOk(h1, k, b) { assert FreeOk(h, k, b); }
    forall p: nat ensures LiveOk(h1, p) { assert LiveOk(h, p); }
  }

  lemma TakeStep(h: Heap, n: nat)
    requires Inv(h) && n > 0 && TakePages(h, n).Some?
    ensures Inv(TakePages(h, n).value.0)
    ensures var (h1, page) := TakePages(h, n).value;
      && page >= h.base && page - h.base + n <= |h.used| == |h1.used|
      && forall s :: 0 <= s < |h.used| ==> (h1.used[s] <==> h.used[s] || page - h.base <= s < page - h.base + n)
  {
    var s := FirstFit(h.used, n, 0).value;
    var h1 := TakePages(h, n).value.0;
    ClearIsNew(h, s, n);
    forall t: nat ensures UsedOk(h1, t) {
      assert UsedOk(h, t);
      forall q: nat ensures Covers(h1, q, t) <==> Covers(h, q, t) {}
    }
    OtherStep(h, h1);
  }

  lemma GiveStep(h: Heap, page: nat, n: nat)
    requires Inv(h) && CanDo(h, Give(page, n))
    ensures GivePages(h, page, n).Some? && Inv(GivePages(h, page, n).value)
    ensures var h1 := GivePages(h, page, n).value;
      && |h.used| == |h1.used|
      && forall s :: 0 <= s < |h.used| ==> (h1.used[s] <==> h.used[s] && !(page - h.base <= s < page - h.base + n))
  {
    forall s: nat | page - h.base <= s < page - h.base + n ensures h.used[s] { assert UsedOk(h, s); }
    var h1 := GivePages(h, page, n).value;
    forall t: nat ensures UsedOk(h1, t) {
      assert UsedOk(h, t);
      forall q: nat ensures Covers(h1, q, t) <==> Covers(h, q, t) {}
    }
    OtherStep(h, h1);
  }

  lemma StepKeeps(h: Heap, op: Op)
    requires Inv(h) && CanDo(h, op)
    ensures |h.free| == DESC_COUNT && (Step(h, op).Some? ==> Inv(Step(h, op).value))
  {
    assert |h.free| == DESC_COUNT;
    hide Inv, Core, Alloc, Free, TakePages, GivePages;
    match op
    case Kmalloc(size) => AllocStep(h, size);
    case Kfree(p) => FreeStep(h, p);
    case Take(n) => if TakePages(h, n).Some? { TakeStep(h, n); }
    case Give(page, n) => GiveStep(h, page, n);
  }

  ghost predicate Run(h: Heap, ops: seq<Op>, n: Heap)
    decreases |ops|
  {
    if ops == [] then n == h
    else
      |h.free| == DESC_COUNT && CanDo(h, ops[0]) && Step(h, ops[0]).Some? && Run(Step(h, ops[0]).value, ops[1..], n)
  }

  lemma FreshInv(base: nat, pages: nat)
    ensures Inv(Fresh(base, pages))
  {
    var h := Fresh(base, pages);
    forall s: nat ensures UsedOk(h, s) {}
  }

  lemma {:induction false} RunKeeps(h: Heap, ops: seq<Op>, n: Heap)
    requires Inv(h) && Run(h, ops, n)
    ensures Inv(n)
    decreases |ops|
  {
    if ops != [] {
      hide Inv, Step, CanDo;
      StepKeeps(h, ops[0]);
      RunKeeps(Step(h, ops[0]).value, ops[1..], n);
    }
  }

  // Nothing leaks: once every caller has given its block back, the heap holds no page, and only
  // the pages of others are taken.
  lemma NothingLeaks(base: nat, pages: nat, ops: seq<Op>, n: Heap)
    requires Run(Fresh(base, pages), ops, n) && n.live == map[]
    ensures n.arenas == map[] && n.used == n.other && |n.free| == DESC_COUNT
    ensures forall k :: 0 <= k < DESC_COUNT ==> n.free[k] == []
  {
    FreshInv(base, pages);
    RunKeeps(Fresh(base, pages), ops, n);
    forall page: nat ensures page !in n.arenas {
      assert ArenaOk(n, page) && NotAllFree(n, page);
      if page in n.arenas && n.arenas[page].Small? { AllFreeCounts(n, page); }
    }
    forall k | 0 <= k < DESC_COUNT ensures n.free[k] == [] {
      assert n.free[k] != [] ==> n.free[k][0] in n.free[k] && FreeOk(n, k, n.free[k][0]);
    }
    forall s: nat | s < |n.used| ensures n.used[s] == n.other[s] {
      assert UsedOk(n, s);
      forall q: nat ensures !Covers(n, q, s) {}
    }
  }

  // With no block in anybody's hands an arena would be all free.
  lemma AllFreeCounts(h: Heap, page: nat)
    requires Core(h) && h.live == map[] && page in h.arenas && h.arenas[page].Small?
    ensures h.arenas[page].desc < DESC_COUNT && h.arenas[page].count == Total(h.arenas[page].desc)
  {
    assert ArenaOk(h, page);
    var k := h.arenas[page].desc;
    var n := Total(k);
    Below(n);
    forall i: nat | i < n ensures IsFree(h, page, k, i) && Index(i, n) { assert BlockOk(h, page, k, i); }
    assert FreeIdx(h, page, k) == (set i: nat | i < n && Index(i, n));
  }
}
