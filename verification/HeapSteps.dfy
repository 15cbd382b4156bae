/**
  Allocation and release keep the heap's books.
 */
module HeapSteps {
  import opened Bitmaps
  import opened HeapModel
  import opened Lists

  // ---------- addresses ----------

  // The n lowest bits.
  function Ones(n: nat): nat {
    if n == 0 then 0 else 2 * Ones(n - 1) + 1
  }

  lemma {:induction false} AndOnes(a: nat, n: nat)
    requires a <= Ones(n)
    ensures And(a, Ones(n)) == a
    decreases n
  {
    if n > 0 && a > 0 {
      AndOnes(a / 2, n - 1);
    }
  }

  function Zeros(b: nat, n: nat): (r: nat)
    ensures b > 0 ==> r > 0
  {
    if n == 0 then b else 2 * Zeros(b, n - 1)
  }

  function Halves(a: nat, n: nat): nat {
    if n == 0 then a else Halves(a / 2, n - 1)
  }

  lemma AndDouble(a: nat, z: nat)
    ensures And(a, 2 * z) == 2 * And(a / 2, z)
  {
    if a > 0 && z > 0 {
      assert 2 * z / 2 == z && 2 * z % 2 == 0;
    }
  }

  // Low zeros of the mask clear the low bits of the address.
  lemma {:induction false} AndZeros(a: nat, b: nat, n: nat)
    ensures And(a, Zeros(b, n)) == Zeros(And(Halves(a, n), b), n)
    decreases n
  {
    if n > 0 {
      AndZeros(a / 2, b, n - 1);
      AndDouble(a, Zeros(b, n - 1));
      hide And;
    }
  }

  // On 32-bit addresses the mask of get_arena_from_block leaves the start of the page.
  lemma MaskIsPage(addr: nat)
    requires addr < 0x1_0000_0000
    ensures ArenaOf(addr) == PageOf(addr) * PAGE_SIZE
  {
    assert Ones(20) == 0xF_FFFF by { assert Ones(10) == 0x3FF; }
    assert Zeros(0xF_FFFF, 12) == PAGE_MASK by { assert Zeros(0xF_FFFF, 6) == 0x3FF_FFC0; }
    AndZeros(addr, 0xF_FFFF, 12);
    TwelveTimes(addr, PageOf(addr));
    AndOnes(PageOf(addr), 20);
  }

  lemma ThreeTimes(a: nat, n: nat)
    ensures Halves(a, n + 3) == Halves(a / 8, n) && Zeros(a, n + 3) == 8 * Zeros(a, n)
  {
    assert Halves(a, n + 3) == Halves(a / 2, n + 2);
    assert Halves(a / 2, n + 2) == Halves(a / 2 / 2, n + 1);
    assert Zeros(a, n + 3) == 2 * Zeros(a, n + 2);
    assert Zeros(a, n + 2) == 2 * Zeros(a, n + 1);
  }

  lemma SixTimes(a: nat, n: nat)
    ensures Halves(a, n + 6) == Halves(a / 64, n) && Zeros(a, n + 6) == 64 * Zeros(a, n)
  {
    ThreeTimes(a, n + 3);
    ThreeTimes(a / 8, n);
    ThreeTimes(a, n);
    hide Halves, Zeros;
  }

  lemma TwelveTimes(a: nat, b: nat)
    ensures Halves(a, 12) == a / PAGE_SIZE && Zeros(b, 12) == b * PAGE_SIZE
  {
    SixTimes(a, 6);
    SixTimes(a / 64, 0);
    SixTimes(b, 6);
    SixTimes(b, 0);
    assert Halves(a / 64 / 64, 0) == a / 64 / 64 && Zeros(b, 0) == b;
    hide Halves, Zeros;
  }

  // A block lies in its page behind the header, and masking its address gives the page back.
  lemma BlockInPage(page: nat, k: nat, i: nat)
    requires k < DESC_COUNT && i < Total(k)
    ensures PageOf(BlockAt(page, k, i)) == page
    ensures BlockAt(page, k, i) < 0x1_0000_0000 ==> ArenaOf(BlockAt(page, k, i)) == page * PAGE_SIZE
    ensures page * PAGE_SIZE + ARENA_HEADER <= BlockAt(page, k, i)
    ensures BlockAt(page, k, i) + Size(k) <= (page + 1) * PAGE_SIZE
  {
    BlockBounds(page, k, i);
    hide BlockAt, Total, ArenaOf;
    if BlockAt(page, k, i) < 0x1_0000_0000 { MaskIsPage(BlockAt(page, k, i)); }
  }

  lemma BlockBounds(page: nat, k: nat, i: nat)
    requires k < DESC_COUNT && i < Total(k)
    ensures page * PAGE_SIZE + ARENA_HEADER <= BlockAt(page, k, i)
    ensures BlockAt(page, k, i) + Size(k) <= (page + 1) * PAGE_SIZE
  {
    if k == 0 {} else if k == 1 {} else if k == 2 {} else if k == 3 {} else if k == 4 {} else if k == 5 {} else {}
  }

  lemma BlocksApart(page: nat, k: nat, i: nat, j: nat)
    requires k < DESC_COUNT && i < j
    ensures BlockAt(page, k, i) + Size(k) <= BlockAt(page, k, j)
  {
    if k == 0 {} else if k == 1 {} else if k == 2 {} else if k == 3 {} else if k == 4 {} else if k == 5 {} else {}
  }

  // An address is a block of one page, at one index.
  lemma BlockIs(page: nat, k: nat, i: nat, page2: nat, j: nat)
    requires k < DESC_COUNT && i < Total(k) && j < Total(k)
    ensures BlockAt(page, k, i) == BlockAt(page2, k, j) <==> page == page2 && i == j
  {
    BlockInPage(page, k, i);
    BlockInPage(page2, k, j);
    hide PageOf, Total;
    if page == page2 {
      if i < j { BlocksApart(page, k, i, j); } else if j < i { BlocksApart(page, k, j, i); }
    }
  }

  predicate Index(i: nat, n: nat) {
    i < n
  }

  lemma {:induction false} Below(n: nat)
    ensures |set i: nat | i < n && Index(i, n)| == n
  {
    if n > 0 {
      var m := n - 1;
      Below(m);
      assert (set i: nat | i < n && Index(i, n)) == (set i: nat | i < m && Index(i, m)) + {m};
    }
  }

  lemma SubsetSize(a: set<nat>, b: set<nat>)
    requires a <= b
    ensures |a| <= |b| && (|a| == |b| ==> a == b)
  {
    assert b == a + (b - a);
  }

  // At most all blocks of a page are free, and if their number is right all of them are.
  lemma FreeIdxFull(h: Heap, page: nat, k: nat)
    requires |h.free| == DESC_COUNT && k < DESC_COUNT
    ensures |FreeIdx(h, page, k)| <= Total(k)
    ensures |FreeIdx(h, page, k)| == Total(k) ==> forall i: nat :: i < Total(k) ==> IsFree(h, page, k, i)
  {
    var n := Total(k);
    var all := set i: nat | i < n && Index(i, n);
    Below(n);
    hide Total, IsFree;
    SubsetSize(FreeIdx(h, page, k), all);
    if |FreeIdx(h, page, k)| == n {
      forall i: nat | i < n ensures IsFree(h, page, k, i) { assert Index(i, n) && i in all; }
    }
  }

  // ---------- a page that no arena covers ----------

  // Clear pages belong to nobody.
  lemma ClearIsNew(h: Heap, s: nat, n: nat)
    requires Core(h) && Clear(h.used, s, n) && n > 0
    ensures h.base + s !in h.arenas
    ensures forall page: nat :: page in h.arenas ==>
      page + Pages(h.arenas[page]) <= h.base + s || h.base + s + n <= page
    ensures forall p: nat :: p in h.live ==> PageOf(p) != h.base + s
    ensures forall t :: s <= t < s + n ==> !h.other[t]
  {
    hide PageOf, BlockAt, Size, Total, FreeIdx;
    forall page: nat | page in h.arenas
      ensures page + Pages(h.arenas[page]) <= h.base + s || h.base + s + n <= page
    {
      assert ArenaOk(h, page);
      var t := if page >= h.base + s then page - h.base else s;
      assert UsedOk(h, t);
      assert s <= t < s + n ==> !Covers(h, page, t);
    }
    assert ArenaOk(h, h.base + s);
    forall p: nat | p in h.live ensures PageOf(p) != h.base + s { assert LiveOk(h, p); }
    forall t: nat | s <= t < s + n ensures !h.other[t] { assert UsedOk(h, t); }
  }

  // The page bitmap after an arena has been put on clear pages.
  lemma NewPages(h: Heap, s: nat, n: nat, h1: Heap, a: Arena)
    requires Core(h) && Clear(h.used, s, n) && n > 0 && Pages(a) == n
    requires h1.base == h.base && h1.arenas == h.arenas[h.base + s := a] && h1.other == h.other
    requires h1.used == Mark(h.used, s, n, true)
    ensures forall t: nat :: UsedOk(h1, t)
    ensures forall x: nat, y: nat :: ApartAt(h1, x, y)
  {
    ClearIsNew(h, s, n);
    var page := h.base + s;
    forall t: nat ensures UsedOk(h1, t) {
      if t < |h1.used| {
        assert UsedOk(h, t);
        forall q: nat ensures Covers(h1, q, t) <==> Covers(h, q, t) || (q == page && s <= t < s + n) {}
        assert s <= t < s + n ==> Covers(h1, page, t);
        if x: nat :| Covers(h, x, t) { assert Covers(h1, x, t); }
        if x: nat :| Covers(h1, x, t) { assert Covers(h, x, t) || s <= t < s + n; }
      }
    }
    forall x: nat, y: nat ensures ApartAt(h1, x, y) { assert ApartAt(h, x, y); }
  }

  // And after one has been taken off.
  lemma OldPages(h: Heap, page: nat, h1: Heap)
    requires Core(h) && page in h.arenas && h.base <= page
    requires h1.base == h.base && h1.arenas == h.arenas - {page} && h1.other == h.other
    requires h1.used == Mark(h.used, page - h.base, Pages(h.arenas[page]), false)
    ensures forall t: nat :: UsedOk(h1, t)
    ensures forall x: nat, y: nat :: ApartAt(h1, x, y)
  {
    hide BlockOk, FreeOk, LiveOk, ListsOk;
    forall t: nat ensures UsedOk(h1, t) {
      if t < |h1.used| {
        assert UsedOk(h, t);
        forall q: nat ensures Covers(h1, q, t) <==> Covers(h, q, t) && q != page {}
        if x: nat :| Covers(h1, x, t) {
          assert Covers(h, x, t) && ApartAt(h, x, page) && ApartAt(h, page, x);
        }
        if x: nat :| Covers(h, x, t) { assert x != page ==> Covers(h1, x, t); }
        assert Covers(h, page, t) <==> page - h.base <= t < page - h.base + Pages(h.arenas[page]);
      }
    }
    forall x: nat, y: nat ensures ApartAt(h1, x, y) { assert ApartAt(h, x, y); }
  }

  // ---------- kmalloc of more than the largest block ----------

  lemma LargeStep(h: Heap, size: nat)
    requires Inv(h) && size > MAX_BLOCK_SIZE
    ensures Alloc(h, size).None? <==> FirstFit(h.used, PagesFor(size), 0).None?
    ensures Alloc(h, size).Some? ==> Inv(Alloc(h, size).value.0) && Alloc(h, size).value.1 !in h.live
    ensures Alloc(h, size).Some? ==> Alloc(h, size).value.0.live == h.live[Alloc(h, size).value.1 := size]
  {
    var n := PagesFor(size);
    if FirstFit(h.used, n, 0).Some? {
      var s := FirstFit(h.used, n, 0).value;
      var page := h.base + s;
      var (h1, addr) := Alloc(h, size).value;
      ClearIsNew(h, s, n);
      NewPages(h, s, n, h1, Large(n));
      assert PageOf(addr) == page;
      hide UsedOk, ApartAt, Mark, FirstFit, Covers;
      forall q: nat ensures ArenaOk(h1, q) && NotAllFree(h1, q) {
        assert ArenaOk(h, q) && NotAllFree(h, q);
        SameFreeIdx(h, h1, q);
      }
      hide FreeIdx;
      forall q: nat, k: nat, i: nat ensures BlockOk(h1, q, k, i) {
        assert BlockOk(h, q, k, i);
        if k < DESC_COUNT && i < Total(k) { BlockInPage(q, k, i); }
      }
      forall k: nat, b: nat ensures FreeOk(h1, k, b) { assert FreeOk(h, k, b); }
      forall p: nat ensures LiveOk(h1, p) { assert LiveOk(h, p); }
    }
  }

  lemma SameFreeIdx(h: Heap, h1: Heap, page: nat)
    requires ListsOk(h) && h1.free == h.free
    ensures forall k :: 0 <= k < DESC_COUNT ==> FreeIdx(h1, page, k) == FreeIdx(h, page, k)
  {
    forall k: nat, i: nat | k < DESC_COUNT ensures IsFree(h1, page, k, i) <==> IsFree(h, page, k, i) {}
  }

  // ---------- kmalloc of a block ----------

  lemma BlocksNoDup(page: nat, k: nat)
    requires k < DESC_COUNT
    ensures NoDup(Blocks(page, k, Total(k)))
    ensures forall i: nat :: i < Total(k) ==> BlockAt(page, k, i) in Blocks(page, k, Total(k))
    ensures forall b :: b in Blocks(page, k, Total(k)) ==> PageOf(b) == page && IsBlock(page, k, b)
  {
    var list := Blocks(page, k, Total(k));
    hide PageOf, BlockAt, Size, Total;
    forall i, j | 0 <= i < j < |list| ensures list[i] != list[j] { BlockIs(page, k, i, page, j); }
    forall i: nat | i < Total(k) ensures BlockAt(page, k, i) in list { assert list[i] == BlockAt(page, k, i); }
    forall b | b in list ensures PageOf(b) == page && IsBlock(page, k, b) {
      var i :| 0 <= i < |list| && list[i] == b;
      BlockInPage(page, k, i);
    }
  }

  // A fresh page is cut into blocks that are all free.
  lemma NewArenaFree(h: Heap, k: nat)
    requires Core(h) && k < DESC_COUNT && h.free[k] == [] && NewArena(h, k).Some?
    ensures var h1 := NewArena(h, k).value; var page := h.base + FirstFit(h.used, 1, 0).value;
      && ListsOk(h1) && (forall j: nat, b: nat :: FreeOk(h1, j, b))
      && FreeIdx(h1, page, k) == (set i: nat | i < Total(k) && Index(i, Total(k)))
      && (forall q: nat, j: nat :: q != page && j < DESC_COUNT ==> FreeIdx(h1, q, j) == FreeIdx(h, q, j))
      && (forall q: nat, j: nat, i: nat :: q != page && j < DESC_COUNT && i < Total(j) ==>
            IsFree(h1, q, j, i) == IsFree(h, q, j, i))
  {
    var s := FirstFit(h.used, 1, 0).value;
    var page, h1 := h.base + s, NewArena(h, k).value;
    ClearIsNew(h, s, 1);
    BlocksNoDup(page, k);
    assert h1.free[k] == Blocks(page, k, Total(k));
    hide PageOf, BlockAt, Size, Total, FirstFit, Mark, UsedOk, ApartAt, ArenaOk, BlockOk, LiveOk;
    forall j: nat, b: nat ensures FreeOk(h1, j, b) { assert FreeOk(h, j, b); }
    forall q: nat, j: nat, i: nat | q != page && j < DESC_COUNT && i < Total(j)
      ensures IsFree(h1, q, j, i) == IsFree(h, q, j, i)
    {
      BlockInPage(q, j, i);
    }
    forall i: nat | i < Total(k) ensures IsFree(h1, page, k, i) {}
  }

  lemma NewArenaStep(h: Heap, k: nat)
    requires Inv(h) && k < DESC_COUNT && h.free[k] == []
    ensures NewArena(h, k).None? <==> FirstFit(h.used, 1, 0).None?
    ensures NewArena(h, k).Some? ==>
      var h1 := NewArena(h, k).value; var page := h.base + FirstFit(h.used, 1, 0).value;
      && Core(h1) && h1.free[k] != [] && PageOf(h1.free[k][0]) == page
      && forall q: nat :: q != page ==> NotAllFree(h1, q)
  {
    if NewArena(h, k).Some? {
      var s := FirstFit(h.used, 1, 0).value;
      var page, h1 := h.base + s, NewArena(h, k).value;
      ClearIsNew(h, s, 1);
      NewPages(h, s, 1, h1, Small(k, Total(k)));
      NewArenaFree(h, k);
      Below(Total(k));
      assert h1.free[k][0] == BlockAt(page, k, 0);
      BlockInPage(page, k, 0);
      hide PageOf, BlockAt, Size, Total, FirstFit, Mark, UsedOk, ApartAt, FreeOk, FreeIdx, IsFree;
      forall q: nat ensures ArenaOk(h1, q) { assert ArenaOk(h, q); }
      forall q: nat | q != page ensures NotAllFree(h1, q) { assert NotAllFree(h, q); }
      forall q: nat, j: nat, i: nat ensures BlockOk(h1, q, j, i) {
        NewBlockOk(h, h1, page, k, q, j, i);
      }
      forall p: nat ensures LiveOk(h1, p) { assert LiveOk(h, p); }
    }
  }

  lemma NewBlockOk(h: Heap, h1: Heap, page: nat, k: nat, q: nat, j: nat, i: nat)
    requires |h.free| == DESC_COUNT && |h1.free| == DESC_COUNT && k < DESC_COUNT && BlockOk(h, q, j, i)
    requires h1.live == h.live && (forall p: nat :: p in h.live ==> PageOf(p) != page)
    requires h1.arenas == h.arenas[page := Small(k, Total(k))]
    requires q != page && j < DESC_COUNT && i < Total(j) ==> IsFree(h1, q, j, i) == IsFree(h, q, j, i)
    requires FreeIdx(h1, page, k) == (set i: nat | i < Total(k) && Index(i, Total(k)))
    ensures BlockOk(h1, q, j, i)
  {
    if q == page && j == k && i < Total(k) {
      BlockInPage(page, k, i);
      hide PageOf, BlockAt, Size, Total;
      assert Index(i, Total(k));
      assert i in FreeIdx(h1, page, k);
    }
  }

  // Taking the first block of a free list.
  lemma PopStep(h: Heap, k: nat, size: nat)
    requires Core(h) && k < DESC_COUNT && size <= Size(k) && h.free[k] != []
    requires forall q: nat :: q != PageOf(h.free[k][0]) ==> NotAllFree(h, q)
    ensures PopBlock(h, k, size).Some? && Inv(PopBlock(h, k, size).value.0)
    ensures PopBlock(h, k, size).value.1 !in h.live
  {
    var b := h.free[k][0];
    var page := PageOf(b);
    assert b in h.free[k] && FreeOk(h, k, b);
    var i0: nat :| i0 < Total(k) && b == BlockAt(page, k, i0);
    assert ArenaOk(h, page) && BlockOk(h, page, k, i0);
    FreeIdxHas(h, page, k, i0);
    FreeIdxFull(h, page, k);
    PopFree(h, k, size, i0);
    var h1 := PopBlock(h, k, size).value.0;
    hide PageOf, BlockAt, Size, Total, FreeIdx, IsFree;
    forall s: nat ensures UsedOk(h1, s) { SameCover(h, h1, s); }
    forall q: nat ensures ArenaOk(h1, q) { assert ArenaOk(h, q); }
    forall q: nat ensures NotAllFree(h1, q) { assert q != page ==> NotAllFree(h, q); }
    forall x: nat, y: nat ensures ApartAt(h1, x, y) { assert ApartAt(h, x, y); }
    forall p: nat ensures LiveOk(h1, p) { assert LiveOk(h, p); }
  }

  lemma FreeIdxHas(h: Heap, page: nat, k: nat, i: nat)
    requires |h.free| == DESC_COUNT && k < DESC_COUNT && i < Total(k) && IsFree(h, page, k, i)
    ensures i in FreeIdx(h, page, k) && |FreeIdx(h, page, k)| >= 1
  {
    var s := FreeIdx(h, page, k);
    assert i in s;
    assert s == {i} + (s - {i});
  }

  // The page bitmap stays right while arenas keep their pages.
  lemma SameCover(h: Heap, h1: Heap, s: nat)
    requires |h.other| == |h.used| && UsedOk(h, s) && h1.used == h.used && h1.other == h.other && h1.base == h.base
    requires h1.arenas.Keys == h.arenas.Keys && forall q :: q in h.arenas ==> Pages(h1.arenas[q]) == Pages(h.arenas[q])
    ensures UsedOk(h1, s)
  {
    forall q: nat ensures Covers(h1, q, s) <==> Covers(h, q, s) {}
    if x: nat :| Covers(h, x, s) { assert Covers(h1, x, s); }
    if x: nat :| Covers(h1, x, s) { assert Covers(h, x, s); }
  }

  lemma PopFree(h: Heap, k: nat, size: nat, i0: nat)
    requires Core(h) && k < DESC_COUNT && h.free[k] != [] && i0 < Total(k)
    requires h.free[k][0] == BlockAt(PageOf(h.free[k][0]), k, i0) && PopBlock(h, k, size).Some?
    ensures var h1 := PopBlock(h, k, size).value.0; var page := PageOf(h.free[k][0]);
      && ListsOk(h1) && (forall j: nat, b: nat :: FreeOk(h1, j, b))
      && (forall q: nat, j: nat :: j < DESC_COUNT ==>
            FreeIdx(h1, q, j) == if q == page && j == k then FreeIdx(h, q, j) - {i0} else FreeIdx(h, q, j))
      && (forall q: nat, j: nat, i: nat :: BlockOk(h1, q, j, i))
  {
    var list := h.free[k];
    var b := list[0];
    var page, h1 := PageOf(b), PopBlock(h, k, size).value.0;
    assert forall x :: x in list[1..] <==> x in list && x != b by {
      forall x | x in list && x != b ensures x in list[1..] {
        var n :| 0 <= n < |list| && list[n] == x;
        assert list[1..][n - 1] == x;
      }
    }
    assert SmallAt(h, page, k) by { assert b in list && FreeOk(h, k, b); }
    hide PageOf, BlockAt, Size, Total, UsedOk, ApartAt, ArenaOk, LiveOk;
    forall j: nat, x: nat ensures FreeOk(h1, j, x) { assert FreeOk(h, j, x); }
    forall q: nat, j: nat, i: nat | j < DESC_COUNT && i < Total(j)
      ensures IsFree(h1, q, j, i) <==> IsFree(h, q, j, i) && !(q == page && j == k && i == i0)
    {
      if j == k { BlockIs(q, k, i, page, i0); }
    }
    forall q: nat, j: nat, i: nat ensures BlockOk(h1, q, j, i) {
      assert BlockOk(h, q, j, i);
      if j < DESC_COUNT && i < Total(j) && SmallAt(h, q, j) {
        BlockInPage(q, j, i);
        if j == k { BlockIs(q, k, i, page, i0); } else { BlockInPage(page, k, i0); }
      }
    }
  }

  // kmalloc fails only for want of pages, and what it returns was nobody's.
  lemma AllocStep(h: Heap, size: nat)
    requires Inv(h)
    ensures Alloc(h, size).None? <==>
      if size > MAX_BLOCK_SIZE then FirstFit(h.used, PagesFor(size), 0).None?
      else h.free[DescFor(size)] == [] && FirstFit(h.used, 1, 0).None?
    ensures Alloc(h, size).Some? ==> Inv(Alloc(h, size).value.0) && Alloc(h, size).value.1 !in h.live
    ensures Alloc(h, size).Some? ==> Alloc(h, size).value.0.live == h.live[Alloc(h, size).value.1 := size]
  {
    if size > MAX_BLOCK_SIZE {
      LargeStep(h, size);
    } else {
      var k := DescFor(size);
      hide Core, Size, DescFrom, FirstFit, NotAllFree;
      assert |h.free| == DESC_COUNT by { CoreLists(h); }
      if h.free[k] != [] {
        PopStep(h, k, size);
      } else {
        NewArenaStep(h, k);
        if NewArena(h, k).Some? { PopStep(NewArena(h, k).value, k, size); }
      }
    }
  }

  lemma CoreLists(h: Heap)
    requires Core(h)
    ensures |h.free| == DESC_COUNT
  {
  }

  // ---------- kfree ----------

  lemma FreeLargeStep(h: Heap, p: nat)
    requires Inv(h) && p in h.live && PageOf(p) in h.arenas && h.arenas[PageOf(p)].Large?
    ensures Free(h, p).Some? && Inv(Free(h, p).value)
  {
    var page := PageOf(p);
    assert ArenaOk(h, page) && LiveOk(h, p);
    var h1 := Free(h, p).value;
    OldPages(h, page, h1);
    hide UsedOk, ApartAt, Mark, Size, Total;
    forall q: nat ensures ArenaOk(h1, q) && NotAllFree(h1, q) {
      assert ArenaOk(h, q) && NotAllFree(h, q);
      SameFreeIdx(h, h1, q);
    }
    hide FreeIdx;
    forall q: nat, k: nat, i: nat ensures BlockOk(h1, q, k, i) {
      assert BlockOk(h, q, k, i);
      if k < DESC_COUNT && i < Total(k) { BlockInPage(q, k, i); }
    }
    forall k: nat, b: nat ensures FreeOk(h1, k, b) { assert FreeOk(h, k, b); }
    forall q: nat ensures LiveOk(h1, q) {
      assert LiveOk(h, q);
    }
  }

  // The block goes to the back of its free list.
  function Pushed(h: Heap, p: nat, k: nat): Heap
    requires |h.free| == DESC_COUNT && k < DESC_COUNT && PageOf(p) in h.arenas && h.arenas[PageOf(p)].Small?
  {
    h.(arenas := h.arenas[PageOf(p) := Small(k, h.arenas[PageOf(p)].count + 1)],
       free := h.free[k := h.free[k] + [p]], live := h.live - {p})
  }

  lemma PushFree(h: Heap, p: nat, k: nat, i0: nat)
    requires Core(h) && p in h.live && SmallAt(h, PageOf(p), k) && i0 < Total(k) && p == BlockAt(PageOf(p), k, i0)
    ensures var h1 := Pushed(h, p, k); var page := PageOf(p);
      && ListsOk(h1) && (forall j: nat, b: nat :: FreeOk(h1, j, b))
      && (forall q: nat, j: nat :: j < DESC_COUNT ==>
            FreeIdx(h1, q, j) == if q == page && j == k then FreeIdx(h, q, j) + {i0} else FreeIdx(h, q, j))
      && (forall q: nat, j: nat, i: nat :: BlockOk(h1, q, j, i))
      && i0 !in FreeIdx(h, page, k)
  {
    var page, h1 := PageOf(p), Pushed(h, p, k);
    assert BlockOk(h, page, k, i0);
    hide PageOf, BlockAt, Size, Total, UsedOk, ApartAt, ArenaOk, LiveOk;
    assert p !in h.free[k];
    forall j: nat, x: nat ensures FreeOk(h1, j, x) { assert FreeOk(h, j, x); }
    forall q: nat, j: nat, i: nat | j < DESC_COUNT && i < Total(j)
      ensures IsFree(h1, q, j, i) <==> IsFree(h, q, j, i) || (q == page && j == k && i == i0)
    {
      if j == k { BlockIs(q, k, i, page, i0); }
    }
    forall q: nat, j: nat, i: nat ensures BlockOk(h1, q, j, i) {
      assert BlockOk(h, q, j, i);
      if j < DESC_COUNT && i < Total(j) && SmallAt(h, q, j) {
        BlockInPage(q, j, i);
        if j == k { BlockIs(q, k, i, page, i0); } else { BlockInPage(page, k, i0); }
      }
    }
  }

  // The books after the block has gone back, whether or not its page is all free now.
  lemma PushStep(h: Heap, p: nat, k: nat)
    requires Inv(h) && p in h.live && SmallAt(h, PageOf(p), k)
    ensures Core(Pushed(h, p, k)) && (forall q: nat :: q != PageOf(p) ==> NotAllFree(Pushed(h, p, k), q))
    ensures h.arenas[PageOf(p)].count + 1 <= Total(k)
  {
    var page, h1 := PageOf(p), Pushed(h, p, k);
    assert LiveOk(h, p) && ArenaOk(h, page) && NotAllFree(h, page);
    var i0: nat :| i0 < Total(k) && p == BlockAt(page, k, i0);
    PushFree(h, p, k, i0);
    hide PageOf, BlockAt, Size, Total, FreeIdx, IsFree, BlockOk, FreeOk, IsBlock, ListsOk;
    assert |FreeIdx(h1, page, k)| == |FreeIdx(h, page, k)| + 1;
    forall s: nat ensures UsedOk(h1, s) { SameCover(h, h1, s); }
    forall q: nat ensures ArenaOk(h1, q) {
      assert ArenaOk(h, q);
      if q in h.arenas && q != page && h.arenas[q].Small? {
        assert FreeIdx(h1, q, h.arenas[q].desc) == FreeIdx(h, q, h.arenas[q].desc);
      }
    }
    forall q: nat | q != page ensures NotAllFree(h1, q) { assert NotAllFree(h, q); }
    forall x: nat, y: nat ensures ApartAt(h1, x, y) { assert ApartAt(h, x, y); }
    forall q: nat ensures LiveOk(h1, q) { assert LiveOk(h, q); }
  }

  lemma {:induction false} OutsideNoDup(list: seq<nat>, page: nat)
    requires NoDup(list)
    ensures NoDup(OutsidePage(list, page))
  {
    if list != [] {
      OutsideNoDup(list[1..], page);
      if PageOf(list[0]) != page {
        var r := OutsidePage(list[1..], page);
        forall j | 0 <= j < |r| ensures r[j] != list[0] { assert r[j] in r; }
      }
    }
  }

  // A page whose blocks are all free is given up.
  function Dropped(h: Heap, page: nat, k: nat): Heap
    requires |h.free| == DESC_COUNT && k < DESC_COUNT && page >= h.base
  {
    h.(used := Mark(h.used, page - h.base, 1, false), arenas := h.arenas - {page},
       free := h.free[k := OutsidePage(h.free[k], page)])
  }

  lemma DropStep(h: Heap, page: nat, k: nat)
    requires Core(h) && SmallAt(h, page, k) && h.base <= page && h.arenas[page].count == Total(k)
    requires forall q: nat :: q != page ==> NotAllFree(h, q)
    ensures Inv(Dropped(h, page, k))
  {
    var h1 := Dropped(h, page, k);
    assert ArenaOk(h, page);
    FreeIdxFull(h, page, k);
    OldPages(h, page, h1);
    OutsideNoDup(h.free[k], page);
    hide PageOf, BlockAt, Size, Total, UsedOk, Mark, ApartAt;
    forall j: nat, b: nat ensures FreeOk(h1, j, b) { assert FreeOk(h, j, b); }
    forall q: nat, j: nat, i: nat | q != page && j < DESC_COUNT && i < Total(j)
      ensures IsFree(h1, q, j, i) <==> IsFree(h, q, j, i)
    {
      BlockInPage(q, j, i);
    }
    forall q: nat, j: nat | q != page && j < DESC_COUNT ensures FreeIdx(h1, q, j) == FreeIdx(h, q, j) {}
    DropRest(h, page, k);
  }

  lemma DropRest(h: Heap, page: nat, k: nat)
    requires Core(h) && SmallAt(h, page, k) && h.base <= page
    requires forall q: nat :: q != page ==> NotAllFree(h, q)
    requires forall i: nat :: i < Total(k) ==> IsFree(h, page, k, i)
    requires var h1 := Dropped(h, page, k);
      && (forall q: nat, j: nat, i: nat :: q != page && j < DESC_COUNT && i < Total(j) ==>
            IsFree(h1, q, j, i) == IsFree(h, q, j, i))
      && (forall q: nat, j: nat :: q != page && j < DESC_COUNT ==> FreeIdx(h1, q, j) == FreeIdx(h, q, j))
    ensures var h1 := Dropped(h, page, k);
      && (forall q: nat :: ArenaOk(h1, q) && NotAllFree(h1, q) && LiveOk(h1, q))
      && (forall q: nat, j: nat, i: nat :: BlockOk(h1, q, j, i))
  {
    var h1 := Dropped(h, page, k);
    hide PageOf, BlockAt, Size, Total, UsedOk, Mark, ApartAt, FreeIdx, FreeOk, IsFree, OutsidePage;
    forall q: nat ensures ArenaOk(h1, q) && NotAllFree(h1, q) {
      assert ArenaOk(h, q);
      assert q != page ==> NotAllFree(h, q);
    }
    forall q: nat, j: nat, i: nat ensures BlockOk(h1, q, j, i) { assert BlockOk(h, q, j, i); }
    forall q: nat ensures LiveOk(h1, q) {
      assert LiveOk(h, q);
      forall i: nat | i < Total(k) ensures q in h.live ==> q != BlockAt(page, k, i) { assert BlockOk(h, page, k, i); }
    }
  }

  // Whoever holds a block can give it back.
  lemma FreeStep(h: Heap, p: nat)
    requires Inv(h) && p in h.live
    ensures Free(h, p).Some? && Inv(Free(h, p).value) && Free(h, p).value.live == h.live - {p}
  {
    var page := PageOf(p);
    assert LiveOk(h, p) && ArenaOk(h, page);
    if h.arenas[page].Large? {
      FreeLargeStep(h, p);
    } else {
      var k := h.arenas[page].desc;
      PushStep(h, p, k);
      var h1 := Pushed(h, p, k);
      hide Core, PageOf, Total;
      if h.arenas[page].count + 1 == Total(k) {
        DropStep(h1, page, k);
        assert Free(h, p).value == Dropped(h1, page, k);
      } else {
        assert NotAllFree(h1, page);
        assert Free(h, p).value == h1;
      }
    }
  }
}
