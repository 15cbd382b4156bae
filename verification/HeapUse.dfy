/**
  The heap wastes no page and no block: how blocks and pages are cut, how many pages a number of
  blocks takes, and in what order free blocks are handed out.
 */
module HeapUse {
  import opened Bitmaps
  import opened HeapModel
  import opened HeapSteps
  import opened HeapTheorems
  import opened Wrappers

  // ---------- sizes ----------

  // Block sizes double from 16, and a page holds as many behind its header as fit.
  lemma BlocksFillPage(k: nat)
    requires k < DESC_COUNT
    ensures Size(0) == 16 && (k > 0 ==> Size(k) == 2 * Size(k - 1))
    ensures ARENA_HEADER + Total(k) * Size(k) <= PAGE_SIZE < ARENA_HEADER + (Total(k) + 1) * Size(k)
  {
  }

  // So a block is less than twice as large as was asked for, if that was more than the smallest.
  lemma BlocksAreTight(size: nat)
    requires size <= MAX_BLOCK_SIZE
    ensures size > 16 ==> Size(DescFor(size)) < 2 * size
  {
    var k := DescFor(size);
    if k > 0 { BlocksFillPage(k); }
  }

  // A large request takes no page more than it needs.
  lemma PagesAreTight(size: nat)
    ensures PagesFor(size) > 0
    ensures (PagesFor(size) - 1) * PAGE_SIZE < size + ARENA_HEADER <= PagesFor(size) * PAGE_SIZE
  {
  }

  // ---------- how many pages m blocks take ----------

  function AllocTimes(h: Heap, size: nat, m: nat): (r: Option<Heap>)
    requires |h.free| == DESC_COUNT
    ensures r.Some? ==> |r.value.free| == DESC_COUNT
    decreases m
  {
    if m == 0 then Some(h)
    else match AllocTimes(h, size, m - 1)
      case None => None
      case Some(h1) => if Alloc(h1, size).Some? then Some(Alloc(h1, size).value.0) else None
  }

  // m blocks of descriptor k lie in the first a pages, and no page more could be spared.
  ghost predicate Packed(h: Heap, pages: nat, k: nat, a: nat, m: nat)
    requires k < DESC_COUNT
  {
    && Inv(h) && |h.free| == DESC_COUNT && |h.used| == pages && a <= pages && |h.arenas| == a
    && (forall s :: 0 <= s < pages ==> (h.used[s] <==> s < a))
    && |h.free[k]| + m == a * Total(k) && (a > 0 ==> |h.free[k]| < Total(k))
  }

  // One block more: from the pages there are, or from the next one.
  lemma PackedNext(h: Heap, pages: nat, size: nat, a: nat, m: nat, next: nat)
    requires size <= MAX_BLOCK_SIZE && Packed(h, pages, DescFor(size), a, m) && next == m + 1
    ensures var r := Alloc(h, size);
      if r.None? then pages * Total(DescFor(size)) <= m
      else exists b: nat :: Packed(r.value.0, pages, DescFor(size), b, next)
  {
    var k := DescFor(size);
    AllocStep(h, size);
    if h.free[k] != [] {
      PackedPop(h, pages, size, a, m);
    } else if a < pages {
      FirstClear(h.used, a);
      PackedNew(h, pages, size, a, m);
    } else {
      NoneClear(h.used);
      assert a == pages && a * Total(k) == m;
    }
  }

  lemma FirstClear(bits: seq<bool>, a: nat)
    requires a < |bits| && forall s :: 0 <= s < |bits| ==> (bits[s] <==> s < a)
    ensures FirstFit(bits, 1, 0) == Some(a)
  {
    assert Clear(bits, a, 1);
    forall t: nat | t < a ensures !Clear(bits, t, 1) { assert bits[t]; }
    var r := FirstFit(bits, 1, 0);
    if r.Some? { assert Clear(bits, r.value, 1); }
  }

  lemma NoneClear(bits: seq<bool>)
    requires forall s :: 0 <= s < |bits| ==> bits[s]
    ensures FirstFit(bits, 1, 0).None?
  {
    forall t: nat ensures !Clear(bits, t, 1) {
      if t < |bits| { assert bits[t]; }
    }
  }

  lemma PopShape(h: Heap, k: nat, size: nat)
    requires k < DESC_COUNT == |h.free| && PopBlock(h, k, size).Some?
    ensures var n := PopBlock(h, k, size).value.0;
      n.used == h.used && |n.arenas| == |h.arenas| && |n.free| == DESC_COUNT && |n.free[k]| == |h.free[k]| - 1
  {
    hide PageOf;
    var n := PopBlock(h, k, size).value.0;
    assert n.arenas.Keys == h.arenas.Keys;
    SameSize(h.arenas, n.arenas);
  }

  lemma SameSize(a: map<nat, Arena>, b: map<nat, Arena>)
    requires a.Keys == b.Keys
    ensures |a| == |b|
  {
    assert |a| == |a.Keys| && |b| == |b.Keys|;
  }

  lemma NewShape(h: Heap, k: nat, a: nat)
    requires k < DESC_COUNT == |h.free| && FirstFit(h.used, 1, 0) == Some(a) && h.base + a !in h.arenas
    ensures NewArena(h, k).Some? && var n := NewArena(h, k).value;
      && |n.used| == |h.used| && (forall s :: 0 <= s < |h.used| ==> (n.used[s] <==> h.used[s] || s == a))
      && |n.arenas| == |h.arenas| + 1 && |n.free| == DESC_COUNT && |n.free[k]| == |h.free[k]| + Total(k)
  {
    hide Total, FirstFit;
    var n := NewArena(h, k).value;
    assert n.arenas == h.arenas[h.base + a := Small(k, Total(k))];
  }

  lemma PackedPop(h: Heap, pages: nat, size: nat, a: nat, m: nat)
    requires size <= MAX_BLOCK_SIZE && Packed(h, pages, DescFor(size), a, m) && h.free[DescFor(size)] != []
    ensures Alloc(h, size).Some? && Packed(Alloc(h, size).value.0, pages, DescFor(size), a, m + 1)
  {
    AllocStep(h, size);
    var k := DescFor(size);
    assert Alloc(h, size) == PopBlock(h, k, size) by { hide PopBlock, DescFor; }
    PopShape(h, k, size);
    hide Inv, Alloc, PopBlock, Total, DescFor;
  }

  lemma PackedNew(h: Heap, pages: nat, size: nat, a: nat, m: nat)
    requires size <= MAX_BLOCK_SIZE && Packed(h, pages, DescFor(size), a, m) && h.free[DescFor(size)] == []
    requires FirstFit(h.used, 1, 0) == Some(a) && a < pages
    ensures Alloc(h, size).Some? && Packed(Alloc(h, size).value.0, pages, DescFor(size), a + 1, m + 1)
  {
    AllocStep(h, size);
    var k := DescFor(size);
    ClearIsNew(h, a, 1);
    NewShape(h, k, a);
    var h1 := NewArena(h, k).value;
    assert Alloc(h, size) == PopBlock(h1, k, size) by { hide PopBlock, NewArena, DescFor; }
    PopShape(h1, k, size);
    hide Inv, Alloc, NewArena, PopBlock, FirstFit, Total, DescFor;
    assert (a + 1) * Total(k) == a * Total(k) + Total(k);
  }

  // m blocks of one size, on a heap with nothing in it, take the least number of pages that hold
  // them, and cannot be had exactly if the pages there are cannot hold them.
  lemma {:induction false} PagesAreNeeded(base: nat, pages: nat, size: nat, m: nat)
    requires size <= MAX_BLOCK_SIZE
    ensures var r := AllocTimes(Fresh(base, pages), size, m); var total := Total(DescFor(size));
      && (r.None? <==> pages * total < m)
      && (r.Some? ==> m <= |r.value.arenas| * total)
      && (r.Some? && m > 0 ==> (|r.value.arenas| - 1) * total < m)
  {
    PackedTimes(base, pages, size, m);
    var r := AllocTimes(Fresh(base, pages), size, m);
    var total := Total(DescFor(size));
    if r.Some? {
      var a: nat :| Packed(r.value, pages, DescFor(size), a, m);
      Fits(pages, a, total, |r.value.free[DescFor(size)]|, m);
    }
  }

  lemma Fits(pages: nat, a: nat, total: nat, free: nat, m: nat)
    requires free + m == a * total && (a > 0 ==> free < total) && a <= pages
    ensures m <= pages * total && m <= a * total && (a > 0 ==> (a - 1) * total < m)
  {
    assert a * total <= pages * total;
    assert a > 0 ==> (a - 1) * total == a * total - total;
  }

  lemma {:induction false} PackedTimes(base: nat, pages: nat, size: nat, m: nat)
    requires size <= MAX_BLOCK_SIZE
    ensures var r := AllocTimes(Fresh(base, pages), size, m);
      if r.None? then pages * Total(DescFor(size)) < m
      else exists a: nat :: Packed(r.value, pages, DescFor(size), a, m)
    decreases m
  {
    var k, h := DescFor(size), Fresh(base, pages);
    if m == 0 {
      FreshInv(base, pages);
      hide Inv;
      assert Packed(h, pages, k, 0, 0);
    } else {
      PackedTimes(base, pages, size, m - 1);
      var r := AllocTimes(h, size, m - 1);
      hide Packed, Fresh, Alloc, Size, Total, DescFrom, DescFor;
      if r.Some? {
        var a: nat :| Packed(r.value, pages, k, a, m - 1);
        PackedNext(r.value, pages, size, a, m - 1, m);
      }
    }
  }
}
