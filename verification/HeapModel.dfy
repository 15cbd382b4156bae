/**
  The kernel heap of src/kernel/arena.c over the page bitmap of src/kernel/memory.c: arenas of
  equal blocks, a free list for each block size, and whole pages for what is larger.
 */
module HeapModel {
  import opened Bitmaps
  import opened Lists
  import opened Wrappers

  const PAGE_SIZE := 4096
  const ARENA_HEADER := 16               // sizeof(arena_t)
  const DESC_COUNT := 7
  const MAX_BLOCK_SIZE := 1024

  // block_size and total_block of descriptor k.
  function Size(k: nat): (r: nat)
    requires k < DESC_COUNT
    ensures 16 <= r <= MAX_BLOCK_SIZE
  {
    match k case 0 => 16 case 1 => 32 case 2 => 64 case 3 => 128 case 4 => 256 case 5 => 512 case _ => 1024
  }

  function Total(k: nat): (r: nat)
    requires k < DESC_COUNT
    ensures r >= 1
  {
    match k case 0 => 255 case 1 => 127 case 2 => 63 case 3 => 31 case 4 => 15 case 5 => 7 case _ => 3
  }

  // Small: count is the number of its blocks on the free list of `desc`. Large: the number of pages.
  datatype Arena = Small(desc: nat, count: nat) | Large(count: nat)

  // used is the page bitmap from page `base` on; arenas are keyed by their page. live is what
  // callers hold: the address of each block they got and the size they asked for; other marks
  // the pages that kalloc_page gave to anyone else.
  datatype Heap = Heap(base: nat, used: seq<bool>, arenas: map<nat, Arena>, free: seq<seq<nat>>, live: map<nat, nat>,
                       other: seq<bool>)

  // get_block_from_arena.
  function BlockAt(page: nat, k: nat, i: nat): nat
    requires k < DESC_COUNT
  {
    page * PAGE_SIZE + ARENA_HEADER + i * Size(k)
  }

  // Bitwise and, digit by digit.
  function And(a: nat, b: nat): nat
    decreases a
  {
    if a == 0 || b == 0 then 0 else 2 * And(a / 2, b / 2) + (if a % 2 == 1 && b % 2 == 1 then 1 else 0)
  }

  const PAGE_MASK := 0xFFFF_F000

  // get_arena_from_block.
  function ArenaOf(addr: nat): nat {
    And(addr, PAGE_MASK)
  }

  // The page of an address; MaskIsPage says that this is what the mask leaves.
  function PageOf(addr: nat): nat {
    addr / PAGE_SIZE
  }

  // kmalloc's search for the first descriptor that is large enough.
  function DescFrom(size: nat, k: nat): (r: nat)
    requires k < DESC_COUNT && size <= MAX_BLOCK_SIZE
    ensures k <= r < DESC_COUNT && Size(r) >= size && forall j :: k <= j < r ==> Size(j) < size
    decreases DESC_COUNT - k
  {
    if Size(k) >= size then k else DescFrom(size, k + 1)
  }

  function DescFor(size: nat): (r: nat)
    requires size <= MAX_BLOCK_SIZE
    ensures r < DESC_COUNT && Size(r) >= size
  {
    DescFrom(size, 0)
  }

  function Blocks(page: nat, k: nat, n: nat): (r: seq<nat>)
    requires k < DESC_COUNT
    ensures |r| == n && forall i :: 0 <= i < n ==> r[i] == BlockAt(page, k, i)
  {
    seq(n, i requires 0 <= i < n => BlockAt(page, k, i))
  }

  // A fresh page cut into blocks of descriptor k; None when there is no page.
  function NewArena(h: Heap, k: nat): Option<Heap>
    requires k < DESC_COUNT && |h.free| == DESC_COUNT
  {
    match FirstFit(h.used, 1, 0)
    case None => None
    case Some(s) =>
      var page := h.base + s;
      Some(h.(used := Mark(h.used, s, 1, true), arenas := h.arenas[page := Small(k, Total(k))],
              free := h.free[k := h.free[k] + Blocks(page, k, Total(k))]))
  }

  function PopBlock(h: Heap, k: nat, size: nat): Option<(Heap, nat)>
    requires k < DESC_COUNT && |h.free| == DESC_COUNT
  {
    if h.free[k] == [] then None
    else
      var b := h.free[k][0];
      var page := PageOf(b);
      if page !in h.arenas || h.arenas[page].Large? || h.arenas[page].count == 0 then None
      else Some((h.(arenas := h.arenas[page := h.arenas[page].(count := h.arenas[page].count - 1)],
                    free := h.free[k := h.free[k][1..]], live := h.live[b := size]), b))
  }

  function PagesFor(size: nat): nat {
    (size + ARENA_HEADER + PAGE_SIZE - 1) / PAGE_SIZE
  }

  // kmalloc; None: out of pages, or an assertion fails.
  function Alloc(h: Heap, size: nat): Option<(Heap, nat)>
    requires |h.free| == DESC_COUNT
  {
    if size > MAX_BLOCK_SIZE then
      match FirstFit(h.used, PagesFor(size), 0)
      case None => None
      case Some(s) =>
        var page := h.base + s;
        var addr := page * PAGE_SIZE + ARENA_HEADER;
        Some((h.(used := Mark(h.used, s, PagesFor(size), true), arenas := h.arenas[page := Large(PagesFor(size))],
                 live := h.live[addr := size]), addr))
    else
      var k := DescFor(size);
      if h.free[k] != [] then PopBlock(h, k, size)
      else match NewArena(h, k) case None => None case Some(h1) => PopBlock(h1, k, size)
  }

  // The list without the blocks of one page.
  function OutsidePage(list: seq<nat>, page: nat): (r: seq<nat>)
    ensures forall b :: b in r <==> b in list && PageOf(b) != page
  {
    if list == [] then []
    else if PageOf(list[0]) == page then OutsidePage(list[1..], page)
    else [list[0]] + OutsidePage(list[1..], page)
  }

  // kfree; None: an assertion fails.
  function Free(h: Heap, p: nat): Option<Heap>
    requires |h.free| == DESC_COUNT
  {
    var page := PageOf(p);
    if page !in h.arenas || page < h.base then None
    else
      match h.arenas[page]
      case Large(count) =>
        Some(h.(used := Mark(h.used, page - h.base, count, false), arenas := h.arenas - {page}, live := h.live - {p}))
      case Small(k, count) =>
        if k >= DESC_COUNT then None
        else
          var list := h.free[k] + [p];
          if count + 1 == Total(k) then
            Some(h.(used := Mark(h.used, page - h.base, 1, false), arenas := h.arenas - {page},
                    free := h.free[k := OutsidePage(list, page)], live := h.live - {p}))
          else
            Some(h.(arenas := h.arenas[page := Small(k, count + 1)], free := h.free[k := list], live := h.live - {p}))
  }

  // kalloc_page and kfree_page for anyone else: the pages given back must be marked.
  function TakePages(h: Heap, n: nat): Option<(Heap, nat)> {
    match FirstFit(h.used, n, 0)
    case None => None
    case Some(s) => Some((h.(used := Mark(h.used, s, n, true), other := Mark(h.other, s, n, true)), h.base + s))
  }

  function GivePages(h: Heap, page: nat, n: nat): Option<Heap> {
    if page < h.base || page - h.base + n > |h.used| || exists s :: page - h.base <= s < page - h.base + n && !h.used[s]
    then None
    else Some(h.(used := Mark(h.used, page - h.base, n, false), other := Mark(h.other, page - h.base, n, false)))
  }

  // arena_init over an empty page bitmap.
  function Fresh(base: nat, pages: nat): Heap {
    Heap(base, seq(pages, _ => false), map[], seq(DESC_COUNT, _ => []), map[], seq(pages, _ => false))
  }

  // ---------- the invariant ----------

  predicate SmallAt(h: Heap, page: nat, k: nat) {
    page in h.arenas && h.arenas[page].Small? && h.arenas[page].desc == k && k < DESC_COUNT
  }

  function Pages(a: Arena): nat {
    if a.Large? then a.count else 1
  }

  // Block i of the arena at page is on the free list.
  predicate IsFree(h: Heap, page: nat, k: nat, i: nat)
    requires k < DESC_COUNT && |h.free| == DESC_COUNT
  {
    BlockAt(page, k, i) in h.free[k]
  }

  ghost function FreeIdx(h: Heap, page: nat, k: nat): set<nat>
    requires k < DESC_COUNT && |h.free| == DESC_COUNT
  {
    set i: nat | i < Total(k) && IsFree(h, page, k, i)
  }

  predicate Covers(h: Heap, page: nat, s: nat) {
    page in h.arenas && page <= h.base + s < page + Pages(h.arenas[page])
  }

  // A page is marked as used when an arena covers it or somebody else has it, and never both.
  ghost predicate UsedOk(h: Heap, s: nat)
    requires |h.other| == |h.used|
  {
    s < |h.used| ==>
      && (h.used[s] <==> h.other[s] || exists page: nat :: Covers(h, page, s))
      && (h.other[s] ==> !exists page: nat :: Covers(h, page, s))
  }

  // An arena lies in the bitmap's range, and its count is the number of its blocks on the free
  // list, or the number of its pages.
  ghost predicate ArenaOk(h: Heap, page: nat)
    requires |h.free| == DESC_COUNT
  {
    page in h.arenas ==>
      var a := h.arenas[page];
      && h.base <= page && page - h.base + Pages(a) <= |h.used| && Pages(a) >= 1
      && (a.Small? ==> a.desc < DESC_COUNT && a.count == |FreeIdx(h, page, a.desc)|)
      && (a.Large? ==> page * PAGE_SIZE + ARENA_HEADER in h.live)
  }

  // Some block of the arena is in a caller's hands.
  predicate NotAllFree(h: Heap, page: nat) {
    page in h.arenas && h.arenas[page].Small? && h.arenas[page].desc < DESC_COUNT ==>
      h.arenas[page].count < Total(h.arenas[page].desc)
  }

  predicate ApartAt(h: Heap, a: nat, b: nat) {
    a in h.arenas && b in h.arenas && a < b ==> a + Pages(h.arenas[a]) <= b
  }

  // A block is either free or in a caller's hands.
  predicate BlockOk(h: Heap, page: nat, k: nat, i: nat)
    requires |h.free| == DESC_COUNT
  {
    SmallAt(h, page, k) && i < Total(k) ==> (IsFree(h, page, k, i) <==> BlockAt(page, k, i) !in h.live)
  }

  predicate IsBlock(page: nat, k: nat, b: nat)
    requires k < DESC_COUNT
  {
    exists i: nat :: i < Total(k) && b == BlockAt(page, k, i)
  }

  predicate FreeOk(h: Heap, k: nat, b: nat)
    requires |h.free| == DESC_COUNT
  {
    k < DESC_COUNT && b in h.free[k] ==> SmallAt(h, PageOf(b), k) && IsBlock(PageOf(b), k, b)
  }

  // A caller's block is large enough.
  predicate LiveOk(h: Heap, p: nat) {
    p in h.live ==>
      var page := PageOf(p);
      && page in h.arenas
      && match h.arenas[page]
         case Small(k, _) => k < DESC_COUNT && IsBlock(page, k, p) && h.live[p] <= Size(k)
         case Large(count) => p == page * PAGE_SIZE + ARENA_HEADER && h.live[p] + ARENA_HEADER <= count * PAGE_SIZE
  }

  predicate ListsOk(h: Heap) {
    |h.free| == DESC_COUNT && forall k :: 0 <= k < DESC_COUNT ==> NoDup(h.free[k])
  }

  // The heap while a page may just have been cut into blocks.
  ghost predicate Core(h: Heap) {
    && ListsOk(h) && |h.other| == |h.used|
    && (forall s: nat :: UsedOk(h, s))
    && (forall page: nat :: ArenaOk(h, page))
    && (forall a: nat, b: nat :: ApartAt(h, a, b))
    && (forall page: nat, k: nat, i: nat :: BlockOk(h, page, k, i))
    && (forall k: nat, b: nat :: FreeOk(h, k, b))
    && (forall p: nat :: LiveOk(h, p))
  }

  ghost predicate Inv(h: Heap) {
    Core(h) && forall page: nat :: NotAllFree(h, page)
  }
}
