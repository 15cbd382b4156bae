/**
  Of the free blocks of a size kmalloc hands out the one that has been free the longest.
 */
module HeapOrder {
  import opened Bitmaps
  import opened HeapModel
  import opened HeapSteps
  import opened HeapTheorems
  import opened Wrappers

  ghost function AllFree(h: Heap): set<nat> {
    set k, b | 0 <= k < |h.free| && b in h.free[k] :: b
  }

  ghost predicate Stayed(h: Heap, n: Heap, b: nat) {
    exists k :: 0 <= k < |h.free| && k < |n.free| && b in h.free[k] && b in n.free[k]
  }

  // since tells when a block last became free.
  datatype Clocked = Clocked(heap: Heap, now: nat, since: map<nat, nat>)

  ghost function ClockedStep(t: Clocked, op: Op): Option<Clocked>
    requires |t.heap.free| == DESC_COUNT
  {
    match Step(t.heap, op)
    case None => None
    case Some(n) =>
      Some(Clocked(n, t.now + 1,
                   map b | b in AllFree(n) :: if Stayed(t.heap, n, b) && b in t.since then t.since[b] else t.now))
  }

  // a has been free for at least as long as b.
  predicate Before(since: map<nat, nat>, a: nat, b: nat) {
    a in since && b in since && since[a] <= since[b]
  }

  predicate InTurn(s: seq<nat>, since: map<nat, nat>) {
    forall i, j :: 0 <= i < j < |s| ==> Before(since, s[i], s[j])
  }

  predicate Came(s: seq<nat>, since: map<nat, nat>, now: nat) {
    forall b :: b in s ==> b in since && since[b] < now
  }

  ghost predicate InOrder(t: Clocked) {
    |t.heap.free| == DESC_COUNT &&
    forall k :: 0 <= k < DESC_COUNT ==> InTurn(t.heap.free[k], t.since) && Came(t.heap.free[k], t.since, t.now)
  }

  // ---------- what a step does to a free list ----------

  // The front block leaves, a freed one comes to the back, those of one page leave, or the list
  // was empty.
  ghost predicate ListStep(s: seq<nat>, r: seq<nat>) {
    || r == s || s == [] || r == s[1..]
    || exists p: nat :: p !in s && (r == s + [p] || r == OutsidePage(s + [p], PageOf(p)))
  }

  lemma StepLists(h: Heap, op: Op)
    requires Inv(h) && CanDo(h, op) && |h.free| == DESC_COUNT && Step(h, op).Some?
    ensures var n := Step(h, op).value;
      |n.free| == DESC_COUNT && forall k :: 0 <= k < DESC_COUNT ==> ListStep(h.free[k], n.free[k])
  {
    match op
    case Kmalloc(size) => hide Inv, Size, Total, PageOf, DescFrom, FirstFit;
    case Kfree(p) =>
      forall k, b | 0 <= k < DESC_COUNT && b in h.free[k] ensures b !in h.live { FreeIsNotLive(h, k, b); }
      hide Inv, Size, Total, PageOf, OutsidePage;
    case Take(n) =>
    case Give(page, n) =>
  }

  lemma FreeIsNotLive(h: Heap, k: nat, b: nat)
    requires Inv(h) && k < DESC_COUNT && |h.free| == DESC_COUNT && b in h.free[k]
    ensures b !in h.live
  {
    assert FreeOk(h, k, b);
    var i: nat :| i < Total(k) && b == BlockAt(PageOf(b), k, i);
    assert BlockOk(h, PageOf(b), k, i);
  }

  // ---------- order ----------

  // The times after a step: blocks that stay keep theirs, new ones get `now`.
  predicate Times(s: seq<nat>, r: seq<nat>, since: map<nat, nat>, later: map<nat, nat>, now: nat) {
    forall b :: b in r ==> b in later && later[b] == if b in s && b in since then since[b] else now
  }

  lemma ListKeeps(s: seq<nat>, r: seq<nat>, since: map<nat, nat>, later: map<nat, nat>, now: nat)
    requires InTurn(s, since) && Came(s, since, now) && ListStep(s, r) && Times(s, r, since, later, now)
    ensures InTurn(r, later) && Came(r, later, now + 1)
  {
    if s == [] {
      forall i, j | 0 <= i < j < |r| ensures Before(later, r[i], r[j]) { assert r[i] in r && r[j] in r; }
    } else if r == s || r == s[1..] {
      TailInTurn(s, since);
      assert forall b :: b in r ==> b in s;
      Renamed(r, since, later);
    } else {
      var p: nat :| p !in s && (r == s + [p] || r == OutsidePage(s + [p], PageOf(p)));
      hide OutsidePage, PageOf, ListStep;
      PushKeeps(s, p, since, now);
      Outside(s + [p], PageOf(p), since[p := now]);
      Renamed(r, since[p := now], later);
    }
  }

  lemma TailInTurn(s: seq<nat>, since: map<nat, nat>)
    requires InTurn(s, since) && s != []
    ensures InTurn(s[1..], since)
  {
    forall i, j | 0 <= i < j < |s| - 1 ensures Before(since, s[1..][i], s[1..][j]) {
      assert Before(since, s[i + 1], s[j + 1]);
    }
  }

  lemma PushKeeps(s: seq<nat>, p: nat, since: map<nat, nat>, now: nat)
    requires InTurn(s, since) && Came(s, since, now) && p !in s
    ensures InTurn(s + [p], since[p := now])
  {
    var all := s + [p];
    forall i, j | 0 <= i < j < |all| ensures Before(since[p := now], all[i], all[j]) {
      assert all[i] in s && (j < |s| ==> s[j] in s && Before(since, s[i], s[j]));
    }
  }

  lemma Renamed(r: seq<nat>, since: map<nat, nat>, later: map<nat, nat>)
    requires InTurn(r, since) && forall b :: b in r ==> b in later && (b in since ==> later[b] == since[b])
    ensures InTurn(r, later)
  {
    forall i, j | 0 <= i < j < |r| ensures Before(later, r[i], r[j]) {
      assert r[i] in r && r[j] in r && Before(since, r[i], r[j]);
    }
  }

  lemma {:induction false} Outside(s: seq<nat>, page: nat, since: map<nat, nat>)
    requires InTurn(s, since)
    ensures InTurn(OutsidePage(s, page), since) && forall b :: b in OutsidePage(s, page) ==> b in s
  {
    if s != [] {
      var rest := s[1..];
      assert forall i :: 0 <= i < |rest| ==> rest[i] == s[i + 1];
      Outside(rest, page, since);
      var r := OutsidePage(rest, page);
      hide Before, PageOf;
      forall j | 0 <= j < |r| ensures Before(since, s[0], r[j]) {
        assert r[j] in r;
        var i :| 0 <= i < |rest| && rest[i] == r[j];
        assert s[i + 1] == r[j];
      }
    }
  }

  // A block is on the list of its own size only.
  lemma OneList(h: Heap, k: nat, j: nat, b: nat)
    requires Inv(h) && |h.free| == DESC_COUNT && k < DESC_COUNT && j < DESC_COUNT && b in h.free[k] && b in h.free[j]
    ensures k == j
  {
    assert FreeOk(h, k, b) && FreeOk(h, j, b);
  }

  lemma ClockedKeeps(t: Clocked, op: Op, n: Clocked)
    requires Inv(t.heap) && InOrder(t) && CanDo(t.heap, op) && ClockedStep(t, op) == Some(n)
    ensures Inv(n.heap) && InOrder(n)
  {
    StepKeeps(t.heap, op);
    StepLists(t.heap, op);
    hide Inv, Step, CanDo, ListStep, InTurn, Came;
    forall k: nat | k < DESC_COUNT
      ensures InTurn(n.heap.free[k], n.since) && Came(n.heap.free[k], n.since, n.now)
    {
      var s, r := t.heap.free[k], n.heap.free[k];
      forall b | b in r
        ensures b in n.since && n.since[b] == if b in s && b in t.since then t.since[b] else t.now
      {
        assert b in AllFree(n.heap);
        if Stayed(t.heap, n.heap, b) {
          var j: nat :| j < DESC_COUNT && b in t.heap.free[j] && b in n.heap.free[j];
          OneList(n.heap, k, j, b);
        }
      }
      ListKeeps(s, r, t.since, n.since, t.now);
    }
  }

  ghost predicate ClockedRun(t: Clocked, ops: seq<Op>, n: Clocked)
    decreases |ops|
  {
    if ops == [] then n == t
    else
      && |t.heap.free| == DESC_COUNT && CanDo(t.heap, ops[0]) && ClockedStep(t, ops[0]).Some?
      && ClockedRun(ClockedStep(t, ops[0]).value, ops[1..], n)
  }

  lemma {:induction false} ClockedRunKeeps(t: Clocked, ops: seq<Op>, n: Clocked)
    requires Inv(t.heap) && InOrder(t) && ClockedRun(t, ops, n)
    ensures Inv(n.heap) && InOrder(n)
    decreases |ops|
  {
    hide Inv, InOrder, ClockedStep, CanDo;
    if ops != [] {
      var t1 := ClockedStep(t, ops[0]).value;
      ClockedKeeps(t, ops[0], t1);
      ClockedRunKeeps(t1, ops[1..], n);
    }
  }

  // After any run: where a block of the size is free, kmalloc hands out one that has been free for
  // at least as long as every other; where none is, the lowest block of the lowest free page.
  lemma LongestFree(base: nat, pages: nat, ops: seq<Op>, t: Clocked, size: nat, n: Heap, p: nat)
    requires ClockedRun(Clocked(Fresh(base, pages), 0, map[]), ops, t) && size <= MAX_BLOCK_SIZE
    requires |t.heap.free| == DESC_COUNT && Alloc(t.heap, size) == Some((n, p))
    ensures var list := t.heap.free[DescFor(size)];
      if list != [] then p in list && forall b :: b in list && b != p ==> Before(t.since, p, b)
      else
        && (exists s: nat ::
              FirstFit(t.heap.used, 1, 0) == Some(s) && p == (t.heap.base + s) * PAGE_SIZE + ARENA_HEADER)
        && |n.free| == DESC_COUNT && var rest := n.free[DescFor(size)];
           forall j :: 0 <= j < |rest| ==> rest[j] == p + (j + 1) * Size(DescFor(size))
  {
    FreshInv(base, pages);
    ClockedRunKeeps(Clocked(Fresh(base, pages), 0, map[]), ops, t);
    hide Inv, ClockedRun, Fresh;
    if t.heap.free[DescFor(size)] != [] { FrontOfList(t, size, n, p); } else { FrontOfPage(t.heap, size, n, p); }
  }

  lemma FrontOfList(t: Clocked, size: nat, n: Heap, p: nat)
    requires InOrder(t) && size <= MAX_BLOCK_SIZE && |t.heap.free| == DESC_COUNT && Alloc(t.heap, size) == Some((n, p))
    requires t.heap.free[DescFor(size)] != []
    ensures var list := t.heap.free[DescFor(size)];
      p in list && forall b :: b in list && b != p ==> Before(t.since, p, b)
  {
    var list := t.heap.free[DescFor(size)];
    hide Size, Total, PageOf, DescFor, FirstFit;
    assert p == list[0];
    forall b | b in list && b != p ensures Before(t.since, p, b) {
      var i :| 0 <= i < |list| && list[i] == b;
      assert Before(t.since, list[0], list[i]);
    }
  }

  lemma FrontOfPage(h: Heap, size: nat, n: Heap, p: nat)
    requires size <= MAX_BLOCK_SIZE && |h.free| == DESC_COUNT && Alloc(h, size) == Some((n, p))
    requires h.free[DescFor(size)] == []
    ensures exists s: nat :: FirstFit(h.used, 1, 0) == Some(s) && p == (h.base + s) * PAGE_SIZE + ARENA_HEADER
    ensures |n.free| == DESC_COUNT && var rest := n.free[DescFor(size)];
      forall j :: 0 <= j < |rest| ==> rest[j] == p + (j + 1) * Size(DescFor(size))
  {
    var k := DescFor(size);
    var s := FirstFit(h.used, 1, 0).value;
    hide Size, Total, PageOf, DescFor, FirstFit, Mark;
    assert Alloc(h, size) == PopBlock(NewArena(h, k).value, k, size);
    var all := Blocks(h.base + s, k, Total(k));
    assert NewArena(h, k).value.free[k] == all;
    assert p == all[0] == BlockAt(h.base + s, k, 0) && n.free[k] == all[1..];
    forall j: nat | j < |all| - 1 ensures n.free[k][j] == p + (j + 1) * Size(k) {
      assert n.free[k][j] == BlockAt(h.base + s, k, j + 1);
    }
  }
}
