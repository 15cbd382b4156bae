/**
  Over every run of the cache's operations the callers see a plain disk with stable handles,
  and the buffer that is recycled is the one released longest ago.
 */
module CacheRuns {
  import opened CacheModel
  import opened CacheProofs
  import opened Lists
  import opened Wrappers

  // Edit, Write and Release name a buffer that the caller got from Read and still holds.
  datatype Op = Read(key: Key) | Edit(buf: nat, data: Block) | Write(buf: nat) | Release(buf: nat)

  // ---------- the plain disk ----------

  datatype Handle = Handle(key: Key, count: nat)

  datatype Disk = Disk(blocks: map<Key, Block>, handles: map<nat, Handle>)

  predicate Allowed(d: Disk, op: Op) {
    op.Read? || op.buf in d.handles
  }

  // Handles are stable: while one is held it stands for one block, and a block has one handle.
  predicate GivesOut(d: Disk, op: Op, b: nat) {
    op.Read? ==>
      && (b in d.handles ==> d.handles[b].key == op.key)
      && forall h :: h in d.handles && d.handles[h].key == op.key ==> h == b
  }

  // `b` is the handle that the machine gives out for a Read.
  function DiskStep(d: Disk, op: Op, b: nat): (Disk, Block)
    requires Allowed(d, op)
  {
    match op
    case Read(k) =>
      var count := if b in d.handles then d.handles[b].count else 0;
      (d.(handles := d.handles[b := Handle(k, count + 1)]), OnDisk(d.blocks, k))
    case Edit(h, data) => (d.(blocks := d.blocks[d.handles[h].key := data]), data)
    case Write(h) => (d, OnDisk(d.blocks, d.handles[h].key))
    case Release(h) =>
      var x := d.handles[h];
      (d.(handles := if x.count <= 1 then d.handles - {h} else d.handles[h := x.(count := x.count - 1)]),
       OnDisk(d.blocks, x.key))
  }

  // ---------- the cache ----------

  predicate Held(c: Cache, b: nat) {
    b < |c.bufs| && c.bufs[b].count > 0
  }

  predicate CanDo(c: Cache, op: Op) {
    op.Read? || Held(c, op.buf)
  }

  // One operation: the new cache, the buffer concerned, and the data it holds for its holder.
  function Step(c: Cache, op: Op): Option<(Cache, nat, Block)>
    requires |c.chains| == HASH_COUNT && CanDo(c, op)
  {
    match op
    case Read(k) =>
      (match Bread(c, k)
       case None => None
       case Some((n, b)) => if b < |n.bufs| then Some((n, b, n.bufs[b].data)) else None)
    case Edit(b, data) => Some((SetData(c, b, data), b, data))
    case Write(b) => Some((Bwrite(c, b), b, c.bufs[b].data))
    case Release(b) => Some((Brelse(c, b), b, c.bufs[b].data))
  }

  ghost predicate Agrees(c: Cache, d: Disk) {
    && (forall b: nat :: b in d.handles <==> Held(c, b))
    && (forall b: nat :: b in d.handles ==> d.handles[b] == Handle(c.bufs[b].key, c.bufs[b].count))
    && (forall k :: View(c, k) == OnDisk(d.blocks, k))
  }

  lemma ReadRefines(c: Cache, d: Disk, k: Key, n: Cache, b: nat)
    requires Inv(c) && Agrees(c, d) && Bread(c, k) == Some((n, b))
    ensures Inv(n) && b < |n.bufs| && n.bufs[b].data == OnDisk(d.blocks, k)
    ensures Agrees(n, DiskStep(d, Read(k), b).0)
  {
    hide Inv, Hash, Bread;
    BreadStep(c, k);
    assert View(c, k) == OnDisk(d.blocks, k);
    var d1 := DiskStep(d, Read(k), b).0;
    ReadHandles(c, k, n, b);
    forall a: nat ensures a in d1.handles <==> Held(n, a) { assert a in d.handles <==> Held(c, a); }
    forall j ensures View(n, j) == OnDisk(d1.blocks, j) { assert View(n, j) == View(c, j); }
  }

  lemma ReadGivesOut(c: Cache, d: Disk, k: Key, n: Cache, b: nat)
    requires Inv(c) && Agrees(c, d) && Bread(c, k) == Some((n, b))
    ensures GivesOut(d, Read(k), b)
  {
    hide Hash, View;
    GetblkTaken(c, k);
    FindIs(c, k);
  }

  // Which buffers are held after a read, and for what.
  lemma ReadHandles(c: Cache, k: Key, n: Cache, b: nat)
    requires Inv(c) && Bread(c, k) == Some((n, b))
    ensures b < |n.bufs| && n.bufs[b].key == k
    ensures forall a: nat :: a != b ==> (Held(n, a) <==> Held(c, a))
    ensures forall a: nat :: a != b && Held(c, a) ==> n.bufs[a] == c.bufs[a]
    ensures n.bufs[b].count == if Held(c, b) then c.bufs[b].count + 1 else 1
  {
    hide Hash;
    GetblkTaken(c, k);
    BreadStep(c, k);
    if !Held(c, b) { FreshCount(c, k); }
  }

  lemma FreshCount(c: Cache, k: Key)
    requires Inv(c) && Getblk(c, k).Some? && !Held(c, Getblk(c, k).value.1)
    ensures var (t, b) := Getblk(c, k).value; b < |t.bufs| && t.bufs[b].count == 1
  {
    hide Hash;
    GetblkTaken(c, k);
    FindIs(c, k);
    if c.free != [] { assert c.free[|c.free| - 1] in c.free; }
  }

  lemma EditRefines(c: Cache, d: Disk, h: nat, data: Block)
    requires Inv(c) && Agrees(c, d) && Held(c, h)
    ensures Inv(SetData(c, h, data)) && h in d.handles
    ensures Agrees(SetData(c, h, data), DiskStep(d, Edit(h, data), h).0)
  {
    hide Inv, Hash, View;
    EditStep(c, h, data);
  }

  lemma WriteRefines(c: Cache, d: Disk, h: nat)
    requires Inv(c) && Agrees(c, d) && Held(c, h)
    ensures Inv(Bwrite(c, h)) && h in d.handles && Agrees(Bwrite(c, h), d)
    ensures c.bufs[h].data == OnDisk(d.blocks, d.handles[h].key)
  {
    HeldView(c, h);
    hide Inv, Hash, View;
    BwriteStep(c, h);
  }

  lemma ReleaseRefines(c: Cache, d: Disk, h: nat)
    requires Inv(c) && Agrees(c, d) && Held(c, h)
    ensures Inv(Brelse(c, h)) && h in d.handles && Agrees(Brelse(c, h), DiskStep(d, Release(h), h).0)
    ensures c.bufs[h].data == OnDisk(d.blocks, d.handles[h].key)
  {
    HeldView(c, h);
    hide Inv, Hash, View, Brelse;
    BrelseStep(c, h);
    ReleaseHandles(c, d, h);
    var n, d1 := Brelse(c, h), DiskStep(d, Release(h), h).0;
    forall k ensures View(n, k) == OnDisk(d1.blocks, k) { assert View(n, k) == View(c, k); }
  }

  lemma ReleaseHandles(c: Cache, d: Disk, h: nat)
    requires Agrees(c, d) && Held(c, h)
    ensures h in d.handles
    ensures var n, d1 := Brelse(c, h), DiskStep(d, Release(h), h).0;
      && d1.blocks == d.blocks && (forall b: nat :: b in d1.handles <==> Held(n, b))
      && (forall b: nat :: b in d1.handles ==> d1.handles[b] == Handle(n.bufs[b].key, n.bufs[b].count))
  {
    BrelseBufs(c, h);
    hide Brelse, View;
    var n, d1 := Brelse(c, h), DiskStep(d, Release(h), h).0;
    forall b: nat ensures b in d1.handles <==> Held(n, b) { assert b in d.handles <==> Held(c, b); }
  }

  lemma BrelseBufs(c: Cache, h: nat)
    requires Held(c, h)
    ensures var n := Brelse(c, h);
      && |n.bufs| == |c.bufs| && (forall a :: 0 <= a < |c.bufs| && a != h ==> n.bufs[a] == c.bufs[a])
      && n.bufs[h].key == c.bufs[h].key && n.bufs[h].count == c.bufs[h].count - 1
  {
  }

  lemma StepRefines(c: Cache, d: Disk, op: Op, n: Cache, b: nat, out: Block)
    requires Inv(c) && Agrees(c, d) && CanDo(c, op) && Step(c, op) == Some((n, b, out))
    ensures Inv(n) && Allowed(d, op) && GivesOut(d, op, b)
    ensures Agrees(n, DiskStep(d, op, b).0) && DiskStep(d, op, b).1 == out
  {
    assert |c.chains| == HASH_COUNT;
    hide Inv, Hash, Agrees, Bread, Bwrite, Brelse, SetData;
    match op
    case Read(k) => ReadRefines(c, d, k, n, b); ReadGivesOut(c, d, k, n, b);
    case Edit(h, data) => EditRefines(c, d, h, data);
    case Write(h) => WriteRefines(c, d, h);
    case Release(h) => ReleaseRefines(c, d, h);
  }

  lemma HeldView(c: Cache, b: nat)
    requires Inv(c) && b < |c.bufs|
    ensures View(c, c.bufs[b].key) == c.bufs[b].data
  {
    hide Hash;
    ViewCached(c, c.bufs[b].key, b);
  }

  // ---------- runs ----------

  function Run(c: Cache, ops: seq<Op>): Option<(Cache, seq<(nat, Block)>)>
    decreases |ops|
  {
    if ops == [] then Some((c, []))
    else if |c.chains| != HASH_COUNT || !CanDo(c, ops[0]) then None
    else match Step(c, ops[0])
      case None => None
      case Some((c1, b, out)) =>
        match Run(c1, ops[1..])
        case None => None
        case Some((c2, outs)) => Some((c2, [(b, out)] + outs))
  }

  // The plain disk accepts the run, with each handle given out being one it can give out, has the
  // same data for every operation, and ends in state `end`.
  ghost predicate DiskAccepts(d: Disk, ops: seq<Op>, outs: seq<(nat, Block)>, end: Disk)
    decreases |ops|
  {
    if ops == [] then outs == [] && end == d
    else
      && outs != [] && Allowed(d, ops[0]) && GivesOut(d, ops[0], outs[0].0)
      && var (d1, out) := DiskStep(d, ops[0], outs[0].0);
         out == outs[0].1 && DiskAccepts(d1, ops[1..], outs[1..], end)
  }

  lemma {:induction false} CacheIsDisk(c: Cache, d: Disk, ops: seq<Op>, n: Cache, outs: seq<(nat, Block)>)
    returns (end: Disk)
    requires Inv(c) && Agrees(c, d) && Run(c, ops) == Some((n, outs))
    ensures Inv(n) && Agrees(n, end) && DiskAccepts(d, ops, outs, end)
    decreases |ops|
  {
    hide Inv, Hash, Agrees, Step, DiskStep, GivesOut;
    if ops == [] {
      end := d;
    } else {
      var (c1, b, out) := Step(c, ops[0]).value;
      StepRefines(c, d, ops[0], c1, b, out);
      var d1 := DiskStep(d, ops[0], b).0;
      end := CacheIsDisk(c1, d1, ops[1..], n, outs[1..]);
    }
  }

  // ---------- least recently released ----------

  // The cache with the time of each buffer's last release.
  datatype Clocked = Clocked(cache: Cache, now: nat, released: map<nat, nat>)

  function ClockedStep(t: Clocked, op: Op): Option<Clocked>
    requires |t.cache.chains| == HASH_COUNT && CanDo(t.cache, op)
  {
    match Step(t.cache, op)
    case None => None
    case Some((n, b, _)) =>
      Some(Clocked(n, t.now + 1, if op.Release? then t.released[op.buf := t.now] else t.released))
  }

  ghost predicate Newer(released: map<nat, nat>, a: nat, b: nat) {
    a in released && b in released && released[a] > released[b]
  }

  // The buffers in s are in order of release, latest first.
  ghost predicate InOrder(s: seq<nat>, released: map<nat, nat>) {
    forall i, j :: 0 <= i < j < |s| ==> Newer(released, s[i], s[j])
  }

  ghost predicate Before(s: seq<nat>, released: map<nat, nat>, now: nat) {
    forall b :: b in s ==> b in released && released[b] < now
  }

  ghost predicate Ordered(t: Clocked) {
    InOrder(t.cache.free, t.released) && Before(t.cache.free, t.released, t.now)
  }

  lemma {:induction false} WithoutOrder(s: seq<nat>, x: nat, released: map<nat, nat>)
    requires InOrder(s, released)
    ensures InOrder(Without(s, x), released) && forall y :: y in Without(s, x) ==> y in s
  {
    if s != [] && s[0] != x {
      var rest := s[1..];
      WithoutOrder(rest, x, released);
      var r := Without(rest, x);
      forall j | 0 <= j < |r| ensures Newer(released, s[0], r[j]) {
        assert r[j] in r;
        var i :| 0 <= i < |rest| && rest[i] == r[j];
        assert s[i + 1] == r[j];
      }
    }
  }

  // bread leaves the free list alone, takes the buffer it found off it, or takes its last one.
  lemma BreadFree(c: Cache, k: Key) returns (b: nat)
    requires Inv(c) && Bread(c, k).Some?
    ensures var f := Bread(c, k).value.0.free;
      f == c.free || f == Without(c.free, b) || (c.free != [] && f == c.free[..|c.free| - 1])
  {
    hide Hash;
    var r := Find(c.bufs, c.chains[Hash(k)], k);
    b := if r.Some? then r.value else 0;
  }

  lemma ReadKeepsOrder(t: Clocked, k: Key, n: Clocked)
    requires Inv(t.cache) && Ordered(t) && ClockedStep(t, Read(k)) == Some(n)
    ensures Inv(n.cache) && Ordered(n)
  {
    hide Hash, Inv, Bread, Without, View;
    BreadStep(t.cache, k);
    var b := BreadFree(t.cache, k);
    WithoutOrder(t.cache.free, b, t.released);
  }

  lemma ReleaseKeepsOrder(t: Clocked, b: nat, n: Clocked)
    requires Inv(t.cache) && Ordered(t) && Held(t.cache, b) && ClockedStep(t, Release(b)) == Some(n)
    ensures Inv(n.cache) && Ordered(n)
  {
    assert b !in t.cache.free;
    hide Hash, Inv, View, Brelse, InOrder, Before;
    BrelseStep(t.cache, b);
    FrontOrder(t.cache.free, b, t.released, t.now);
  }

  // A release puts the buffer in front of everything released before.
  lemma FrontOrder(free: seq<nat>, b: nat, released: map<nat, nat>, now: nat)
    requires InOrder(free, released) && Before(free, released, now) && b !in free
    ensures InOrder([b] + free, released[b := now]) && Before([b] + free, released[b := now], now + 1)
    ensures InOrder(free, released[b := now]) && Before(free, released[b := now], now + 1)
  {
    var more := released[b := now];
    forall i, j | 0 <= i < j < |free| ensures Newer(more, free[i], free[j]) {
      assert Newer(released, free[i], free[j]) && free[i] in free && free[j] in free;
    }
    forall j | 0 <= j < |free| ensures Newer(more, b, free[j]) { assert free[j] in free; }
  }

  lemma ClockedKeepsOrder(t: Clocked, op: Op, n: Clocked)
    requires Inv(t.cache) && Ordered(t) && CanDo(t.cache, op) && ClockedStep(t, op) == Some(n)
    ensures Inv(n.cache) && Ordered(n)
  {
    hide Inv, Hash, View, Bread, Brelse;
    match op
    case Read(k) => ReadKeepsOrder(t, k, n);
    case Edit(b, data) => EditStep(t.cache, b, data);
    case Write(b) => BwriteStep(t.cache, b);
    case Release(b) => ReleaseKeepsOrder(t, b, n);
  }

  function ClockedRun(t: Clocked, ops: seq<Op>): Option<Clocked>
    decreases |ops|
  {
    if ops == [] then Some(t)
    else if |t.cache.chains| != HASH_COUNT || !CanDo(t.cache, ops[0]) then None
    else match ClockedStep(t, ops[0])
      case None => None
      case Some(n) => ClockedRun(n, ops[1..])
  }

  lemma EmptyInv(disk: map<Key, Block>)
    ensures Inv(Empty(disk)) && Agrees(Empty(disk), Disk(disk, map[]))
  {
    hide Hash;
    forall k ensures View(Empty(disk), k) == OnDisk(disk, k) {
      assert forall b: nat :: !Cached(Empty(disk), k, b);
    }
  }

  lemma {:induction false} RunKeepsOrder(t: Clocked, ops: seq<Op>, n: Clocked)
    requires Inv(t.cache) && Ordered(t) && ClockedRun(t, ops) == Some(n)
    ensures Inv(n.cache) && Ordered(n)
    decreases |ops|
  {
    hide Inv, Ordered, ClockedStep;
    if ops != [] {
      var t1 := ClockedStep(t, ops[0]).value;
      ClockedKeepsOrder(t, ops[0], t1);
      RunKeepsOrder(t1, ops[1..], n);
    }
  }

  // In every state a run can reach: when a read recycles a buffer, that buffer is unreferenced,
  // clean, and was released before every other unreferenced buffer.
  lemma VictimIsOldest(disk: map<Key, Block>, ops: seq<Op>, t: Clocked, k: Key, n: Cache, b: nat)
    requires ClockedRun(Clocked(Empty(disk), 0, map[]), ops) == Some(t)
    requires |t.cache.chains| == HASH_COUNT && Bread(t.cache, k) == Some((n, b))
    requires b < |t.cache.bufs| && t.cache.bufs[b].key != k
    ensures t.cache.bufs[b].count == 0 && !t.cache.bufs[b].dirty && b in t.released
    ensures forall a: nat :: a < |t.cache.bufs| && t.cache.bufs[a].count == 0 && a != b ==>
      a in t.released && t.released[b] < t.released[a]
  {
    hide Hash;
    EmptyInv(disk);
    RunKeepsOrder(Clocked(Empty(disk), 0, map[]), ops, t);
    GetblkTaken(t.cache, k);
    FindIs(t.cache, k);
    var free := t.cache.free;
    assert b == free[|free| - 1];
    forall a: nat | a < |t.cache.bufs| && t.cache.bufs[a].count == 0 && a != b
      ensures a in t.released && t.released[b] < t.released[a]
    {
      assert a in free;
      var i :| 0 <= i < |free| && free[i] == a;
      assert i < |free| - 1;
    }
  }

  // In every state a run can reach there is at most one buffer per block, the free list is exactly
  // the unreferenced buffers, a dirty buffer is referenced, and each buffer is on the chain of its
  // own hash and no other.
  lemma ReachableCaches(disk: map<Key, Block>, ops: seq<Op>, n: Cache, outs: seq<(nat, Block)>)
    requires Run(Empty(disk), ops) == Some((n, outs))
    ensures forall a, b :: 0 <= a < b < |n.bufs| ==> n.bufs[a].key != n.bufs[b].key
    ensures forall b: nat :: b in n.free <==> b < |n.bufs| && n.bufs[b].count == 0
    ensures forall b :: 0 <= b < |n.bufs| && n.bufs[b].dirty ==> n.bufs[b].count > 0
    ensures |n.chains| == HASH_COUNT
    ensures forall b: nat, h: nat :: b < |n.bufs| && h < HASH_COUNT ==> (b in n.chains[h] <==> Hash(n.bufs[b].key) == h)
  {
    EmptyInv(disk);
    var end := CacheIsDisk(Empty(disk), Disk(disk, map[]), ops, n, outs);
    hide Hash, Run, Empty, Agrees, DiskAccepts;
    forall b: nat, h: nat | b < |n.bufs| && h < HASH_COUNT ensures b in n.chains[h] <==> Hash(n.bufs[b].key) == h {
      assert Chained(n.bufs, n.chains[h], h, b);
    }
  }
}
