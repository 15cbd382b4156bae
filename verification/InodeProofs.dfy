/**
  iget and iput, mixed with any other use of the buffer cache, keep the inode table's
  invariant and behave as a reference count per (device, inode number).
 */
module InodeProofs {
  import opened CacheModel
  import opened CacheProofs
  import Caches = CacheRuns
  import opened InodeModel
  import opened Lists
  import opened Wrappers

  lemma PinHolds(t: Table, i: nat)
    requires TableInv(t) && i < |t.slots| && t.slots[i].Used?
    ensures t.slots[i].count >= 1 && t.slots[i].buf < |t.cache.bufs|
    ensures t.cache.bufs[t.slots[i].buf].count >= 1 && t.slots[i].id.dev in t.lists
  {
    assert Pinned(t, i) && Enough(t, t.slots[i].buf);
    var s := PinsOf(t, t.slots[i].buf);
    assert i in s;
    assert |s| >= 1 by { assert s == {i} + (s - {i}); }
  }

  // The buffer of an in-memory inode is that of the block with its descriptor.
  lemma BlockOfInode(t: Table, i: nat)
    requires TableInv(t) && i < |t.slots| && t.slots[i].Used?
    ensures var s := t.slots[i];
      && s.buf < |t.cache.bufs| && t.cache.bufs[s.buf].key.dev == s.id.dev && s.id.dev in t.supers
      && HoldsInode(t.supers[s.id.dev], t.cache.bufs[s.buf].key.block, s.id.nr)
  {
    assert Pinned(t, i);
    hide TableInv;
  }

  // The lookup finds the inode of id exactly when there is one.
  lemma FindInIs(t: Table, id: Id)
    requires TableInv(t) && id.dev in t.lists
    ensures var r := FindIn(t.slots, t.lists[id.dev], id.nr);
      forall i: nat :: i < |t.slots| && t.slots[i].Used? ==> (t.slots[i].id == id <==> r == Some(i))
  {
    hide Inv;
    var r := FindIn(t.slots, t.lists[id.dev], id.nr);
    if r.Some? { assert Listed(t, id.dev, r.value); }
    forall i: nat | i < |t.slots| && t.slots[i].Used? ensures t.slots[i].id == id <==> r == Some(i) {
      assert Listed(t, id.dev, i);
    }
  }

  // ---------- iget on an inode that is in memory ----------

  lemma AgainInv(t: Table, i: nat, count: nat)
    requires TableInv(t) && i < |t.slots| && t.slots[i].Used? && count >= 1
    ensures TableInv(t.(slots := t.slots[i := t.slots[i].(count := count)]))
  {
    hide Inv;
    var n := t.(slots := t.slots[i := t.slots[i].(count := count)]);
    forall dev, a: nat | dev in n.lists ensures Listed(n, dev, a) { assert Listed(t, dev, a); }
    forall a: nat ensures Pinned(n, a) { assert Pinned(t, a); }
    forall b: nat ensures Enough(n, b) {
      assert Enough(t, b);
      forall a: nat ensures Pins(n, a, b) <==> Pins(t, a, b) {}
      assert PinsOf(n, b) == PinsOf(t, b);
    }
  }

  // ---------- a change of the cache that keeps the pins ----------

  // Referenced buffers keep their key, and counts still cover the inodes that live there.
  ghost predicate CacheKept(t: Table, c: Cache) {
    && Inv(c)
    && (forall b :: 0 <= b < |t.cache.bufs| && t.cache.bufs[b].count > 0 && PinsOf(t, b) != {} ==>
          b < |c.bufs| && c.bufs[b].key == t.cache.bufs[b].key && c.bufs[b].count >= |PinsOf(t, b)|)
  }

  lemma CacheKeptInv(t: Table, c: Cache)
    requires TableInv(t) && CacheKept(t, c)
    ensures TableInv(t.(cache := c))
  {
    hide Inv;
    var n := t.(cache := c);
    forall dev, a: nat | dev in n.lists ensures Listed(n, dev, a) { assert Listed(t, dev, a); }
    forall a: nat ensures Pinned(n, a) {
      assert Pinned(t, a);
      if a < |t.slots| && t.slots[a].Used? {
        PinHolds(t, a);
        assert a in PinsOf(t, t.slots[a].buf);
      }
    }
    forall b: nat ensures Enough(n, b) {
      assert Enough(t, b);
      forall a: nat ensures Pins(n, a, b) <==> Pins(t, a, b) {}
      assert PinsOf(n, b) == PinsOf(t, b);
      if PinsOf(t, b) != {} {
        var a :| a in PinsOf(t, b);
        PinHolds(t, a);
      }
    }
  }

  // bread by anyone keeps every in-memory inode's buffer.
  lemma BreadKept(t: Table, k: Key)
    requires TableInv(t) && Bread(t.cache, k).Some?
    ensures CacheKept(t, Bread(t.cache, k).value.0)
  {
    hide Bread, Hash;
    BreadStep(t.cache, k);
    forall b | 0 <= b < |t.cache.bufs| && PinsOf(t, b) != {}
      ensures t.cache.bufs[b].count >= |PinsOf(t, b)|
    {
      assert Enough(t, b);
    }
  }

  // ---------- iget on an inode that is not ----------

  function WithInode(t: Table, id: Id, i: nat, b: nat): Table
    requires id.dev in t.lists && i < |t.slots|
  {
    Table(t.slots[i := Used(id, 1, b)], t.lists[id.dev := t.lists[id.dev] + [i]], t.supers, t.cache)
  }

  lemma NewInodeLists(t: Table, id: Id, i: nat, b: nat)
    requires ListsOk(t) && id.dev in t.lists && i < |t.slots| && t.slots[i].Unused?
    ensures ListsOk(WithInode(t, id, i, b))
  {
    var n := WithInode(t, id, i, b);
    assert Listed(t, id.dev, i);
    forall dev, a: nat | dev in n.lists ensures Listed(n, dev, a) { assert Listed(t, dev, a); }
  }

  lemma NewInodeEnough(t: Table, id: Id, i: nat, b: nat, e: nat)
    requires id.dev in t.lists && i < |t.slots| && t.slots[i].Unused? && b < |t.cache.bufs|
    requires Enough(t, e) && t.cache.bufs[b].count > |PinsOf(t, b)|
    ensures Enough(WithInode(t, id, i, b), e)
  {
    var n := WithInode(t, id, i, b);
    forall a: nat ensures Pins(n, a, e) <==> Pins(t, a, e) || (a == i && e == b) {}
    if e == b {
      assert PinsOf(n, e) == PinsOf(t, e) + {i};
    } else {
      assert PinsOf(n, e) == PinsOf(t, e);
    }
  }

  lemma NewInodeInv(t: Table, id: Id, i: nat, b: nat)
    requires TableInv(t) && id.dev in t.lists && id.nr <= t.supers[id.dev].ninodes
    requires FindIn(t.slots, t.lists[id.dev], id.nr).None?
    requires i < |t.slots| && t.slots[i].Unused? && b < |t.cache.bufs|
    requires t.cache.bufs[b].key == Key(id.dev, InodeBlock(t.supers[id.dev], id.nr))
    requires t.cache.bufs[b].count > |PinsOf(t, b)|
    ensures TableInv(WithInode(t, id, i, b))
  {
    hide Inv, PinsOf, Pins, ListsOk;
    var n := WithInode(t, id, i, b);
    FindInIs(t, id);
    NewInodeLists(t, id, i, b);
    forall a: nat ensures Pinned(n, a) { assert Pinned(t, a); }
    forall e: nat ensures Enough(n, e) {
      assert Enough(t, e);
      NewInodeEnough(t, id, i, b, e);
    }
  }

  // The buffer that bread returns has one reference more than its inodes need.
  lemma BreadSpare(t: Table, k: Key)
    requires TableInv(t) && Bread(t.cache, k).Some?
    ensures var (c, b) := Bread(t.cache, k).value;
      b < |c.bufs| && c.bufs[b].key == k && c.bufs[b].count > |PinsOf(t, b)|
  {
    hide Hash;
    BreadStep(t.cache, k);
    var (c, b) := Bread(t.cache, k).value;
    assert Enough(t, b);
    if PinsOf(t, b) != {} {
      var a :| a in PinsOf(t, b);
      PinHolds(t, a);
    } else {
      assert |PinsOf(t, b)| == 0;
    }
  }

  // ---------- iput ----------

  function WithoutInode(t: Table, i: nat): Table
    requires i < |t.slots| && t.slots[i].Used? && t.slots[i].id.dev in t.lists
  {
    var dev := t.slots[i].id.dev;
    Table(t.slots[i := Unused], t.lists[dev := Without(t.lists[dev], i)], t.supers, t.cache)
  }

  lemma DropInodeLists(t: Table, i: nat)
    requires ListsOk(t) && i < |t.slots| && t.slots[i].Used?
    ensures t.slots[i].id.dev in t.lists && ListsOk(WithoutInode(t, i))
  {
    var dev0 := t.slots[i].id.dev;
    var n := WithoutInode(t, i);
    WithoutDrops(t.lists[dev0], i);
    forall dev, a: nat | dev in n.lists ensures Listed(n, dev, a) { assert Listed(t, dev, a) && Listed(t, dev, i); }
  }

  lemma DropInodeEnough(t: Table, i: nat, e: nat)
    requires i < |t.slots| && t.slots[i].Used? && t.slots[i].id.dev in t.lists && Enough(t, e)
    ensures Enough(WithoutInode(t, i), e)
    ensures e == t.slots[i].buf ==> |PinsOf(WithoutInode(t, i), e)| + 1 == |PinsOf(t, e)|
  {
    var n := WithoutInode(t, i);
    forall a: nat ensures Pins(n, a, e) <==> Pins(t, a, e) && a != i {}
    assert PinsOf(n, e) == PinsOf(t, e) - {i};
    if e == t.slots[i].buf { assert i in PinsOf(t, e); }
  }

  lemma DropInodeInv(t: Table, i: nat)
    requires TableInv(t) && i < |t.slots| && t.slots[i].Used?
    ensures t.slots[i].id.dev in t.lists && TableInv(WithoutInode(t, i))
    ensures var b := t.slots[i].buf; |PinsOf(WithoutInode(t, i), b)| + 1 == |PinsOf(t, b)|
  {
    hide Inv, ListsOk, PinsOf, Pins;
    DropInodeLists(t, i);
    var n := WithoutInode(t, i);
    forall a: nat ensures Pinned(n, a) { assert Pinned(t, a); }
    forall e: nat ensures Enough(n, e) && (e == t.slots[i].buf ==> |PinsOf(n, e)| + 1 == |PinsOf(t, e)|) {
      assert Enough(t, e);
      DropInodeEnough(t, i, e);
    }
  }

  // Giving up one reference that no inode needs keeps every inode's buffer.
  lemma BrelseKept(t: Table, b: nat)
    requires TableInv(t) && b < |t.cache.bufs| && t.cache.bufs[b].count > |PinsOf(t, b)|
    ensures CacheKept(t, Brelse(t.cache, b))
  {
    hide Hash;
    BrelseStep(t.cache, b);
    forall a | 0 <= a < |t.cache.bufs| && PinsOf(t, a) != {}
      ensures t.cache.bufs[a].count >= |PinsOf(t, a)|
    {
      assert Enough(t, a);
    }
    assert PinsOf(t, b) != {} ==> |PinsOf(t, b)| >= 1;
  }

  // ---------- the operations, as a reference count ----------

  // Cached is what the rest of the kernel does with the cache.
  datatype Op = Get(id: Id) | Put(slot: nat) | Cached(op: Caches.Op)

  // The rest of the kernel only gives up references of its own.
  ghost predicate CacheCanDo(t: Table, op: Caches.Op) {
    Caches.CanDo(t.cache, op) && (op.Release? ==> t.cache.bufs[op.buf].count > |PinsOf(t, op.buf)|)
  }

  ghost predicate CanDo(t: Table, op: Op) {
    match op
    case Get(_) => true
    case Put(i) => i < |t.slots| && t.slots[i].Used?
    case Cached(o) => CacheCanDo(t, o)
  }

  // The reference counts that callers of iget and iput expect.
  function RefStep(refs: map<Id, nat>, op: Op, id: Id): map<Id, nat> {
    match op
    case Get(_) => refs[id := (if id in refs then refs[id] else 0) + 1]
    case Put(_) => if id in refs && refs[id] > 1 then refs[id := refs[id] - 1] else refs - {id}
    case Cached(_) => refs
  }

  // The inode that an operation is about.
  function IdOf(t: Table, op: Op): Id {
    match op
    case Get(id) => id
    case Put(i) => if i < |t.slots| && t.slots[i].Used? then t.slots[i].id else Id(0, 0)
    case Cached(_) => Id(0, 0)
  }

  // What the code relies on without looking: an inode that is given back has a reference, a
  // superblock, and a referenced buffer.
  predicate Sound(t: Table, op: Op) {
    && |t.cache.chains| == HASH_COUNT
    && (op.Put? && op.slot < |t.slots| && t.slots[op.slot].Used? ==>
          var s := t.slots[op.slot];
          && s.count > 0 && s.id.dev in t.lists
          && s.buf < |t.cache.bufs| && t.cache.bufs[s.buf].count > 0)
  }

  ghost function Step(t: Table, op: Op): Option<Table>
    requires Sound(t, op) && CanDo(t, op)
  {
    match op
    case Get(id) => if Iget(t, id).Some? then Some(Iget(t, id).value.0) else None
    case Put(i) => Iput(t, i)
    case Cached(o) =>
      match Caches.Step(t.cache, o)
      case None => None
      case Some((c, _, _)) => Some(t.(cache := c))
  }

  lemma StepsAreSound(t: Table, op: Op)
    requires TableInv(t)
    ensures Sound(t, op)
  {
    assert Inv(t.cache);
    if op.Put? && op.slot < |t.slots| && t.slots[op.slot].Used? {
      hide TableInv;
      PinHolds(t, op.slot);
    }
  }

  ghost predicate InUse(t: Table, id: Id, i: nat) {
    i < |t.slots| && t.slots[i].Used? && t.slots[i].id == id
  }

  // An inode is in memory exactly while it is referenced, with the number of references as count.
  ghost predicate Counts(t: Table, refs: map<Id, nat>) {
    && (forall id :: id in refs ==> exists i: nat :: InUse(t, id, i))
    && (forall i: nat :: i < |t.slots| && t.slots[i].Used? ==>
          t.slots[i].id in refs && refs[t.slots[i].id] == t.slots[i].count)
  }

  lemma GetMiss(t: Table, id: Id, i: nat, c: Cache, b: nat)
    requires TableInv(t) && id.dev in t.lists && id.nr <= t.supers[id.dev].ninodes
    requires FindIn(t.slots, t.lists[id.dev], id.nr).None?
    requires i < |t.slots| && t.slots[i].Unused?
    requires Bread(t.cache, Key(id.dev, InodeBlock(t.supers[id.dev], id.nr))) == Some((c, b))
    ensures TableInv(WithInode(t.(cache := c), id, i, b))
    ensures forall k :: View(c, k) == View(t.cache, k)
  {
    var k := Key(id.dev, InodeBlock(t.supers[id.dev], id.nr));
    hide *;
    BreadViews(t, k, c, b);
    BreadKept(t, k);
    CacheKeptInv(t, c);
    BreadSpare(t, k);
    SamePins(t, c, b);
    NewInodeInv(t.(cache := c), id, i, b);
  }

  lemma BreadViews(t: Table, k: Key, c: Cache, b: nat)
    requires TableInv(t) && Bread(t.cache, k) == Some((c, b))
    ensures forall j :: View(c, j) == View(t.cache, j)
  {
    hide Bread, View, Hash;
    BreadStep(t.cache, k);
  }

  lemma SamePins(t: Table, c: Cache, b: nat)
    ensures PinsOf(t.(cache := c), b) == PinsOf(t, b)
  {
    forall a: nat ensures Pins(t.(cache := c), a, b) <==> Pins(t, a, b) {}
  }

  lemma GetHit(t: Table, id: Id, i: nat)
    requires TableInv(t) && id.dev in t.lists && i < |t.slots| && t.slots[i].Used?
    ensures TableInv(t.(slots := t.slots[i := t.slots[i].(count := t.slots[i].count + 1)]))
  {
    assert Pinned(t, i);
    hide TableInv;
    AgainInv(t, i, t.slots[i].count + 1);
  }

  lemma GetInv(t: Table, id: Id, n: Table, i: nat)
    requires TableInv(t) && |t.cache.chains| == HASH_COUNT && Iget(t, id) == Some((n, i))
    ensures TableInv(n) && InUse(n, id, i)
    ensures forall k :: View(n.cache, k) == View(t.cache, k)
  {
    FindInIs(t, id);
    hide TableInv, Hash, Bread, View;
    var r := FindIn(t.slots, t.lists[id.dev], id.nr);
    if r.Some? {
      GetHit(t, id, i);
    } else {
      var k := Key(id.dev, InodeBlock(t.supers[id.dev], id.nr));
      var (c, b) := Bread(t.cache, k).value;
      GetMiss(t, id, i, c, b);
    }
  }

  lemma GetKeeps(t: Table, id: Id, refs: map<Id, nat>, n: Table, i: nat)
    requires TableInv(t) && Counts(t, refs)
    requires |t.cache.chains| == HASH_COUNT && Iget(t, id) == Some((n, i))
    ensures TableInv(n) && Counts(n, RefStep(refs, Get(id), id)) && InUse(n, id, i)
    ensures forall k :: View(n.cache, k) == View(t.cache, k)
    ensures var b := n.slots[i].buf;
      && id.dev in n.supers && b < |n.cache.bufs|
      && n.cache.bufs[b].key.dev == id.dev && HoldsInode(n.supers[id.dev], n.cache.bufs[b].key.block, id.nr)
  {
    GetInv(t, id, n, i);
    FindInIs(t, id);
    BlockOfInode(n, i);
    hide HoldsInode, TableInv, Hash, Bread, View, Counts, RefStep;
    GetCounts(t, id, refs, n, i);
  }

  lemma GetCounts(t: Table, id: Id, refs: map<Id, nat>, n: Table, i: nat)
    requires Counts(t, refs) && i < |t.slots| && |n.slots| == |t.slots|
    requires forall a: nat :: a < |t.slots| && t.slots[a].Used? && a != i ==> t.slots[a].id != id
    requires t.slots[i].Used? ==> t.slots[i].id == id
    requires n.slots == t.slots[i := n.slots[i]] && n.slots[i].Used? && n.slots[i].id == id
    requires n.slots[i].count == (if t.slots[i].Used? then t.slots[i].count else 0) + 1
    ensures Counts(n, RefStep(refs, Get(id), id))
  {
    var refs1 := RefStep(refs, Get(id), id);
    forall j | j in refs1 ensures exists a: nat :: InUse(n, j, a) {
      if j == id { assert InUse(n, id, i); } else {
        var a: nat :| InUse(t, j, a);
        assert InUse(n, j, a);
      }
    }
    assert id in refs ==> exists a: nat :: InUse(t, id, a);
  }

  lemma PutInv(t: Table, i: nat, n: Table)
    requires TableInv(t) && i < |t.slots| && t.slots[i].Used?
    requires Sound(t, Put(i)) && Step(t, Put(i)) == Some(n)
    ensures TableInv(n)
    ensures forall k :: View(n.cache, k) == View(t.cache, k)
  {
    PinHolds(t, i);
    assert Enough(t, t.slots[i].buf);
    hide TableInv, Inv, Hash, Brelse, View, CacheKept, PinsOf;
    var s := t.slots[i];
    if s.count > 1 {
      AgainInv(t, i, s.count - 1);
    } else {
      DropInodeInv(t, i);
      TableCache(t);
      BrelseStep(t.cache, s.buf);
      BrelseKept(WithoutInode(t, i), s.buf);
      CacheKeptInv(WithoutInode(t, i), Brelse(t.cache, s.buf));
    }
  }

  lemma TableCache(t: Table)
    requires TableInv(t)
    ensures Inv(t.cache)
  {
  }

  lemma PutKeeps(t: Table, i: nat, refs: map<Id, nat>, n: Table)
    requires TableInv(t) && Counts(t, refs) && i < |t.slots| && t.slots[i].Used?
    requires Sound(t, Put(i)) && Step(t, Put(i)) == Some(n)
    ensures TableInv(n) && Counts(n, RefStep(refs, Put(i), t.slots[i].id))
    ensures forall k :: View(n.cache, k) == View(t.cache, k)
  {
    PutInv(t, i, n);
    PinHolds(t, i);
    hide Inv, Hash, Brelse, View, RefStep, Counts;
    PutCounts(t, i, refs, n);
  }

  lemma PutCounts(t: Table, i: nat, refs: map<Id, nat>, n: Table)
    requires Counts(t, refs) && Unique(t) && i < |t.slots| && t.slots[i].Used? && t.slots[i].count >= 1
    requires n.slots == t.slots[i := if t.slots[i].count > 1
                                     then t.slots[i].(count := t.slots[i].count - 1) else Unused]
    ensures Counts(n, RefStep(refs, Put(i), t.slots[i].id))
  {
    var id := t.slots[i].id;
    var refs1 := RefStep(refs, Put(i), id);
    forall j | j in refs1 ensures exists a: nat :: InUse(n, j, a) {
      var a: nat :| InUse(t, j, a);
      assert InUse(n, j, a);
    }
  }

  lemma EditKept(t: Table, b: nat, data: Block)
    requires TableInv(t) && b < |t.cache.bufs| && t.cache.bufs[b].count > 0
    ensures CacheKept(t, SetData(t.cache, b, data))
  {
    EditStep(t.cache, b, data);
    forall a | 0 <= a < |t.cache.bufs| && PinsOf(t, a) != {}
      ensures t.cache.bufs[a].count >= |PinsOf(t, a)|
    {
      assert Enough(t, a);
    }
  }

  lemma WriteKept(t: Table, b: nat)
    requires TableInv(t) && b < |t.cache.bufs| && t.cache.bufs[b].count > 0
    ensures CacheKept(t, Bwrite(t.cache, b))
  {
    BwriteStep(t.cache, b);
    forall a | 0 <= a < |t.cache.bufs| && PinsOf(t, a) != {}
      ensures t.cache.bufs[a].count >= |PinsOf(t, a)|
    {
      assert Enough(t, a);
    }
  }

  lemma CacheStepKept(t: Table, op: Caches.Op)
    requires TableInv(t) && CacheCanDo(t, op)
    ensures |t.cache.chains| == HASH_COUNT
    ensures Caches.Step(t.cache, op).Some? ==> CacheKept(t, Caches.Step(t.cache, op).value.0)
  {
    assert |t.cache.chains| == HASH_COUNT;
    hide TableInv, CacheKept, PinsOf, Hash, Bread, Bwrite, Brelse, SetData;
    match op
    case Read(k) => if Bread(t.cache, k).Some? { BreadKept(t, k); }
    case Edit(b, data) => EditKept(t, b, data);
    case Write(b) => WriteKept(t, b);
    case Release(b) => BrelseKept(t, b);
  }

  lemma CachedKeeps(t: Table, op: Caches.Op, refs: map<Id, nat>)
    requires TableInv(t) && Counts(t, refs) && CacheCanDo(t, op)
    ensures |t.cache.chains| == HASH_COUNT
    ensures Caches.Step(t.cache, op).Some? ==>
      var n := t.(cache := Caches.Step(t.cache, op).value.0); TableInv(n) && Counts(n, refs)
  {
    CacheStepKept(t, op);
    hide TableInv, Counts, CacheKept, CacheCanDo, Caches.Step;
    if Caches.Step(t.cache, op).Some? {
      CacheKeptInv(t, Caches.Step(t.cache, op).value.0);
      SameCounts(t, refs, Caches.Step(t.cache, op).value.0);
    }
  }

  lemma SameCounts(t: Table, refs: map<Id, nat>, c: Cache)
    requires Counts(t, refs)
    ensures Counts(t.(cache := c), refs)
  {
    forall id | id in refs ensures exists i: nat :: InUse(t.(cache := c), id, i) {
      var i: nat :| InUse(t, id, i);
      assert InUse(t.(cache := c), id, i);
    }
  }

  ghost predicate Reaches(t: Table, refs: map<Id, nat>, ops: seq<Op>, n: Table, refs1: map<Id, nat>)
    decreases |ops|
  {
    if ops == [] then n == t && refs1 == refs
    else
      && Sound(t, ops[0]) && CanDo(t, ops[0]) && Step(t, ops[0]).Some?
      && Reaches(Step(t, ops[0]).value, RefStep(refs, ops[0], IdOf(t, ops[0])), ops[1..], n, refs1)
  }

  // Over any run of igets, iputs and other cache traffic there is one in-memory inode per
  // referenced (device, number), its count is the number of references outstanding, and the
  // buffer of its descriptor is referenced, so it is never recycled.
  lemma {:induction false} InodesPinBuffers(t: Table, refs: map<Id, nat>, ops: seq<Op>, n: Table, refs1: map<Id, nat>)
    requires TableInv(t) && Counts(t, refs) && Reaches(t, refs, ops, n, refs1)
    ensures TableInv(n) && Counts(n, refs1)
    ensures forall i: nat :: i < |n.slots| && n.slots[i].Used? ==>
      n.slots[i].buf < |n.cache.bufs| && n.cache.bufs[n.slots[i].buf].count >= 1
    decreases |ops|
  {
    if ops == [] {
      forall i: nat | i < |n.slots| && n.slots[i].Used?
        ensures n.slots[i].buf < |n.cache.bufs| && n.cache.bufs[n.slots[i].buf].count >= 1
      {
        PinHolds(n, i);
      }
    } else {
      StepKeeps(t, refs, ops[0]);
      InodesPinBuffers(Step(t, ops[0]).value, RefStep(refs, ops[0], IdOf(t, ops[0])), ops[1..], n, refs1);
    }
  }

  // No operation is done on a state that the code does not expect.
  lemma StepKeeps(t: Table, refs: map<Id, nat>, op: Op)
    requires TableInv(t) && Counts(t, refs) && CanDo(t, op)
    ensures Sound(t, op)
    ensures Step(t, op).Some? ==> TableInv(Step(t, op).value)
    ensures Step(t, op).Some? ==> Counts(Step(t, op).value, RefStep(refs, op, IdOf(t, op)))
  {
    StepsAreSound(t, op);
    hide TableInv, Counts, Iget, Bread, Sound;
    if Step(t, op).Some? {
      match op
      case Get(id) => GetKeeps(t, id, refs, Iget(t, id).value.0, Iget(t, id).value.1);
      case Put(i) => PutKeeps(t, i, refs, Step(t, op).value);
      case Cached(o) => CachedKeeps(t, o, refs);
    }
  }
}
