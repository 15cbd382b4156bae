/**
  When iget gives an inode out, and that iget and iput take and give back no references but
  their own.
 */
module InodeReferences {
  import opened CacheModel
  import opened CacheProofs
  import Caches = CacheRuns
  import opened InodeModel
  import opened InodeProofs
  import opened Lists
  import opened Wrappers

  // ---------- when iget gives one out ----------

  ghost predicate InMemory(t: Table, id: Id) {
    exists i: nat :: InUse(t, id, i)
  }

  // The cache can read the block: it is cached, or a buffer is free, or one more fits.
  ghost predicate Readable(c: Cache, dev: u32, block: u32) {
    HasRoom(|c.bufs|) || exists b :: 0 <= b < |c.bufs| && (c.bufs[b].count == 0 || c.bufs[b].key == Key(dev, block))
  }

  lemma FindsInMemory(t: Table, id: Id)
    requires TableInv(t) && id.dev in t.lists
    ensures FindIn(t.slots, t.lists[id.dev], id.nr).Some? <==> InMemory(t, id)
  {
    FindInIs(t, id);
    hide TableInv;
    var r := FindIn(t.slots, t.lists[id.dev], id.nr);
    if r.Some? {
      FindsListed(t, id);
      assert InUse(t, id, r.value);
    }
  }

  lemma FindsListed(t: Table, id: Id)
    requires TableInv(t) && id.dev in t.lists && FindIn(t.slots, t.lists[id.dev], id.nr).Some?
    ensures t.slots[FindIn(t.slots, t.lists[id.dev], id.nr).value].id == id
  {
    hide Inv;
    assert Listed(t, id.dev, FindIn(t.slots, t.lists[id.dev], id.nr).value);
  }

  // iget gives an inode exactly for a mounted device, if the inode is in memory, or its number is
  // in range, a slot is free, and its block can be read.
  lemma GetSucceeds(t: Table, id: Id)
    requires TableInv(t)
    ensures |t.cache.chains| == HASH_COUNT
    ensures Iget(t, id).Some? <==>
      && id.dev in t.supers
      && (|| InMemory(t, id)
          || (&& id.nr <= t.supers[id.dev].ninodes && (exists i :: 0 <= i < |t.slots| && t.slots[i].Unused?)
              && Readable(t.cache, id.dev, InodeBlock(t.supers[id.dev], id.nr))))
  {
    assert Inv(t.cache) && ListsOk(t);
    if id.dev in t.lists {
      FindsInMemory(t, id);
      hide TableInv, Inv, Hash, Bread, FindIn, FirstUnused;
      if id.nr <= t.supers[id.dev].ninodes {
        BreadStep(t.cache, Key(id.dev, InodeBlock(t.supers[id.dev], id.nr)));
      }
    }
  }

  // The lowest free slot takes it, at the back of the device's list.
  lemma GetPlaces(t: Table, id: Id, n: Table, i: nat)
    requires |t.cache.chains| == HASH_COUNT && Iget(t, id) == Some((n, i)) && TableInv(t)
    ensures i < |t.slots| && |n.slots| == |t.slots| && n.supers == t.supers
    ensures forall j :: 0 <= j < |t.slots| && j != i ==> n.slots[j] == t.slots[j]
    ensures t.slots[i].Used? ==> n.lists == t.lists && n.cache == t.cache
    ensures t.slots[i].Unused? ==> id.dev in t.lists && n.lists == t.lists[id.dev := t.lists[id.dev] + [i]]
    ensures t.slots[i].Unused? ==> forall j :: 0 <= j < i ==> t.slots[j].Used?
  {
    FindInIs(t, id);
    hide TableInv, Bread;
  }

  // ---------- no reference is lost or made up ----------

  // The references to a buffer that are not those of an in-memory inode.
  ghost function Others(t: Table, b: nat): int
    requires b < |t.cache.bufs|
  {
    t.cache.bufs[b].count - |PinsOf(t, b)|
  }

  // Of every buffer that was there; one that is new has no others.
  ghost predicate SameOthers(t: Table, n: Table) {
    && |t.cache.bufs| <= |n.cache.bufs|
    && forall b: nat :: b < |n.cache.bufs| ==> Others(n, b) == if b < |t.cache.bufs| then Others(t, b) else 0
  }

  lemma PinsAdded(t: Table, n: Table, i: nat, b: nat)
    requires i < |t.slots| == |n.slots| && t.slots[i].Unused? && n.slots[i].Used?
    requires forall j :: 0 <= j < |t.slots| && j != i ==> n.slots[j] == t.slots[j]
    ensures |PinsOf(n, b)| == |PinsOf(t, b)| + if n.slots[i].buf == b then 1 else 0
  {
    forall a: nat ensures Pins(n, a, b) <==> Pins(t, a, b) || (a == i && n.slots[i].buf == b) {}
    assert i !in PinsOf(t, b);
    assert PinsOf(n, b) == if n.slots[i].buf == b then PinsOf(t, b) + {i} else PinsOf(t, b);
  }

  lemma SamePinsOf(t: Table, n: Table, b: nat)
    requires |t.slots| == |n.slots|
    requires forall a: nat :: Pins(n, a, b) <==> Pins(t, a, b)
    ensures PinsOf(n, b) == PinsOf(t, b)
  {
  }

  // A buffer that nobody holds is no inode's.
  lemma NoPins(t: Table, b: nat)
    requires TableInv(t) && (b < |t.cache.bufs| ==> t.cache.bufs[b].count == 0)
    ensures PinsOf(t, b) == {}
  {
    forall i: nat ensures !Pins(t, i, b) {
      if i < |t.slots| && t.slots[i].Used? { PinHolds(t, i); }
    }
  }

  lemma ReadCounts(c: Cache, k: Key, n: Cache, b: nat, a: nat)
    requires Inv(c) && Bread(c, k) == Some((n, b)) && a < |n.bufs|
    ensures b < |n.bufs| && |c.bufs| <= |n.bufs|
    ensures n.bufs[a].count == (if a < |c.bufs| then c.bufs[a].count else 0) + if a == b then 1 else 0
  {
    hide Hash;
    Caches.ReadHandles(c, k, n, b);
    GetblkTaken(c, k);
    if a != b { assert Caches.Held(n, a) <==> Caches.Held(c, a); }
  }

  lemma GetOthers(t: Table, id: Id, n: Table, i: nat)
    requires TableInv(t) && |t.cache.chains| == HASH_COUNT && Iget(t, id) == Some((n, i))
    ensures SameOthers(t, n)
  {
    GetPlaces(t, id, n, i);
    FindInIs(t, id);
    if t.slots[i].Used? {
      hide TableInv;
      forall b: nat | b < |n.cache.bufs| ensures Others(n, b) == Others(t, b) { SamePinsOf(t, n, b); }
    } else {
      GetMissOthers(t, id, n, i);
    }
  }

  lemma GetMissOthers(t: Table, id: Id, n: Table, i: nat)
    requires TableInv(t) && |t.cache.chains| == HASH_COUNT && Iget(t, id) == Some((n, i))
    requires i < |t.slots| && t.slots[i].Unused?
    ensures SameOthers(t, n)
  {
    GetPlaces(t, id, n, i);
    assert Inv(t.cache);
    var k := Key(id.dev, InodeBlock(t.supers[id.dev], id.nr));
    var (c, b) := Bread(t.cache, k).value;
    assert n.slots == t.slots[i := Used(id, 1, b)] && n.cache == c;
    hide Inv, Bread, Iget;
    ReadCountsAll(t.cache, k, c, b);
    forall a: nat | a < |n.cache.bufs|
      ensures Others(n, a) == if a < |t.cache.bufs| then Others(t, a) else 0
    {
      ReadCounts(t.cache, k, c, b, a);
      PinsAdded(t, n, i, a);
      if a >= |t.cache.bufs| { NoPins(t, a); }
    }
  }

  lemma ReadCountsAll(c: Cache, k: Key, n: Cache, b: nat)
    requires Inv(c) && Bread(c, k) == Some((n, b))
    ensures b < |n.bufs| && |c.bufs| <= |n.bufs|
  {
    hide Hash;
    Caches.ReadHandles(c, k, n, b);
    GetblkTaken(c, k);
  }

  lemma PutOthers(t: Table, i: nat, n: Table)
    requires TableInv(t) && i < |t.slots| && t.slots[i].Used? && Sound(t, Put(i)) && Step(t, Put(i)) == Some(n)
    ensures SameOthers(t, n)
  {
    PinHolds(t, i);
    hide TableInv;
    var s := t.slots[i];
    if s.count > 1 {
      forall b: nat | b < |n.cache.bufs| ensures Others(n, b) == Others(t, b) { SamePinsOf(t, n, b); }
    } else {
      Caches.BrelseBufs(t.cache, s.buf);
      hide Brelse;
      forall b: nat | b < |n.cache.bufs| ensures Others(n, b) == Others(t, b) { PinsAdded(n, t, i, b); }
    }
  }
}
