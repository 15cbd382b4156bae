/**
  The in-memory inode table as the kernel runs it, on top of the buffer cache object.
 */
module InodeCache {
  import opened CacheModel
  import opened BufferCache
  import opened InodeModel
  import opened InodeProofs
  import opened Lists
  import opened Wrappers

  class Inodes {
    var inodeTable: seq<Slot>
    var inodeLists: map<u32, seq<nat>>
    const supers: map<u32, Super>
    const cache: Buffers

    ghost function Model(): Table
      reads this, cache
    {
      Table(inodeTable, inodeLists, supers, cache.Model())
    }

    ghost predicate Valid()
      reads this, cache
    {
      cache.Valid() && TableInv(Model())
    }

    // inode_init, with the given superblocks mounted.
    constructor (supers: map<u32, Super>, cache: Buffers)
      requires cache.Valid() && Inv(cache.Model())
      ensures Valid() && this.cache == cache && this.supers == supers
      ensures Model() == Table(seq(INODE_NR, _ => Unused), map dev | dev in supers :: [], supers, cache.Model())
    {
      this.supers, this.cache := supers, cache;
      inodeTable := seq(INODE_NR, _ => Unused);
      inodeLists := map dev | dev in supers :: [];
      new;
      FreshInv(Model());
    }

    method FindInode(id: Id) returns (r: Option<nat>)
      requires id.dev in inodeLists
      requires forall i :: i in inodeLists[id.dev] ==> i < |inodeTable| && inodeTable[i].Used?
      ensures r == FindIn(inodeTable, inodeLists[id.dev], id.nr)
    {
      var list, n := inodeLists[id.dev], 0;
      while n < |list|
        invariant 0 <= n <= |list|
        invariant FindIn(inodeTable, list, id.nr) == FindIn(inodeTable, list[n..], id.nr)
      {
        assert list[n] in list;
        if inodeTable[list[n]].id.nr == id.nr { return Some(list[n]); }
        n := n + 1;
      }
      return None;
    }

    // The first free slot; None stands for the panic.
    method GetFreeInode() returns (r: Option<nat>)
      ensures r == FirstUnused(inodeTable, 0)
      ensures r.None? ==> forall j :: 0 <= j < |inodeTable| ==> inodeTable[j].Used?
      ensures r.Some? ==> r.value < |inodeTable| && inodeTable[r.value].Unused?
      ensures r.Some? ==> forall j :: 0 <= j < r.value ==> inodeTable[j].Used?
    {
      var i := 0;
      while i < |inodeTable|
        invariant 0 <= i <= |inodeTable|
        invariant FirstUnused(inodeTable, 0) == FirstUnused(inodeTable, i)
        invariant forall j :: 0 <= j < i ==> inodeTable[j].Used?
      {
        if inodeTable[i].Unused? { return Some(i); }
        i := i + 1;
      }
      return None;
    }

    // None when an assertion fails, the table is full, or the cache goes to sleep.
    method Iget(id: Id) returns (r: Option<nat>)
      requires Valid()
      modifies this, cache
      ensures r.Some? <==> InodeModel.Iget(old(Model()), id).Some?
      ensures r.Some? ==> Valid() && InodeModel.Iget(old(Model()), id) == Some((Model(), r.value))
    {
      ghost var t := Model();
      assert |t.cache.chains| == HASH_COUNT;
      if id.dev !in inodeLists || id.dev !in supers { return None; }
      ListedAreUsed(t, id.dev);
      if InodeModel.Iget(t, id).Some? { GetInv(t, id, InodeModel.Iget(t, id).value.0, InodeModel.Iget(t, id).value.1); }
      hide TableInv, Inv, Hash, CacheModel.Bread, FindIn, FirstUnused;
      var found := FindInode(id);
      if found.Some? {
        var i := found.value;
        inodeTable := inodeTable[i := inodeTable[i].(count := inodeTable[i].count + 1)];
        return Some(i);
      }
      if id.nr > supers[id.dev].ninodes { return None; }
      var unused := GetFreeInode();
      if unused.None? { return None; }
      TableCache(t);
      hide InodeBlock;
      var loaded := LoadInode(id, unused.value);
      return if loaded then unused else None;
    }

    // A free slot takes the inode: into the superblock's list, its block into the cache.
    method LoadInode(id: Id, i: nat) returns (ok: bool)
      requires cache.Valid() && Inv(cache.Model()) && |cache.hashTable| == HASH_COUNT
      requires id.dev in inodeLists && id.dev in supers && id.nr <= supers[id.dev].ninodes && i < |inodeTable|
      modifies this, cache
      ensures cache.Valid()
      ensures var read := CacheModel.Bread(old(cache.Model()), Key(id.dev, InodeBlock(supers[id.dev], id.nr)));
        (ok <==> read.Some?) &&
        (ok ==> Model() == Table(old(inodeTable)[i := Used(id, 1, read.value.1)],
                                 old(inodeLists)[id.dev := old(inodeLists)[id.dev] + [i]], supers, read.value.0))
    {
      hide Inv, Hash, CacheModel.Bread;
      inodeLists := inodeLists[id.dev := inodeLists[id.dev] + [i]];
      var buf := cache.Bread(Key(id.dev, InodeBlock(supers[id.dev], id.nr)));
      if buf.None? { return false; }
      inodeTable := inodeTable[i := Used(id, 1, buf.value)];
      return true;
    }

    // false: the root directory's inode is being given back, and the assertion fails.
    method Iput(i: nat) returns (ok: bool)
      requires Valid() && i < |inodeTable| && inodeTable[i].Used?
      modifies this, cache
      ensures ok <==> !(i == 0 && old(inodeTable)[i].count == 1)
      ensures Sound(old(Model()), Put(i))
      ensures ok ==> Valid() && Step(old(Model()), Put(i)) == Some(Model())
    {
      ghost var t := Model();
      StepsAreSound(t, Put(i));
      if Step(t, Put(i)).Some? { PutInv(t, i, Step(t, Put(i)).value); }
      hide TableInv, Inv, Hash, Without, CacheModel.Brelse;
      var s := inodeTable[i];
      inodeTable := inodeTable[i := s.(count := s.count - 1)];
      if s.count > 1 { return true; }
      cache.Brelse(s.buf);
      inodeLists := inodeLists[s.id.dev := Without(inodeLists[s.id.dev], i)];
      ok := PutFreeInode(i);
      assert ok ==> inodeTable == t.slots[i := Unused];
    }

    method PutFreeInode(i: nat) returns (ok: bool)
      requires i < |inodeTable|
      modifies this`inodeTable
      ensures ok <==> i != 0
      ensures inodeTable == if ok then old(inodeTable)[i := Unused] else old(inodeTable)
    {
      if i == 0 { return false; }
      inodeTable := inodeTable[i := Unused];
      return true;
    }
  }

  lemma FreshInv(t: Table)
    requires Inv(t.cache) && t.slots == seq(INODE_NR, _ => Unused)
    requires t.lists == map dev | dev in t.supers :: []
    ensures TableInv(t)
  {
    hide Inv;
    forall dev, i: nat | dev in t.lists ensures Listed(t, dev, i) {}
    forall b: nat ensures Enough(t, b) {
      assert PinsOf(t, b) == {};
    }
  }

  lemma ListedAreUsed(t: Table, dev: u32)
    requires TableInv(t) && dev in t.lists
    ensures forall i :: i in t.lists[dev] ==> i < |t.slots| && t.slots[i].Used?
  {
    hide Inv;
    forall i | i in t.lists[dev] ensures i < |t.slots| && t.slots[i].Used? { assert Listed(t, dev, i); }
  }
}
