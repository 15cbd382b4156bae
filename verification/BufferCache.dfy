/**
  The buffer cache as the kernel runs it: bump pointers, hash chains and the free list
  updated in place, each method tied to its function on `Cache`.
 */
module BufferCache {
  import opened CacheModel
  import opened CacheProofs
  import opened Lists
  import opened Wrappers

  function HeaderAt(b: nat): nat {
    KERNEL_BUFFER_BASE + b * BUFFER_HEADER
  }

  function DataAt(b: nat): nat
    requires (b + 1) * BLOCK_SIZE <= KERNEL_BUFFER_SIZE
  {
    KERNEL_BUFFER_BASE + KERNEL_BUFFER_SIZE - (b + 1) * BLOCK_SIZE
  }

  // However many buffers the cache has allocated, every header ends below every data area, data
  // areas are disjoint, and all of them lie inside the buffer area.
  lemma AreasDisjoint(c: Cache, a: nat, b: nat)
    requires Inv(c) && a < |c.bufs| && b < |c.bufs|
    ensures (a + 1) * BLOCK_SIZE <= KERNEL_BUFFER_SIZE && (b + 1) * BLOCK_SIZE <= KERNEL_BUFFER_SIZE
    ensures KERNEL_BUFFER_BASE <= HeaderAt(a) && HeaderAt(a) + BUFFER_HEADER <= DataAt(b)
    ensures DataAt(b) + BLOCK_SIZE <= KERNEL_BUFFER_BASE + KERNEL_BUFFER_SIZE
    ensures a < b ==> DataAt(b) + BLOCK_SIZE <= DataAt(a) && HeaderAt(a) + BUFFER_HEADER <= HeaderAt(b)
  {
    hide Hash;
  }

  // What a miss does, written as the separate updates that getblk makes.
  lemma TakeIs(c: Cache, k: Key)
    requires Inv(c)
    ensures HasRoom(|c.bufs|) ==> var b := |c.bufs|;
      Take(c, k) == Some((Cache(
        (c.bufs + [Buf(k, 0, false, false, ZeroBlock())])[b := Buf(k, 1, false, false, ZeroBlock())],
        c.chains[Hash(k) := [b] + c.chains[Hash(k)]], c.free, c.disk), b))
    ensures !HasRoom(|c.bufs|) && c.free != [] && c.free[|c.free| - 1] < |c.bufs| ==>
      var b := c.free[|c.free| - 1];
      var chains := c.chains[Hash(c.bufs[b].key) := Without(c.chains[Hash(c.bufs[b].key)], b)];
      Take(c, k) == Some((Cache(
        c.bufs[b := c.bufs[b].(valid := false)][b := c.bufs[b].(key := k, count := 1, valid := false)],
        chains[Hash(k) := [b] + chains[Hash(k)]], c.free[..|c.free| - 1], c.disk), b))
  {
    hide Hash, Inv;
    if HasRoom(|c.bufs|) {
      var b := |c.bufs|;
      assert (c.bufs + [Buf(k, 0, false, false, ZeroBlock())])[b := Buf(k, 1, false, false, ZeroBlock())]
          == c.bufs + [Buf(k, 1, false, false, ZeroBlock())];
    } else if c.free != [] && c.free[|c.free| - 1] < |c.bufs| {
      var b := c.free[|c.free| - 1];
      assert c.bufs[b := c.bufs[b].(valid := false)][b := c.bufs[b].(key := k, count := 1, valid := false)]
          == c.bufs[b := c.bufs[b].(key := k, count := 1, valid := false)];
    }
  }

  // On a miss the buffer about to be used is not on the chain of the new key.
  lemma MissFacts(c: Cache, k: Key)
    requires Inv(c)
    ensures |c.bufs| !in c.chains[Hash(k)]
    ensures c.free != [] ==> var b := c.free[|c.free| - 1];
      && b < |c.bufs| && c.bufs[b].count == 0 && !c.bufs[b].dirty
      && b !in Without(c.chains[Hash(c.bufs[b].key)], b)
      && (Hash(c.bufs[b].key) != Hash(k) ==> b !in c.chains[Hash(k)])
  {
    hide Hash;
    assert Chained(c.bufs, c.chains[Hash(k)], Hash(k), |c.bufs|);
    if c.free != [] {
      var b := c.free[|c.free| - 1];
      assert b in c.free;
      WithoutDrops(c.chains[Hash(c.bufs[b].key)], b);
      assert Chained(c.bufs, c.chains[Hash(k)], Hash(k), b);
    }
  }

  class Buffers {
    var bufferPtr: nat
    var bufferData: nat
    var buffers: seq<Buf>
    var hashTable: seq<seq<nat>>
    var freeList: seq<nat>
    var disk: map<Key, Block>

    ghost function Model(): Cache
      reads this
    {
      Cache(buffers, hashTable, freeList, disk)
    }

    // The bump pointers are where the next header and the next data area go.
    ghost predicate Valid()
      reads this
    {
      && |hashTable| == HASH_COUNT
      && bufferPtr == KERNEL_BUFFER_BASE + |buffers| * BUFFER_HEADER
      && bufferData == KERNEL_BUFFER_BASE + KERNEL_BUFFER_SIZE - (|buffers| + 1) * BLOCK_SIZE
    }

    // buffer_init.
    constructor (contents: map<Key, Block>)
      ensures Valid() && Model() == Empty(contents)
    {
      bufferPtr := KERNEL_BUFFER_BASE;
      bufferData := KERNEL_BUFFER_BASE + KERNEL_BUFFER_SIZE - BLOCK_SIZE;
      buffers, freeList, disk := [], [], contents;
      hashTable := seq(HASH_COUNT, _ => []);
    }

    method HashInsert(b: nat)
      requires Valid() && b < |buffers| && b !in hashTable[Hash(buffers[b].key)]
      modifies this`hashTable
      ensures hashTable == old(hashTable)[Hash(buffers[b].key) := [b] + old(hashTable)[Hash(buffers[b].key)]]
    {
      var h := Hash(buffers[b].key);
      hashTable := hashTable[h := [b] + hashTable[h]];
    }

    method HashRemove(b: nat)
      requires Valid() && b < |buffers| && b in hashTable[Hash(buffers[b].key)]
      modifies this`hashTable
      ensures hashTable ==
        old(hashTable)[Hash(buffers[b].key) := Without(old(hashTable)[Hash(buffers[b].key)], b)]
    {
      var h := Hash(buffers[b].key);
      hashTable := hashTable[h := Without(hashTable[h], b)];
    }

    // Walk the chain of k; a buffer found on the free list leaves it.
    method GetFromHashTable(k: Key) returns (r: Option<nat>)
      requires Valid() && Inv(Model())
      modifies this`freeList
      ensures r == Find(buffers, hashTable[Hash(k)], k)
      ensures freeList == if r.Some? then Without(old(freeList), r.value) else old(freeList)
    {
      hide Hash;
      var chain := hashTable[Hash(k)];
      var i := 0;
      r := None;
      while i < |chain|
        invariant 0 <= i <= |chain| && r.None?
        invariant Find(buffers, chain, k) == Find(buffers, chain[i..], k)
      {
        assert Chained(buffers, chain, Hash(k), chain[i]);
        if buffers[chain[i]].key == k {
          r := Some(chain[i]);
          break;
        }
        i := i + 1;
      }
      if r.Some? && r.value in freeList {
        freeList := Without(freeList, r.value);
      }
    }

    // Lazy allocation while the two bump pointers have not met.
    method GetNewBuffer(k: Key) returns (r: Option<nat>)
      requires Valid()
      modifies this`bufferPtr, this`bufferData, this`buffers
      ensures Valid()
      ensures r.Some? <==> HasRoom(|old(buffers)|)
      ensures r.Some? ==>
        r.value == |old(buffers)| && buffers == old(buffers) + [Buf(k, 0, false, false, ZeroBlock())]
      ensures r.None? ==> buffers == old(buffers)
    {
      if bufferPtr + BUFFER_HEADER < bufferData {
        buffers := buffers + [Buf(k, 0, false, false, ZeroBlock())];
        bufferPtr := bufferPtr + BUFFER_HEADER;
        bufferData := bufferData - BLOCK_SIZE;
        return Some(|buffers| - 1);
      }
      return None;
    }

    // get_free_buffer: a new buffer, else the back of the free list, taken off its chain;
    // None when the caller goes to sleep on wait_list.
    method GetFreeBuffer(k: Key) returns (r: Option<nat>)
      requires Valid() && Inv(Model())
      modifies this
      ensures Valid() && disk == old(disk)
      ensures r.None? <==> !HasRoom(|old(buffers)|) && old(freeList) == []
      ensures r.None? ==> Model() == old(Model())
      ensures r.Some? && HasRoom(|old(buffers)|) ==>
        && r.value == |old(buffers)| && buffers == old(buffers) + [Buf(k, 0, false, false, ZeroBlock())]
        && hashTable == old(hashTable) && freeList == old(freeList)
      ensures r.Some? && !HasRoom(|old(buffers)|) ==>
        && r.value == old(freeList)[|old(freeList)| - 1] && freeList == old(freeList)[..|old(freeList)| - 1]
        && r.value < |old(buffers)| && var b := old(buffers)[r.value];
           buffers == old(buffers)[r.value := b.(valid := false)] &&
           hashTable == old(hashTable)[Hash(b.key) := Without(old(hashTable)[Hash(b.key)], r.value)]
    {
      hide Hash, Without;
      r := GetNewBuffer(k);
      if r.None? && freeList != [] {
        var b := freeList[|freeList| - 1];
        assert b in freeList;
        assert Chained(buffers, hashTable[Hash(buffers[b].key)], Hash(buffers[b].key), b);
        freeList := freeList[..|freeList| - 1];
        HashRemove(b);
        buffers := buffers[b := buffers[b].(valid := false)];
        r := Some(b);
      }
    }

    method Getblk(k: Key) returns (r: Option<nat>)
      requires Valid() && Inv(Model())
      modifies this
      ensures Valid()
      ensures r.None? <==> CacheModel.Getblk(old(Model()), k).None?
      ensures r.None? ==> Model() == old(Model())
      ensures r.Some? ==> CacheModel.Getblk(old(Model()), k) == Some((Model(), r.value))
    {
      hide Hash, Without, Take;
      r := GetFromHashTable(k);
      if r.Some? {
        buffers := buffers[r.value := buffers[r.value].(count := buffers[r.value].count + 1)];
        return;
      }
      hide Inv;
      r := UseFreeBuffer(k);
    }

    // The part of getblk after a miss.
    method UseFreeBuffer(k: Key) returns (r: Option<nat>)
      requires Valid() && Inv(Model())
      modifies this
      ensures Valid()
      ensures r.None? <==> Take(old(Model()), k).None?
      ensures r.None? ==> Model() == old(Model())
      ensures r.Some? ==> Take(old(Model()), k) == Some((Model(), r.value))
    {
      hide Inv, Hash, Without, HasRoom;
      ghost var c := Model();
      MissFacts(c, k);
      r := GetFreeBuffer(k);
      if r.None? { return; }
      var b := r.value;
      assert buffers[b].count == 0;
      assert !buffers[b].dirty;
      buffers := buffers[b := buffers[b].(key := k, count := 1)];
      assert b !in hashTable[Hash(k)];
      HashInsert(b);
      TakeIs(c, k);
    }

    method Bread(k: Key) returns (r: Option<nat>)
      requires Valid() && Inv(Model())
      modifies this
      ensures Valid() && (r.None? <==> CacheModel.Bread(old(Model()), k).None?)
      ensures r.None? ==> Model() == old(Model())
      ensures r.Some? ==> CacheModel.Bread(old(Model()), k) == Some((Model(), r.value))
    {
      hide Inv, Hash, CacheModel.Getblk;
      GetblkTaken(Model(), k);
      r := Getblk(k);
      if r.None? { return; }
      var b := r.value;
      if !buffers[b].valid {
        buffers := buffers[b := buffers[b].(dirty := false, valid := true, data := OnDisk(disk, buffers[b].key))];
      }
    }

    method Bwrite(b: nat)
      requires Valid() && b < |buffers|
      modifies this`buffers, this`disk
      ensures Valid() && Model() == CacheModel.Bwrite(old(Model()), b)
    {
      hide Hash;
      if !buffers[b].dirty { return; }
      disk := disk[buffers[b].key := buffers[b].data];
      buffers := buffers[b := buffers[b].(dirty := false, valid := true)];
    }

    method Brelse(b: nat)
      requires Valid() && b < |buffers| && buffers[b].count > 0
      modifies this
      ensures Valid() && Model() == CacheModel.Brelse(old(Model()), b)
    {
      hide Hash;
      buffers := buffers[b := buffers[b].(count := buffers[b].count - 1)];
      if buffers[b].count > 0 { return; }
      freeList := [b] + freeList;
      if buffers[b].dirty {
        Bwrite(b);
      }
    }
  }
}
