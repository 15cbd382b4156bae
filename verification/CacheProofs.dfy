/**
  The buffer cache agrees with a plain disk, keeps its structure, and recycles the least
  recently released buffer.
 */
module CacheProofs {
  import opened CacheModel
  import opened Lists
  import opened Wrappers

  lemma PushNoDup(s: seq<nat>, x: nat)
    requires NoDup(s) && x !in s
    ensures NoDup([x] + s)
  {
  }

  // Every chain lookup finds the one buffer with that key, if there is one.
  lemma FindIs(c: Cache, k: Key)
    requires ChainsOk(c) && OneEach(c)
    ensures var r := Find(c.bufs, c.chains[Hash(k)], k);
      forall b: nat :: b < |c.bufs| ==> (c.bufs[b].key == k <==> r == Some(b))
  {
    hide Hash;
    var r := Find(c.bufs, c.chains[Hash(k)], k);
    forall b: nat | b < |c.bufs| ensures c.bufs[b].key == k <==> r == Some(b) {
      assert Chained(c.bufs, c.chains[Hash(k)], Hash(k), b);
    }
  }

  // ---------- reading a block ----------

  // All of Inv, except that buffer b has just been taken for a key and may not be filled.
  ghost predicate Taken(c: Cache, b: nat) {
    && ChainsOk(c) && OneEach(c) && FreeOk(c) && b < |c.bufs| && c.bufs[b].count > 0
    && (!c.bufs[b].valid ==> !c.bufs[b].dirty)
    && (|c.bufs| > 0 ==> HasRoom(|c.bufs| - 1))
    && (forall a :: 0 <= a < |c.bufs| && a != b ==> c.bufs[a].valid)
    && (forall a :: 0 <= a < |c.bufs| && c.bufs[a].valid && !c.bufs[a].dirty ==>
          c.bufs[a].data == OnDisk(c.disk, c.bufs[a].key))
  }

  lemma HitTaken(c: Cache, k: Key, b: nat)
    requires Inv(c) && Find(c.bufs, c.chains[Hash(k)], k) == Some(b)
    ensures b < |c.bufs| && Getblk(c, k).Some? && Getblk(c, k).value.1 == b
    ensures Taken(Getblk(c, k).value.0, b)
  {
    hide Hash;
    WithoutDrops(c.free, b);
    var n := Getblk(c, k).value.0;
    forall h: nat, a: nat | h < HASH_COUNT ensures Chained(n.bufs, n.chains[h], h, a) {
      assert Chained(c.bufs, c.chains[h], h, a);
    }
  }

  lemma NewTaken(c: Cache, k: Key)
    requires Inv(c) && Find(c.bufs, c.chains[Hash(k)], k).None? && HasRoom(|c.bufs|)
    ensures Taken(Take(c, k).value.0, |c.bufs|)
  {
    hide Hash;
    FindIs(c, k);
    var n := Take(c, k).value.0;
    var b := |c.bufs|;
    forall h: nat, a: nat | h < HASH_COUNT ensures Chained(n.bufs, n.chains[h], h, a) {
      assert Chained(c.bufs, c.chains[h], h, a);
    }
    assert Chained(c.bufs, c.chains[Hash(k)], Hash(k), b);
    forall h | 0 <= h < HASH_COUNT ensures NoDup(n.chains[h]) {
      if h == Hash(k) { PushNoDup(c.chains[h], b); }
    }
  }

  lemma VictimTaken(c: Cache, k: Key)
    requires Inv(c) && Find(c.bufs, c.chains[Hash(k)], k).None? && !HasRoom(|c.bufs|) && c.free != []
    ensures var b := c.free[|c.free| - 1];
      b < |c.bufs| && Take(c, k).Some? && Take(c, k).value.1 == b && Taken(Take(c, k).value.0, b)
  {
    hide Hash;
    FindIs(c, k);
    var b := c.free[|c.free| - 1];
    assert b in c.free;
    var n := Take(c, k).value.0;
    var was := Hash(c.bufs[b].key);
    VictimChains(c, k, b);
    var rest := c.free[..|c.free| - 1];
    forall a: nat ensures a in rest <==> a in c.free && a != b {
      if a in c.free && a != b {
        var i :| 0 <= i < |c.free| && c.free[i] == a;
        assert rest[i] == a;
      }
    }
  }

  lemma VictimChains(c: Cache, k: Key, b: nat)
    requires Inv(c) && Find(c.bufs, c.chains[Hash(k)], k).None? && b < |c.bufs|
    ensures var was := Hash(c.bufs[b].key);
      var chains := c.chains[was := Without(c.chains[was], b)];
      ChainsOk(c.(bufs := c.bufs[b := c.bufs[b].(key := k, count := 1, valid := false)],
                  chains := chains[Hash(k) := [b] + chains[Hash(k)]]))
  {
    hide Hash;
    var was := Hash(c.bufs[b].key);
    var mid := c.chains[was := Without(c.chains[was], b)];
    var end := mid[Hash(k) := [b] + mid[Hash(k)]];
    var bufs := c.bufs[b := c.bufs[b].(key := k, count := 1, valid := false)];
    WithoutDrops(c.chains[was], b);
    assert Chained(c.bufs, c.chains[was], was, b);
    forall h: nat, a: nat | h < HASH_COUNT ensures Chained(bufs, end[h], h, a) {
      assert Chained(c.bufs, c.chains[h], h, a);
      assert Chained(c.bufs, c.chains[h], h, b);
      assert a in mid[h] <==> a != b && a in c.chains[h];
    }
    forall h | 0 <= h < HASH_COUNT ensures NoDup(end[h]) {
      assert NoDup(c.chains[h]);
      if h == Hash(k) {
        assert Chained(c.bufs, c.chains[h], h, b);
        assert b !in mid[h];
        PushNoDup(mid[h], b);
      }
    }
  }

  // Getblk never hands out a referenced or dirty buffer for another block, and sleeps exactly
  // when every buffer is referenced and the area is full.
  lemma GetblkTaken(c: Cache, k: Key)
    requires Inv(c)
    ensures Getblk(c, k).None? <==>
      !HasRoom(|c.bufs|) && (forall b :: 0 <= b < |c.bufs| ==> c.bufs[b].count > 0 && c.bufs[b].key != k)
    ensures Getblk(c, k).Some? ==> var (n, b) := Getblk(c, k).value;
      && Taken(n, b) && n.bufs[b].key == k && n.disk == c.disk && |c.bufs| <= |n.bufs|
      && (forall a :: 0 <= a < |c.bufs| && a != b ==> n.bufs[a] == c.bufs[a])
      && (b < |c.bufs| && c.bufs[b].key != k ==> c.bufs[b].count == 0 && !c.bufs[b].dirty)
      && (b < |c.bufs| && c.bufs[b].key == k ==> n.bufs[b] == c.bufs[b].(count := c.bufs[b].count + 1))
      && (|n.bufs| > |c.bufs| ==> |n.bufs| == |c.bufs| + 1 && b == |c.bufs|)
      && (|n.bufs| > |c.bufs| <==> HasRoom(|c.bufs|) && forall a :: 0 <= a < |c.bufs| ==> c.bufs[a].key != k)
      && (!n.bufs[b].valid ==> forall a :: 0 <= a < |c.bufs| ==> c.bufs[a].key != k)
      && (n.bufs[b].valid ==> b < |c.bufs| && c.bufs[b].key == k)
  {
    hide Hash;
    FindIs(c, k);
    var r := Find(c.bufs, c.chains[Hash(k)], k);
    if r.Some? {
      HitTaken(c, k, r.value);
    } else if HasRoom(|c.bufs|) {
      NewTaken(c, k);
    } else if c.free != [] {
      VictimTaken(c, k);
      assert c.free[|c.free| - 1] in c.free;
    } else {
      forall b | 0 <= b < |c.bufs| ensures c.bufs[b].count > 0 { assert b !in c.free; }
    }
  }

  lemma FillInv(t: Cache, b: nat)
    requires Taken(t, b)
    ensures Inv(Fill(t, b))
  {
    hide Hash;
    var n := Fill(t, b);
    SameChains(t, n);
  }

  // bread returns a referenced buffer holding what the cache showed for the block, and shows
  // everything unchanged, even when it recycles a buffer.
  lemma BreadStep(c: Cache, k: Key)
    requires Inv(c)
    ensures Bread(c, k).None? <==>
      !HasRoom(|c.bufs|) && (forall b :: 0 <= b < |c.bufs| ==> c.bufs[b].count > 0 && c.bufs[b].key != k)
    ensures Bread(c, k).Some? ==> var (n, b) := Bread(c, k).value;
      && Inv(n) && b < |n.bufs| && n.bufs[b].key == k && n.bufs[b].count > 0
      && n.bufs[b].data == View(c, k) && n.disk == c.disk
      && (forall j :: View(n, j) == View(c, j))
      && (forall a :: 0 <= a < |c.bufs| && c.bufs[a].count > 0 ==>
            a < |n.bufs| && n.bufs[a] == if a == b then c.bufs[a].(count := c.bufs[a].count + 1) else c.bufs[a])
  {
    hide Hash, Getblk;
    GetblkTaken(c, k);
    if Getblk(c, k).Some? {
      var (t, b) := Getblk(c, k).value;
      FillInv(t, b);
      hide Inv, Taken;
      forall j ensures View(Fill(t, b), j) == View(c, j) && (j == k ==> Fill(t, b).bufs[b].data == View(c, k)) {
        BreadViews(c, k, j);
      }
    }
  }

  lemma BreadViews(c: Cache, k: Key, j: Key)
    requires Inv(c) && Getblk(c, k).Some?
    ensures var (t, b) := Getblk(c, k).value;
      b < |t.bufs| && View(Fill(t, b), j) == View(c, j) && (j == k ==> Fill(t, b).bufs[b].data == View(c, k))
  {
    hide Hash, Getblk;
    GetblkTaken(c, k);
    var (t, b) := Getblk(c, k).value;
    var n := Fill(t, b);
    if a: nat :| a < |c.bufs| && c.bufs[a].key == j {
      ViewCached(c, j, a);
      if a == b && j != k {
        forall i: nat ensures !Cached(n, j, i) {
          if i < |n.bufs| && i != b && i < |c.bufs| { assert c.bufs[i].key != j; }
        }
      } else {
        ViewCached(n, j, a);
      }
    } else {
      forall i: nat ensures !Cached(c, j, i) {}
      if j == k {
        ViewCached(n, k, b);
      } else {
        forall i: nat ensures !Cached(n, j, i) {}
      }
    }
  }

  // ---------- writing back, releasing, editing ----------

  lemma SameChains(c: Cache, n: Cache)
    requires ChainsOk(c) && n.chains == c.chains && |n.bufs| == |c.bufs|
    requires forall b :: 0 <= b < |c.bufs| ==> n.bufs[b].key == c.bufs[b].key
    ensures ChainsOk(n)
  {
    hide Hash;
    forall h: nat, b: nat | h < HASH_COUNT ensures Chained(n.bufs, n.chains[h], h, b) {
      assert Chained(c.bufs, c.chains[h], h, b);
    }
  }

  // With the same keys and every buffer valid, the view changes only where a buffer's data or
  // the disk under an uncached key changes.
  lemma SameView(c: Cache, n: Cache, k: Key)
    requires OneEach(c) && OneEach(n) && |n.bufs| == |c.bufs|
    requires forall b :: 0 <= b < |c.bufs| ==> n.bufs[b].key == c.bufs[b].key && c.bufs[b].valid && n.bufs[b].valid
    requires forall b :: 0 <= b < |c.bufs| && c.bufs[b].key == k ==> n.bufs[b].data == c.bufs[b].data
    requires (forall b :: 0 <= b < |c.bufs| ==> c.bufs[b].key != k) ==> OnDisk(n.disk, k) == OnDisk(c.disk, k)
    ensures View(n, k) == View(c, k)
  {
    if b: nat :| Cached(c, k, b) {
      ViewCached(c, k, b);
      ViewCached(n, k, b);
    } else {
      forall b: nat ensures !Cached(n, k, b) { assert !Cached(c, k, b); }
      forall b | 0 <= b < |c.bufs| ensures c.bufs[b].key != k { assert !Cached(c, k, b); }
    }
  }

  lemma BwriteStep(c: Cache, b: nat)
    requires Inv(c) && b < |c.bufs|
    ensures Inv(Bwrite(c, b)) && forall k :: View(Bwrite(c, b), k) == View(c, k)
    ensures !Bwrite(c, b).bufs[b].dirty
  {
    hide Hash;
    var n := Bwrite(c, b);
    SameChains(c, n);
    forall k ensures View(n, k) == View(c, k) { SameView(c, n, k); }
  }

  // After bwrite the disk has the buffer's data, and all else as before; after brelse it has them
  // if that was the last reference.
  lemma WritesBack(c: Cache, b: nat, k: Key)
    requires Inv(c) && b < |c.bufs|
    ensures OnDisk(Bwrite(c, b).disk, k) == if k == c.bufs[b].key then c.bufs[b].data else OnDisk(c.disk, k)
    ensures c.bufs[b].count > 0 ==>
      && (Brelse(c, b).bufs[b].dirty <==> c.bufs[b].dirty && c.bufs[b].count > 1)
      && OnDisk(Brelse(c, b).disk, k) ==
         if c.bufs[b].count == 1 && k == c.bufs[b].key then c.bufs[b].data else OnDisk(c.disk, k)
  {
    hide Hash;
  }

  // The buffer goes to the front of the free list when the last reference goes; a dirty one is
  // written back first, so nothing that the cache shows is lost.
  lemma BrelseStep(c: Cache, b: nat)
    requires Inv(c) && b < |c.bufs| && c.bufs[b].count > 0
    ensures Inv(Brelse(c, b)) && forall k :: View(Brelse(c, b), k) == View(c, k)
    ensures Brelse(c, b).free == if c.bufs[b].count == 1 then [b] + c.free else c.free
  {
    hide Hash;
    var n := Brelse(c, b);
    SameChains(c, n);
    assert b !in c.free;
    PushNoDup(c.free, b);
    forall k ensures View(n, k) == View(c, k) { SameView(c, n, k); }
  }

  lemma EditStep(c: Cache, b: nat, data: Block)
    requires Inv(c) && b < |c.bufs| && c.bufs[b].count > 0
    ensures Inv(SetData(c, b, data))
    ensures forall k :: View(SetData(c, b, data), k) == if k == c.bufs[b].key then data else View(c, k)
  {
    hide Hash;
    var n := SetData(c, b, data);
    SameChains(c, n);
    forall k ensures View(n, k) == if k == c.bufs[b].key then data else View(c, k) {
      if k == c.bufs[b].key { ViewCached(n, k, b); } else { SameView(c, n, k); }
    }
  }
}
