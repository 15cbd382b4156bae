/**
  The block buffer cache of src/kernel/buffer.c as a value: buffers in order of allocation,
  31 hash chains, the free list with the most recently released buffer first, and the disk.
 */
module CacheModel {
  import opened Lists
  import opened Wrappers

  const HASH_COUNT := 31
  const BLOCK_SIZE := 1024
  const BUFFER_HEADER := 64              // sizeof(buffer_t)
  const KERNEL_BUFFER_BASE := 0x80_0000
  const KERNEL_BUFFER_SIZE := 0x40_0000

  type u32 = x: nat | x < 0x1_0000_0000

  newtype byte = x: int | 0 <= x < 256

  type Block = s: seq<byte> | |s| == BLOCK_SIZE witness seq(BLOCK_SIZE, _ => 0)

  datatype Key = Key(dev: u32, block: u32)

  datatype Buf = Buf(key: Key, count: nat, dirty: bool, valid: bool, data: Block)

  datatype Cache = Cache(bufs: seq<Buf>, chains: seq<seq<nat>>, free: seq<nat>, disk: map<Key, Block>)

  // Bitwise exclusive or, digit by digit.
  function Xor(a: nat, b: nat): nat {
    if a == 0 then b else if b == 0 then a else 2 * Xor(a / 2, b / 2) + (if a % 2 == b % 2 then 0 else 1)
  }

  function Hash(k: Key): (h: nat)
    ensures h < HASH_COUNT
  {
    Xor(k.dev, k.block) % HASH_COUNT
  }

  function ZeroBlock(): Block {
    seq(BLOCK_SIZE, _ => 0)
  }

  function OnDisk(disk: map<Key, Block>, k: Key): Block {
    if k in disk then disk[k] else ZeroBlock()
  }

  // The scan of get_from_hash_table.
  function Find(bufs: seq<Buf>, chain: seq<nat>, k: Key): (r: Option<nat>)
    ensures r.Some? ==> r.value in chain && r.value < |bufs| && bufs[r.value].key == k
    ensures r.None? ==> forall b :: b in chain && b < |bufs| ==> bufs[b].key != k
  {
    if chain == [] then None
    else if chain[0] < |bufs| && bufs[chain[0]].key == k then Some(chain[0])
    else Find(bufs, chain[1..], k)
  }

  // get_new_buffer's condition: one more header still ends below the next data area.
  predicate HasRoom(n: nat) {
    KERNEL_BUFFER_BASE + n * BUFFER_HEADER + BUFFER_HEADER <
      KERNEL_BUFFER_BASE + KERNEL_BUFFER_SIZE - (n + 1) * BLOCK_SIZE
  }

  // A buffer for key k that is not cached yet: a new one, or the one at the back of the
  // free list; None when the caller would sleep.
  function Take(c: Cache, k: Key): Option<(Cache, nat)>
    requires |c.chains| == HASH_COUNT
  {
    if HasRoom(|c.bufs|) then
      var b := |c.bufs|;
      Some((c.(bufs := c.bufs + [Buf(k, 1, false, false, ZeroBlock())],
               chains := c.chains[Hash(k) := [b] + c.chains[Hash(k)]]), b))
    else if c.free != [] && c.free[|c.free| - 1] < |c.bufs| then
      var b := c.free[|c.free| - 1];
      var was := Hash(c.bufs[b].key);
      var chains := c.chains[was := Without(c.chains[was], b)];
      Some((c.(bufs := c.bufs[b := c.bufs[b].(key := k, count := 1, valid := false)],
               chains := chains[Hash(k) := [b] + chains[Hash(k)]],
               free := c.free[..|c.free| - 1]), b))
    else None
  }

  function Getblk(c: Cache, k: Key): Option<(Cache, nat)>
    requires |c.chains| == HASH_COUNT
  {
    match Find(c.bufs, c.chains[Hash(k)], k)
    case Some(b) =>
      Some((c.(bufs := c.bufs[b := c.bufs[b].(count := c.bufs[b].count + 1)], free := Without(c.free, b)), b))
    case None => Take(c, k)
  }

  function Fill(c: Cache, b: nat): Cache
    requires b < |c.bufs|
  {
    if c.bufs[b].valid then c
    else c.(bufs := c.bufs[b := c.bufs[b].(dirty := false, valid := true, data := OnDisk(c.disk, c.bufs[b].key))])
  }

  function Bread(c: Cache, k: Key): Option<(Cache, nat)>
    requires |c.chains| == HASH_COUNT
  {
    match Getblk(c, k)
    case None => None
    case Some((c1, b)) => if b < |c1.bufs| then Some((Fill(c1, b), b)) else None
  }

  function Bwrite(c: Cache, b: nat): Cache
    requires b < |c.bufs|
  {
    if !c.bufs[b].dirty then c
    else c.(disk := c.disk[c.bufs[b].key := c.bufs[b].data],
            bufs := c.bufs[b := c.bufs[b].(dirty := false, valid := true)])
  }

  function Brelse(c: Cache, b: nat): Cache
    requires b < |c.bufs| && c.bufs[b].count > 0
  {
    var c1 := c.(bufs := c.bufs[b := c.bufs[b].(count := c.bufs[b].count - 1)]);
    if c1.bufs[b].count > 0 then c1 else Bwrite(c1.(free := [b] + c1.free), b)
  }

  // A holder changes the data and marks the buffer dirty.
  function SetData(c: Cache, b: nat, data: Block): Cache
    requires b < |c.bufs|
  {
    c.(bufs := c.bufs[b := c.bufs[b].(data := data, dirty := true)])
  }

  // buffer_init.
  function Empty(disk: map<Key, Block>): Cache {
    Cache([], seq(HASH_COUNT, _ => []), [], disk)
  }

  // ---------- the invariant ----------

  ghost predicate Chained(bufs: seq<Buf>, chain: seq<nat>, h: nat, b: nat) {
    b in chain <==> b < |bufs| && Hash(bufs[b].key) == h
  }

  ghost predicate ChainsOk(c: Cache) {
    && |c.chains| == HASH_COUNT
    && (forall h :: 0 <= h < HASH_COUNT ==> NoDup(c.chains[h]))
    && (forall h: nat, b: nat :: h < HASH_COUNT ==> Chained(c.bufs, c.chains[h], h, b))
  }

  ghost predicate OneEach(c: Cache) {
    forall a, b :: 0 <= a < b < |c.bufs| ==> c.bufs[a].key != c.bufs[b].key
  }

  ghost predicate FreeOk(c: Cache) {
    && NoDup(c.free)
    && (forall b: nat :: b in c.free <==> b < |c.bufs| && c.bufs[b].count == 0)
    && (forall b :: 0 <= b < |c.bufs| && c.bufs[b].dirty ==> c.bufs[b].count > 0)
  }

  // Every allocated buffer is on the chain of its key and no other, keys are distinct, the free
  // list is exactly the unreferenced buffers, and a dirty buffer is referenced.
  ghost predicate Inv(c: Cache) {
    && ChainsOk(c) && OneEach(c) && FreeOk(c)
    && (forall b :: 0 <= b < |c.bufs| ==> c.bufs[b].valid)
    && (|c.bufs| > 0 ==> HasRoom(|c.bufs| - 1))
    && (forall b :: 0 <= b < |c.bufs| && !c.bufs[b].dirty ==> c.bufs[b].data == OnDisk(c.disk, c.bufs[b].key))
  }

  // ---------- what the cache shows ----------

  ghost predicate Cached(c: Cache, k: Key, b: nat) {
    b < |c.bufs| && c.bufs[b].key == k && c.bufs[b].valid
  }

  // The valid cached buffer's data if there is one, else the disk block.
  ghost function View(c: Cache, k: Key): Block {
    if exists b: nat :: Cached(c, k, b) then var b: nat :| Cached(c, k, b); c.bufs[b].data else OnDisk(c.disk, k)
  }

  lemma ViewCached(c: Cache, k: Key, b: nat)
    requires OneEach(c) && Cached(c, k, b)
    ensures View(c, k) == c.bufs[b].data
  {
    forall a: nat | Cached(c, k, a) ensures a == b {}
  }
}
