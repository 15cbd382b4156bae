/**
  The in-memory inodes of src/fs/inode.c over the buffer cache: reference counting per
  (device, inode number), and the buffer of each inode's descriptor stays referenced.
 */
module InodeModel {
  import opened CacheModel
  import opened Lists
  import opened Wrappers

  const INODE_NR := 64
  const BLOCK_INODES := 32               // BLOCK_SIZE / sizeof(inode_desc_t)

  type u16 = x: nat | x < 0x1_0000

  datatype Super = Super(ninodes: u16, imapBlocks: u16, zmapBlocks: u16)

  datatype Id = Id(dev: u32, nr: nat)

  // A slot of inode_table; Unused stands for dev_id == EOF.
  datatype Slot = Unused | Used(id: Id, count: nat, buf: nat)

  // `lists` is each mounted superblock's inode_list.
  datatype Table = Table(slots: seq<Slot>, lists: map<u32, seq<nat>>, supers: map<u32, Super>, cache: Cache)

  // nr - 1 in u32 arithmetic: the assertion on inode numbers lets 0 pass, which then lies in a
  // block far behind the last inode.
  function InodeBlock(sb: Super, nr: nat): u32
    requires nr <= sb.ninodes
  {
    2 + sb.imapBlocks + sb.zmapBlocks + (if nr == 0 then 0xFFFF_FFFF else nr - 1) / BLOCK_INODES
  }

  // The blocks behind the two bitmaps hold 32 descriptors each, from inode 1 on.
  predicate HoldsInode(sb: Super, block: nat, nr: nat) {
    var at := block - (2 + sb.imapBlocks + sb.zmapBlocks);
    if nr == 0 then at == 0x7FF_FFFF else 32 * at < nr <= 32 * at + 32
  }

  // So exactly the numbers from 1 on lie in the blocks of the inodes.
  lemma InodeBlockLies(sb: Super, nr: nat)
    requires nr <= sb.ninodes
    ensures var first, n := 2 + sb.imapBlocks + sb.zmapBlocks, (sb.ninodes + BLOCK_INODES - 1) / BLOCK_INODES;
      first <= InodeBlock(sb, nr) < first + n <==> nr >= 1
  {
  }

  function FindIn(slots: seq<Slot>, list: seq<nat>, nr: nat): (r: Option<nat>)
    ensures r.Some? ==> r.value in list && r.value < |slots| && slots[r.value].Used? && slots[r.value].id.nr == nr
    ensures r.None? ==> forall i :: i in list && i < |slots| && slots[i].Used? ==> slots[i].id.nr != nr
  {
    if list == [] then None
    else if list[0] < |slots| && slots[list[0]].Used? && slots[list[0]].id.nr == nr then Some(list[0])
    else FindIn(slots, list[1..], nr)
  }

  function FirstUnused(slots: seq<Slot>, i: nat): (r: Option<nat>)
    ensures r.Some? ==> i <= r.value < |slots| && slots[r.value].Unused?
    ensures r.Some? ==> forall j :: i <= j < r.value ==> slots[j].Used?
    ensures r.None? ==> forall j :: i <= j < |slots| ==> slots[j].Used?
    decreases |slots| - i
  {
    if i >= |slots| then None else if slots[i].Unused? then Some(i) else FirstUnused(slots, i + 1)
  }

  // None: no such superblock, a number out of range, no free inode, or the cache would sleep.
  function Iget(t: Table, id: Id): Option<(Table, nat)>
    requires |t.cache.chains| == HASH_COUNT
  {
    if id.dev !in t.lists || id.dev !in t.supers then None
    else match FindIn(t.slots, t.lists[id.dev], id.nr)
      case Some(i) => Some((t.(slots := t.slots[i := t.slots[i].(count := t.slots[i].count + 1)]), i))
      case None =>
        if id.nr > t.supers[id.dev].ninodes then None
        else match FirstUnused(t.slots, 0)
          case None => None
          case Some(i) =>
            match Bread(t.cache, Key(id.dev, InodeBlock(t.supers[id.dev], id.nr)))
            case None => None
            case Some((c, b)) =>
              Some((Table(t.slots[i := Used(id, 1, b)], t.lists[id.dev := t.lists[id.dev] + [i]], t.supers, c), i))
  }

  // None: the assertion that the root directory's inode is never given back fails.
  function Iput(t: Table, i: nat): Option<Table>
    requires i < |t.slots| && t.slots[i].Used? && t.slots[i].count > 0
    requires t.slots[i].buf < |t.cache.bufs| && t.cache.bufs[t.slots[i].buf].count > 0
    requires t.slots[i].id.dev in t.lists
  {
    var s := t.slots[i];
    if s.count > 1 then Some(t.(slots := t.slots[i := s.(count := s.count - 1)]))
    else if i == 0 then None
    else Some(Table(t.slots[i := Unused], t.lists[s.id.dev := Without(t.lists[s.id.dev], i)], t.supers,
                    Brelse(t.cache, s.buf)))
  }

  // ---------- the invariant ----------

  ghost predicate Pins(t: Table, i: nat, b: nat) {
    i < |t.slots| && t.slots[i].Used? && t.slots[i].buf == b
  }

  // The in-memory inodes whose descriptor is in buffer b.
  ghost function PinsOf(t: Table, b: nat): set<nat> {
    set i | 0 <= i < |t.slots| && Pins(t, i, b)
  }

  ghost predicate Listed(t: Table, dev: u32, i: nat) {
    dev in t.lists && (i in t.lists[dev] <==> i < |t.slots| && t.slots[i].Used? && t.slots[i].id.dev == dev)
  }

  ghost predicate ListsOk(t: Table) {
    && t.lists.Keys == t.supers.Keys
    && (forall dev :: dev in t.lists ==> NoDup(t.lists[dev]))
    && (forall dev, i: nat :: dev in t.lists ==> Listed(t, dev, i))
    && (forall i :: 0 <= i < |t.slots| && t.slots[i].Used? ==> t.slots[i].id.dev in t.lists)
  }

  ghost predicate Unique(t: Table) {
    forall i, j :: 0 <= i < j < |t.slots| && t.slots[i].Used? && t.slots[j].Used? ==> t.slots[i].id != t.slots[j].id
  }

  ghost predicate Pinned(t: Table, i: nat) {
    i < |t.slots| && t.slots[i].Used? ==>
      var s := t.slots[i];
      && s.count >= 1 && s.buf < |t.cache.bufs|
      && s.id.dev in t.supers && s.id.nr <= t.supers[s.id.dev].ninodes
      && t.cache.bufs[s.buf].key == Key(s.id.dev, InodeBlock(t.supers[s.id.dev], s.id.nr))
  }

  ghost predicate Enough(t: Table, b: nat) {
    b < |t.cache.bufs| ==> |PinsOf(t, b)| <= t.cache.bufs[b].count
  }

  // One in-memory inode per (device, number); each is counted, and its descriptor's buffer has
  // at least one reference for every in-memory inode that lives in it.
  ghost predicate TableInv(t: Table) {
    && Inv(t.cache) && |t.slots| == INODE_NR && ListsOk(t) && Unique(t)
    && (forall i: nat :: Pinned(t, i)) && (forall b: nat :: Enough(t, b))
  }
}
