/**
  The block map of src/fs/fsmap.c: zone bitmaps, and inodes that reach their blocks directly,
  through one index block, or through two.
 */
module BlockMapModel {
  import opened Bitmaps
  import opened Wrappers

  const ZMAP_MAX_BLOCKS := 8
  const BLOCK_BITS := 8192               // bits in a block
  const BLOCK_INDEXES := 512             // u16 indexes in a block
  const DIRECT_BLOCKS := 7
  const TOTAL_BLOCKS := DIRECT_BLOCKS + BLOCK_INDEXES + BLOCK_INDEXES * BLOCK_INDEXES

  type u16 = x: nat | x < 0x1_0000

  // A block read as indexes; data blocks are read so too.
  type Words = s: seq<u16> | |s| == BLOCK_INDEXES witness seq(BLOCK_INDEXES, _ => 0)

  // An inode's zone array: seven direct blocks, a single and a double index block.
  type Zones = s: seq<u16> | |s| == DIRECT_BLOCKS + 2 witness seq(DIRECT_BLOCKS + 2, _ => 0)

  // zmaps are the bitmaps that exist, zmap_blocks of them. A block that was never written reads
  // as zero.
  datatype Fs = Fs(nzones: u16, firstDataZone: u16, zmaps: seq<seq<bool>>, inodes: map<nat, Zones>,
                   blocks: map<nat, Words>)

  function ZeroWords(): Words {
    seq(BLOCK_INDEXES, _ => 0)
  }

  function Content(fs: Fs, b: nat): Words {
    if b in fs.blocks then fs.blocks[b] else ZeroWords()
  }

  // ---------- balloc ----------

  // The block that bit s of map i stands for.
  function ZoneOf(fs: Fs, i: nat, s: nat): int {
    (fs.firstDataZone - 1) + i * BLOCK_BITS + s
  }

  // balloc's loop from map i on. None: the map does not exist, and its null pointer is followed.
  function BallocFrom(fs: Fs, i: nat): Option<(Fs, nat)>
    decreases ZMAP_MAX_BLOCKS - i
  {
    if i >= ZMAP_MAX_BLOCKS then Some((fs, 0))
    else if i >= |fs.zmaps| then None
    else match FirstFit(fs.zmaps[i], 1, 0)
      case None => BallocFrom(fs, i + 1)
      case Some(s) =>
        var fs1 := fs.(zmaps := fs.zmaps[i := fs.zmaps[i][s := true]]);
        if 0 <= ZoneOf(fs, i, s) < fs.nzones then Some((fs1, ZoneOf(fs, i, s)))
        else BallocFrom(fs1, i + 1)
  }

  function Balloc(fs: Fs): Option<(Fs, nat)> {
    BallocFrom(fs, 0)
  }

  // ---------- bmap ----------

  // Where an index is stored: in an inode's zone array, or in an index block.
  datatype Slot = InInode(ino: nat, at: nat) | InBlock(block: nat, at: nat)

  predicate SlotOk(fs: Fs, s: Slot) {
    match s
    case InInode(ino, at) => ino in fs.inodes && at < DIRECT_BLOCKS + 2
    case InBlock(b, at) => at < BLOCK_INDEXES
  }

  function Get(fs: Fs, s: Slot): u16
    requires SlotOk(fs, s)
  {
    match s
    case InInode(ino, at) => fs.inodes[ino][at]
    case InBlock(b, at) => Content(fs, b)[at]
  }

  function Set(fs: Fs, s: Slot, v: u16): Fs
    requires SlotOk(fs, s)
  {
    match s
    case InInode(ino, at) => fs.(inodes := fs.inodes[ino := fs.inodes[ino][at := v]])
    case InBlock(b, at) => fs.(blocks := fs.blocks[b := Content(fs, b)[at := v]])
  }

  // An empty index is filled from balloc when `create` is set; the stored u16 is what remains of
  // the block number.
  function Fill(fs: Fs, s: Slot, create: bool): (r: Option<(Fs, u16)>)
    requires SlotOk(fs, s)
    ensures r.Some? ==> SlotOk(r.value.0, s)
  {
    if Get(fs, s) != 0 || !create then Some((fs, Get(fs, s)))
    else match Balloc(fs)
      case None => None
      case Some((fs1, b)) =>
        var v := b % 0x1_0000;
        if SlotOk(fs1, s) then Some((Set(fs1, s, v), v)) else None
  }

  // blocks[level].
  function Unit(level: nat): nat {
    if level == 0 then 1 else BLOCK_INDEXES
  }

  // bmap's loop, with `level` index blocks still to go through.
  function Walk(fs: Fs, s: Slot, nr: nat, level: nat, create: bool): Option<(Fs, u16)>
    requires SlotOk(fs, s) && level <= 2
    requires level > 0 ==> nr < BLOCK_INDEXES * Unit(level - 1)
    decreases level
  {
    if level == 0 then Fill(fs, s, create)
    else match Fill(fs, s, create)
      case None => None
      case Some((fs1, v)) =>
        // The break, and the second try behind the loop.
        if v == 0 then Fill(fs1, s, create)
        else Walk(fs1, InBlock(v, nr / Unit(level - 1)), nr % Unit(level - 1), level - 1, create)
  }

  function Bmap(fs: Fs, ino: nat, nr: nat, create: bool): Option<(Fs, u16)>
    requires ino in fs.inodes && nr < TOTAL_BLOCKS
  {
    if nr < DIRECT_BLOCKS then Walk(fs, InInode(ino, nr), nr, 0, create)
    else if nr - DIRECT_BLOCKS < BLOCK_INDEXES then
      Walk(fs, InInode(ino, DIRECT_BLOCKS), nr - DIRECT_BLOCKS, 1, create)
    else
      Walk(fs, InInode(ino, DIRECT_BLOCKS + 1), nr - DIRECT_BLOCKS - BLOCK_INDEXES, 2, create)
  }

  // ---------- the tree of blocks ----------

  // Every index of every inode, by where it hangs in the tree.
  datatype Path =
    | Direct(ino: nat, at: nat) | Single(ino: nat) | Double(ino: nat)
    | Under1(ino: nat, at: nat) | Middle(ino: nat, at: nat) | Under2(ino: nat, mid: nat, at: nat)

  predicate PathOk(fs: Fs, p: Path) {
    && p.ino in fs.inodes
    && match p
       case Direct(_, at) => at < DIRECT_BLOCKS
       case Single(_) => true
       case Double(_) => true
       case Under1(_, at) => at < BLOCK_INDEXES
       case Middle(_, at) => at < BLOCK_INDEXES
       case Under2(_, mid, at) => mid < BLOCK_INDEXES && at < BLOCK_INDEXES
  }

  predicate IsRoot(p: Path) {
    p.Direct? || p.Single? || p.Double?
  }

  function Parent(p: Path): Path
    requires !IsRoot(p)
  {
    match p
    case Under1(ino, _) => Single(ino)
    case Middle(ino, _) => Double(ino)
    case Under2(ino, mid, _) => Middle(ino, mid)
  }

  function Index(p: Path): nat {
    match p
    case Direct(_, at) => at
    case Single(_) => DIRECT_BLOCKS
    case Double(_) => DIRECT_BLOCKS + 1
    case Under1(_, at) => at
    case Middle(_, at) => at
    case Under2(_, _, at) => at
  }

  function Depth(p: Path): nat {
    if IsRoot(p) then 0 else if p.Under2? then 2 else 1
  }

  // The block that hangs there; 0 for none.
  function Val(fs: Fs, p: Path): u16
    requires PathOk(fs, p)
    decreases Depth(p)
  {
    if IsRoot(p) then fs.inodes[p.ino][Index(p)]
    else
      var up := Val(fs, Parent(p));
      if up == 0 then 0 else Content(fs, up)[Index(p)]
  }

  // The path of a file's block nr.
  function PathOf(ino: nat, nr: nat): Path
    requires nr < TOTAL_BLOCKS
  {
    if nr < DIRECT_BLOCKS then Direct(ino, nr)
    else if nr < DIRECT_BLOCKS + BLOCK_INDEXES then Under1(ino, nr - DIRECT_BLOCKS)
    else
      var n := nr - DIRECT_BLOCKS - BLOCK_INDEXES;
      Under2(ino, n / BLOCK_INDEXES, n % BLOCK_INDEXES)
  }

  predicate IsFile(p: Path) {
    p.Direct? || p.Under1? || p.Under2?
  }

  // ---------- the invariant ----------

  // Block b has a bit in the maps, and it is set.
  predicate Marked(fs: Fs, b: nat) {
    var n := b - (fs.firstDataZone - 1);
    n >= 0 && n / BLOCK_BITS < |fs.zmaps| && |fs.zmaps[n / BLOCK_BITS]| == BLOCK_BITS
    && fs.zmaps[n / BLOCK_BITS][n % BLOCK_BITS]
  }

  ghost predicate ValOk(fs: Fs, p: Path) {
    PathOk(fs, p) && Val(fs, p) != 0 ==> fs.firstDataZone <= Val(fs, p) < fs.nzones && Marked(fs, Val(fs, p))
  }

  ghost predicate Distinct(fs: Fs, p: Path, q: Path) {
    PathOk(fs, p) && PathOk(fs, q) && p != q && Val(fs, p) != 0 ==> Val(fs, p) != Val(fs, q)
  }

  ghost predicate FreeZero(fs: Fs, b: nat) {
    !Marked(fs, b) ==> Content(fs, b) == ZeroWords()
  }

  ghost predicate MapsOk(fs: Fs) {
    && fs.firstDataZone >= 1 && |fs.zmaps| <= ZMAP_MAX_BLOCKS
    && (forall i :: 0 <= i < |fs.zmaps| ==> |fs.zmaps[i]| == BLOCK_BITS)
    && (|fs.zmaps| > 0 ==> fs.zmaps[0][0])
  }

  // Whatever hangs in the tree is a marked block of the data area, hangs there once, and blocks
  // that are not marked read as zero. The first bit of the first map stands for no data block
  // and is set, as the file system's format has it.
  ghost predicate Inv(fs: Fs) {
    && MapsOk(fs) && (forall p :: ValOk(fs, p)) && (forall p, q :: Distinct(fs, p, q))
    && (forall b: nat :: FreeZero(fs, b))
  }
}
