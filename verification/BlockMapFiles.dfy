/**
  Files on top of the block map: through any run, every file position keeps what was last written
  there, as if each had a block of its own from the start.
 */
module BlockMapFiles {
  import opened BlockMapModel
  import opened BlockMapProofs
  import opened BlockMapTheorems
  import opened Wrappers

  // What a file shows at a position; None where nothing is mapped.
  function View(fs: Fs, ino: nat, nr: nat): Option<Words>
    requires ino in fs.inodes && nr < TOTAL_BLOCKS
  {
    var b := Lookup(fs, ino, nr);
    if b == 0 then None else Some(Content(fs, b))
  }

  // A caller writes the block that bmap gave it.
  function WriteData(fs: Fs, b: nat, data: Words): Fs {
    fs.(blocks := fs.blocks[b := data])
  }

  // ---------- writing a file's block ----------

  // No index hangs in a file's block, so the tree does not change.
  lemma {:induction false} DataVal(fs: Fs, p: Path, data: Words, q: Path)
    requires Inv(fs) && PathOk(fs, p) && IsFile(p) && Val(fs, p) != 0 && PathOk(fs, q)
    ensures PathOk(WriteData(fs, Val(fs, p), data), q)
    ensures Val(WriteData(fs, Val(fs, p), data), q) == Val(fs, q)
    decreases Depth(q)
  {
    if !IsRoot(q) {
      DataVal(fs, p, data, Parent(q));
      assert Distinct(fs, p, Parent(q));
    }
  }

  lemma DataInv(fs: Fs, p: Path, data: Words)
    requires Inv(fs) && PathOk(fs, p) && IsFile(p) && Val(fs, p) != 0
    ensures Inv(WriteData(fs, Val(fs, p), data))
  {
    var n := WriteData(fs, Val(fs, p), data);
    forall q | PathOk(fs, q) ensures PathOk(n, q) && Val(n, q) == Val(fs, q) { DataVal(fs, p, data, q); }
    assert ValOk(fs, p);
    assert forall b: nat :: Marked(n, b) == Marked(fs, b);
    assert forall q: Path :: PathOk(n, q) == PathOk(fs, q);
    hide Val, Marked, PathOk;
    forall q ensures ValOk(n, q) { assert ValOk(fs, q); }
    forall q, r ensures Distinct(n, q, r) { assert Distinct(fs, q, r); }
    forall b: nat ensures FreeZero(n, b) { assert FreeZero(fs, b); }
  }

  lemma DataView(fs: Fs, ino: nat, nr: nat, data: Words, j: nat, m: nat)
    requires Inv(fs) && ino in fs.inodes && nr < TOTAL_BLOCKS && j in fs.inodes && m < TOTAL_BLOCKS
    requires Lookup(fs, ino, nr) != 0
    ensures View(WriteData(fs, Lookup(fs, ino, nr), data), j, m) ==
      if j == ino && m == nr then Some(data) else View(fs, j, m)
  {
    BmapIsWalk(fs, ino, nr, true);
    BmapIsWalk(fs, j, m, true);
    assert IsFile(PathOf(ino, nr));
    DataVal(fs, PathOf(ino, nr), data, PathOf(j, m));
    PathsDiffer(ino, nr, j, m);
    assert Distinct(fs, PathOf(ino, nr), PathOf(j, m));
    hide Inv, Val, PathOf, PathOk, Bmap;
  }

  // ---------- mapping a position ----------

  // A position that gets its block reads as zeros; all others show what they showed.
  lemma MapView(fs: Fs, ino: nat, nr: nat, j: nat, m: nat)
    requires Inv(fs) && ino in fs.inodes && nr < TOTAL_BLOCKS && j in fs.inodes && m < TOTAL_BLOCKS
    requires Bmap(fs, ino, nr, true).Some?
    ensures var (n, v) := Bmap(fs, ino, nr, true).value;
      j in n.inodes &&
      View(n, j, m) == if j == ino && m == nr && v != 0 && View(fs, j, m).None? then Some(ZeroWords())
                       else View(fs, j, m)
  {
    var (n, v) := Bmap(fs, ino, nr, true).value;
    BmapCreates(fs, ino, nr);
    BmapIsWalk(fs, ino, nr, true);
    BmapIsWalk(fs, j, m, true);
    WalkCreates(fs, Top(ino, nr), Rest(nr), TopLevel(nr));
    if Lookup(fs, ino, nr) != 0 { BmapLooks(fs, ino, nr, true); }
    assert FileKept(fs, n, PathOf(j, m));
    assert IsFile(PathOf(j, m));
    PathsDiffer(ino, nr, j, m);
    hide Inv, Val, Walk, Bmap, PathOf, Missing, FreeZones, Content;
  }

  // ---------- runs ----------

  datatype Op = Map(ino: nat, nr: nat) | Write(ino: nat, nr: nat, data: Words) | Read(ino: nat, nr: nat)

  datatype Out = Mapped(ok: bool) | Shown(data: Option<Words>)

  predicate CanDo(fs: Fs, op: Op) {
    op.ino in fs.inodes && op.nr < TOTAL_BLOCKS
  }

  // None: balloc runs into a map that does not exist.
  function Step(fs: Fs, op: Op): Option<(Fs, Out)>
    requires CanDo(fs, op)
  {
    match op
    case Map(ino, nr) =>
      (match Bmap(fs, ino, nr, true) case None => None case Some((n, v)) => Some((n, Mapped(v != 0))))
    case Write(ino, nr, data) =>
      (match Bmap(fs, ino, nr, true)
       case None => None
       case Some((n, v)) => if v == 0 then Some((n, Mapped(false))) else Some((WriteData(n, v, data), Mapped(true))))
    case Read(ino, nr) =>
      (match Bmap(fs, ino, nr, false)
       case None => None
       case Some((n, v)) => Some((n, Shown(if v == 0 then None else Some(Content(n, v))))))
  }

  // The plain thing: each file an array of blocks, of which some are there.
  type Files = map<(nat, nat), Words>

  function FilesStep(files: Files, op: Op, out: Out): Files {
    match op
    case Map(ino, nr) => if out.Mapped? && out.ok && (ino, nr) !in files then files[(ino, nr) := ZeroWords()] else files
    case Write(ino, nr, data) => if out.Mapped? && out.ok then files[(ino, nr) := data] else files
    case Read(_, _) => files
  }

  predicate FilesShow(files: Files, op: Op, out: Out) {
    op.Read? ==> out == Shown(if (op.ino, op.nr) in files then Some(files[(op.ino, op.nr)]) else None)
  }

  ghost predicate Shows(fs: Fs, files: Files, ino: nat, nr: nat) {
    ino in fs.inodes && nr < TOTAL_BLOCKS ==>
      View(fs, ino, nr) == if (ino, nr) in files then Some(files[(ino, nr)]) else None
  }

  ghost predicate Refines(fs: Fs, files: Files) {
    Inv(fs) && forall ino: nat, nr: nat :: Shows(fs, files, ino, nr)
  }

  lemma MapRefines(fs: Fs, files: Files, ino: nat, nr: nat)
    requires Refines(fs, files) && ino in fs.inodes && nr < TOTAL_BLOCKS && Bmap(fs, ino, nr, true).Some?
    ensures var (n, v) := Bmap(fs, ino, nr, true).value;
      n.inodes.Keys == fs.inodes.Keys && (v != 0 ==> ino in n.inodes && Lookup(n, ino, nr) == v) &&
      Refines(n, if v != 0 && (ino, nr) !in files then files[(ino, nr) := ZeroWords()] else files)
  {
    BmapCreates(fs, ino, nr);
    var (n, v) := Bmap(fs, ino, nr, true).value;
    var next := if v != 0 && (ino, nr) !in files then files[(ino, nr) := ZeroWords()] else files;
    hide Inv, Bmap, View, Lookup, Needed, FreeZones, ZeroWords;
    forall j: nat, m: nat ensures Shows(n, next, j, m) {
      assert Shows(fs, files, j, m) && Shows(fs, files, ino, nr);
      if j in fs.inodes && m < TOTAL_BLOCKS { MapView(fs, ino, nr, j, m); }
    }
  }

  lemma WriteRefines(fs: Fs, files: Files, ino: nat, nr: nat, data: Words)
    requires Refines(fs, files) && ino in fs.inodes && nr < TOTAL_BLOCKS && Lookup(fs, ino, nr) != 0
    ensures Refines(WriteData(fs, Lookup(fs, ino, nr), data), files[(ino, nr) := data])
  {
    var n := WriteData(fs, Lookup(fs, ino, nr), data);
    BmapIsWalk(fs, ino, nr, true);
    assert IsFile(PathOf(ino, nr));
    DataInv(fs, PathOf(ino, nr), data);
    var next := files[(ino, nr) := data];
    hide Inv, View, Lookup, Bmap;
    forall j: nat, m: nat ensures Shows(n, next, j, m) {
      assert Shows(fs, files, j, m);
      if j in fs.inodes && m < TOTAL_BLOCKS { DataView(fs, ino, nr, data, j, m); }
    }
  }

  lemma StepRefines(fs: Fs, files: Files, op: Op)
    requires Refines(fs, files) && CanDo(fs, op) && Step(fs, op).Some?
    ensures var (n, out) := Step(fs, op).value; FilesShow(files, op, out) && Refines(n, FilesStep(files, op, out))
  {
    hide Inv, Bmap, Lookup, Refines;
    match op
    case Map(ino, nr) => MapRefines(fs, files, ino, nr);
    case Write(ino, nr, data) =>
      MapRefines(fs, files, ino, nr);
      var (n, v) := Bmap(fs, ino, nr, true).value;
      if v != 0 {
        var mid := if (ino, nr) !in files then files[(ino, nr) := ZeroWords()] else files;
        WriteRefines(n, mid, ino, nr, data);
        assert mid[(ino, nr) := data] == files[(ino, nr) := data];
      }
    case Read(ino, nr) =>
      BmapLooks(fs, ino, nr, false);
      ShowsAt(fs, files, ino, nr);
  }

  lemma ShowsAt(fs: Fs, files: Files, ino: nat, nr: nat)
    requires Refines(fs, files) && ino in fs.inodes && nr < TOTAL_BLOCKS
    ensures View(fs, ino, nr) == if (ino, nr) in files then Some(files[(ino, nr)]) else None
  {
    assert Shows(fs, files, ino, nr);
  }

  // Along the run every read shows what the plain files have.
  ghost predicate ReadsBack(fs: Fs, files: Files, ops: seq<Op>)
    decreases |ops|
  {
    ops != [] && CanDo(fs, ops[0]) && Step(fs, ops[0]).Some? ==>
      var (n, out) := Step(fs, ops[0]).value;
      FilesShow(files, ops[0], out) && ReadsBack(n, FilesStep(files, ops[0], out), ops[1..])
  }

  lemma {:induction false} FilesAreIndependent(fs: Fs, files: Files, ops: seq<Op>)
    requires Refines(fs, files)
    ensures ReadsBack(fs, files, ops)
    decreases |ops|
  {
    if ops != [] && CanDo(fs, ops[0]) && Step(fs, ops[0]).Some? {
      hide Refines, Step, CanDo, FilesStep, FilesShow;
      StepRefines(fs, files, ops[0]);
      var (n, out) := Step(fs, ops[0]).value;
      FilesAreIndependent(n, FilesStep(files, ops[0], out), ops[1..]);
    }
  }

  // A file system just made: no zone in use but the first bit's, and empty inodes.
  function Formatted(nzones: u16, firstDataZone: u16, maps: nat, inodes: set<nat>): Fs
    requires 1 <= maps
  {
    var empty := seq(BLOCK_BITS, _ => false);
    Fs(nzones, firstDataZone, [seq(BLOCK_BITS, i => i == 0)] + seq(maps - 1, _ => empty),
       map ino | ino in inodes :: NoZones(), map[])
  }

  function NoZones(): Zones {
    seq(DIRECT_BLOCKS + 2, _ => 0)
  }

  lemma {:induction false} NothingMapped(fs: Fs, p: Path)
    requires PathOk(fs, p) && forall ino :: ino in fs.inodes ==> fs.inodes[ino] == NoZones()
    ensures Val(fs, p) == 0
    decreases Depth(p)
  {
    if !IsRoot(p) { NothingMapped(fs, Parent(p)); }
  }

  // The zones that balloc can hand out on a disk just made: the data zones that the maps cover.
  lemma FormattedFree(nzones: u16, firstDataZone: u16, maps: nat, inodes: set<nat>, b: nat)
    requires 1 <= maps <= ZMAP_MAX_BLOCKS && firstDataZone >= 1
    ensures b in FreeZones(Formatted(nzones, firstDataZone, maps, inodes)) <==>
            firstDataZone <= b < nzones && b - firstDataZone + 1 < 8192 * maps
  {
    var fs := Formatted(nzones, firstDataZone, maps, inodes);
    var n := b - (firstDataZone - 1);
    if n >= 0 && n / BLOCK_BITS < maps {
      assert fs.zmaps[n / BLOCK_BITS][n % BLOCK_BITS] <==> n == 0;
    }
  }

  // So every disk just made with fewer than eight maps halts the kernel in the end.
  lemma FullDiskHalts(nzones: u16, firstDataZone: u16, maps: nat, inodes: set<nat>)
    requires 1 <= maps < ZMAP_MAX_BLOCKS && firstDataZone >= 1
    ensures BallocTimes(Formatted(nzones, firstDataZone, maps, inodes), nzones + 1).None?
  {
    var fs := Formatted(nzones, firstDataZone, maps, inodes);
    BallocRunsOut(fs, nzones + 1);
    UpTo(FreeZones(fs), nzones);
  }

  lemma {:induction false} UpTo(s: set<nat>, n: nat)
    requires forall x :: x in s ==> x < n
    ensures |s| <= n
    decreases n
  {
    if n > 0 {
      UpTo(s - {n - 1}, n - 1);
      assert n - 1 in s ==> |s| == |s - {n - 1}| + 1;
      assert n - 1 !in s ==> s == s - {n - 1};
    }
  }

  lemma FormattedRefines(nzones: u16, firstDataZone: u16, maps: nat, inodes: set<nat>)
    requires 1 <= maps <= ZMAP_MAX_BLOCKS && firstDataZone >= 1
    ensures Refines(Formatted(nzones, firstDataZone, maps, inodes), map[])
  {
    var fs := Formatted(nzones, firstDataZone, maps, inodes);
    forall p | PathOk(fs, p) ensures Val(fs, p) == 0 { NothingMapped(fs, p); }
    hide Val;
    forall ino: nat, nr: nat ensures Shows(fs, map[], ino, nr) {}
  }
}
