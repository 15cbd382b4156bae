/**
  bmap as a partial function from file positions to blocks.
 */
module BlockMapTheorems {
  import opened Bitmaps
  import opened BlockMapModel
  import opened BlockMapProofs
  import opened BlockMapTree
  import opened Wrappers

  // ---------- the walk ----------

  // An index path with that many levels of index blocks from it on; 0 for a file's block.
  predicate Levels(p: Path, level: nat) {
    match p
    case Double(_) => level == 2
    case Single(_) => level == 1
    case Middle(_, _) => level == 1
    case _ => level == 0
  }

  function Child(p: Path, i: nat): Path {
    match p
    case Single(ino) => Under1(ino, i)
    case Double(ino) => Middle(ino, i)
    case Middle(ino, mid) => Under2(ino, mid, i)
    case _ => p
  }

  predicate InRange(nr: nat, level: nat) {
    level <= 2 && (level > 0 ==> nr < BLOCK_INDEXES * Unit(level - 1))
  }

  // The file's block that the walk is on its way to.
  function Goal(p: Path, nr: nat, level: nat): Path
    requires InRange(nr, level)
    decreases level
  {
    if level == 0 then p else Goal(Child(p, nr / Unit(level - 1)), nr % Unit(level - 1), level - 1)
  }

  lemma {:induction false} GoalOk(fs: Fs, p: Path, nr: nat, level: nat)
    requires PathOk(fs, p) && Levels(p, level) && InRange(nr, level)
    ensures PathOk(fs, Goal(p, nr, level)) && IsFile(Goal(p, nr, level)) && Goal(p, nr, level).ino == p.ino
    decreases level
  {
    if level > 0 { GoalOk(fs, Child(p, nr / Unit(level - 1)), nr % Unit(level - 1), level - 1); }
  }

  // Below an empty index everything is empty.
  lemma {:induction false} EmptyBelow(fs: Fs, p: Path, nr: nat, level: nat)
    requires PathOk(fs, p) && Levels(p, level) && InRange(nr, level) && Val(fs, p) == 0
    ensures PathOk(fs, Goal(p, nr, level)) && Val(fs, Goal(p, nr, level)) == 0
    decreases level
  {
    if level > 0 { EmptyBelow(fs, Child(p, nr / Unit(level - 1)), nr % Unit(level - 1), level - 1); }
  }

  // Without `create` the walk finds what hangs at the goal and changes nothing; so it does with
  // `create` if something hangs there.
  lemma {:induction false} WalkLooks(fs: Fs, p: Path, nr: nat, level: nat, create: bool)
    requires PathOk(fs, p) && Reached(fs, p) && Levels(p, level) && InRange(nr, level)
    requires PathOk(fs, Goal(p, nr, level)) && (create ==> Val(fs, Goal(p, nr, level)) != 0)
    ensures Walk(fs, SlotOf(fs, p), nr, level, create) == Some((fs, Val(fs, Goal(p, nr, level))))
    decreases level
  {
    if level > 0 {
      if Val(fs, p) == 0 {
        EmptyBelow(fs, p, nr, level);
      } else {
        WalkLooks(fs, Child(p, nr / Unit(level - 1)), nr % Unit(level - 1), level - 1, create);
      }
    }
  }

  // How many blocks are missing on the way to the goal.
  function Missing(fs: Fs, p: Path, nr: nat, level: nat): nat
    requires PathOk(fs, p) && Levels(p, level) && InRange(nr, level)
    decreases level
  {
    if Val(fs, p) == 0 then level + 1
    else if level == 0 then 0
    else Missing(fs, Child(p, nr / Unit(level - 1)), nr % Unit(level - 1), level - 1)
  }

  // The contents of a file's block stay.
  ghost predicate FileKept(fs: Fs, n: Fs, q: Path) {
    PathOk(fs, q) && IsFile(q) && Val(fs, q) != 0 ==> Content(n, Val(fs, q)) == Content(fs, Val(fs, q))
  }

  // What a creating walk to the goal may change: that block, and index blocks on the way.
  ghost predicate OneFileChange(fs: Fs, n: Fs, goal: Path, v: nat) {
    && (forall q :: FileKept(fs, n, q))
    && (v != 0 && PathOk(fs, goal) && Val(fs, goal) == 0 ==> Content(n, v) == ZeroWords())
    && n.inodes.Keys == fs.inodes.Keys && n.nzones == fs.nzones && |n.zmaps| == |fs.zmaps|
    && forall q :: PathOk(fs, q) && IsFile(q) ==> PathOk(n, q) && Val(n, q) == if q == goal then v else Val(fs, q)
  }

  // The outcome of a creating walk that finds `need` blocks missing: it reaches a block exactly
  // when that many zones are free, and otherwise gives 0 or fails on a missing map.
  ghost predicate Created(fs: Fs, goal: Path, need: nat, r: Option<(Fs, u16)>) {
    && (r.None? <==> need > |FreeZones(fs)| && |fs.zmaps| < ZMAP_MAX_BLOCKS)
    && (r.Some? ==> Inv(r.value.0) && OneFileChange(fs, r.value.0, goal, r.value.1))
    && (r.Some? ==> (r.value.1 != 0 <==> need <= |FreeZones(fs)|))
  }

  // One level of the walk, through the index block that hangs at p in fs.
  lemma WalkDown(fs: Fs, p: Path, nr: nat, level: nat)
    requires PathOk(fs, p) && Levels(p, level) && InRange(nr, level) && level > 0
    ensures var c, rest := Child(p, nr / Unit(level - 1)), nr % Unit(level - 1);
      && PathOk(fs, c) && Levels(c, level - 1) && InRange(rest, level - 1) && Parent(c) == p && !Levels(p, 0)
      && Goal(p, nr, level) == Goal(c, rest, level - 1) && nr / Unit(level - 1) < BLOCK_INDEXES
      && (Val(fs, p) != 0 ==> Reached(fs, c) && Missing(fs, p, nr, level) == Missing(fs, c, rest, level - 1))
      && (Val(fs, p) != 0 ==> SlotOf(fs, c) == InBlock(Val(fs, p), nr / Unit(level - 1)))
  {
  }

  lemma {:induction false} WalkCreates(fs: Fs, p: Path, nr: nat, level: nat)
    requires Inv(fs) && PathOk(fs, p) && Reached(fs, p) && Levels(p, level) && InRange(nr, level)
    ensures Created(fs, Goal(p, nr, level), Missing(fs, p, nr, level), Walk(fs, SlotOf(fs, p), nr, level, true))
    decreases level
  {
    if level > 0 { WalkDown(fs, p, nr, level); }
    if Val(fs, p) != 0 {
      if level > 0 {
        hide Inv, Balloc, Created, FreeZones, Goal, Missing, Val, PathOk, Levels, InRange, Child, Unit, Reached, SlotOf;
        WalkCreates(fs, Child(p, nr / Unit(level - 1)), nr % Unit(level - 1), level - 1);
      } else {
        hide Inv, Balloc, FreeZones;
        assert OneFileChange(fs, fs, p, Val(fs, p));
      }
    } else {
      FillStep(fs, p);
      var r := Fill(fs, SlotOf(fs, p), true);
      hide Inv, Balloc, FreeZones, Fill, OneChange, OneFileChange, Created;
      if r.None? || level == 0 || r.value.1 == 0 {
        WalkEnds(fs, p, nr, level, r);
      } else {
        var c, rest := Child(p, nr / Unit(level - 1)), nr % Unit(level - 1);
        FilledChild(fs, r.value.0, p, r.value.1, nr / Unit(level - 1));
        GoalOk(fs, p, nr, level);
        hide Val, Goal, PathOk, Levels, InRange, Child, Reached, SlotOf;
        WalkCreates(r.value.0, c, rest, level - 1);
        CreatedBelow(fs, p, r.value.0, r.value.1, Goal(p, nr, level), level,
                     Walk(r.value.0, SlotOf(r.value.0, c), rest, level - 1, true));
      }
    }
  }

  // The walk ends at this index: it is the goal, or it could not be filled.
  lemma WalkEnds(fs: Fs, p: Path, nr: nat, level: nat, r: Option<(Fs, u16)>)
    requires Inv(fs) && PathOk(fs, p) && Reached(fs, p) && Levels(p, level) && InRange(nr, level) && Val(fs, p) == 0
    requires r == Fill(fs, SlotOf(fs, p), true) && (r.None? || level == 0 || r.value.1 == 0)
    ensures Created(fs, Goal(p, nr, level), Missing(fs, p, nr, level), Walk(fs, SlotOf(fs, p), nr, level, true))
  {
    FillStep(fs, p);
    Singles(fs, 0);
    hide Inv, Balloc, FreeZones, Fill, OneChange, OneFileChange, Val;
    if r.Some? {
      if level == 0 {
        CreatedGoal(fs, p, r.value.0, r.value.1);
      } else {
        GivesUp(fs, p, nr, level, r.value.0);
      }
    }
  }

  lemma CreatedGoal(fs: Fs, p: Path, n: Fs, v: u16)
    requires Inv(fs) && PathOk(fs, p) && Inv(n) && OneChange(fs, n, p, v)
    requires v == 0 <==> FreeZones(fs) == {} && |fs.zmaps| == ZMAP_MAX_BLOCKS
    requires v != 0 ==> v as nat in FreeZones(fs)
    ensures Created(fs, p, 1, Some((n, v)))
  {
    FilledGoal(fs, n, p, v);
    Singles(fs, 0);
    hide Inv, FreeZones, OneFileChange;
  }

  lemma CreatedBelow(fs: Fs, p: Path, n: Fs, v: u16, goal: Path, need: nat, r: Option<(Fs, u16)>)
    requires Inv(fs) && PathOk(fs, p) && IsFile(goal)
    requires OneChange(fs, n, p, v) && !IsFile(p) && v as nat in FreeZones(fs)
    requires FreeZones(n) == FreeZones(fs) - {v as nat} && Created(n, goal, need, r)
    ensures Created(fs, goal, need + 1, r)
  {
    Singles(fs, v);
    if r.Some? { Compose(fs, n, r.value.0, p, v, goal, r.value.1); }
    hide Inv, FreeZones, OneFileChange;
  }

  // One zone more or less.
  lemma Singles(fs: Fs, v: nat)
    ensures v in FreeZones(fs) ==> |FreeZones(fs) - {v}| == |FreeZones(fs)| - 1
    ensures FreeZones(fs) == {} <==> |FreeZones(fs)| == 0
  {
  }

  // Filling an index leaves every file's block alone: none of them is an index block.
  lemma FilesKept(fs: Fs, n: Fs, p: Path, v: nat)
    requires Inv(fs) && PathOk(fs, p) && OneChange(fs, n, p, v)
    ensures forall q :: FileKept(fs, n, q)
  {
    forall q ensures FileKept(fs, n, q) {
      if PathOk(fs, q) && IsFile(q) && Val(fs, q) != 0 {
        assert ContentKept(fs, n, p, Val(fs, q));
        if !IsRoot(p) { assert Distinct(fs, q, Parent(p)); }
      }
    }
  }

  lemma FilledGoal(fs: Fs, n: Fs, p: Path, v: u16)
    requires Inv(fs) && PathOk(fs, p) && OneChange(fs, n, p, v)
    ensures OneFileChange(fs, n, p, v)
  {
    FilesKept(fs, n, p, v);
    hide Inv, Val;
  }

  // The index block is new, so what it leads to is still missing.
  lemma FilledChild(fs: Fs, n: Fs, p: Path, v: u16, i: nat)
    requires PathOk(fs, p) && OneChange(fs, n, p, v) && v != 0 && Val(fs, p) == 0
    requires !Levels(p, 0) && i < BLOCK_INDEXES
    ensures PathOk(n, Child(p, i)) && Reached(n, Child(p, i)) && Val(n, Child(p, i)) == 0
    ensures SlotOf(n, Child(p, i)) == InBlock(v, i)
  {
    var c := Child(p, i);
    assert Parent(c) == p && PathOk(fs, c);
    assert Val(fs, c) == 0;
    hide Val;
  }

  lemma Compose(fs: Fs, n: Fs, m: Fs, p: Path, v: nat, goal: Path, w: nat)
    requires Inv(fs) && PathOk(fs, p) && IsFile(goal)
    requires OneChange(fs, n, p, v) && !IsFile(p) && OneFileChange(n, m, goal, w)
    ensures OneFileChange(fs, m, goal, w)
  {
    FilesKept(fs, n, p, v);
    hide Inv, Val, PathOk, Content, ContentKept;
    forall q ensures FileKept(fs, m, q) { assert FileKept(fs, n, q) && FileKept(n, m, q); }
  }

  // What balloc does to the maps depends on the maps.
  lemma {:induction false} SameBalloc(fs: Fs, n: Fs, i: nat)
    requires n.zmaps == fs.zmaps && n.nzones == fs.nzones && n.firstDataZone == fs.firstDataZone
    ensures BallocFrom(n, i).Some? <==> BallocFrom(fs, i).Some?
    ensures BallocFrom(fs, i).Some? ==> BallocFrom(n, i).value.0.zmaps == BallocFrom(fs, i).value.0.zmaps
    decreases ZMAP_MAX_BLOCKS - i
  {
    hide FirstFit;
    if i < ZMAP_MAX_BLOCKS && i < |fs.zmaps| {
      match FirstFit(fs.zmaps[i], 1, 0)
      case None => SameBalloc(fs, n, i + 1);
      case Some(s) =>
        var zmaps := fs.zmaps[i := fs.zmaps[i][s := true]];
        SameBalloc(fs.(zmaps := zmaps), n.(zmaps := zmaps), i + 1);
    }
  }

  // A walk that gives up has called balloc twice.
  lemma TriesTwice(fs: Fs, p: Path, nr: nat, level: nat, n: Fs)
    requires Inv(fs) && PathOk(fs, p) && Reached(fs, p) && Val(fs, p) == 0 && Levels(p, level) && InRange(nr, level)
    requires level > 0 && Fill(fs, SlotOf(fs, p), true) == Some((n, 0)) && Inv(n) && OneChange(fs, n, p, 0)
    requires Walk(fs, SlotOf(fs, p), nr, level, true).Some? && FreeZones(n) == {} && |fs.zmaps| == ZMAP_MAX_BLOCKS
    ensures Balloc(fs).Some? && Balloc(Balloc(fs).value.0).Some?
    ensures Walk(fs, SlotOf(fs, p), nr, level, true).value.0.zmaps == Balloc(Balloc(fs).value.0).value.0.zmaps
  {
    SameSlot(fs, n, p);
    BallocStep(fs);
    var fs1 := Balloc(fs).value.0;
    hide Inv, Balloc, FreeZones, Val, PathOk;
    assert n.zmaps == fs1.zmaps && n.nzones == fs1.nzones && n.firstDataZone == fs1.firstDataZone;
    FillStep(n, p);
    SecondTry(fs1, n);
  }

  lemma SecondTry(fs: Fs, n: Fs)
    requires n.zmaps == fs.zmaps && n.nzones == fs.nzones && n.firstDataZone == fs.firstDataZone
    ensures Balloc(n).Some? <==> Balloc(fs).Some?
    ensures Balloc(fs).Some? ==> Balloc(n).value.0.zmaps == Balloc(fs).value.0.zmaps
  {
    SameBalloc(fs, n, 0);
  }

  // balloc is tried once more, in vain.
  lemma GivesUp(fs: Fs, p: Path, nr: nat, level: nat, n: Fs)
    requires Inv(fs) && PathOk(fs, p) && Reached(fs, p) && Val(fs, p) == 0 && Levels(p, level) && InRange(nr, level)
    requires level > 0 && Fill(fs, SlotOf(fs, p), true) == Some((n, 0)) && Inv(n) && OneChange(fs, n, p, 0)
    requires FreeZones(n) == {} && |fs.zmaps| == ZMAP_MAX_BLOCKS
    ensures var r := Walk(fs, SlotOf(fs, p), nr, level, true);
      r.Some? && r.value.1 == 0 && Inv(r.value.0) && OneFileChange(fs, r.value.0, Goal(p, nr, level), 0)
  {
    EmptyBelow(fs, p, nr, level);
    GoalOk(fs, p, nr, level);
    SameSlot(fs, n, p);
    FillStep(n, p);
    hide Inv, Balloc, FreeZones, Val, Fill, Goal;
    var (m, w) := Fill(n, SlotOf(n, p), true).value;
    FilesKept(fs, n, p, 0);
    FilesKept(n, m, p, 0);
    hide Content, ContentKept;
    forall q ensures FileKept(fs, m, q) {
      assert FileKept(fs, n, q) && FileKept(n, m, q) && (PathOk(fs, q) ==> PathOk(n, q));
    }
    forall q | PathOk(fs, q) && IsFile(q) ensures PathOk(m, q) && Val(m, q) == Val(fs, q) {
      assert PathOk(n, q);
    }
  }

  lemma SameSlot(fs: Fs, n: Fs, p: Path)
    requires PathOk(fs, p) && Reached(fs, p) && OneChange(fs, n, p, 0) && Val(fs, p) == 0
    ensures PathOk(n, p) && Reached(n, p) && Val(n, p) == 0 && SlotOf(n, p) == SlotOf(fs, p)
  {
    if !IsRoot(p) { assert PathOk(fs, Parent(p)); }
  }

  // ---------- bmap ----------

  function Top(ino: nat, nr: nat): Path
    requires nr < TOTAL_BLOCKS
  {
    if nr < DIRECT_BLOCKS then Direct(ino, nr)
    else if nr < DIRECT_BLOCKS + BLOCK_INDEXES then Single(ino)
    else Double(ino)
  }

  function TopLevel(nr: nat): nat {
    if nr < DIRECT_BLOCKS then 0 else if nr < DIRECT_BLOCKS + BLOCK_INDEXES then 1 else 2
  }

  function Rest(nr: nat): nat {
    if nr < DIRECT_BLOCKS then nr
    else if nr < DIRECT_BLOCKS + BLOCK_INDEXES then nr - DIRECT_BLOCKS
    else nr - DIRECT_BLOCKS - BLOCK_INDEXES
  }

  lemma BmapIsWalk(fs: Fs, ino: nat, nr: nat, create: bool)
    requires ino in fs.inodes && nr < TOTAL_BLOCKS
    ensures PathOk(fs, Top(ino, nr)) && Reached(fs, Top(ino, nr)) && Levels(Top(ino, nr), TopLevel(nr))
    ensures InRange(Rest(nr), TopLevel(nr)) && PathOk(fs, PathOf(ino, nr))
    ensures Goal(Top(ino, nr), Rest(nr), TopLevel(nr)) == PathOf(ino, nr)
    ensures Bmap(fs, ino, nr, create) == Walk(fs, SlotOf(fs, Top(ino, nr)), Rest(nr), TopLevel(nr), create)
  {
    hide Walk, Val;
    var p, n := Top(ino, nr), Rest(nr);
    if TopLevel(nr) == 1 {
      assert Goal(p, n, 1) == Goal(Child(p, n / Unit(0)), n % Unit(0), 0);
    } else if TopLevel(nr) == 2 {
      var m := n % Unit(1);
      assert Goal(p, n, 2) == Goal(Child(p, n / Unit(1)), m, 1);
      assert Goal(Middle(ino, n / Unit(1)), m, 1) == Goal(Child(Middle(ino, n / Unit(1)), m / Unit(0)), m % Unit(0), 0);
    }
  }

  // The block that file ino has at position nr; 0 for none.
  function Lookup(fs: Fs, ino: nat, nr: nat): u16
    requires ino in fs.inodes && nr < TOTAL_BLOCKS
  {
    if PathOk(fs, PathOf(ino, nr)) then Val(fs, PathOf(ino, nr)) else 0
  }

  // Entry i of an index block; an index block that is not there has none.
  function EntryAt(fs: Fs, b: u16, i: nat): u16
    requires i < 512
  {
    if b == 0 then 0 else Content(fs, b)[i]
  }

  // Where the disk has it: seven blocks in the inode itself, 512 in the block that its eighth zone
  // names, and 512 times 512 in the blocks named by the one that its ninth zone names.
  lemma Layout(fs: Fs, ino: nat, nr: nat)
    requires ino in fs.inodes && nr < TOTAL_BLOCKS
    ensures TOTAL_BLOCKS == 7 + 512 + 512 * 512
    ensures Lookup(fs, ino, nr) ==
      if nr < 7 then fs.inodes[ino][nr]
      else if nr < 519 then EntryAt(fs, fs.inodes[ino][7], nr - 7)
      else EntryAt(fs, EntryAt(fs, fs.inodes[ino][8], (nr - 519) / 512), (nr - 519) % 512)
  {
    var p := PathOf(ino, nr);
    if p.Under1? {
      assert Val(fs, Single(ino)) == fs.inodes[ino][7];
    } else if p.Under2? {
      assert Val(fs, Double(ino)) == fs.inodes[ino][8];
      assert Val(fs, Middle(ino, p.mid)) == EntryAt(fs, fs.inodes[ino][8], p.mid);
    }
  }

  // Different positions have different places in the tree.
  lemma PathsDiffer(ino: nat, nr: nat, ino2: nat, nr2: nat)
    requires nr < TOTAL_BLOCKS && nr2 < TOTAL_BLOCKS
    ensures PathOf(ino, nr) == PathOf(ino2, nr2) <==> ino == ino2 && nr == nr2
  {
    var n, m := nr - DIRECT_BLOCKS - BLOCK_INDEXES, nr2 - DIRECT_BLOCKS - BLOCK_INDEXES;
    assert n == n / BLOCK_INDEXES * BLOCK_INDEXES + n % BLOCK_INDEXES;
    assert m == m / BLOCK_INDEXES * BLOCK_INDEXES + m % BLOCK_INDEXES;
  }

  // No block belongs to two positions, of one file or of two.
  lemma Injective(fs: Fs, ino: nat, nr: nat, ino2: nat, nr2: nat)
    requires Inv(fs) && ino in fs.inodes && ino2 in fs.inodes && nr < TOTAL_BLOCKS && nr2 < TOTAL_BLOCKS
    requires Lookup(fs, ino, nr) != 0 && Lookup(fs, ino, nr) == Lookup(fs, ino2, nr2)
    ensures ino == ino2 && nr == nr2
  {
    PathsDiffer(ino, nr, ino2, nr2);
    assert Distinct(fs, PathOf(ino, nr), PathOf(ino2, nr2));
  }

  // Looking a position up changes nothing, and finds the block that is mapped there.
  lemma BmapLooks(fs: Fs, ino: nat, nr: nat, create: bool)
    requires ino in fs.inodes && nr < TOTAL_BLOCKS && (create ==> Lookup(fs, ino, nr) != 0)
    ensures Bmap(fs, ino, nr, create) == Some((fs, Lookup(fs, ino, nr)))
  {
    BmapIsWalk(fs, ino, nr, create);
    hide Val, Walk, Bmap;
    WalkLooks(fs, Top(ino, nr), Rest(nr), TopLevel(nr), create);
  }

  // The blocks a creating bmap has to find.
  function Needed(fs: Fs, ino: nat, nr: nat): nat
    requires ino in fs.inodes && nr < TOTAL_BLOCKS
  {
    BmapIsWalk(fs, ino, nr, true);
    Missing(fs, Top(ino, nr), Rest(nr), TopLevel(nr))
  }

  // bmap with `create` maps the position, and no other, to a block; it fails exactly when fewer
  // zones are free than it needs, and a second call finds what the first one mapped.
  lemma BmapCreates(fs: Fs, ino: nat, nr: nat)
    requires Inv(fs) && ino in fs.inodes && nr < TOTAL_BLOCKS
    ensures var r := Bmap(fs, ino, nr, true); var enough := Needed(fs, ino, nr) <= |FreeZones(fs)|;
      && (r.None? <==> !enough && |fs.zmaps| < ZMAP_MAX_BLOCKS)
      && (r.Some? ==> Inv(r.value.0) && r.value.0.inodes.Keys == fs.inodes.Keys && (r.value.1 != 0 <==> enough))
      && (r.Some? ==> forall j, m: nat :: j in fs.inodes && m < TOTAL_BLOCKS ==>
            Lookup(r.value.0, j, m) == if j == ino && m == nr then r.value.1 else Lookup(fs, j, m))
      && (r.Some? && r.value.1 != 0 ==> forall create :: Bmap(r.value.0, ino, nr, create) == r)
  {
    BmapIsWalk(fs, ino, nr, true);
    WalkCreates(fs, Top(ino, nr), Rest(nr), TopLevel(nr));
    var r := Bmap(fs, ino, nr, true);
    hide Inv, Val, Walk, Bmap, Missing, FreeZones;
    if r.Some? {
      var (n, v) := r.value;
      forall j, m: nat | j in fs.inodes && m < TOTAL_BLOCKS
        ensures Lookup(n, j, m) == if j == ino && m == nr then v else Lookup(fs, j, m)
      {
        OtherLookup(fs, n, ino, nr, v, j, m);
      }
      if v != 0 {
        forall create ensures Bmap(n, ino, nr, create) == r { BmapLooks(n, ino, nr, create); }
      }
    }
  }

  lemma OtherLookup(fs: Fs, n: Fs, ino: nat, nr: nat, v: u16, j: nat, m: nat)
    requires ino in fs.inodes && nr < TOTAL_BLOCKS && j in fs.inodes && m < TOTAL_BLOCKS
    requires OneFileChange(fs, n, PathOf(ino, nr), v)
    ensures j in n.inodes && Lookup(n, j, m) == if j == ino && m == nr then v else Lookup(fs, j, m)
  {
    BmapIsWalk(fs, j, m, true);
    PathsDiffer(ino, nr, j, m);
    hide Val;
    assert IsFile(PathOf(j, m));
  }
}
