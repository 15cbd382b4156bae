/**
  Filling one index of the tree of blocks changes one place in it.
 */
module BlockMapTree {
  import opened BlockMapModel
  import opened BlockMapProofs
  import opened Wrappers

  // Paths are told apart by parent and index.
  lemma SamePath(p: Path, q: Path)
    requires !IsRoot(p) && !IsRoot(q) && Parent(p) == Parent(q) && Index(p) == Index(q)
    ensures p == q
  {
  }

  // The tree hangs on the inodes and the contents of blocks alone.
  lemma {:induction false} ValFrame(fs: Fs, n: Fs, p: Path)
    requires PathOk(fs, p) && n.inodes == fs.inodes && forall b :: Content(n, b) == Content(fs, b)
    ensures PathOk(n, p) && Val(n, p) == Val(fs, p)
    decreases Depth(p)
  {
    if !IsRoot(p) { ValFrame(fs, n, Parent(p)); }
  }

  lemma GrownInv(fs: Fs, n: Fs)
    requires Inv(fs) && Grown(fs, n)
    ensures Inv(n) && forall p :: PathOk(fs, p) ==> PathOk(n, p) && Val(n, p) == Val(fs, p)
  {
    GrownMarks(fs, n);
    hide Val, Marked, MapsOk, FreeZones, Grown;
    assert n.inodes == fs.inodes && n.blocks == fs.blocks by { GrownRest(fs, n); }
    forall p | PathOk(fs, p) ensures PathOk(n, p) && Val(n, p) == Val(fs, p) { ValFrame(fs, n, p); }
    GrownRest(fs, n);
    forall p ensures ValOk(n, p) { assert ValOk(fs, p); }
    forall p, q ensures Distinct(n, p, q) { assert Distinct(fs, p, q); }
    forall b: nat ensures FreeZero(n, b) { assert FreeZero(fs, b); }
  }

  lemma GrownRest(fs: Fs, n: Fs)
    requires Grown(fs, n)
    ensures n.inodes == fs.inodes && n.blocks == fs.blocks
    ensures n.nzones == fs.nzones && n.firstDataZone == fs.firstDataZone
  {
  }

  // ---------- the place where an index is stored ----------

  predicate Reached(fs: Fs, p: Path)
    requires PathOk(fs, p)
  {
    IsRoot(p) || Val(fs, Parent(p)) != 0
  }

  function SlotOf(fs: Fs, p: Path): (s: Slot)
    requires PathOk(fs, p) && Reached(fs, p)
    ensures SlotOk(fs, s) && Get(fs, s) == Val(fs, p)
  {
    if IsRoot(p) then InInode(p.ino, Index(p)) else InBlock(Val(fs, Parent(p)), Index(p))
  }

  // A marked block that hangs nowhere and reads as zero, such as balloc has just given out.
  ghost predicate Fresh(fs: Fs, b: nat) {
    && fs.firstDataZone <= b < fs.nzones && Marked(fs, b) && Content(fs, b) == ZeroWords()
    && forall p :: PathOk(fs, p) ==> Val(fs, p) != b
  }

  // The one below an index that was empty is empty afterwards too: what is put there is blank.
  lemma SetBelow(fs: Fs, p: Path, b: u16, q: Path)
    requires Inv(fs) && PathOk(fs, p) && Reached(fs, p) && Val(fs, p) == 0 && (b != 0 ==> Fresh(fs, b))
    requires PathOk(fs, q) && !IsRoot(q) && Parent(q) == p
    ensures b != 0 ==> Content(Set(fs, SlotOf(fs, p), b), b)[Index(q)] == 0
    ensures Val(fs, q) == 0
  {
    if b != 0 && !IsRoot(p) { assert ValOk(fs, Parent(p)) && Val(fs, Parent(p)) != b; }
    SetMarks(fs, SlotOf(fs, p), b);
    hide Inv, Marked;
  }

  // What hangs below another index keeps its place in the block there.
  lemma SetBeside(fs: Fs, p: Path, b: u16, q: Path)
    requires Inv(fs) && PathOk(fs, p) && Reached(fs, p) && Val(fs, p) == 0
    requires PathOk(fs, q) && !IsRoot(q) && Parent(q) != p && Val(fs, Parent(q)) != 0
    ensures Content(Set(fs, SlotOf(fs, p), b), Val(fs, Parent(q)))[Index(q)]
         == if q == p then b else Content(fs, Val(fs, Parent(q)))[Index(q)]
  {
    SetMarks(fs, SlotOf(fs, p), b);
    if !IsRoot(p) && Val(fs, Parent(q)) == Val(fs, Parent(p)) {
      assert Distinct(fs, Parent(q), Parent(p));
      if Index(q) == Index(p) { SamePath(p, q); }
    }
    hide Inv, Marked;
  }

  lemma {:induction false} SetVal(fs: Fs, p: Path, b: u16, q: Path)
    requires Inv(fs) && PathOk(fs, p) && Reached(fs, p) && Val(fs, p) == 0 && PathOk(fs, q)
    requires b != 0 ==> Fresh(fs, b)
    ensures PathOk(Set(fs, SlotOf(fs, p), b), q)
    ensures Val(Set(fs, SlotOf(fs, p), b), q) == if q == p then b else Val(fs, q)
    decreases Depth(q)
  {
    SetMarks(fs, SlotOf(fs, p), b);
    if !IsRoot(q) {
      hide Inv, Fresh, Content, Set, SlotOf;
      SetVal(fs, p, b, Parent(q));
      if Parent(q) == p {
        SetBelow(fs, p, b, q);
      } else if Val(fs, Parent(q)) != 0 {
        SetBeside(fs, p, b, q);
      }
    } else {
      hide Inv, Fresh;
    }
  }

  lemma SetMarks(fs: Fs, s: Slot, v: u16)
    requires SlotOk(fs, s)
    ensures forall b: nat :: Marked(Set(fs, s, v), b) == Marked(fs, b)
    ensures Set(fs, s, v).zmaps == fs.zmaps && Set(fs, s, v).nzones == fs.nzones
    ensures Set(fs, s, v).firstDataZone == fs.firstDataZone
    ensures forall b: nat :: !(s.InBlock? && b == s.block) ==> Content(Set(fs, s, v), b) == Content(fs, b)
    ensures forall p: Path :: PathOk(Set(fs, s, v), p) == PathOk(fs, p)
  {
  }

  lemma SetInv(fs: Fs, p: Path, b: u16)
    requires Inv(fs) && PathOk(fs, p) && Reached(fs, p) && Val(fs, p) == 0 && (b != 0 ==> Fresh(fs, b))
    ensures Inv(Set(fs, SlotOf(fs, p), b))
    ensures forall q :: PathOk(fs, q) ==>
      PathOk(Set(fs, SlotOf(fs, p), b), q) && Val(Set(fs, SlotOf(fs, p), b), q) == if q == p then b else Val(fs, q)
  {
    var n := Set(fs, SlotOf(fs, p), b);
    SetMarks(fs, SlotOf(fs, p), b);
    forall q | PathOk(fs, q) ensures PathOk(n, q) && Val(n, q) == if q == p then b else Val(fs, q) {
      SetVal(fs, p, b, q);
    }
    assert !IsRoot(p) ==> ValOk(fs, Parent(p));
    hide Set, Val, Marked, PathOk;
    forall q ensures ValOk(n, q) { assert ValOk(fs, q); }
    forall q, r ensures Distinct(n, q, r) { assert Distinct(fs, q, r); }
    forall c: nat ensures FreeZero(n, c) { assert FreeZero(fs, c); }
  }

  // ---------- filling an index ----------

  // The block of p's own index block may be written, and no other.
  ghost predicate ContentKept(fs: Fs, n: Fs, p: Path, b: nat) {
    PathOk(fs, p) && (IsRoot(p) || b != Val(fs, Parent(p))) ==> Content(n, b) == Content(fs, b)
  }

  ghost predicate OneChange(fs: Fs, n: Fs, p: Path, v: nat) {
    && (forall b: nat :: ContentKept(fs, n, p, b)) && (v != 0 ==> Content(n, v) == ZeroWords())
    && n.inodes.Keys == fs.inodes.Keys && n.nzones == fs.nzones && |n.zmaps| == |fs.zmaps|
    && forall q :: PathOk(fs, q) ==> PathOk(n, q) && Val(n, q) == if q == p then v else Val(fs, q)
  }

  lemma FillInv(fs: Fs, p: Path, fs1: Fs, b: nat)
    requires Inv(fs) && PathOk(fs, p) && Reached(fs, p) && Val(fs, p) == 0 && Balloc(fs) == Some((fs1, b))
    ensures b < 0x1_0000 && SlotOk(fs1, SlotOf(fs, p)) && (b != 0 ==> !Marked(fs, b)) && fs1.blocks == fs.blocks
    ensures fs1.inodes == fs.inodes && fs1.nzones == fs.nzones && |fs1.zmaps| == |fs.zmaps|
    ensures var n := Set(fs1, SlotOf(fs, p), b);
      Inv(n) && forall q :: PathOk(fs, q) ==> PathOk(n, q) && Val(n, q) == if q == p then b else Val(fs, q)
  {
    BallocStep(fs);
    GrownInv(fs, fs1);
    GrownRest(fs, fs1);
    assert Reached(fs1, p) && SlotOf(fs1, p) == SlotOf(fs, p) by {
      assert IsRoot(p) || Val(fs1, Parent(p)) == Val(fs, Parent(p));
    }
    if b != 0 { BallocFresh(fs, fs1, b); }
    SetInv(fs1, p, b);
    assert b != 0 ==> !Marked(fs, b);
    hide Inv, Balloc, Set, Val, Marked, MapsOk, IsFree, FreeZones;
  }

  lemma FillFrom(fs: Fs, p: Path, fs1: Fs, b: nat)
    requires Inv(fs) && PathOk(fs, p) && Reached(fs, p) && Val(fs, p) == 0 && Balloc(fs) == Some((fs1, b))
    ensures b < 0x1_0000 && SlotOk(fs1, SlotOf(fs, p))
    ensures var n := Set(fs1, SlotOf(fs, p), b);
      Inv(n) && OneChange(fs, n, p, b) && FreeZones(n) == FreeZones(fs1)
  {
    FillInv(fs, p, fs1, b);
    var s := SlotOf(fs, p);
    SetMarks(fs1, s, b);
    SameFree(fs1, Set(fs1, s, b));
    SetKeys(fs1, s, b);
    FillContent(fs, p, fs1, b);
    hide Inv, Balloc, Set, Val, Marked, MapsOk, IsFree, FreeZones, Content, ContentKept, Reached, PathOk;
  }

  lemma FillContent(fs: Fs, p: Path, fs1: Fs, b: u16)
    requires Inv(fs) && PathOk(fs, p) && Reached(fs, p) && fs1.blocks == fs.blocks && SlotOk(fs1, SlotOf(fs, p))
    requires b != 0 ==> !Marked(fs, b)
    ensures var n := Set(fs1, SlotOf(fs, p), b);
      (forall c: nat :: ContentKept(fs, n, p, c)) && (b != 0 ==> Content(n, b) == ZeroWords())
  {
    SetMarks(fs1, SlotOf(fs, p), b);
    assert FreeZero(fs, b);
    if !IsRoot(p) { assert ValOk(fs, Parent(p)); }
    hide Inv, Val, Marked, Set;
  }

  lemma SetKeys(fs: Fs, s: Slot, v: u16)
    requires SlotOk(fs, s)
    ensures Set(fs, s, v).inodes.Keys == fs.inodes.Keys
  {
  }

  // An empty index that is reached gets a free zone, if there is one; nothing else hangs
  // anywhere else afterwards.
  lemma FillStep(fs: Fs, p: Path)
    requires Inv(fs) && PathOk(fs, p) && Reached(fs, p) && Val(fs, p) == 0
    ensures var r := Fill(fs, SlotOf(fs, p), true);
      && (r.None? <==> FreeZones(fs) == {} && |fs.zmaps| < ZMAP_MAX_BLOCKS)
      && (r.Some? ==> Inv(r.value.0) && OneChange(fs, r.value.0, p, r.value.1))
      && (r.Some? && r.value.1 == 0 <==> FreeZones(fs) == {} && |fs.zmaps| == ZMAP_MAX_BLOCKS)
      && (r.Some? && r.value.1 == 0 ==> FreeZones(r.value.0) == {})
      && (r.Some? && r.value.1 != 0 ==>
            r.value.1 as nat in FreeZones(fs) && FreeZones(r.value.0) == FreeZones(fs) - {r.value.1 as nat})
  {
    BallocStep(fs);
    if Balloc(fs).Some? {
      var (fs1, b) := Balloc(fs).value;
      FillFrom(fs, p, fs1, b);
      GrownMarks(fs, fs1);
      assert MapsOk(fs);
      hide Inv, Balloc, Set, Val, Marked, MapsOk, OneChange;
      assert Fill(fs, SlotOf(fs, p), true) == Some((Set(fs1, SlotOf(fs, p), b), b));
    }
  }

  lemma SameFree(fs: Fs, n: Fs)
    requires n.zmaps == fs.zmaps && n.nzones == fs.nzones && n.firstDataZone == fs.firstDataZone
    ensures FreeZones(n) == FreeZones(fs)
  {
    forall b: nat ensures IsFree(n, b) <==> IsFree(fs, b) {}
  }

  lemma BallocFresh(fs: Fs, n: Fs, b: nat)
    requires Inv(fs) && Balloc(fs) == Some((n, b)) && b != 0
    ensures Fresh(n, b)
  {
    BallocStep(fs);
    GrownInv(fs, n);
    GrownRest(fs, n);
    assert FreeZero(fs, b);
    hide Inv, Balloc, Val;
    forall p | PathOk(n, p) ensures Val(n, p) != b {
      assert PathOk(fs, p);
      UnmarkedNowhere(fs, p, b);
    }
  }

  lemma UnmarkedNowhere(fs: Fs, p: Path, b: nat)
    requires Inv(fs) && PathOk(fs, p) && !Marked(fs, b) && b != 0
    ensures Val(fs, p) != b
  {
    assert ValOk(fs, p);
  }
}
