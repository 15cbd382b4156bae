/**
  balloc and bmap as the kernel runs them: bitmaps, zone arrays and index blocks changed in
  place, and a loop that goes down the levels with its variables.
 */
module FileSystem {
  import opened Bitmaps
  import opened BlockMapModel
  import opened Wrappers

  class Volume {
    const nzones: u16
    const firstDataZone: u16
    var zmaps: seq<seq<bool>>
    var inodes: map<nat, Zones>
    var blocks: map<nat, Words>

    ghost function Model(): Fs
      reads this
    {
      Fs(nzones, firstDataZone, zmaps, inodes, blocks)
    }

    constructor (fs: Fs)
      ensures Model() == fs
    {
      nzones, firstDataZone := fs.nzones, fs.firstDataZone;
      zmaps, inodes, blocks := fs.zmaps, fs.inodes, fs.blocks;
    }

    // bitmap_insert_nbits for one bit, on map i.
    method MarkFirstClear(i: nat) returns (r: Option<nat>)
      requires i < |zmaps|
      modifies this`zmaps
      ensures r == FirstFit(old(zmaps)[i], 1, 0)
      ensures zmaps == if r.Some? then old(zmaps)[i := old(zmaps)[i][r.value := true]] else old(zmaps)
    {
      var s := 0;
      while s < |zmaps[i]|
        invariant 0 <= s <= |zmaps[i]| && zmaps == old(zmaps)
        invariant FirstFit(zmaps[i], 1, 0) == FirstFit(zmaps[i], 1, s)
      {
        if !zmaps[i][s] {
          zmaps := zmaps[i := zmaps[i][s := true]];
          return Some(s);
        }
        assert !Clear(zmaps[i], s, 1);
        s := s + 1;
      }
      return None;
    }

    // None: the map is a null pointer.
    method Balloc() returns (r: Option<nat>)
      modifies this`zmaps
      ensures r.None? <==> BlockMapModel.Balloc(old(Model())).None?
      ensures r.Some? ==> BlockMapModel.Balloc(old(Model())) == Some((Model(), r.value))
    {
      var i := 0;
      while i < ZMAP_MAX_BLOCKS
        invariant 0 <= i <= ZMAP_MAX_BLOCKS
        invariant BallocFrom(old(Model()), 0) == BallocFrom(Model(), i)
      {
        if i >= |zmaps| { return None; }
        var s := MarkFirstClear(i);
        if s.Some? {
          var nr := (firstDataZone - 1) + i * BLOCK_BITS + s.value;
          if 0 <= nr < nzones { return Some(nr); }
        }
        i := i + 1;
      }
      return Some(0);
    }

    method ReadIndex(s: Slot) returns (v: u16)
      requires SlotOk(Model(), s)
      ensures v == Get(Model(), s)
    {
      match s
      case InInode(ino, at) => v := inodes[ino][at];
      case InBlock(b, at) => v := if b in blocks then blocks[b][at] else 0;
    }

    method WriteIndex(s: Slot, v: u16)
      requires SlotOk(Model(), s)
      modifies this`inodes, this`blocks
      ensures Model() == Set(old(Model()), s, v)
    {
      match s
      case InInode(ino, at) => inodes := inodes[ino := inodes[ino][at := v]];
      case InBlock(b, at) => blocks := blocks[b := (if b in blocks then blocks[b] else ZeroWords())[at := v]];
    }

    // An index that is zero is filled when `create` is set, and its block written back.
    method FillIndex(s: Slot, create: bool) returns (r: Option<u16>)
      requires SlotOk(Model(), s)
      modifies this
      ensures r.None? <==> Fill(old(Model()), s, create).None?
      ensures r.Some? ==> Fill(old(Model()), s, create) == Some((Model(), r.value))
    {
      hide Get, Set, BlockMapModel.Balloc;
      var v := ReadIndex(s);
      if v == 0 && create {
        var b := Balloc();
        if b.None? { return None; }
        v := b.value % 0x1_0000;
        WriteIndex(s, v);
      }
      return Some(v);
    }

    method Bmap(ino: nat, nr: nat, create: bool) returns (r: Option<u16>)
      requires ino in inodes && nr < TOTAL_BLOCKS
      modifies this
      ensures r.None? <==> BlockMapModel.Bmap(old(Model()), ino, nr, create).None?
      ensures r.Some? ==> BlockMapModel.Bmap(old(Model()), ino, nr, create) == Some((Model(), r.value))
    {
      hide Fill;
      ghost var fs := Model();
      var n: nat, level: nat, index: nat := nr, 0, nr;
      if nr >= DIRECT_BLOCKS {
        n := nr - DIRECT_BLOCKS;
        if n < BLOCK_INDEXES {
          index, level := DIRECT_BLOCKS, 1;
        } else {
          n, index, level := n - BLOCK_INDEXES, DIRECT_BLOCKS + 1, 2;
        }
      }
      var slot := InInode(ino, index);
      while level > 0
        invariant SlotOk(Model(), slot) && level <= 2 && (level > 0 ==> n < BLOCK_INDEXES * Unit(level - 1))
        invariant BlockMapModel.Bmap(fs, ino, nr, create) == Walk(Model(), slot, n, level, create)
      {
        var v := FillIndex(slot, create);
        if v.None? { return None; }
        if v.value == 0 {
          assert BlockMapModel.Bmap(fs, ino, nr, create) == Fill(Model(), slot, create);
          level := 0;
          break;
        }
        level := level - 1;
        slot, n := InBlock(v.value, n / Unit(level)), n % Unit(level);
      }
      r := FillIndex(slot, create);
    }
  }
}
