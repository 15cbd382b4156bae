/**
  balloc hands out each free zone once, and filling an index changes one place of the tree.
 */
module BlockMapProofs {
  import opened Bitmaps
  import opened BlockMapModel
  import opened Wrappers

  // ---------- balloc ----------

  // Zones that balloc may hand out.
  predicate IsFree(fs: Fs, b: nat) {
    var n := b - (fs.firstDataZone - 1);
    b < fs.nzones && n >= 0 && n / BLOCK_BITS < |fs.zmaps| && !Marked(fs, b)
  }

  ghost function FreeZones(fs: Fs): set<nat> {
    set b: nat | b < fs.nzones && IsFree(fs, b)
  }

  // Only bits of the maps differ, and no bit is cleared.
  ghost predicate Grown(fs: Fs, n: Fs) {
    && n == fs.(zmaps := n.zmaps) && |n.zmaps| == |fs.zmaps|
    && (forall i :: 0 <= i < |fs.zmaps| ==> |n.zmaps[i]| == |fs.zmaps[i]|)
    && (forall i, s :: 0 <= i < |fs.zmaps| && 0 <= s < |fs.zmaps[i]| && fs.zmaps[i][s] ==> n.zmaps[i][s])
  }

  lemma GrownMarks(fs: Fs, n: Fs)
    requires Grown(fs, n)
    ensures forall b: nat :: Marked(fs, b) ==> Marked(n, b)
    ensures MapsOk(fs) ==> MapsOk(n)
    ensures MapsOk(fs) ==> FreeZones(n) <= FreeZones(fs)
  {
  }

  // The bit of a zone, from its number.
  lemma BitOf(fs: Fs, i: nat, s: nat)
    requires fs.firstDataZone >= 1 && s < BLOCK_BITS
    ensures ZoneOf(fs, i, s) >= 0
    ensures var n := ZoneOf(fs, i, s) - (fs.firstDataZone - 1); n / BLOCK_BITS == i && n % BLOCK_BITS == s
  {
  }

  lemma NoFree(fs: Fs, i: nat, s: nat)
    requires MapsOk(fs) && i < |fs.zmaps| && s < BLOCK_BITS && !fs.zmaps[i][s] && ZoneOf(fs, i, s) < fs.nzones
    ensures ZoneOf(fs, i, s) >= fs.firstDataZone && IsFree(fs, ZoneOf(fs, i, s))
    ensures ZoneOf(fs, i, s) in FreeZones(fs)
  {
    BitOf(fs, i, s);
  }

  function WithBit(fs: Fs, i: nat, s: nat): Fs
    requires i < |fs.zmaps| && s < |fs.zmaps[i]|
  {
    fs.(zmaps := fs.zmaps[i := fs.zmaps[i][s := true]])
  }

  lemma BitGrows(fs: Fs, i: nat, s: nat)
    requires MapsOk(fs) && i < |fs.zmaps| && s < BLOCK_BITS
    ensures Grown(fs, WithBit(fs, i, s))
  {
  }

  // With no zone left every clear bit stands for a zone beyond the last.
  lemma ClearIsBeyond(fs: Fs, i: nat, s: nat)
    requires MapsOk(fs) && FreeZones(fs) == {} && i < |fs.zmaps| && s < BLOCK_BITS && !fs.zmaps[i][s]
    ensures ZoneOf(fs, i, s) >= fs.nzones
  {
    if ZoneOf(fs, i, s) < fs.nzones {
      NoFree(fs, i, s);
      assert false;
    }
  }

  function FirstMarked(bits: seq<bool>): seq<bool> {
    match FirstFit(bits, 1, 0) case None => bits case Some(s) => bits[s := true]
  }

  // With no zone left the loop marks the first clear bit of every map from i on, which is beyond
  // the last zone, and runs off the maps that exist unless there are eight.
  lemma {:induction false} BallocFails(fs: Fs, i: nat)
    requires MapsOk(fs) && FreeZones(fs) == {} && i <= ZMAP_MAX_BLOCKS
    ensures var r := BallocFrom(fs, i);
      && (r.None? <==> i < ZMAP_MAX_BLOCKS && |fs.zmaps| < ZMAP_MAX_BLOCKS)
      && (r.Some? ==> r.value.1 == 0 && Grown(fs, r.value.0))
      && (r.Some? ==> forall j :: 0 <= j < |fs.zmaps| ==>
            r.value.0.zmaps[j] == if j < i then fs.zmaps[j] else FirstMarked(fs.zmaps[j]))
    decreases ZMAP_MAX_BLOCKS - i
  {
    if i < |fs.zmaps| {
      match FirstFit(fs.zmaps[i], 1, 0)
      case None => BallocFails(fs, i + 1);
      case Some(s) =>
        ClearIsBeyond(fs, i, s);
        var fs1 := WithBit(fs, i, s);
        BitGrows(fs, i, s);
        GrownMarks(fs, fs1);
        hide MapsOk, FreeZones, FirstFit;
        BallocFails(fs1, i + 1);
        assert BallocFrom(fs, i) == BallocFrom(fs1, i + 1);
    }
  }

  // balloc gives the bits of a block where bytes are expected, so its bitmap goes on behind the map
  // with whatever memory holds there. That makes no difference exactly while the map has a clear
  // bit, or what is behind it has none; else the bit found lies behind the map.
  lemma PastTheMap(bits: seq<bool>, rest: seq<bool>)
    ensures FirstFit(bits + rest, 1, 0) == FirstFit(bits, 1, 0)
      <==> FirstFit(bits, 1, 0).Some? || FirstFit(rest, 1, 0).None?
    ensures FirstFit(bits, 1, 0).None? && FirstFit(rest, 1, 0).Some? ==>
      FirstFit(bits + rest, 1, 0) == Some(|bits| + FirstFit(rest, 1, 0).value)
  {
    var all, b, r := bits + rest, FirstFit(bits, 1, 0), FirstFit(rest, 1, 0);
    forall s: nat ensures Clear(all, s, 1) <==> s < |all| && !all[s] {}
    forall s: nat ensures Clear(bits, s, 1) <==> s < |bits| && !bits[s] {}
    forall s: nat ensures Clear(rest, s, 1) <==> s < |rest| && !rest[s] {}
    hide FirstFit, Clear;
    if b.Some? {
      FirstIs(all, b.value);
    } else if r.Some? {
      var s := |bits| + r.value;
      forall t: nat | t < s ensures !Clear(all, t, 1) {
        if t < |bits| { assert !Clear(bits, t, 1); } else {
          var u: nat := t - |bits|;
          assert !Clear(rest, u, 1) && all[t] == rest[u];
        }
      }
      FirstIs(all, s);
    }
  }

  lemma FirstIs(bits: seq<bool>, s: nat)
    requires Clear(bits, s, 1) && forall t: nat :: t < s ==> !Clear(bits, t, 1)
    ensures FirstFit(bits, 1, 0) == Some(s)
  {
    var r := FirstFit(bits, 1, 0);
    if r.Some? { assert Clear(bits, r.value, 1); }
  }

  // While a zone is free the loop hands out the lowest one.
  lemma {:induction false} BallocFinds(fs: Fs, i: nat, b: nat)
    requires MapsOk(fs) && b in FreeZones(fs) && i <= ZMAP_MAX_BLOCKS
    requires forall c: nat :: IsFree(fs, c) ==> c - (fs.firstDataZone - 1) >= i * BLOCK_BITS
    ensures var r := BallocFrom(fs, i);
      && r.Some? && Grown(fs, r.value.0) && fs.firstDataZone <= r.value.1 < fs.nzones
      && IsFree(fs, r.value.1) && Marked(r.value.0, r.value.1) && FreeZones(r.value.0) == FreeZones(fs) - {r.value.1}
      && forall c: nat :: IsFree(fs, c) ==> r.value.1 <= c
    decreases ZMAP_MAX_BLOCKS - i
  {
    assert IsFree(fs, b) && i < |fs.zmaps|;
    match FirstFit(fs.zmaps[i], 1, 0)
    case None =>
      forall s: nat | s < BLOCK_BITS ensures fs.zmaps[i][s] { assert !Clear(fs.zmaps[i], s, 1); }
      BallocFinds(fs, i + 1, b);
    case Some(s) =>
      forall t: nat | t < s ensures fs.zmaps[i][t] { assert !Clear(fs.zmaps[i], t, 1); }
      BitOf(fs, i, s);
      forall c: nat | IsFree(fs, c) ensures ZoneOf(fs, i, s) <= c {}
      NoFree(fs, i, s);
      BitGrows(fs, i, s);
      BitTaken(fs, i, s);
  }

  lemma BitTaken(fs: Fs, i: nat, s: nat)
    requires MapsOk(fs) && i < |fs.zmaps| && s < BLOCK_BITS && !fs.zmaps[i][s] && ZoneOf(fs, i, s) < fs.nzones
    ensures ZoneOf(fs, i, s) >= 0 && Marked(WithBit(fs, i, s), ZoneOf(fs, i, s))
    ensures FreeZones(WithBit(fs, i, s)) == FreeZones(fs) - {ZoneOf(fs, i, s)}
  {
    BitOf(fs, i, s);
    var n := WithBit(fs, i, s);
    forall b: nat ensures IsFree(n, b) <==> IsFree(fs, b) && b != ZoneOf(fs, i, s) {}
  }

  // balloc succeeds exactly while a zone is free, and then takes the lowest. Otherwise it
  // returns 0 if there are eight maps, and follows a null pointer if there are fewer.
  lemma BallocStep(fs: Fs)
    requires MapsOk(fs)
    ensures Balloc(fs).None? <==> FreeZones(fs) == {} && |fs.zmaps| < ZMAP_MAX_BLOCKS
    ensures Balloc(fs).Some? ==> Grown(fs, Balloc(fs).value.0)
    ensures Balloc(fs).Some? && Balloc(fs).value.1 == 0 <==> FreeZones(fs) == {} && |fs.zmaps| == ZMAP_MAX_BLOCKS
    ensures Balloc(fs).Some? && Balloc(fs).value.1 != 0 ==>
      var (n, b) := Balloc(fs).value;
      && fs.firstDataZone <= b < fs.nzones && IsFree(fs, b) && Marked(n, b) && FreeZones(n) == FreeZones(fs) - {b}
  {
    if b: nat :| b in FreeZones(fs) {
      BallocFinds(fs, 0, b);
    } else {
      assert FreeZones(fs) == {};
      BallocFails(fs, 0);
    }
  }

  // n blocks in a row; None: one of the calls halts.
  function BallocTimes(fs: Fs, n: nat): Option<Fs>
    decreases n
  {
    if n == 0 then Some(fs)
    else match Balloc(fs) case None => None case Some((fs1, _)) => BallocTimes(fs1, n - 1)
  }

  // With fewer than eight maps, balloc works once for each free zone, and then halts.
  lemma {:induction false} BallocRunsOut(fs: Fs, n: nat)
    requires MapsOk(fs) && |fs.zmaps| < ZMAP_MAX_BLOCKS
    ensures BallocTimes(fs, n).Some? <==> n <= |FreeZones(fs)|
    decreases n
  {
    if n > 0 {
      BallocStep(fs);
      if Balloc(fs).Some? {
        var (fs1, b) := Balloc(fs).value;
        assert b in FreeZones(fs);
        GrownMarks(fs, fs1);
        BallocRunsOut(fs1, n - 1);
      }
    }
  }
}
