/**
  The bitmap of src/lib/bitmap.c: bits packed into bytes, and the search for a run of free ones.
 */
module Bitmaps {
  import opened Wrappers

  // The n bits from s on are all clear.
  predicate Clear(bits: seq<bool>, s: nat, n: nat) {
    s + n <= |bits| && forall i :: s <= i < s + n ==> !bits[i]
  }

  // The first place, from s on, where n consecutive bits are clear.
  function FirstFit(bits: seq<bool>, n: nat, s: nat): (r: Option<nat>)
    ensures r.Some? ==> s <= r.value && Clear(bits, r.value, n)
    ensures r.Some? ==> forall t :: s <= t < r.value ==> !Clear(bits, t, n)
    ensures r.None? ==> forall t :: s <= t ==> !Clear(bits, t, n)
    decreases |bits| - s
  {
    if s + n > |bits| then None
    else if Clear(bits, s, n) then Some(s)
    else if s == |bits| then None
    else FirstFit(bits, n, s + 1)
  }

  // Bits s to s + n set to v.
  function Mark(bits: seq<bool>, s: nat, n: nat, v: bool): (r: seq<bool>)
    ensures |r| == |bits| && forall i :: 0 <= i < |bits| ==> r[i] == if s <= i < s + n then v else bits[i]
  {
    seq(|bits|, i requires 0 <= i < |bits| => if s <= i < s + n then v else bits[i])
  }

  // 1 << n.
  function Bit(n: nat): bv8
    requires n < 8
  {
    match n
    case 0 => 1
    case 1 => 2
    case 2 => 4
    case 3 => 8
    case 4 => 16
    case 5 => 32
    case 6 => 64
    case _ => 128
  }

  predicate TestBit(x: bv8, n: nat)
    requires n < 8
  {
    x & Bit(n) != 0
  }

  function WithBit(x: bv8, n: nat, value: bool): bv8
    requires n < 8
  {
    if value then x | Bit(n) else x & !Bit(n)
  }

  // Setting or clearing one bit of a byte leaves the others alone.
  lemma BitAlone(x: bv8, a: nat, value: bool, b: nat)
    requires a < 8 && b < 8
    ensures TestBit(WithBit(x, a, value), b) == if a == b then value else TestBit(x, b)
  {
    if a == 0 {} else if a == 1 {} else if a == 2 {} else if a == 3 {}
    else if a == 4 {} else if a == 5 {} else if a == 6 {} else {}
  }

  predicate Holds(bytes: seq<bv8>, i: nat)
    requires i < 8 * |bytes|
  {
    TestBit(bytes[i / 8], i % 8)
  }

  function Unpack(bytes: seq<bv8>): (r: seq<bool>)
    ensures |r| == 8 * |bytes| && forall i :: 0 <= i < |r| ==> r[i] == Holds(bytes, i)
  {
    seq(8 * |bytes|, i requires 0 <= i < 8 * |bytes| => Holds(bytes, i))
  }

  // Bit i is the digit of weight 1 << (i % 8) in byte i / 8.
  lemma BitIsDigit(bytes: seq<bv8>, i: nat)
    requires i < 8 * |bytes|
    ensures Unpack(bytes)[i] <==> (bytes[i / 8] >> (i % 8)) & 1 == 1
  {
    DigitOf(bytes[i / 8], i % 8);
  }

  lemma DigitOf(x: bv8, n: nat)
    requires n < 8
    ensures TestBit(x, n) <==> (x >> n) & 1 == 1
  {
    if n == 0 {} else if n == 1 {} else if n == 2 {} else if n == 3 {}
    else if n == 4 {} else if n == 5 {} else if n == 6 {} else {}
  }

  lemma SetHolds(bytes: seq<bv8>, i: nat, value: bool, j: nat)
    requires i < 8 * |bytes| && j < 8 * |bytes|
    ensures Holds(bytes[i / 8 := WithBit(bytes[i / 8], i % 8, value)], j) == if j == i then value else Holds(bytes, j)
  {
    hide WithBit, TestBit;
    if i / 8 == j / 8 {
      BitAlone(bytes[i / 8], i % 8, value, j % 8);
    }
  }

  class Bitmap {
    const bits: array<bv8>
    const offset: nat

    ghost function Contents(): (r: seq<bool>)
      reads bits
      ensures |r| == 8 * bits.Length
    {
      Unpack(bits[..])
    }

    // bitmap_init.
    constructor (size: nat, offset: nat)
      ensures bits.Length == size && this.offset == offset && fresh(bits)
      ensures forall i :: 0 <= i < 8 * size ==> !Contents()[i]
    {
      bits := new bv8[size](_ => 0);
      this.offset := offset;
    }

    method Contains(index: nat) returns (r: bool)
      requires offset <= index < offset + 8 * bits.Length
      ensures r == Contents()[index - offset]
    {
      var i := index - offset;
      return TestBit(bits[i / 8], i % 8);
    }

    method Set(index: nat, value: bool)
      requires offset <= index < offset + 8 * bits.Length
      modifies bits
      ensures Contents() == old(Contents())[index - offset := value]
    {
      var i := index - offset;
      ghost var was := bits[..];
      bits[i / 8] := WithBit(bits[i / 8], i % 8, value);
      hide WithBit, TestBit, Holds;
      forall j: nat | j < 8 * bits.Length ensures Holds(bits[..], j) == if j == i then value else Holds(was, j) {
        SetHolds(was, i, value, j);
      }
    }

    // The first loop of bitmap_insert_nbits: count clear bits until there are n in a row.
    method FindRun(n: nat) returns (r: Option<nat>)
      requires n > 0
      ensures r == match FirstFit(Contents(), n, 0) case None => None case Some(s) => Some(offset + s)
    {
      ghost var was := Contents();
      var left, next, counter := 8 * bits.Length, offset, 0;
      while left > 0
        invariant 0 <= left <= 8 * bits.Length && next == offset + 8 * bits.Length - left
        invariant counter < n && counter <= next - offset
        invariant Clear(was, next - offset - counter, counter)
        invariant forall t: nat :: t < next - offset - counter ==> !Clear(was, t, n)
      {
        left := left - 1;
        var used := Contains(next);
        if used {
          assert was[next - offset];
          forall t: nat | next - offset - counter <= t <= next - offset ensures !Clear(was, t, n) {}
          counter := 0;
        } else {
          counter := counter + 1;
        }
        next := next + 1;
        if counter == n {
          FitIs(was, n, next - counter - offset);
          return Some(next - counter);
        }
      }
      NoFit(was, n, counter);
      return None;
    }

    // The first n consecutive clear bits are set; None (EOF) and no change if there are none.
    method InsertBits(n: nat) returns (r: Option<nat>)
      requires n > 0
      modifies bits
      ensures r == match FirstFit(old(Contents()), n, 0) case None => None case Some(s) => Some(offset + s)
      ensures Contents() == match FirstFit(old(Contents()), n, 0)
                            case None => old(Contents())
                            case Some(s) => Mark(old(Contents()), s, n, true)
    {
      r := FindRun(n);
      if r.Some? { SetRun(r.value, n); }
    }

    // The second loop: the run of clear bits is set.
    method SetRun(start: nat, n: nat)
      requires offset <= start && start + n <= offset + 8 * bits.Length
      modifies bits
      ensures Contents() == Mark(old(Contents()), start - offset, n, true)
    {
      ghost var was := Contents();
      var counter, next := n, start;
      while counter > 0
        invariant 0 <= counter <= n && next == start + n - counter
        invariant forall i :: 0 <= i < |was| ==> Contents()[i] == (was[i] || start - offset <= i < next - offset)
      {
        counter := counter - 1;
        Set(next, true);
        next := next + 1;
      }
    }
  }

  lemma NoFit(bits: seq<bool>, n: nat, counter: nat)
    requires counter < n && counter <= |bits|
    requires forall t: nat :: t < |bits| - counter ==> !Clear(bits, t, n)
    ensures FirstFit(bits, n, 0).None?
  {
  }

  lemma FitIs(bits: seq<bool>, n: nat, s: nat)
    requires Clear(bits, s, n) && forall t: nat :: t < s ==> !Clear(bits, t, n)
    ensures FirstFit(bits, n, 0) == Some(s)
  {
  }
}
