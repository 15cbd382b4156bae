/**
  How many buffers fit, and how the hash spreads blocks over the chains.
 */
module CacheLayout {
  import opened CacheModel

  // Headers of 64 bytes and data areas of 1024 in 4 megabytes: 3855 buffers fit.
  lemma RoomFor(n: nat)
    ensures HasRoom(n) <==> n < 3855
  {
  }

  lemma {:induction false} XorSelf(a: nat)
    ensures Xor(a, a) == 0
  {
    if a > 0 { XorSelf(a / 2); }
  }

  lemma XorDigit(a: nat, b: nat)
    ensures Xor(a, b) / 2 == Xor(a / 2, b / 2)
    ensures Xor(a, b) % 2 == if a % 2 == b % 2 then 0 else 1
  {
  }

  // Equal exclusive ors with the same number come from equal numbers.
  lemma {:induction false} XorCancels(a: nat, b: nat, c: nat)
    requires Xor(a, b) == Xor(a, c)
    ensures b == c
    decreases b + c
  {
    if b + c > 0 {
      XorDigit(a, b);
      XorDigit(a, c);
      XorCancels(a / 2, b / 2, c / 2);
    }
  }

  lemma XorHigh(a: nat, b: nat)
    ensures Xor(a, b) / 16 == Xor(a / 16, b / 16)
  {
    hide Xor;
    XorDigit(a, b);
    XorDigit(a / 2, b / 2);
    XorDigit(a / 4, b / 4);
    XorDigit(a / 8, b / 8);
    assert a / 2 / 2 == a / 4 && a / 4 / 2 == a / 8 && a / 8 / 2 == a / 16;
    assert b / 2 / 2 == b / 4 && b / 4 / 2 == b / 8 && b / 8 / 2 == b / 16;
  }

  lemma NearDiffer(x: nat, y: nat)
    requires x / 16 == y / 16 && x != y
    ensures x % 31 != y % 31
  {
    var d := if x < y then y - x else x - y;
    assert 0 < d < 16;
  }

  // A block's chain on device 0 is its number modulo 31, the block numbered like its device is on
  // chain 0, and no two of sixteen neighbours on one device share a chain.
  lemma HashSpreads(dev: u32, a: u32, b: u32)
    ensures Hash(Key(0, a)) == a % 31 && Hash(Key(dev, dev)) == 0
    ensures a / 16 == b / 16 && a != b ==> Hash(Key(dev, a)) != Hash(Key(dev, b))
  {
    XorSelf(dev);
    assert Xor(0, a) == a;
    hide Xor;
    if a / 16 == b / 16 && a != b {
      XorHigh(dev, a);
      XorHigh(dev, b);
      if Xor(dev, a) == Xor(dev, b) { XorCancels(dev, a, b); }
      NearDiffer(Xor(dev, a), Xor(dev, b));
    }
  }
}
