/** Natural numbers as strings of bits: shifts, low parts and single bits. */
module Bits {

  function Pow2(n: nat): (r: nat)
    ensures r > 0
  {
    if n == 0 then 1 else 2 * Pow2(n - 1)
  }

  /** x shifted right by k bits. */
  function Shr(x: nat, k: nat): nat
    decreases k
  {
    if k == 0 then x else Shr(x / 2, k - 1)
  }

  /** The low k bits of x. */
  function Low(x: nat, k: nat): nat
    decreases k
  {
    if k == 0 then 0 else x % 2 + 2 * Low(x / 2, k - 1)
  }

  function Bit(x: nat, k: nat): (r: nat)
    ensures r < 2
  {
    Shr(x, k) % 2
  }

  /** Shifting and masking are quotient and remainder by a power of two. */
  lemma {:induction false} ShiftAndMask(x: nat, k: nat)
    ensures x == Shr(x, k) * Pow2(k) + Low(x, k) && Low(x, k) < Pow2(k)
    decreases k
  {
    if k > 0 {
      ShiftAndMask(x / 2, k - 1);
      var q, p, l := Shr(x / 2, k - 1), Pow2(k - 1), Low(x / 2, k - 1);
      assert Shr(x, k) == q && Pow2(k) == 2 * p && Low(x, k) == x % 2 + 2 * l;
      hide Shr, Pow2, Low;
      OneMoreBit(x, q, p, l);
    }
  }

  lemma {:induction false} OneMoreBit(x: nat, q: nat, p: nat, l: nat)
    requires x / 2 == q * p + l && l < p
    ensures x == q * (2 * p) + (x % 2 + 2 * l) && x % 2 + 2 * l < 2 * p
  {
    Twice(p, q);
    assert x == 2 * (x / 2) + x % 2;
  }

  lemma {:induction false} ShiftTwice(x: nat, a: nat, b: nat)
    ensures Shr(x, a + b) == Shr(Shr(x, a), b)
    decreases a
  {
    if a > 0 {
      ShiftTwice(x / 2, a - 1, b);
    }
  }

  lemma {:induction false} ShiftByte(x: nat)
    ensures Shr(x, 8) == x / 256
  {
    var a := x / 2 / 2 / 2 / 2;
    assert a == x / 16 && a / 2 / 2 / 2 / 2 == a / 16 && x / 16 / 16 == x / 256;
    assert Shr(x, 8) == Shr(x / 2, 7) == Shr(x / 2 / 2, 6) == Shr(x / 2 / 2 / 2, 5) == Shr(a, 4);
    assert Shr(a, 4) == Shr(a / 2, 3) == Shr(a / 2 / 2, 2) == Shr(a / 2 / 2 / 2, 1) == a / 2 / 2 / 2 / 2;
  }

  lemma {:induction false} SmallShiftsOut(x: nat, k: nat)
    requires x < Pow2(k)
    ensures Shr(x, k) == 0
    decreases k
  {
    if k > 0 {
      SmallShiftsOut(x / 2, k - 1);
    }
  }

  /** One more bit of the low part. */
  lemma {:induction false} LowNext(x: nat, k: nat)
    ensures Low(x, k + 1) == Low(x, k) + Bit(x, k) * Pow2(k)
    decreases k
  {
    if k > 0 {
      LowNext(x / 2, k - 1);
      assert Bit(x, k) == Bit(x / 2, k - 1);
      var b, p, l := Bit(x, k), Pow2(k - 1), Low(x / 2, k - 1);
      assert Pow2(k) == 2 * p && Low(x, k) == x % 2 + 2 * l && Low(x, k + 1) == x % 2 + 2 * (l + b * p);
      hide Bit, Pow2, Low;
      Twice(p, b);
    }
  }

  /** High parts do not touch low bits. */
  lemma {:induction false} BitBelow(b: nat, high: nat, k: nat, m: nat)
    requires m < k
    ensures Bit(b + Pow2(k) * high, m) == Bit(b, m)
    decreases m
  {
    var p := Pow2(k - 1);
    assert Pow2(k) * high == 2 * (p * high);
    if m > 0 {
      BitBelow(b / 2, high, k - 1, m - 1);
      assert (b + 2 * (p * high)) / 2 == b / 2 + p * high;
    }
  }

  /** A clear bit can be set within the same width. */
  lemma {:induction false} RoomForBit(b: nat, k: nat, m: nat)
    requires m < k && b < Pow2(k) && Bit(b, m) == 0
    ensures b + Pow2(m) < Pow2(k)
    decreases m
  {
    if m == 0 {
      assert b % 2 == 0;
    } else {
      RoomForBit(b / 2, k - 1, m - 1);
    }
  }

  lemma {:induction false} PowByte(n: nat)
    ensures Pow2(8 + n) == 256 * Pow2(n)
  {
    assert Pow2(8 + n) == 2 * Pow2(7 + n) == 4 * Pow2(6 + n) == 8 * Pow2(5 + n) == 16 * Pow2(4 + n);
    assert Pow2(4 + n) == 2 * Pow2(3 + n) == 4 * Pow2(2 + n) == 8 * Pow2(1 + n) == 16 * Pow2(n);
  }

  lemma Twice(p: nat, q: nat)
    ensures (2 * p) * q == 2 * (p * q)
  {
  }

  lemma {:induction false} LowBits(b: nat, high: nat, w: nat, k: nat)
    requires b < Pow2(w)
    ensures Low(b + Pow2(w) * high, w + k) == b + Pow2(w) * Low(high, k)
    decreases w
  {
    if w > 0 {
      var p := Pow2(w - 1);
      Twice(p, high);
      Twice(p, Low(high, k));
      LowBits(b / 2, high, w - 1, k);
      assert (b + 2 * (p * high)) / 2 == b / 2 + p * high;
    }
  }

  lemma {:induction false} Powers()
    ensures Pow2(8) == 0x100 && Pow2(16) == 0x1_0000 && Pow2(32) == 0x1_0000_0000
    ensures Pow2(64) == 0x1_0000_0000_0000_0000
  {
    assert Pow2(8) == 256;
    PowByte(8);
    PowByte(16);
    PowByte(24);
    PowByte(32);
    PowByte(40);
    PowByte(48);
    PowByte(56);
  }
}
