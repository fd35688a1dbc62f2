/** Reading one member out of bit-packed data. */
module DdlBits {
  import opened Bytes
  import opened Bits

  lemma {:induction false} BitOfBytes(s: seq<Byte>, j: nat, m: nat)
    requires j < |s| && m < 8
    ensures Bit(FromBytes(s), 8 * j + m) == Bit(s[j], m)
    decreases j
  {
    if j == 0 {
      BitOfFirst(s[0], FromBytes(s[1..]), m);
    } else {
      BitOfBytes(s[1..], j - 1, m);
      hide Shr, Pow2;
      var i := 8 * (j - 1) + m;
      assert FromBytes(s) / 256 == FromBytes(s[1..]);
      ShiftTwice(FromBytes(s), 8, i);
      ShiftByte(FromBytes(s));
      assert 8 + i == 8 * j + m;
    }
  }

  lemma {:induction false} BitOfFirst(b: Byte, high: nat, m: nat)
    requires m < 8
    ensures Bit(b + 256 * high, m) == Bit(b, m)
  {
    assert Pow2(8) == 256;
    hide Bit, Pow2;
    BitBelow(b, high, 8, m);
  }

  lemma {:induction false} AddedBit(s: seq<Byte>, j: nat, m: nat)
    requires j < |s| && m < 8 && s[j] + Pow2(m) < 256
    ensures FromBytes(s[j := s[j] + Pow2(m)]) == FromBytes(s) + Pow2(8 * j + m)
    decreases j
  {
    var t := s[j := s[j] + Pow2(m)];
    if j == 0 {
      assert t[1..] == s[1..];
    } else {
      AddedBit(s[1..], j - 1, m);
      assert t[1..] == s[1..][j - 1 := s[j] + Pow2(m)];
      PowByte(8 * (j - 1) + m);
    }
  }

  lemma {:induction false} DropBytes(s: seq<Byte>, j: nat)
    requires j <= |s|
    ensures FromBytes(s[j..]) == Shr(FromBytes(s), 8 * j)
    decreases j
  {
    if j == 0 {
      assert s[0..] == s;
    } else {
      DropBytes(s[1..], j - 1);
      assert s[1..][j - 1..] == s[j..];
      ShiftTwice(FromBytes(s), 8, 8 * (j - 1));
      ShiftByte(FromBytes(s));
    }
  }

  /** The first n bytes, and anything behind them that is zero. */
  lemma {:induction false} TakeBytes(s: seq<Byte>, t: seq<Byte>, n: nat)
    requires n <= |s| && n <= |t| && t[..n] == s[..n] && forall i :: n <= i < |t| ==> t[i] == 0
    ensures FromBytes(t) == Low(FromBytes(s), 8 * n)
    decreases |t|
  {
    if n > 0 {
      assert t[0] == t[..n][0] == s[0];
      assert t[1..][..n - 1] == t[..n][1..] == s[1..][..n - 1];
      TakeBytes(s[1..], t[1..], n - 1);
      LowByte(s[0], FromBytes(s[1..]), 8 * (n - 1));
      hide Low;
    } else if |t| > 0 {
      TakeBytes(s, t[1..], 0);
    }
  }

  lemma {:induction false} LowByte(b: Byte, high: nat, k: nat)
    ensures Low(b + 256 * high, 8 + k) == b + 256 * Low(high, k)
  {
    LowBits(b, high, 8, k);
    assert Pow2(8) == 256;
  }

  // ---------- The reader ----------

  /** byte |= v << k, for one bit v. */
  function OrBit(b: Byte, v: nat, k: nat): (r: Byte)
    requires v < 2 && k < 8
    ensures Bit(b, k) == 0 ==> r == b + v * Pow2(k)
  {
    if v == 1 && Bit(b, k) == 0 then
      RoomForBit(b, 8, k);
      b + Pow2(k)
    else b
  }

  lemma {:induction false} OredBit(s: seq<Byte>, j: nat, v: nat, m: nat)
    requires j < |s| && m < 8 && v < 2 && Bit(s[j], m) == 0
    ensures FromBytes(s[j := OrBit(s[j], v, m)]) == FromBytes(s) + v * Pow2(8 * j + m)
  {
    if v == 1 {
      assert Pow2(8) == 256;
      RoomForBit(s[j], 8, m);
      AddedBit(s, j, m);
    } else {
      assert s[j := s[j]] == s;
    }
  }

  /** Whole bytes. */
  method CopyBytes(raw: seq<Byte>, offset: nat, size: nat, buffer: array<Byte>)
    requires offset % 8 == 0 && size % 8 == 0 && 1 <= size <= 64 && offset + size <= 8 * |raw|
    requires buffer.Length == 8 && forall i :: 0 <= i < 8 ==> buffer[i] == 0
    modifies buffer
    ensures FromBytes(buffer[..]) == Low(Shr(FromBytes(raw), offset), size)
  {
    hide FromBytes, Low, Shr;
    var start, n := offset / 8, (size - 1) / 8 + 1;
    forall i | 0 <= i < n {
      buffer[i] := raw[start + i];
    }
    DropBytes(raw, start);
    assert buffer[..][..n] == raw[start..][..n];
    TakeBytes(raw[start..], buffer[..], n);
  }

  /** Bit by bit. */
  method CopyBits(raw: seq<Byte>, offset: nat, size: nat, buffer: array<Byte>)
    requires size <= 64 && offset + size <= 8 * |raw|
    requires buffer.Length == 8 && forall i :: 0 <= i < 8 ==> buffer[i] == 0
    modifies buffer
    ensures FromBytes(buffer[..]) == Low(Shr(FromBytes(raw), offset), size)
  {
    ghost var x := Shr(FromBytes(raw), offset);
    TakeBytes([], buffer[..], 0);
    assert Low(x, 0) == Low(FromBytes([]), 0) == 0;
    hide FromBytes, Low, Shr, Pow2, OrBit;
    for i := 0 to size
      invariant FromBytes(buffer[..]) == Low(x, i)
    {
      var idx := offset + i;
      BitOfBytes(raw, idx / 8, idx % 8);
      ShiftTwice(FromBytes(raw), offset, i);
      ClearAbove(buffer[..], x, i);
      LowNext(x, i);
      ghost var before := buffer[..];
      var v := Bit(raw[idx / 8], idx % 8);
      buffer[i / 8] := OrBit(buffer[i / 8], v, i % 8);
      OredBit(before, i / 8, v, i % 8);
      assert buffer[..] == before[i / 8 := OrBit(before[i / 8], v, i % 8)];
    }
  }

  lemma {:induction false} ClearAbove(s: seq<Byte>, x: nat, i: nat)
    requires i < 8 * |s| && FromBytes(s) == Low(x, i)
    ensures Bit(s[i / 8], i % 8) == 0
  {
    ShiftAndMask(x, i);
    SmallShiftsOut(FromBytes(s), i);
    BitOfBytes(s, i / 8, i % 8);
  }

  /** The member's bits: the data as one little-endian number, shifted by the offset, modulo 2^size. */
  method ReadDdlMember(raw: seq<Byte>, offset: nat, size: nat) returns (value: nat)
    requires 1 <= size <= 64 && offset + size <= 8 * |raw|
    ensures value == Low(Shr(FromBytes(raw), offset), size)
    ensures value < Pow2(size)
  {
    var buffer := new Byte[8](i => 0);
    if offset % 8 == 0 && size % 8 == 0 {
      CopyBytes(raw, offset, size, buffer);
    } else {
      CopyBits(raw, offset, size, buffer);
    }
    ShiftAndMask(Shr(FromBytes(raw), offset), size);
    value := FromBytes(buffer[..]);
  }
}
