/** Byte strings and little-endian numbers. */
module Bytes {

  type Byte = x: int | 0 <= x < 256

  /** 256 to the power w: one more than the largest w-byte number. */
  function Limit(w: nat): (r: nat)
    ensures r > 0
  {
    if w == 0 then 1 else 256 * Limit(w - 1)
  }

  function ToBytes(v: nat, w: nat): (r: seq<Byte>)
    ensures |r| == w
  {
    if w == 0 then [] else [v % 256] + ToBytes(v / 256, w - 1)
  }

  function FromBytes(s: seq<Byte>): nat {
    if s == [] then 0 else s[0] + 256 * FromBytes(s[1..])
  }

  lemma {:induction false} FromBytesBound(s: seq<Byte>)
    ensures FromBytes(s) < Limit(|s|)
  {
    if s != [] {
      FromBytesBound(s[1..]);
    }
  }

  /** Little endian: a byte counts 256 to the power of the number of bytes before it. */
  lemma {:induction false} LastByte(s: seq<Byte>, b: Byte)
    ensures FromBytes(s + [b]) == FromBytes(s) + b * Limit(|s|)
  {
    if s == [] {
      assert [] + [b] == [b] && [b][1..] == [];
    } else {
      assert (s + [b])[1..] == s[1..] + [b];
      LastByte(s[1..], b);
      assert 256 * (b * Limit(|s| - 1)) == b * (256 * Limit(|s| - 1));
    }
  }

  /** The numbers of two and four bytes. */
  lemma {:induction false} FourBytes(a: Byte, b: Byte, c: Byte, d: Byte)
    ensures FromBytes([a, b]) == a + 0x100 * b
    ensures FromBytes([a, b, c, d]) == a + 0x100 * b + 0x1_0000 * c + 0x100_0000 * d
  {
    Limits();
    LastByte([], a);
    LastByte([a], b);
    LastByte([a, b], c);
    LastByte([a, b, c], d);
    assert [] + [a] == [a] && [a] + [b] == [a, b] && [a, b] + [c] == [a, b, c] && [a, b, c] + [d] == [a, b, c, d];
    assert Limit(0) == 1;
  }

  /** Writing v in w bytes keeps v modulo 256^w. */
  lemma {:induction false} WriteThenRead(v: nat, w: nat)
    requires v < Limit(w)
    ensures FromBytes(ToBytes(v, w)) == v
  {
    if w > 0 {
      assert ToBytes(v, w)[1..] == ToBytes(v / 256, w - 1);
      WriteThenRead(v / 256, w - 1);
    }
  }

  lemma {:induction false} ReadThenWrite(s: seq<Byte>)
    ensures ToBytes(FromBytes(s), |s|) == s
  {
    if s != [] {
      assert FromBytes(s) % 256 == s[0] && FromBytes(s) / 256 == FromBytes(s[1..]);
      ReadThenWrite(s[1..]);
      assert s == [s[0]] + s[1..];
    }
  }

  /** The part of s between two positions, as the slice s[lo:hi] of a program whose
      slices stop silently at the end. */
  function Slice(s: seq<Byte>, lo: nat, hi: nat): (r: seq<Byte>)
    requires lo <= hi
  {
    if |s| <= lo then [] else if |s| <= hi then s[lo..] else s[lo..hi]
  }

  /** The little-endian number in w bytes at pos. */
  function ReadAt(data: seq<Byte>, pos: nat, w: nat): nat {
    FromBytes(Slice(data, pos, pos + w))
  }

  /** s holds t at position i. */
  predicate HasAt(s: seq<Byte>, i: nat, t: seq<Byte>) {
    i + |t| <= |s| && s[i..i + |t|] == t
  }

  lemma {:induction false} NumberAt(data: seq<Byte>, pos: nat, v: nat, w: nat)
    requires v < Limit(w) && HasAt(data, pos, ToBytes(v, w))
    ensures ReadAt(data, pos, w) == v
  {
    assert Slice(data, pos, pos + w) == ToBytes(v, w);
    WriteThenRead(v, w);
  }

  lemma {:induction false} HasParts(s: seq<Byte>, i: nat, t: seq<Byte>, u: seq<Byte>)
    requires HasAt(s, i, t + u)
    ensures HasAt(s, i, t) && HasAt(s, i + |t|, u)
  {
    assert s[i..i + |t + u|][..|t|] == t && s[i..i + |t + u|][|t|..] == u;
  }

  lemma {:induction false} JoinParts(s: seq<Byte>, i: nat, t: seq<Byte>, u: seq<Byte>)
    requires HasAt(s, i, t) && HasAt(s, i + |t|, u)
    ensures HasAt(s, i, t + u)
  {
    assert s[i..i + |t + u|] == s[i..i + |t|] + s[i + |t|..i + |t| + |u|];
  }

  lemma WholeIsThere(data: seq<Byte>)
    ensures HasAt(data, 0, data)
  {
  }

  function Zeros(n: nat): (r: seq<Byte>)
    ensures |r| == n
  {
    if n == 0 then [] else [0] + Zeros(n - 1)
  }

  lemma {:induction false} ZeroAt(n: nat, i: nat)
    requires i < n
    ensures Zeros(n)[i] == 0
  {
    if i > 0 {
      ZeroAt(n - 1, i - 1);
    }
  }

  lemma {:induction false} ZerosSplit(k: nat, n: nat)
    requires k <= n
    ensures Zeros(n)[k..] == Zeros(n - k) && Zeros(n)[..k] == Zeros(k)
    decreases k
  {
    if k > 0 {
      ZerosSplit(k - 1, n - 1);
      assert Zeros(n)[k..] == Zeros(n)[1..][k - 1..];
      assert Zeros(n)[..k] == [0] + Zeros(n)[1..][..k - 1];
    }
  }

  lemma {:induction false} OnlyZeros(s: seq<Byte>)
    requires forall i :: 0 <= i < |s| ==> s[i] == 0
    ensures s == Zeros(|s|)
    decreases |s|
  {
    if s != [] {
      OnlyZeros(s[1..]);
      assert s == [s[0]] + s[1..];
    }
  }

  /** s with the bytes x written over those from `at` on. */
  function Patched(s: seq<Byte>, at: nat, x: seq<Byte>): (r: seq<Byte>)
    requires at + |x| <= |s|
    ensures |r| == |s|
  {
    s[..at] + x + s[at + |x|..]
  }

  lemma {:induction false} Limits()
    ensures Limit(1) == 0x100 && Limit(2) == 0x1_0000 && Limit(3) == 0x100_0000
    ensures Limit(4) == 0x1_0000_0000 && Limit(8) == 0x1_0000_0000_0000_0000
  {
    assert Limit(3) == 256 * Limit(2) && Limit(4) == 256 * Limit(3);
    assert Limit(5) == 256 * Limit(4) && Limit(6) == 256 * Limit(5) && Limit(7) == 256 * Limit(6) &&
      Limit(8) == 256 * Limit(7);
  }
}
