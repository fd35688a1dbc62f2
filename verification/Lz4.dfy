/** The LZ4 block decoder, and the block format it accepts. */
module Lz4 {
  import opened Options
  import opened Bytes

  // ---------- The block format ----------

  /** A block: sequences of literals followed by a match of length extra + 4 at a distance
      back, then an end. `Last` closes with literals alone, and the match half of its token is
      spare. The decoder also takes a block that stops after a match, and one whose last
      distance is cut to a single byte. */
  datatype Block =
    | Stop
    | Last(literals: seq<Byte>, spare: nat)
    | Cut(literals: seq<Byte>, distance: nat, extra: nat)
    | More(literals: seq<Byte>, distance: nat, extra: nat, rest: Block)

  /** Distances point into the output, `size` bytes long before the block. */
  predicate Valid(b: Block, size: nat) {
    match b
    case Stop => true
    case Last(_, spare) => spare < 16
    case Cut(ls, d, extra) => 0 < d < 256 && d <= size + |ls| && extra < 15
    case More(ls, d, extra, rest) => 0 < d < 65536 && d <= size + |ls| && Valid(rest, size + |ls| + extra + 4)
  }

  function Nibble(n: nat): (r: nat)
    ensures r < 16
  {
    if n < 15 then n else 15
  }

  function Token(literals: nat, extra: nat): Byte {
    Nibble(literals) * 16 + Nibble(extra)
  }

  /** The bytes that carry what is left of a length after 15. */
  function Run(m: nat): (r: seq<Byte>)
    ensures |r| > 0
  {
    if m < 255 then [m] else [255] + Run(m - 255)
  }

  function LengthBytes(n: nat): seq<Byte> {
    if n < 15 then [] else Run(n - 15)
  }

  function Opening(literals: seq<Byte>, extra: nat): (r: seq<Byte>)
    ensures |r| > 0
  {
    [Token(|literals|, extra)] + (LengthBytes(|literals|) + literals)
  }

  function Encode(b: Block): seq<Byte> {
    match b
    case Stop => []
    case Last(ls, spare) => Opening(ls, spare)
    case Cut(ls, d, extra) => Opening(ls, extra) + [d % 256]
    case More(ls, d, extra, rest) =>
      Opening(ls, extra) + ([d % 256, d / 256 % 256] + (LengthBytes(extra) + Encode(rest)))
  }

  /** Copying n bytes one by one from `distance` back, so the copy may overlap itself. */
  function Copy(out: seq<Byte>, distance: nat, n: nat): (r: seq<Byte>)
    requires 0 < distance <= |out|
    ensures |r| == |out| + n
    decreases n
  {
    if n == 0 then out else Copy(out + [out[|out| - distance]], distance, n - 1)
  }

  /** The output after the block, step by step. */
  function Expand(b: Block, out: seq<Byte>): (r: seq<Byte>)
    requires Valid(b, |out|)
    ensures |r| >= |out|
    decreases b
  {
    match b
    case Stop => out
    case Last(ls, _) => out + ls
    case Cut(ls, d, extra) => Copy(out + ls, d, extra + 4)
    case More(ls, d, extra, rest) => Expand(rest, Copy(out + ls, d, extra + 4))
  }

  /** A match extends the output with period `distance`. */
  lemma {:induction false} CopyIsPeriodic(out: seq<Byte>, distance: nat, n: nat)
    requires 0 < distance <= |out|
    ensures Copy(out, distance, n)[..|out|] == out
    ensures forall j :: |out| <= j < |out| + n ==> Copy(out, distance, n)[j] == Copy(out, distance, n)[j - distance]
    decreases n
  {
    if n > 0 {
      var next := out + [out[|out| - distance]];
      CopyIsPeriodic(next, distance, n - 1);
      var r := Copy(next, distance, n - 1);
      assert forall k :: 0 <= k < |next| ==> r[k] == r[..|next|][k] == next[k];
    }
  }

  // ---------- What the decoder computes ----------

  /** A length and the position after its bytes, unless they run past the end. */
  function ReadRun(data: seq<Byte>, pos: nat, n: nat): (r: Option<(nat, nat)>)
    ensures r.Some? ==> n <= r.value.0 && pos < r.value.1
    decreases |data| - pos
  {
    if pos >= |data| then None
    else if data[pos] != 255 then Some((n + data[pos], pos + 1))
    else ReadRun(data, pos + 1, n + 255)
  }

  function ReadLength(data: seq<Byte>, pos: nat, n: nat): (r: Option<(nat, nat)>)
    ensures r.Some? ==> pos <= r.value.1
  {
    if n == 15 then ReadRun(data, pos, n) else Some((n, pos))
  }

  lemma {:induction false} ReadRunOf(data: seq<Byte>, pos: nat, n: nat, m: nat)
    requires HasAt(data, pos, Run(m))
    ensures ReadRun(data, pos, n) == Some((n + m, pos + |Run(m)|))
    decreases m
  {
    assert data[pos..pos + |Run(m)|][0] == data[pos];
    if m >= 255 {
      HasParts(data, pos, [255], Run(m - 255));
      ReadRunOf(data, pos + 1, n + 255, m - 255);
    }
  }

  lemma {:induction false} RunThatWasRead(data: seq<Byte>, pos: nat, n: nat)
    requires ReadRun(data, pos, n).Some?
    ensures var (m, p) := ReadRun(data, pos, n).value;
      n <= m && pos < p <= |data| && data[pos..p] == Run(m - n)
    decreases |data| - pos
  {
    if data[pos] == 255 {
      RunThatWasRead(data, pos + 1, n + 255);
      var (m, p) := ReadRun(data, pos, n).value;
      assert data[pos..p] == [255] + data[pos + 1..p];
    }
  }

  lemma {:induction false} ReadLengthOf(data: seq<Byte>, pos: nat, n: nat)
    requires HasAt(data, pos, LengthBytes(n))
    ensures ReadLength(data, pos, Nibble(n)) == Some((n, pos + |LengthBytes(n)|))
  {
    if n >= 15 {
      ReadRunOf(data, pos, 15, n - 15);
    }
  }

  lemma {:induction false} LengthThatWasRead(data: seq<Byte>, pos: nat, k: nat)
    requires k < 16 && ReadLength(data, pos, k).Some?
    ensures var (n, p) := ReadLength(data, pos, k).value;
      Nibble(n) == k && pos <= p && p - pos == |LengthBytes(n)| && (pos <= |data| ==> HasAt(data, pos, LengthBytes(n)))
    ensures k < 15 ==> ReadLength(data, pos, k).value.0 < 15
  {
    if k == 15 {
      RunThatWasRead(data, pos, 15);
    }
  }

  /** The literals after a token: the position and output behind them. */
  function TakeLiterals(data: seq<Byte>, pos: nat, k: nat, out: seq<Byte>, expected: nat): (r: Option<(nat, seq<Byte>)>)
    requires |out| <= expected
    ensures r.Some? ==> pos <= r.value.0 <= |data| && |out| <= |r.value.1| <= expected
  {
    var l := ReadLength(data, pos, k);
    if l.None? || l.value.1 + l.value.0 > |data| || |out| + l.value.0 > expected then None
    else Some((l.value.1 + l.value.0, out + data[l.value.1..l.value.1 + l.value.0]))
  }

  /** The match behind the literals. */
  function TakeMatch(data: seq<Byte>, pos: nat, k: nat, out: seq<Byte>, expected: nat): (r: Option<(nat, seq<Byte>)>)
    requires |out| <= expected
    ensures r.Some? ==> pos < r.value.0 && |out| <= |r.value.1| <= expected
  {
    var distance := FromBytes(Slice(data, pos, pos + 2));
    var l := ReadLength(data, pos + 2, k);
    if l.None? || !(0 < distance <= |out|) || |out| + l.value.0 + 4 > expected then None
    else Some((l.value.1, Copy(out, distance, l.value.0 + 4)))
  }

  /** One turn of the decoder at pos: it advances, and the output stays within what is expected. */
  function Turn(data: seq<Byte>, pos: nat, out: seq<Byte>, expected: nat): (r: Option<(nat, seq<Byte>)>)
    requires pos < |data| && |out| <= expected
    ensures r.Some? ==> pos < r.value.0 && |out| <= |r.value.1| <= expected
  {
    var t := TakeLiterals(data, pos + 1, data[pos] / 16, out, expected);
    if t.None? || t.value.0 == |data| then t
    else TakeMatch(data, t.value.0, data[pos] % 16, t.value.1, expected)
  }

  function Decode(data: seq<Byte>, pos: nat, out: seq<Byte>, expected: nat): Option<seq<Byte>>
    requires |out| <= expected
    decreases |data| - pos
  {
    if pos >= |data| then if |out| == expected then Some(out) else None else
      var t := Turn(data, pos, out, expected);
      if t.None? then None else Decode(data, t.value.0, t.value.1, expected)
  }

  // ---------- Decoding inverts the format ----------

  lemma {:induction false} OpeningRead(data: seq<Byte>, pos: nat, ls: seq<Byte>, extra: nat)
    requires HasAt(data, pos, Opening(ls, extra))
    ensures data[pos] / 16 == Nibble(|ls|) && data[pos] % 16 == Nibble(extra)
    ensures HasAt(data, pos + 1, LengthBytes(|ls|)) && HasAt(data, pos + 1 + |LengthBytes(|ls|)|, ls)
    ensures |Opening(ls, extra)| == 1 + |LengthBytes(|ls|)| + |ls|
  {
    TokenParts(|ls|, extra);
    hide LengthBytes, Token, Nibble, HasAt;
    HasParts(data, pos, [Token(|ls|, extra)], LengthBytes(|ls|) + ls);
    HoldsByte(data, pos, Token(|ls|, extra));
    HasParts(data, pos + 1, LengthBytes(|ls|), ls);
  }

  lemma {:induction false} LiteralsOf(data: seq<Byte>, pos: nat, ls: seq<Byte>, out: seq<Byte>, expected: nat)
    requires |out| <= expected && HasAt(data, pos, LengthBytes(|ls|)) && HasAt(data, pos + |LengthBytes(|ls|)|, ls)
    ensures TakeLiterals(data, pos, Nibble(|ls|), out, expected) ==
      if |out| + |ls| <= expected then Some((pos + |LengthBytes(|ls|)| + |ls|, out + ls)) else None
  {
    ReadLengthOf(data, pos, |ls|);
  }

  lemma {:induction false} HoldsByte(data: seq<Byte>, pos: nat, x: Byte)
    requires HasAt(data, pos, [x])
    ensures pos < |data| && data[pos] == x
  {
    assert data[pos..pos + 1][0] == data[pos];
  }

  lemma TokenParts(literals: nat, extra: nat)
    ensures Token(literals, extra) / 16 == Nibble(literals) && Token(literals, extra) % 16 == Nibble(extra)
  {
  }

  /** The opening that a turn read. */
  lemma {:induction false} OpeningThatWasRead(data: seq<Byte>, pos: nat, n: nat, q: nat)
    requires pos < |data| && ReadLength(data, pos + 1, data[pos] / 16) == Some((n, q)) && q + n <= |data|
    ensures q == pos + 1 + |LengthBytes(n)|
    ensures forall extra: nat :: Nibble(extra) == data[pos] % 16 ==> HasAt(data, pos, Opening(data[q..q + n], extra))
  {
    LengthThatWasRead(data, pos + 1, data[pos] / 16);
    forall extra: nat | Nibble(extra) == data[pos] % 16
      ensures HasAt(data, pos, Opening(data[q..q + n], extra))
    {
      assert Token(n, extra) == data[pos];
      JoinParts(data, pos + 1, LengthBytes(n), data[q..q + n]);
      JoinParts(data, pos, [Token(n, extra)], LengthBytes(n) + data[q..q + n]);
    }
  }

  ghost predicate Holds(data: seq<Byte>, pos: nat, b: Block) {
    HasAt(data, pos, Encode(b)) && pos + |Encode(b)| == |data|
  }

  /** The parts of a sequence, where they lie in the data. */
  lemma {:induction false} MoreRead(data: seq<Byte>, pos: nat, b: Block)
    requires b.More? && 0 < b.distance < 65536 && Holds(data, pos, b)
    ensures HasAt(data, pos, Opening(b.literals, b.extra))
    ensures var p := pos + |Opening(b.literals, b.extra)|;
      && p < |data| && FromBytes(Slice(data, p, p + 2)) == b.distance
      && ReadLength(data, p + 2, Nibble(b.extra)) == Some((b.extra, p + 2 + |LengthBytes(b.extra)|))
      && Holds(data, p + 2 + |LengthBytes(b.extra)|, b.rest)
  {
    var ls, d, extra, rest := b.literals, b.distance, b.extra, b.rest;
    hide Opening, LengthBytes, ReadLength, Nibble, FromBytes;
    var p := pos + |Opening(ls, extra)|;
    var two: seq<Byte> := [d % 256, d / 256 % 256];
    HasParts(data, pos, Opening(ls, extra), two + (LengthBytes(extra) + Encode(rest)));
    HasParts(data, p, two, LengthBytes(extra) + Encode(rest));
    HasParts(data, p + 2, LengthBytes(extra), Encode(rest));
    ReadLengthOf(data, p + 2, extra);
    assert Slice(data, p, p + 2) == two;
    DistanceBytes(d);
  }

  lemma {:induction false} DistanceBytes(d: nat)
    requires d < 65536
    ensures FromBytes([d % 256, d / 256 % 256]) == d
  {
    var two: seq<Byte> := [d % 256, d / 256];
    assert FromBytes(two[1..]) == d / 256;
  }

  /** A turn that reads literals and a match. */
  lemma {:induction false} TurnOf(data: seq<Byte>, pos: nat, out: seq<Byte>, expected: nat, ls: seq<Byte>, d: nat,
                                  extra: nat, next: nat)
    requires |out| <= expected && 0 < d <= |out| + |ls| && HasAt(data, pos, Opening(ls, extra))
    requires var p := pos + |Opening(ls, extra)|;
      p < |data| && FromBytes(Slice(data, p, p + 2)) == d &&
        ReadLength(data, p + 2, Nibble(extra)) == Some((extra, next))
    ensures Turn(data, pos, out, expected) ==
      if |out| + |ls| + extra + 4 <= expected then Some((next, Copy(out + ls, d, extra + 4))) else None
  {
    hide Copy, FromBytes, ReadLength, HasAt, Opening, Slice, Nibble, LengthBytes, TakeLiterals;
    OpeningRead(data, pos, ls, extra);
    LiteralsOf(data, pos + 1, ls, out, expected);
  }

  lemma {:induction false} TurnAtLast(data: seq<Byte>, pos: nat, out: seq<Byte>, expected: nat, ls: seq<Byte>,
                                      spare: nat)
    requires |out| <= expected && Holds(data, pos, Last(ls, spare))
    ensures Turn(data, pos, out, expected) == if |out| + |ls| <= expected then Some((|data|, out + ls)) else None
  {
    hide TakeMatch, Opening, Nibble, LengthBytes, TakeLiterals, HasAt;
    OpeningRead(data, pos, ls, spare);
    LiteralsOf(data, pos + 1, ls, out, expected);
  }

  /** Decoding the encoding of a block gives its expansion, when that is as long as expected. */
  lemma {:induction false} DecodeOf(b: Block, data: seq<Byte>, pos: nat, out: seq<Byte>, expected: nat)
    requires Valid(b, |out|) && |out| <= expected && Holds(data, pos, b)
    ensures Decode(data, pos, out, expected) == if |Expand(b, out)| == expected then Some(Expand(b, out)) else None
    decreases b
  {
    hide Copy, FromBytes, ReadLength, Slice, Turn;
    match b {
      case Stop =>
      case Last(ls, spare) =>
        TurnAtLast(data, pos, out, expected, ls, spare);
      case Cut(ls, d, extra) =>
        CutRead(data, pos, b);
        TurnOf(data, pos, out, expected, ls, d, extra, |data| + 1);
      case More(ls, d, extra, rest) =>
        MoreRead(data, pos, b);
        var next := pos + |Opening(ls, extra)| + 2 + |LengthBytes(extra)|;
        TurnOf(data, pos, out, expected, ls, d, extra, next);
        if |out| + |ls| + extra + 4 <= expected {
          DecodeOf(rest, data, next, Copy(out + ls, d, extra + 4), expected);
        }
    }
  }

  lemma {:induction false} CutRead(data: seq<Byte>, pos: nat, b: Block)
    requires b.Cut? && 0 < b.distance < 256 && b.extra < 15 && Holds(data, pos, b)
    ensures HasAt(data, pos, Opening(b.literals, b.extra))
    ensures var p := pos + |Opening(b.literals, b.extra)|;
      p + 1 == |data| && FromBytes(Slice(data, p, p + 2)) == b.distance
      && ReadLength(data, p + 2, Nibble(b.extra)) == Some((b.extra, p + 2))
  {
    HasParts(data, pos, Opening(b.literals, b.extra), [b.distance % 256]);
    var p := pos + |Opening(b.literals, b.extra)|;
    assert Slice(data, p, p + 2) == [b.distance];
  }

  /** A block that starts with what a turn has read. */
  lemma {:induction false} MoreThatWasRead(data: seq<Byte>, pos: nat, n: nat, q: nat, extra: nat, next: nat,
                                           rest: Block)
    requires pos < |data| && ReadLength(data, pos + 1, data[pos] / 16) == Some((n, q)) && q + n + 2 <= |data|
    requires ReadLength(data, q + n + 2, data[pos] % 16) == Some((extra, next)) && next <= |data|
    requires Holds(data, next, rest)
    ensures Holds(data, pos, More(data[q..q + n], FromBytes(Slice(data, q + n, q + n + 2)), extra, rest))
    ensures FromBytes(Slice(data, q + n, q + n + 2)) < 65536
  {
    hide FromBytes, Slice, ReadLength, Opening, HasAt, LengthBytes, Nibble, Token, Encode;
    OpeningThatWasRead(data, pos, n, q);
    LengthThatWasRead(data, q + n + 2, data[pos] % 16);
    assert |Opening(data[q..q + n], extra)| == q + n - pos by { OpeningSize(data[q..q + n], extra); }
    MoreHolds(data, pos, data[q..q + n], q + n, extra, rest);
  }

  lemma OpeningSize(ls: seq<Byte>, extra: nat)
    ensures |Opening(ls, extra)| == 1 + |LengthBytes(|ls|)| + |ls|
  {
  }

  lemma {:induction false} MoreHolds(data: seq<Byte>, pos: nat, ls: seq<Byte>, p: nat, extra: nat, rest: Block)
    requires HasAt(data, pos, Opening(ls, extra)) && p == pos + |Opening(ls, extra)| && p + 2 <= |data|
    requires HasAt(data, p + 2, LengthBytes(extra)) && Holds(data, p + 2 + |LengthBytes(extra)|, rest)
    ensures FromBytes(Slice(data, p, p + 2)) < 65536
    ensures Holds(data, pos, More(ls, FromBytes(Slice(data, p, p + 2)), extra, rest))
  {
    hide FromBytes, Slice, Opening, HasAt, LengthBytes, Encode;
    var two := Slice(data, p, p + 2);
    SliceIsThere(data, p, 2);
    TwoBytes(two);
    assert HasAt(data, p + 2 + |LengthBytes(extra)|, Encode(rest));
    JoinParts(data, p + 2, LengthBytes(extra), Encode(rest));
    MoreAt(data, pos, ls, FromBytes(two), extra, rest);
  }

  lemma {:induction false} MoreAt(data: seq<Byte>, pos: nat, ls: seq<Byte>, d: nat, extra: nat, rest: Block)
    requires HasAt(data, pos, Opening(ls, extra))
    requires HasAt(data, pos + |Opening(ls, extra)|, [d % 256, d / 256 % 256])
    requires HasAt(data, pos + |Opening(ls, extra)| + 2, LengthBytes(extra) + Encode(rest))
    ensures HasAt(data, pos, Encode(More(ls, d, extra, rest)))
    ensures |Encode(More(ls, d, extra, rest))| == |Opening(ls, extra)| + 2 + |LengthBytes(extra)| + |Encode(rest)|
  {
    hide Opening, HasAt, LengthBytes;
    var two: seq<Byte> := [d % 256, d / 256 % 256];
    JoinParts(data, pos + |Opening(ls, extra)|, two, LengthBytes(extra) + Encode(rest));
    JoinParts(data, pos, Opening(ls, extra), two + (LengthBytes(extra) + Encode(rest)));
  }

  lemma SliceIsThere(data: seq<Byte>, p: nat, n: nat)
    requires p + n <= |data|
    ensures |Slice(data, p, p + n)| == n && HasAt(data, p, Slice(data, p, p + n))
  {
  }

  lemma {:induction false} TwoBytes(s: seq<Byte>)
    requires |s| == 2
    ensures FromBytes(s) < 65536 && s == [FromBytes(s) % 256, FromBytes(s) / 256 % 256]
  {
    assert FromBytes(s[1..]) == s[1];
  }

  lemma {:induction false} CutThatWasRead(data: seq<Byte>, pos: nat, n: nat, q: nat, extra: nat, next: nat)
    requires pos < |data| && ReadLength(data, pos + 1, data[pos] / 16) == Some((n, q)) && q + n + 1 == |data|
    requires ReadLength(data, |data| + 1, data[pos] % 16) == Some((extra, next))
    ensures next == |data| + 1 && extra < 15 && FromBytes(Slice(data, q + n, q + n + 2)) < 256
    ensures Holds(data, pos, Cut(data[q..q + n], FromBytes(Slice(data, q + n, q + n + 2)), extra))
  {
    OpeningThatWasRead(data, pos, n, q);
    assert extra == data[pos] % 16 && Nibble(extra) == extra && next == |data| + 1;
    CutHolds(data, pos, data[q..q + n], extra);
  }

  lemma {:induction false} CutHolds(data: seq<Byte>, pos: nat, ls: seq<Byte>, extra: nat)
    requires HasAt(data, pos, Opening(ls, extra)) && pos + |Opening(ls, extra)| + 1 == |data|
    ensures FromBytes(Slice(data, |data| - 1, |data| + 1)) < 256
    ensures Holds(data, pos, Cut(ls, FromBytes(Slice(data, |data| - 1, |data| + 1)), extra))
  {
    hide Opening;
    var last := data[|data| - 1];
    assert Slice(data, |data| - 1, |data| + 1) == [last];
    assert HasAt(data, |data| - 1, [last]);
    JoinParts(data, pos, Opening(ls, extra), [last]);
  }

  lemma {:induction false} LiteralsTaken(data: seq<Byte>, pos: nat, k: nat, out: seq<Byte>, expected: nat)
    returns (n: nat, q: nat)
    requires |out| <= expected && TakeLiterals(data, pos, k, out, expected).Some?
    ensures ReadLength(data, pos, k) == Some((n, q)) && q + n <= |data|
    ensures TakeLiterals(data, pos, k, out, expected) == Some((q + n, out + data[q..q + n]))
  {
    n, q := ReadLength(data, pos, k).value.0, ReadLength(data, pos, k).value.1;
  }

  lemma {:induction false} MatchTaken(data: seq<Byte>, pos: nat, k: nat, out: seq<Byte>, expected: nat)
    returns (d: nat, extra: nat, next: nat)
    requires |out| <= expected && TakeMatch(data, pos, k, out, expected).Some?
    ensures ReadLength(data, pos + 2, k) == Some((extra, next)) && d == FromBytes(Slice(data, pos, pos + 2))
    ensures 0 < d <= |out|
    ensures TakeMatch(data, pos, k, out, expected) == Some((next, Copy(out, d, extra + 4)))
  {
    d := FromBytes(Slice(data, pos, pos + 2));
    extra, next := ReadLength(data, pos + 2, k).value.0, ReadLength(data, pos + 2, k).value.1;
  }

  /** Whatever the decoder takes is the encoding of a block, and its result the expansion. */
  lemma {:induction false} DecodedBlock(data: seq<Byte>, pos: nat, out: seq<Byte>, expected: nat) returns (b: Block)
    requires |out| <= expected && pos <= |data| && Decode(data, pos, out, expected).Some?
    ensures Valid(b, |out|) && Holds(data, pos, b)
    ensures Decode(data, pos, out, expected) == Some(Expand(b, out))
    decreases |data| - pos
  {
    hide Copy, FromBytes, ReadLength, Encode, Slice, Holds, HasAt, Opening, LengthBytes, TakeLiterals, TakeMatch;
    if pos == |data| {
      NothingHeld(data);
      return Stop;
    }
    var n, q := LiteralsTaken(data, pos + 1, data[pos] / 16, out, expected);
    var p := q + n;
    var ls := data[q..p];
    if p == |data| {
      LastThatWasRead(data, pos, n, q);
      return Last(ls, data[pos] % 16);
    }
    var d, extra, next := MatchTaken(data, p, data[pos] % 16, out + ls, expected);
    if p + 1 == |data| {
      CutThatWasRead(data, pos, n, q, extra, next);
      return Cut(ls, d, extra);
    }
    MatchEndsInside(data, p + 2, data[pos] % 16);
    var rest := DecodedBlock(data, next, Copy(out + ls, d, extra + 4), expected);
    MoreThatWasRead(data, pos, n, q, extra, next, rest);
    return More(ls, d, extra, rest);
  }

  lemma NothingHeld(data: seq<Byte>)
    ensures Holds(data, |data|, Stop)
  {
  }

  lemma {:induction false} LastThatWasRead(data: seq<Byte>, pos: nat, n: nat, q: nat)
    requires pos < |data| && ReadLength(data, pos + 1, data[pos] / 16) == Some((n, q)) && q + n == |data|
    ensures Holds(data, pos, Last(data[q..q + n], data[pos] % 16))
  {
    var spare := data[pos] % 16;
    OpeningThatWasRead(data, pos, n, q);
    assert Nibble(spare) == spare;
  }

  lemma {:induction false} MatchEndsInside(data: seq<Byte>, pos: nat, k: nat)
    requires pos <= |data| && k < 16 && ReadLength(data, pos, k).Some?
    ensures ReadLength(data, pos, k).value.1 <= |data|
  {
    if k == 15 {
      RunThatWasRead(data, pos, 15);
    }
  }

  /** `out` is the expansion of the block that the data encode. */
  ghost predicate Unpacks(data: seq<Byte>, b: Block, out: seq<Byte>) {
    Valid(b, 0) && data == Encode(b) && out == Expand(b, [])
  }

  lemma {:induction false} DecodeIsExact(data: seq<Byte>, expected: nat)
    ensures forall b, out :: Unpacks(data, b, out) && |out| == expected ==> Decode(data, 0, [], expected) == Some(out)
    ensures Decode(data, 0, [], expected).Some? ==>
      exists b :: Unpacks(data, b, Decode(data, 0, [], expected).value)
    ensures Decode(data, 0, [], expected).Some? ==> |Decode(data, 0, [], expected).value| == expected
  {
    forall b, out | Unpacks(data, b, out) && |out| == expected
      ensures Decode(data, 0, [], expected) == Some(out)
    {
      assert data[0..|data|] == data;
      DecodeOf(b, data, 0, [], expected);
    }
    if Decode(data, 0, [], expected).Some? {
      var b := DecodedBlock(data, 0, [], expected);
      assert data[0..|data|] == data;
      assert Unpacks(data, b, Decode(data, 0, [], expected).value);
      DecodedSize(data, 0, [], expected);
    }
  }

  /** A short block, byte by byte: literals, then a match of at least four bytes that repeats
      what lies d bytes before it. */
  lemma {:induction false} ShortBlock(ls: seq<Byte>, d: nat, extra: nat, data: seq<Byte>)
    requires |ls| < 15 && extra < 15 && 0 < d <= |ls|
    requires data == [16 * |ls| + extra] + ls + [d, 0]
    ensures var r := Decode(data, 0, [], |ls| + 4 + extra);
      && r.Some? && |r.value| == |ls| + 4 + extra && r.value[..|ls|] == ls
      && forall j :: |ls| <= j < |r.value| ==> r.value[j] == r.value[j - d]
  {
    hide Copy, Decode, Encode, Expand, Valid, Holds;
    CopyIsPeriodic(ls, d, extra + 4);
    ShortEncoded(ls, d, extra);
    ShortDecoded(ls, d, extra, data);
  }

  lemma {:induction false} ShortDecoded(ls: seq<Byte>, d: nat, extra: nat, data: seq<Byte>)
    requires |ls| < 15 && extra < 15 && 0 < d <= |ls| && data == Encode(More(ls, d, extra, Stop))
    ensures Decode(data, 0, [], |ls| + 4 + extra) == Some(Copy(ls, d, extra + 4))
  {
    hide Copy, Decode, Encode;
    var b := More(ls, d, extra, Stop);
    assert [] + ls == ls && Expand(b, []) == Copy(ls, d, extra + 4);
    assert data[0..|data|] == data;
    assert Valid(b, 0);
    hide Expand, Valid;
    DecodeOf(b, data, 0, [], |ls| + 4 + extra);
  }

  lemma {:induction false} ShortEncoded(ls: seq<Byte>, d: nat, extra: nat)
    requires |ls| < 15 && extra < 15 && 0 < d <= |ls|
    ensures Encode(More(ls, d, extra, Stop)) == [16 * |ls| + extra] + ls + [d, 0]
  {
    assert [d, 0] + ([] + []) == [d, 0];
    assert [16 * |ls| + extra] + ([] + ls) + [d, 0] == [16 * |ls| + extra] + ls + [d, 0];
  }

  /** Many literals, byte by byte: 15 of them are counted by the token, 255 by each full byte
      after it, and the rest by the last. */
  lemma {:induction false} LongLiterals(ls: seq<Byte>, k: nat, rest: Byte, data: seq<Byte>)
    requires |ls| == 15 + 255 * k + rest && rest < 255
    requires data == [0xf0] + (seq(k, _ => 255) + [rest]) + ls
    ensures Decode(data, 0, [], |ls|) == Some(ls)
  {
    var b := Last(ls, 0);
    RunIs(k, rest);
    assert Encode(b) == data;
    assert data[0..|data|] == data && [] + ls == ls;
    DecodeOf(b, data, 0, [], |ls|);
  }

  lemma {:induction false} RunIs(k: nat, rest: Byte)
    requires rest < 255
    ensures Run(255 * k + rest) == seq(k, _ => 255) + [rest]
  {
    if k > 0 {
      RunIs(k - 1, rest);
      assert Run(255 * k + rest) == [255] + Run(255 * (k - 1) + rest);
      assert [255] + seq(k - 1, _ => 255) == seq(k, _ => 255);
    }
  }

  lemma {:induction false} DecodedSize(data: seq<Byte>, pos: nat, out: seq<Byte>, expected: nat)
    requires |out| <= expected && Decode(data, pos, out, expected).Some?
    ensures |Decode(data, pos, out, expected).value| == expected
    decreases |data| - pos
  {
    if pos < |data| {
      var t := Turn(data, pos, out, expected);
      DecodedSize(data, t.value.0, t.value.1, expected);
    }
  }

  /** Blocks with the same encoding expand to the same bytes. */
  lemma {:induction false} SameEncodingSameBytes(b1: Block, b2: Block)
    requires Valid(b1, 0) && Valid(b2, 0) && Encode(b1) == Encode(b2)
    ensures Expand(b1, []) == Expand(b2, [])
  {
    var data := Encode(b1);
    assert Unpacks(data, b1, Expand(b1, [])) && Unpacks(data, b2, Expand(b2, []));
    DecodeIsExact(data, |Expand(b1, [])|);
    DecodeIsExact(data, |Expand(b2, [])|);
    assert data[0..|data|] == data;
    DecodeOf(b2, data, 0, [], |Expand(b1, [])|);
  }

  // ---------- The decoder ----------

  /** A length at pos, for a nibble n of a token; fails at the end of the data. */
  method Length(data: seq<Byte>, pos: nat, n: nat) returns (ok: bool, value: nat, next: nat)
    ensures ReadLength(data, pos, n) == if ok then Some((value, next)) else None
  {
    value, next := n, pos;
    if n == 15 {
      var b := 255;
      while b == 255
        invariant pos <= next
        invariant if b == 255 then ReadRun(data, pos, n) == ReadRun(data, next, value)
          else ReadRun(data, pos, n) == Some((value, next))
        decreases |data| - next, b
      {
        if next >= |data| {
          return false, 0, 0;
        }
        b := data[next];
        next := next + 1;
        value := value + b;
      }
    }
    ok := true;
  }

  /** The decoder succeeds exactly on the encodings of blocks that expand to `expected` bytes,
      and then gives the expansion. */
  method Lz4(data: seq<Byte>, expected: nat) returns (r: Option<seq<Byte>>)
    ensures r == Decode(data, 0, [], expected)
    ensures forall b, out :: Unpacks(data, b, out) && |out| == expected ==> r == Some(out)
    ensures r.Some? ==> |r.value| == expected && exists b :: Unpacks(data, b, r.value)
  {
    DecodeIsExact(data, expected);
    hide Unpacks, ReadLength, Copy, Slice, FromBytes, Turn;
    var out: seq<Byte> := [];
    var pos: nat := 0;
    while pos < |data|
      invariant |out| <= expected
      invariant Decode(data, 0, [], expected) == Decode(data, pos, out, expected)
      decreases |data| - pos
    {
      var token := data[pos];
      ghost var p0, out0 := pos, out;
      TurnStarts(data, pos, out, expected);
      pos := pos + 1;
      var ok, n, next := Length(data, pos, token / 16);
      if !ok || next + n > |data| || |out| + n > expected {
        return None;
      }
      out, pos := out + data[next..next + n], next + n;
      assert TakeLiterals(data, p0 + 1, token / 16, out0, expected) == Some((pos, out));
      if pos == |data| {
        break;
      }
      ghost var p1, out1 := pos, out;
      var distance := FromBytes(Slice(data, pos, pos + 2));
      pos := pos + 2;
      ok, n, pos := Length(data, pos, token % 16);
      if !ok || !(0 < distance <= |out|) || |out| + n + 4 > expected {
        return None;
      }
      out := CopyMatch(out, distance, n + 4);
      assert TakeMatch(data, p1, token % 16, out1, expected) == Some((pos, out));
    }
    return if |out| == expected then Some(out) else None;
  }

  lemma TurnStarts(data: seq<Byte>, pos: nat, out: seq<Byte>, expected: nat)
    requires pos < |data| && |out| <= expected
    ensures var t := TakeLiterals(data, pos + 1, data[pos] / 16, out, expected);
      Turn(data, pos, out, expected) ==
      if t.None? || t.value.0 == |data| then t else TakeMatch(data, t.value.0, data[pos] % 16, t.value.1, expected)
  {
  }

  method CopyMatch(out: seq<Byte>, distance: nat, n: nat) returns (r: seq<Byte>)
    requires 0 < distance <= |out|
    ensures r == Copy(out, distance, n)
  {
    r := out;
    for i := 0 to n
      invariant |r| == |out| + i && Copy(r, distance, n - i) == Copy(out, distance, n)
    {
      r := r + [r[|r| - distance]];
    }
  }
}
