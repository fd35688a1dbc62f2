/** The fastfile container: its format, and what the reader computes. */
module Container {
  import opened Options
  import opened Bytes
  import Lz4

  const MAGIC: seq<Byte> := [73, 87, 102, 102, 99, 49, 48, 48]   // IWffc100
  const CHUNK_MAGIC: seq<Byte> := [2, 73, 87, 67]                 // \x02IWC
  const STORED_CODEC := 1
  const LZ4_CODEC := 5

  // ---------- The format ----------

  /** One chunk: the length of its contents, the bytes stored for them, and padding. */
  datatype Chunk = Chunk(raw: nat, stored: seq<Byte>, pad: seq<Byte>)

  /** A container; `reserved`, `total` and `spare` are bytes that the reader does not look at. */
  datatype File = File(reserved: seq<Byte>, total: seq<Byte>, spare: seq<Byte>, blocks: seq<nat>, limit: nat,
    codec: Byte, chunks: seq<Chunk>)

  /** Bytes needed to bring n to a multiple of four. */
  function PadSize(n: nat): (r: nat)
    ensures r < 4 && (n + r) % 4 == 0
  {
    (4 - n % 4) % 4
  }

  function Aligned(n: nat): nat {
    (n + 3) / 4 * 4
  }

  lemma AlignedIsPadded(n: nat)
    ensures Aligned(n) == n + PadSize(n)
  {
  }

  function Content(c: Chunk, codec: Byte): Option<seq<Byte>> {
    if codec == STORED_CODEC then Some(c.stored) else Lz4.Decode(c.stored, 0, [], c.raw)
  }

  predicate Fine(c: Chunk, limit: nat, codec: Byte) {
    0 < c.raw <= limit && c.raw < Limit(4) && |c.stored| < Limit(4)
    && |c.pad| == PadSize(|c.stored|) && Content(c, codec).Some?
  }

  function Heading(c: Chunk): (r: seq<Byte>)
    ensures |r| == 12
  {
    ToBytes(|c.stored|, 4) + (ToBytes(c.raw, 4) + ToBytes(0, 4))
  }

  function ChunkBytes(c: Chunk): (r: seq<Byte>)
    ensures |r| == 12 + |c.stored| + |c.pad|
  {
    Heading(c) + (c.stored + c.pad)
  }

  /** Codec 1 stores the contents, and codec 5 is LZ4. */
  lemma ContentIs(c: Chunk)
    ensures Content(c, 1) == Some(c.stored) && Content(c, 5) == Lz4.Decode(c.stored, 0, [], c.raw)
  {
  }

  /** A chunk is three numbers, of the stored length, the length of the contents and zero, then the
      stored bytes, then up to three more to a multiple of four. */
  lemma {:induction false} ChunkIs(c: Chunk, limit: nat, codec: Byte)
    requires Fine(c, limit, codec)
    ensures var b, n := ChunkBytes(c), |c.stored|;
      && FromBytes(b[..4]) == n && FromBytes(b[4..8]) == c.raw <= limit && FromBytes(b[8..12]) == 0
      && b[12..12 + n] == c.stored && 12 + n <= |b| < 12 + n + 4 && |b| % 4 == 0
  {
    Limits();
    var b := ChunkBytes(c);
    hide Limit, ToBytes, FromBytes;
    assert b[..4] == ToBytes(|c.stored|, 4) && b[4..8] == ToBytes(c.raw, 4) && b[8..12] == ToBytes(0, 4);
    WriteThenRead(|c.stored|, 4);
    WriteThenRead(c.raw, 4);
    WriteThenRead(0, 4);
  }

  function AllBytes(cs: seq<Chunk>): seq<Byte> {
    if cs == [] then [] else ChunkBytes(cs[0]) + AllBytes(cs[1..])
  }

  /** Every chunk is needed: from `have` bytes, contents reach `size` only with the last one. */
  predicate Paced(cs: seq<Chunk>, limit: nat, codec: Byte, have: nat, size: nat) {
    if cs == [] then have == size else
      have < size && Fine(cs[0], limit, codec) &&
        Paced(cs[1..], limit, codec, have + |Content(cs[0], codec).value|, size)
  }

  function Contents(cs: seq<Chunk>, limit: nat, codec: Byte, have: nat, size: nat): (r: seq<Byte>)
    requires Paced(cs, limit, codec, have, size)
    ensures have + |r| == size
  {
    if cs == [] then [] else
      Content(cs[0], codec).value + Contents(cs[1..], limit, codec, have + |Content(cs[0], codec).value|, size)
  }

  // ---------- What the reader computes ----------

  /** The number in w bytes at pos, if they are within the data. */
  function TryReadAt(data: seq<Byte>, pos: nat, w: nat): Option<nat> {
    if pos + w <= |data| then Some(FromBytes(data[pos..pos + w])) else None
  }

  /** The contents of the chunk at pos, and the position of the next. */
  function ReadChunk(data: seq<Byte>, pos: nat, limit: nat, codec: Byte): (r: Option<(seq<Byte>, nat)>)
    ensures r.Some? ==> pos + 12 <= r.value.1
  {
    var stored, raw, zero := TryReadAt(data, pos, 4), TryReadAt(data, pos + 4, 4), TryReadAt(data, pos + 8, 4);
    if zero.None? || !(0 < raw.value <= limit && zero.value == 0 && pos + 12 + stored.value <= |data|) then None else
      var part := data[pos + 12..pos + 12 + stored.value];
      var c := Content(Chunk(raw.value, part, []), codec);
      if c.None? then None else Some((c.value, Aligned(pos + 12 + stored.value)))
  }

  function ReadChunks(data: seq<Byte>, pos: nat, limit: nat, codec: Byte, size: nat, body: seq<Byte>,
                      count: nat): Option<(seq<Byte>, nat)>
    decreases |data| - pos
  {
    if |body| >= size then if |body| == size && pos == |data| then Some((body, count)) else None else
      var c := ReadChunk(data, pos, limit, codec);
      if c.None? || c.value.1 > |data| then None
      else ReadChunks(data, c.value.1, limit, codec, size, body + c.value.0, count + 1)
  }

  lemma {:induction false} NumberIsThere(data: seq<Byte>, pos: nat, v: nat, w: nat)
    requires v < Limit(w) && HasAt(data, pos, ToBytes(v, w))
    ensures TryReadAt(data, pos, w) == Some(v)
  {
    WriteThenRead(v, w);
  }

  lemma {:induction false} NumberThatWasRead(data: seq<Byte>, pos: nat, w: nat)
    requires TryReadAt(data, pos, w).Some?
    ensures HasAt(data, pos, ToBytes(TryReadAt(data, pos, w).value, w)) && TryReadAt(data, pos, w).value < Limit(w)
  {
    ReadThenWrite(data[pos..pos + w]);
    FromBytesBound(data[pos..pos + w]);
  }

  lemma {:induction false} HeadingParts(data: seq<Byte>, pos: nat, c: Chunk)
    requires HasAt(data, pos, Heading(c)) && |c.stored| < Limit(4) && c.raw < Limit(4)
    ensures TryReadAt(data, pos, 4) == Some(|c.stored|) && TryReadAt(data, pos + 4, 4) == Some(c.raw)
    ensures TryReadAt(data, pos + 8, 4) == Some(0)
  {
    HasParts(data, pos, ToBytes(|c.stored|, 4), ToBytes(c.raw, 4) + ToBytes(0, 4));
    HasParts(data, pos + 4, ToBytes(c.raw, 4), ToBytes(0, 4));
    NumberIsThere(data, pos, |c.stored|, 4);
    NumberIsThere(data, pos + 4, c.raw, 4);
    NumberIsThere(data, pos + 8, 0, 4);
  }

  lemma {:induction false} HeadingThatWasRead(data: seq<Byte>, pos: nat, c: Chunk)
    requires TryReadAt(data, pos, 4) == Some(|c.stored|) && TryReadAt(data, pos + 4, 4) == Some(c.raw)
    requires TryReadAt(data, pos + 8, 4) == Some(0)
    ensures HasAt(data, pos, Heading(c)) && |c.stored| < Limit(4) && c.raw < Limit(4)
  {
    NumberThatWasRead(data, pos, 4);
    NumberThatWasRead(data, pos + 4, 4);
    NumberThatWasRead(data, pos + 8, 4);
    hide ToBytes, HasAt;
    JoinParts(data, pos + 4, ToBytes(c.raw, 4), ToBytes(0, 4));
    JoinParts(data, pos, ToBytes(|c.stored|, 4), ToBytes(c.raw, 4) + ToBytes(0, 4));
  }

  lemma {:induction false} ChunkRead(data: seq<Byte>, pos: nat, c: Chunk, limit: nat, codec: Byte)
    requires pos % 4 == 0 && Fine(c, limit, codec) && HasAt(data, pos, ChunkBytes(c))
    ensures ReadChunk(data, pos, limit, codec) == Some((Content(c, codec).value, pos + |ChunkBytes(c)|))
    ensures (pos + |ChunkBytes(c)|) % 4 == 0
  {
    HasParts(data, pos, Heading(c), c.stored + c.pad);
    HasParts(data, pos + 12, c.stored, c.pad);
    HeadingParts(data, pos, c);
    AlignedIsPadded(pos + 12 + |c.stored|);
    SamePad(pos, |c.stored|);
    assert Content(Chunk(c.raw, c.stored, []), codec) == Content(c, codec);
    hide Content, Heading, ToBytes, TryReadAt, PadSize, Aligned;
  }

  /** Padding a chunk by itself is padding it where it stands. */
  lemma {:induction false} SamePad(pos: nat, n: nat)
    requires pos % 4 == 0
    ensures PadSize(pos + 12 + n) == PadSize(n)
  {
    var k, q, r := pos / 4, n / 4, n % 4;
    assert pos + 12 + n == 4 * (k + 3 + q) + r;
    assert (pos + 12 + n) % 4 == r;
  }

  lemma {:induction false} ChunkThatWasRead(data: seq<Byte>, pos: nat, limit: nat, codec: Byte) returns (c: Chunk)
    requires pos % 4 == 0 && ReadChunk(data, pos, limit, codec).Some?
    requires ReadChunk(data, pos, limit, codec).value.1 <= |data|
    ensures Fine(c, limit, codec) && HasAt(data, pos, ChunkBytes(c))
    ensures ReadChunk(data, pos, limit, codec).value == (Content(c, codec).value, pos + |ChunkBytes(c)|)
    ensures (pos + |ChunkBytes(c)|) % 4 == 0
  {
    var n := TryReadAt(data, pos, 4).value;
    var stored := data[pos + 12..pos + 12 + n];
    AlignedIsPadded(pos + 12 + n);
    SamePad(pos, n);
    c := Chunk(TryReadAt(data, pos + 4, 4).value, stored, data[pos + 12 + n..pos + 12 + n + PadSize(n)]);
    HeadingThatWasRead(data, pos, c);
    assert Content(Chunk(c.raw, c.stored, []), codec) == Content(c, codec);
    hide Content, Heading, ToBytes, TryReadAt, PadSize, Aligned;
    JoinParts(data, pos + 12, c.stored, c.pad);
    JoinParts(data, pos, Heading(c), c.stored + c.pad);
  }

  /** The data from pos on are the chunks cs. */
  ghost predicate Ends(data: seq<Byte>, pos: nat, cs: seq<Chunk>) {
    HasAt(data, pos, AllBytes(cs)) && pos + |AllBytes(cs)| == |data|
  }

  lemma {:induction false} ChunksRead(data: seq<Byte>, pos: nat, cs: seq<Chunk>, limit: nat, codec: Byte, size: nat,
                                      body: seq<Byte>, count: nat)
    requires pos % 4 == 0 && Ends(data, pos, cs) && Paced(cs, limit, codec, |body|, size)
    ensures ReadChunks(data, pos, limit, codec, size, body, count) ==
      Some((body + Contents(cs, limit, codec, |body|, size), count + |cs|))
    decreases |cs|
  {
    hide Content, ReadChunk, ChunkBytes;
    if cs == [] {
      assert body + [] == body;
    } else {
      HasParts(data, pos, ChunkBytes(cs[0]), AllBytes(cs[1..]));
      ChunkRead(data, pos, cs[0], limit, codec);
      var more := Content(cs[0], codec).value;
      ChunksRead(data, pos + |ChunkBytes(cs[0])|, cs[1..], limit, codec, size, body + more, count + 1);
      var rest := Contents(cs[1..], limit, codec, |body + more|, size);
      assert (body + more) + rest == body + (more + rest);
    }
  }

  lemma {:induction false} ChunksThatWereRead(data: seq<Byte>, pos: nat, limit: nat, codec: Byte, size: nat,
                                              body: seq<Byte>, count: nat)
    returns (cs: seq<Chunk>)
    requires pos % 4 == 0 && pos <= |data| && ReadChunks(data, pos, limit, codec, size, body, count).Some?
    ensures Ends(data, pos, cs) && Paced(cs, limit, codec, |body|, size)
    ensures ReadChunks(data, pos, limit, codec, size, body, count) ==
      Some((body + Contents(cs, limit, codec, |body|, size), count + |cs|))
    decreases |data| - pos
  {
    hide Content, ReadChunk, ChunkBytes;
    if |body| >= size {
      cs := [];
      assert body + [] == body;
    } else {
      var c := ChunkThatWasRead(data, pos, limit, codec);
      var next, more := pos + |ChunkBytes(c)|, Content(c, codec).value;
      var rest := ChunksThatWereRead(data, next, limit, codec, size, body + more, count + 1);
      cs := [c] + rest;
      assert cs[1..] == rest;
      JoinParts(data, pos, ChunkBytes(c), AllBytes(rest));
      var tail := Contents(rest, limit, codec, |body + more|, size);
      assert (body + more) + tail == body + (more + tail);
    }
  }

  // ---------- The whole file ----------

  function Quads(vs: seq<nat>): (r: seq<Byte>)
    ensures |r| == 8 * |vs|
  {
    if vs == [] then [] else ToBytes(vs[0], 8) + Quads(vs[1..])
  }

  predicate AllFit(vs: seq<nat>) {
    forall i :: 0 <= i < |vs| ==> vs[i] < Limit(8)
  }

  predicate ValidFile(f: File, size: nat) {
    && |f.reserved| == 4 && |f.total| == 8 && |f.spare| == 8 && |f.blocks| == 11
    && AllFit(f.blocks)
    && 0 < f.limit <= 65536 && (f.codec == STORED_CODEC || f.codec == LZ4_CODEC)
    && size < Limit(4) && 12 + |AllBytes(f.chunks)| < Limit(4)
    && Paced(f.chunks, f.limit, f.codec, 0, size)
  }

  /** Up to the number of chunk bytes n. */
  function Head(f: File, n: nat, size: nat): (r: seq<Byte>)
    requires |f.reserved| == 4 && |f.total| == 8 && |f.spare| == 8 && |f.blocks| == 11
    ensures |r| == 136
  {
    MAGIC + (ToBytes(11, 4) + (ToBytes(0xff7, 4) +
      (f.reserved + (ToBytes(n, 4) + (f.total + (ToBytes(size, 8) + (f.spare + Quads(f.blocks))))))))
  }

  function ChunkHead(f: File, size: nat): (r: seq<Byte>)
    ensures |r| == 12
  {
    CHUNK_MAGIC + (ToBytes(size, 4) + (ToBytes(f.limit, 3) + [f.codec]))
  }

  function FileBytes(f: File, size: nat): seq<Byte>
    requires ValidFile(f, size)
  {
    Head(f, 12 + |AllBytes(f.chunks)|, size) + (ChunkHead(f, size) + AllBytes(f.chunks))
  }

  /** A file of these contents. */
  ghost predicate Carries(data: seq<Byte>, f: File, body: seq<Byte>, blocks: seq<nat>, count: nat) {
    && ValidFile(f, |body|) && data == FileBytes(f, |body|) && body == Contents(f.chunks, f.limit, f.codec, 0, |body|)
    && blocks == f.blocks && count == |f.chunks|
  }

  function ReadQuads(data: seq<Byte>, pos: nat, n: nat): Option<seq<nat>>
    decreases n
  {
    if n == 0 then Some([]) else
      var v, vs := TryReadAt(data, pos, 8), ReadQuads(data, pos + 8, n - 1);
      if v.None? || vs.None? then None else Some([v.value] + vs.value)
  }

  /** The fields of the head, if they are what the reader demands: size, blocks, chunk limit and codec. */
  datatype Fields = Fields(size: nat, blocks: seq<nat>, limit: nat, codec: Byte)

  predicate HeadFits(data: seq<Byte>, size: nat) {
    && Slice(data, 0, 8) == MAGIC && TryReadAt(data, 8, 4) == Some(11) && TryReadAt(data, 12, 4) == Some(0xff7)
    && |data| >= 148 && TryReadAt(data, 20, 4) == Some(|data| - 136) && TryReadAt(data, 32, 8) == Some(size)
    && Slice(data, 136, 140) == CHUNK_MAGIC && TryReadAt(data, 140, 4) == Some(size)
  }

  function ReadFields(data: seq<Byte>): Option<Fields> {
    if |data| < 148 then None else
      var size, limit := FromBytes(data[32..40]), FromBytes(data[144..147]);
      var blocks := ReadQuads(data, 48, 11);
      if blocks.None? || !HeadFits(data, size) || !(0 < limit <= 65536) ||
        !(data[147] == STORED_CODEC || data[147] == LZ4_CODEC) then None
      else Some(Fields(size, blocks.value, limit, data[147]))
  }

  function ReadFile(data: seq<Byte>): Option<(seq<Byte>, seq<nat>, nat)> {
    var h := ReadFields(data);
    if h.None? then None else
      var r := ReadChunks(data, 148, h.value.limit, h.value.codec, h.value.size, [], 0);
      if r.None? then None else Some((r.value.0, h.value.blocks, r.value.1))
  }

  lemma {:induction false} QuadsRead(data: seq<Byte>, pos: nat, vs: seq<nat>)
    requires HasAt(data, pos, Quads(vs)) && AllFit(vs)
    ensures ReadQuads(data, pos, |vs|) == Some(vs)
    decreases |vs|
  {
    hide ToBytes, TryReadAt, HasAt, Limit;
    if vs != [] {
      HasParts(data, pos, ToBytes(vs[0], 8), Quads(vs[1..]));
      NumberIsThere(data, pos, vs[0], 8);
      QuadsRead(data, pos + 8, vs[1..]);
      assert [vs[0]] + vs[1..] == vs;
    }
  }

  lemma {:induction false} QuadsThatWereRead(data: seq<Byte>, pos: nat, n: nat)
    requires pos <= |data| && ReadQuads(data, pos, n).Some?
    ensures var vs := ReadQuads(data, pos, n).value;
      |vs| == n && HasAt(data, pos, Quads(vs)) && AllFit(vs)
    decreases n
  {
    hide ToBytes, Limit;
    if n > 0 {
      var v, vs := TryReadAt(data, pos, 8).value, ReadQuads(data, pos + 8, n - 1).value;
      NumberThatWasRead(data, pos, 8);
      QuadsThatWereRead(data, pos + 8, n - 1);
      assert ([v] + vs)[1..] == vs;
      JoinParts(data, pos, ToBytes(v, 8), Quads(vs));
    }
  }

  lemma {:induction false} HeadParts(data: seq<Byte>, f: File, n: nat, size: nat)
    requires |f.reserved| == 4 && |f.total| == 8 && |f.spare| == 8 && |f.blocks| == 11
    ensures HasAt(data, 0, Head(f, n, size)) <==>
      && HasAt(data, 0, MAGIC) && HasAt(data, 8, ToBytes(11, 4)) && HasAt(data, 12, ToBytes(0xff7, 4))
      && HasAt(data, 16, f.reserved)
      && HasAt(data, 20, ToBytes(n, 4)) && HasAt(data, 24, f.total) && HasAt(data, 32, ToBytes(size, 8))
      && HasAt(data, 40, f.spare)
      && HasAt(data, 48, Quads(f.blocks))
  {
    hide ToBytes, Quads, HasAt;
    var t8 := f.spare + Quads(f.blocks);
    var t7 := ToBytes(size, 8) + t8;
    var t6 := f.total + t7;
    var t5 := ToBytes(n, 4) + t6;
    var t4 := f.reserved + t5;
    var t3 := ToBytes(0xff7, 4) + t4;
    var t2 := ToBytes(11, 4) + t3;
    assert Head(f, n, size) == MAGIC + t2;
    TwoParts(data, 0, MAGIC, t2);
    TwoParts(data, 8, ToBytes(11, 4), t3);
    TwoParts(data, 12, ToBytes(0xff7, 4), t4);
    TwoParts(data, 16, f.reserved, t5);
    TwoParts(data, 20, ToBytes(n, 4), t6);
    TwoParts(data, 24, f.total, t7);
    TwoParts(data, 32, ToBytes(size, 8), t8);
    TwoParts(data, 40, f.spare, Quads(f.blocks));
  }

  lemma {:induction false} ChunkHeadParts(data: seq<Byte>, f: File, size: nat)
    ensures HasAt(data, 136, ChunkHead(f, size)) <==>
      HasAt(data, 136, CHUNK_MAGIC) && HasAt(data, 140, ToBytes(size, 4)) && HasAt(data, 144, ToBytes(f.limit, 3)) &&
        HasAt(data, 147, [f.codec])
  {
    hide ToBytes, HasAt;
    var t2 := ToBytes(f.limit, 3) + [f.codec];
    var t1 := ToBytes(size, 4) + t2;
    assert ChunkHead(f, size) == CHUNK_MAGIC + t1;
    TwoParts(data, 136, CHUNK_MAGIC, t1);
    TwoParts(data, 140, ToBytes(size, 4), t2);
    TwoParts(data, 144, ToBytes(f.limit, 3), [f.codec]);
  }

  lemma {:induction false} TwoParts(s: seq<Byte>, i: nat, t: seq<Byte>, u: seq<Byte>)
    ensures HasAt(s, i, t + u) <==> HasAt(s, i, t) && HasAt(s, i + |t|, u)
  {
    if HasAt(s, i, t + u) {
      HasParts(s, i, t, u);
    }
    if HasAt(s, i, t) && HasAt(s, i + |t|, u) {
      JoinParts(s, i, t, u);
    }
  }

  ghost predicate Opens(data: seq<Byte>, f: File, size: nat) {
    && |f.reserved| == 4 && |f.total| == 8 && |f.spare| == 8 && |f.blocks| == 11 && AllFit(f.blocks)
    && 0 < f.limit <= 65536 && (f.codec == STORED_CODEC || f.codec == LZ4_CODEC) && size < Limit(4)
    && |data| >= 148 && |data| - 136 < Limit(4)
    && HasAt(data, 0, Head(f, |data| - 136, size)) && HasAt(data, 136, ChunkHead(f, size))
  }

  lemma HasSlice(data: seq<Byte>, pos: nat, t: seq<Byte>)
    ensures pos + |t| <= |data| ==> (HasAt(data, pos, t) <==> Slice(data, pos, pos + |t|) == t)
  {
  }

  lemma {:induction false} HasByte(data: seq<Byte>, pos: nat, x: Byte)
    requires pos < |data|
    ensures HasAt(data, pos, [x]) <==> data[pos] == x
  {
    assert data[pos..pos + 1] == [data[pos]];
  }

  lemma {:induction false} HeadFitsRead(data: seq<Byte>, f: File, size: nat)
    requires Opens(data, f, size)
    ensures HeadFits(data, size) && HasAt(data, 48, Quads(f.blocks))
  {
    hide ToBytes, FromBytes, HasAt, Quads, Limit, Head, ChunkHead, Slice, TryReadAt, AllFit;
    HeadParts(data, f, |data| - 136, size);
    ChunkHeadRead(data, f, size);
    ConstantsRead(data);
    NumberIsThere(data, 20, |data| - 136, 4);
    assert size < Limit(8) by { Limits(); }
    NumberIsThere(data, 32, size, 8);
  }

  lemma {:induction false} ConstantsRead(data: seq<Byte>)
    requires |data| >= 148 && HasAt(data, 0, MAGIC) && HasAt(data, 8, ToBytes(11, 4))
    requires HasAt(data, 12, ToBytes(0xff7, 4))
    ensures Slice(data, 0, 8) == MAGIC && TryReadAt(data, 8, 4) == Some(11) && TryReadAt(data, 12, 4) == Some(0xff7)
  {
    Limits();
    hide ToBytes, FromBytes, HasAt, Limit, Slice, TryReadAt;
    NumberIsThere(data, 8, 11, 4);
    NumberIsThere(data, 12, 0xff7, 4);
    HasSlice(data, 0, MAGIC);
  }

  lemma {:induction false} ChunkHeadRead(data: seq<Byte>, f: File, size: nat)
    requires Opens(data, f, size)
    ensures Slice(data, 136, 140) == CHUNK_MAGIC && TryReadAt(data, 140, 4) == Some(size)
    ensures TryReadAt(data, 144, 3) == Some(f.limit) && data[147] == f.codec
  {
    Limits();
    ChunkHeadParts(data, f, size);
    hide ToBytes, FromBytes, HasAt, Quads, Limit, Head, ChunkHead, Slice, TryReadAt, AllFit;
    NumberIsThere(data, 140, size, 4);
    NumberIsThere(data, 144, f.limit, 3);
    HasSlice(data, 136, CHUNK_MAGIC);
    HasByte(data, 147, f.codec);
  }

  lemma {:induction false} FieldsRead(data: seq<Byte>, f: File, size: nat)
    requires Opens(data, f, size)
    ensures ReadFields(data) == Some(Fields(size, f.blocks, f.limit, f.codec))
  {
    HeadFitsRead(data, f, size);
    ChunkHeadRead(data, f, size);
    hide FromBytes, HasAt, Quads, Limit, ReadQuads, Head, ChunkHead, Slice;
    QuadsRead(data, 48, f.blocks);
  }

  lemma {:induction false} FieldsThatWereRead(data: seq<Byte>) returns (f: File)
    requires ReadFields(data).Some?
    ensures var h := ReadFields(data).value;
      Opens(data, f, h.size) && f.blocks == h.blocks && f.limit == h.limit && f.codec == h.codec
    ensures f.chunks == []
  {
    var h := ReadFields(data).value;
    f := File(data[16..20], data[24..32], data[40..48], h.blocks, h.limit, h.codec, []);
    NumberThatWasRead(data, 8, 4);
    NumberThatWasRead(data, 12, 4);
    NumberThatWasRead(data, 20, 4);
    NumberThatWasRead(data, 32, 8);
    NumberThatWasRead(data, 140, 4);
    NumberThatWasRead(data, 144, 3);
    QuadsThatWereRead(data, 48, 11);
    assert HasAt(data, 16, f.reserved) && HasAt(data, 24, f.total) && HasAt(data, 40, f.spare);
    hide ToBytes, FromBytes, HasAt, Quads, Limit, ReadQuads, Head, ChunkHead, Slice;
    HasSlice(data, 0, MAGIC);
    HasSlice(data, 136, CHUNK_MAGIC);
    HasByte(data, 147, f.codec);
    HeadParts(data, f, |data| - 136, h.size);
    ChunkHeadParts(data, f, h.size);
  }

  /** The reader's answer is right: it accepts exactly the containers, and then gives the blocks,
      the contents of the chunks and their number. */
  lemma {:induction false} ReadIsExact(data: seq<Byte>)
    ensures forall f, body, blocks, count: nat ::
      Carries(data, f, body, blocks, count) ==> ReadFile(data) == Some((body, blocks, count))
    ensures ReadFile(data).Some? ==>
      exists f :: Carries(data, f, ReadFile(data).value.0, ReadFile(data).value.1, ReadFile(data).value.2)
  {
    forall f, body, blocks, count: nat | Carries(data, f, body, blocks, count)
      ensures ReadFile(data) == Some((body, blocks, count))
    {
      CarriedIsRead(data, f, body, blocks, count);
    }
    if ReadFile(data).Some? {
      var f := ReadIsCarried(data);
    }
  }

  lemma {:induction false} CarriedIsRead(data: seq<Byte>, f: File, body: seq<Byte>, blocks: seq<nat>, count: nat)
    requires Carries(data, f, body, blocks, count)
    ensures ReadFile(data) == Some((body, blocks, count))
  {
    hide ReadFields, Head, ChunkHead, AllBytes, Limit, Contents, Paced, ReadChunks, HasAt;
    WholeIsThere(data);
    HasParts(data, 0, Head(f, 12 + |AllBytes(f.chunks)|, |body|), ChunkHead(f, |body|) + AllBytes(f.chunks));
    HasParts(data, 136, ChunkHead(f, |body|), AllBytes(f.chunks));
    FieldsRead(data, f, |body|);
    assert Ends(data, 148, f.chunks);
    ChunksRead(data, 148, f.chunks, f.limit, f.codec, |body|, [], 0);
    assert [] + body == body;
  }

  lemma WholeIs(data: seq<Byte>, t: seq<Byte>)
    requires HasAt(data, 0, t) && |t| == |data|
    ensures data == t
  {
  }

  lemma {:induction false} ReadIsCarried(data: seq<Byte>) returns (f: File)
    requires ReadFile(data).Some?
    ensures Carries(data, f, ReadFile(data).value.0, ReadFile(data).value.1, ReadFile(data).value.2)
  {
    hide ReadFields, Head, ChunkHead, AllBytes, Limit, Contents, Paced, ReadChunks, HasAt, AllFit;
    var h := ReadFields(data).value;
    var g := FieldsThatWereRead(data);
    var cs := ChunksThatWereRead(data, 148, h.limit, h.codec, h.size, [], 0);
    f := g.(chunks := cs);
    assert [] + Contents(cs, h.limit, h.codec, 0, h.size) == Contents(cs, h.limit, h.codec, 0, h.size);
    SameHead(f, g, |data| - 136, h.size);
    JoinParts(data, 136, ChunkHead(f, h.size), AllBytes(cs));
    JoinParts(data, 0, Head(f, |data| - 136, h.size), ChunkHead(f, h.size) + AllBytes(cs));
    WholeIs(data, Head(f, |data| - 136, h.size) + (ChunkHead(f, h.size) + AllBytes(cs)));
  }

  lemma SameHead(f: File, g: File, n: nat, size: nat)
    requires f == g.(chunks := f.chunks) && |f.reserved| == 4 && |f.total| == 8 && |f.spare| == 8 && |f.blocks| == 11
    ensures Head(f, n, size) == Head(g, n, size) && ChunkHead(f, size) == ChunkHead(g, size)
  {
  }

  /** A chunk that holds an encoded block stands for the block's expansion. */
  lemma {:induction false} EncodedChunk(b: Lz4.Block, pad: seq<Byte>)
    requires Lz4.Valid(b, 0)
    ensures Content(Chunk(|Lz4.Expand(b, [])|, Lz4.Encode(b), pad), LZ4_CODEC) == Some(Lz4.Expand(b, []))
  {
    assert Lz4.Unpacks(Lz4.Encode(b), b, Lz4.Expand(b, []));
    Lz4.DecodeIsExact(Lz4.Encode(b), |Lz4.Expand(b, [])|);
  }
}
