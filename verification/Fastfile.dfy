/** The container writer and reader. */
module Fastfile {
  import opened Options
  import opened Bytes
  import opened Container
  import Lz4

  const CHUNK_SIZE := 65536

  function ChunkCount(n: nat): nat {
    (n + (CHUNK_SIZE - 1)) / CHUNK_SIZE
  }

  function Smaller(a: nat, b: nat): nat {
    if a < b then a else b
  }

  /** The body in stored chunks. */
  function Pieces(body: seq<Byte>): seq<Chunk>
    decreases |body|
  {
    if body == [] then [] else
      var n := Smaller(|body|, CHUNK_SIZE);
      [Chunk(n, body[..n], Zeros(PadSize(n)))] + Pieces(body[n..])
  }

  function StoredFile(body: seq<Byte>, blocks: seq<nat>): File {
    var n := 12 + |AllBytes(Pieces(body))|;
    File(Zeros(4), ToBytes(136 + n, 8), Zeros(8), blocks, CHUNK_SIZE, STORED_CODEC, Pieces(body))
  }

  lemma {:induction false} PiecesSize(body: seq<Byte>)
    ensures |Pieces(body)| == ChunkCount(|body|) == (|body| + 65535) / 65536
    ensures |AllBytes(Pieces(body))| == |body| + PadSize(|body|) + 12 * ChunkCount(|body|)
    decreases |body|
  {
    if body != [] {
      var n := Smaller(|body|, CHUNK_SIZE);
      PiecesSize(body[n..]);
      assert Pieces(body)[1..] == Pieces(body[n..]);
      if n == CHUNK_SIZE {
        FullPiece(|body|);
      }
    }
  }

  lemma {:induction false} FullPiece(n: nat)
    requires n >= CHUNK_SIZE
    ensures ChunkCount(n) == 1 + ChunkCount(n - CHUNK_SIZE) && PadSize(n) == PadSize(n - CHUNK_SIZE)
    ensures PadSize(CHUNK_SIZE) == 0
  {
    var q, r := (n - CHUNK_SIZE) / 4, (n - CHUNK_SIZE) % 4;
    assert n == 4 * (q + 16384) + r;
    assert n % 4 == r;
    var c, d := (n - 1) / CHUNK_SIZE, (n - 1) % CHUNK_SIZE;
    assert n + (CHUNK_SIZE - 1) == (c + 1) * CHUNK_SIZE + d;
  }

  function Piece(part: seq<Byte>): Chunk {
    Chunk(|part|, part, Zeros(PadSize(|part|)))
  }

  lemma {:induction false} PieceIsFine(part: seq<Byte>)
    requires 0 < |part| <= CHUNK_SIZE
    ensures Fine(Piece(part), CHUNK_SIZE, STORED_CODEC) && Content(Piece(part), STORED_CODEC) == Some(part)
  {
    Limits();
  }

  /** The first piece of a body, and the pieces of the rest. */
  lemma {:induction false} FirstPiece(body: seq<Byte>, n: nat)
    requires body != [] && n == Smaller(|body|, CHUNK_SIZE)
    ensures Pieces(body) == [Piece(body[..n])] + Pieces(body[n..])
    ensures AllBytes(Pieces(body)) == ChunkBytes(Piece(body[..n])) + AllBytes(Pieces(body[n..]))
  {
    assert Pieces(body)[1..] == Pieces(body[n..]);
  }

  lemma {:induction false} PiecesHold(body: seq<Byte>, have: nat)
    ensures Paced(Pieces(body), CHUNK_SIZE, STORED_CODEC, have, have + |body|)
    ensures Contents(Pieces(body), CHUNK_SIZE, STORED_CODEC, have, have + |body|) == body
    decreases |body|
  {
    hide Content, Fine, Pieces, PadSize;
    if body == [] {
      assert Pieces(body) == [] by { NoPieces(); }
    } else {
      var n := Smaller(|body|, CHUNK_SIZE);
      PiecesHold(body[n..], have + n);
      FirstPiece(body, n);
      PieceIsFine(body[..n]);
      assert Pieces(body)[0] == Piece(body[..n]) && Pieces(body)[1..] == Pieces(body[n..]);
      assert body == body[..n] + body[n..];
    }
  }

  lemma NoPieces()
    ensures Pieces([]) == [] && AllBytes([]) == []
  {
  }

  predicate Packable(body: seq<Byte>, blocks: seq<nat>) {
    && |blocks| == 11 && AllFit(blocks)
    && 12 + |body| + PadSize(|body|) + 12 * ChunkCount(|body|) < 0x1_0000_0000
  }

  lemma {:induction false} StoredFileCarries(body: seq<Byte>, blocks: seq<nat>)
    requires Packable(body, blocks)
    ensures ValidFile(StoredFile(body, blocks), |body|)
    ensures Carries(FileBytes(StoredFile(body, blocks), |body|), StoredFile(body, blocks), body, blocks,
      ChunkCount(|body|))
  {
    Limits();
    PiecesSize(body);
    PiecesHold(body, 0);
    hide Pieces, AllBytes, Paced, Contents, Limit, ToBytes, Head, ChunkHead, PadSize, AllFit;
  }

  lemma {:induction false} StoredFileBytes(body: seq<Byte>, blocks: seq<nat>, header: seq<Byte>, chunks: seq<Byte>)
    requires ValidFile(StoredFile(body, blocks), |body|) && |blocks| == 11
    requires chunks == ChunkHead(StoredFile(body, []), |body|) + AllBytes(Pieces(body))
    requires header == Head(File(Zeros(4), ToBytes(136 + |chunks|, 8), Zeros(8), blocks, 1, 0, []), |chunks|, |body|)
    ensures header + chunks == FileBytes(StoredFile(body, blocks), |body|)
  {
    hide Pieces, AllBytes, ToBytes, Quads, ValidFile;
  }

  // ---------- The writer ----------

  /** Writes bytes over part of a buffer, as struct.pack_into does. */
  method PackInto(a: array<Byte>, offset: nat, bytes: seq<Byte>)
    requires offset + |bytes| <= a.Length
    modifies a
    ensures a[..] == old(a[..offset]) + bytes + old(a[offset + |bytes|..])
  {
    forall i | 0 <= i < |bytes| {
      a[offset + i] := bytes[i];
    }
  }

  /** A buffer that holds p and then only zeros, after bytes have been written `gap` behind p. */
  method PackNext(a: array<Byte>, ghost p: seq<Byte>, ghost gap: nat, offset: nat, bytes: seq<Byte>)
    requires offset == |p| + gap && offset + |bytes| <= a.Length && a[..] == p + Zeros(a.Length - |p|)
    modifies a
    ensures a[..] == (p + (Zeros(gap) + bytes)) + Zeros(a.Length - offset - |bytes|)
  {
    hide Zeros;
    ghost var room := a.Length - |p|;
    ZerosSplit(gap, room);
    ZerosSplit(gap + |bytes|, room);
    assert a[..offset] == a[..][..offset] == p + Zeros(room)[..gap];
    assert a[offset + |bytes|..] == a[..][offset + |bytes|..] == Zeros(room)[gap + |bytes|..];
    PackInto(a, offset, bytes);
  }

  method PackHeader(chunks: nat, body: nat, blocks: seq<nat>) returns (header: array<Byte>)
    requires |blocks| == 11
    ensures fresh(header)
    ensures header[..] == Head(File(Zeros(4), ToBytes(136 + chunks, 8), Zeros(8), blocks, 1, 0, []), chunks, body)
  {
    header := new Byte[136](i => 0);
    hide ToBytes, Zeros, Quads;
    OnlyZeros(header[..]);
    assert header[..] == [] + Zeros(136);
    NoZeros();
    PackNext(header, [], 0, 0, MAGIC);
    ghost var p := [] + (Zeros(0) + MAGIC);
    PackNext(header, p, 0, 8, ToBytes(11, 4));
    p := p + (Zeros(0) + ToBytes(11, 4));
    PackNext(header, p, 0, 12, ToBytes(0xff7, 4));
    p := p + (Zeros(0) + ToBytes(0xff7, 4));
    PackNext(header, p, 4, 20, ToBytes(chunks, 4));
    p := p + (Zeros(4) + ToBytes(chunks, 4));
    PackNext(header, p, 0, 24, ToBytes(136 + chunks, 8));
    p := p + (Zeros(0) + ToBytes(136 + chunks, 8));
    PackNext(header, p, 0, 32, ToBytes(body, 8));
    p := p + (Zeros(0) + ToBytes(body, 8));
    PackNext(header, p, 8, 48, Quads(blocks));
    p := p + (Zeros(8) + Quads(blocks));
    HeadFromParts(MAGIC, ToBytes(11, 4), ToBytes(0xff7, 4), Zeros(4), ToBytes(chunks, 4), ToBytes(136 + chunks, 8),
      ToBytes(body, 8), Zeros(8), Quads(blocks));
  }

  lemma NoZeros()
    ensures Zeros(0) == []
  {
  }

  lemma {:induction false} HeadFromParts(a: seq<Byte>, b: seq<Byte>, c: seq<Byte>, d: seq<Byte>, e: seq<Byte>,
                                         f: seq<Byte>, g: seq<Byte>, h: seq<Byte>, i: seq<Byte>)
    ensures ([] + ([] + a) + ([] + b) + ([] + c) + (d + e) + ([] + f) + ([] + g) + (h + i)) + [] ==
      a + (b + (c + (d + (e + (f + (g + (h + i)))))))
  {
    Associate(a, b, c);
    Associate(a, b + c, d + e);
    Associate(b, c, d + e);
    var l := a + (b + (c + (d + e)));
    assert ([] + ([] + a) + ([] + b) + ([] + c) + (d + e)) == l;
    assert l + f + g + (h + i) == l + (f + (g + (h + i)));
    assert l + (f + (g + (h + i))) == a + (b + (c + (d + (e + (f + (g + (h + i)))))));
  }

  method PackChunks(body: seq<Byte>) returns (chunks: seq<Byte>)
    requires |body| < 0x1_0000_0000
    ensures chunks == ChunkHead(StoredFile(body, []), |body|) + AllBytes(Pieces(body))
  {
    NoPieces();
    chunks := ChunkHead(StoredFile(body, []), |body|);
    hide Pieces, AllBytes, ChunkBytes, Piece, ChunkHead, StoredFile;
    ghost var head := chunks;
    var start := 0;
    assert body[0..] == body;
    while start < |body|
      invariant |chunks| % 4 == 0
      invariant start <= |body| && head + AllBytes(Pieces(body)) == chunks + AllBytes(Pieces(body[start..]))
    {
      var end := Smaller(start + CHUNK_SIZE, |body|);
      FirstPieceAt(body, start, end);
      Associate(chunks, ChunkBytes(Piece(body[start..end])), AllBytes(Pieces(body[end..])));
      chunks := PackPiece(chunks, body[start..end]);
      start := end;
    }
    assert body[start..] == [];
    assert chunks + [] == chunks;
  }

  lemma Associate(a: seq<Byte>, b: seq<Byte>, c: seq<Byte>)
    ensures (a + b) + c == a + (b + c)
  {
  }

  method PackPiece(chunks: seq<Byte>, part: seq<Byte>) returns (r: seq<Byte>)
    requires |chunks| % 4 == 0 && |part| <= CHUNK_SIZE
    ensures r == chunks + ChunkBytes(Piece(part)) && |r| % 4 == 0
  {
    AppendedPiece(chunks, part);
    hide ToBytes, Zeros, PadSize, ChunkBytes, Piece;
    r := chunks + (ToBytes(|part|, 4) + (ToBytes(|part|, 4) + ToBytes(0, 4)) + part);
    r := r + Zeros(PadSize(|r|));
  }

  lemma {:induction false} FirstPieceAt(body: seq<Byte>, start: nat, end: nat)
    requires start < |body| && end == Smaller(start + CHUNK_SIZE, |body|)
    ensures AllBytes(Pieces(body[start..])) == ChunkBytes(Piece(body[start..end])) + AllBytes(Pieces(body[end..]))
  {
    FirstPiece(body[start..], end - start);
    assert body[start..][..end - start] == body[start..end] && body[start..][end - start..] == body[end..];
  }

  /** Padding the whole buffer is padding the piece. */
  lemma {:induction false} AppendedPiece(chunks: seq<Byte>, part: seq<Byte>)
    requires |chunks| % 4 == 0
    ensures var unpadded := chunks + (ToBytes(|part|, 4) + (ToBytes(|part|, 4) + ToBytes(0, 4)) + part);
      unpadded + Zeros(PadSize(|unpadded|)) == chunks + ChunkBytes(Piece(part))
    ensures |chunks + ChunkBytes(Piece(part))| % 4 == 0
  {
    hide ToBytes, Zeros, PadSize;
    SamePad(|chunks|, |part|);
  }

  /** Fails exactly when a 32-bit length or a 64-bit block size does not fit, or the block
      count is not eleven; else writes the container of the body. */
  method Pack(body: seq<Byte>, blocks: seq<nat>) returns (r: Option<seq<Byte>>)
    ensures r.Some? <==> Packable(body, blocks)
    ensures r.Some? ==> Carries(r.value, StoredFile(body, blocks), body, blocks, ChunkCount(|body|))
  {
    hide Head, ChunkHead, AllBytes, Pieces, PadSize, AllFit, Carries, ValidFile;
    if |body| >= 0x1_0000_0000 {
      return None;
    }
    var chunks := PackChunks(body);
    PiecesSize(body);
    if |chunks| >= 0x1_0000_0000 || |blocks| != 11 || !AllFit(blocks) {
      return None;
    }
    var header := PackHeader(|chunks|, |body|, blocks);
    r := Some(header[..] + chunks);
    StoredFileCarries(body, blocks);
    StoredFileBytes(body, blocks, header[..], chunks);
  }

  // ---------- The reader ----------

  /** The header of a container, byte by byte: "IWffc100", the versions 11 and 0xff7, the lengths,
      then \x02, "IWC", the length again, the chunk limit, and codec 1 or 5. */
  predicate GoodHeader(data: seq<Byte>, size: nat) {
    && |data| >= 148 && data[..8] == [0x49, 0x57, 0x66, 0x66, 0x63, 0x31, 0x30, 0x30]
    && FromBytes(data[8..12]) == 11 && FromBytes(data[12..16]) == 0xff7 && FromBytes(data[20..24]) == |data| - 136
    && FromBytes(data[32..40]) == size && data[136..140] == [0x02, 0x49, 0x57, 0x43]
    && FromBytes(data[140..144]) == size && 0 < FromBytes(data[144..147]) <= 65536
    && (data[147] == 1 || data[147] == 5)
  }

  /** The eleven block sizes lie one after the other from byte 48 on. */
  predicate GoodBlocks(data: seq<Byte>, blocks: seq<nat>) {
    |data| >= 148 && |blocks| == 11 && forall i :: 0 <= i < 11 ==> FromBytes(data[48 + 8 * i..56 + 8 * i]) == blocks[i]
  }

  lemma {:induction false} HeaderIs(data: seq<Byte>)
    requires ReadFile(data).Some?
    ensures GoodHeader(data, |ReadFile(data).value.0|) && GoodBlocks(data, ReadFile(data).value.1)
  {
    ReadIsExact(data);
    hide ReadQuads, FromBytes, ReadChunks, Carries;
    QuadsAt(data, 48, 11);
    ReadSize(data);
  }

  lemma {:induction false} ReadSize(data: seq<Byte>)
    requires ReadFile(data).Some?
    ensures |ReadFile(data).value.0| == ReadFields(data).value.size
  {
    var h := ReadFields(data).value;
    hide ReadFields;
    ChunksSize(data, 148, h.limit, h.codec, h.size, [], 0);
  }

  lemma {:induction false} ChunksSize(data: seq<Byte>, pos: nat, limit: nat, codec: Byte, size: nat, body: seq<Byte>,
                                      count: nat)
    requires ReadChunks(data, pos, limit, codec, size, body, count).Some?
    ensures |ReadChunks(data, pos, limit, codec, size, body, count).value.0| == size
    decreases |data| - pos
  {
    hide ReadChunk;
    if |body| < size {
      var c := ReadChunk(data, pos, limit, codec).value;
      ChunksSize(data, c.1, limit, codec, size, body + c.0, count + 1);
    }
  }

  lemma {:induction false} QuadsAt(data: seq<Byte>, pos: nat, n: nat)
    requires ReadQuads(data, pos, n).Some?
    ensures var vs := ReadQuads(data, pos, n).value;
      && |vs| == n && (n > 0 ==> pos + 8 * n <= |data|)
      && forall i :: 0 <= i < n ==> FromBytes(data[pos + 8 * i..pos + 8 * i + 8]) == vs[i]
    decreases n
  {
    hide FromBytes;
    if n > 0 {
      QuadsAt(data, pos + 8, n - 1);
      var vs := ReadQuads(data, pos, n).value;
      forall i | 0 <= i < n ensures FromBytes(data[pos + 8 * i..pos + 8 * i + 8]) == vs[i] {
        if i > 0 {
          assert vs[i] == ReadQuads(data, pos + 8, n - 1).value[i - 1];
          assert pos + 8 * i == pos + 8 + 8 * (i - 1);
        }
      }
    }
  }

  /** Accepts exactly the containers, and gives what they carry. */
  method Unpack(data: seq<Byte>) returns (r: Option<(seq<Byte>, seq<nat>, nat)>)
    ensures r == ReadFile(data)
    ensures forall f, body, blocks, count: nat ::
      Carries(data, f, body, blocks, count) ==> r == Some((body, blocks, count))
    ensures r.Some? ==> exists f :: Carries(data, f, r.value.0, r.value.1, r.value.2)
    ensures r.Some? ==> GoodHeader(data, |r.value.0|) && GoodBlocks(data, r.value.1)
  {
    hide GoodHeader, GoodBlocks, Carries, ReadQuads, ReadChunk;
    ReadIsExact(data);
    if ReadFile(data).Some? {
      HeaderIs(data);
    }
    if Slice(data, 0, 8) != MAGIC || TryReadAt(data, 8, 4) != Some(11) || TryReadAt(data, 12, 4) != Some(0xff7) {
      return None;
    }
    if |data| < 136 || FromBytes(data[20..24]) != |data| - 136 {
      return None;
    }
    var size := FromBytes(data[32..40]);
    var blocks := ReadQuads(data, 48, 11);
    if blocks.None? || Slice(data, 136, 140) != CHUNK_MAGIC || TryReadAt(data, 140, 4) != Some(size) || |data| < 148 {
      return None;
    }
    var limit := FromBytes(data[144..147]);
    var codec := data[147];
    if !(0 < limit <= 65536) || !(codec == STORED_CODEC || codec == LZ4_CODEC) {
      return None;
    }
    var body, count := UnpackChunks(data, limit, codec, size);
    return if body.None? then None else Some((body.value, blocks.value, count));
  }

  method UnpackChunks(data: seq<Byte>, limit: nat, codec: Byte, size: nat) returns (r: Option<seq<Byte>>, count: nat)
    requires |data| >= 148
    ensures ReadChunks(data, 148, limit, codec, size, [], 0) == if r.Some? then Some((r.value, count)) else None
  {
    var pos: nat := 148;
    var body: seq<Byte> := [];
    count := 0;
    ghost var answer := ReadChunks(data, 148, limit, codec, size, [], 0);
    hide ReadChunk;
    while |body| < size
      invariant
        if pos <= |data| then answer == ReadChunks(data, pos, limit, codec, size, body, count) else answer == None
      decreases |data| + 12 - pos
    {
      var part;
      part, pos := UnpackChunk(data, pos, limit, codec);
      if part.None? {
        return None, 0;
      }
      body := body + part.value;
      count := count + 1;
    }
    if |body| != size || pos != |data| {
      return None, 0;
    }
    r := Some(body);
  }

  method UnpackChunk(data: seq<Byte>, pos: nat, limit: nat, codec: Byte) returns (part: Option<seq<Byte>>, next: nat)
    ensures ReadChunk(data, pos, limit, codec) == if part.Some? then Some((part.value, next)) else None
    ensures part.Some? ==> pos + 12 <= |data|
  {
    hide Lz4.Decode, FromBytes;
    var stored, raw, ctr := TryReadAt(data, pos, 4), TryReadAt(data, pos + 4, 4), TryReadAt(data, pos + 8, 4);
    next := pos + 12;
    if stored.None? || raw.None? || ctr.None? {
      return None, 0;
    }
    if !(0 < raw.value <= limit && ctr.value == 0 && next + stored.value <= |data|) {
      return None, 0;
    }
    var bytes := data[next..next + stored.value];
    next := Aligned(next + stored.value);
    if codec == STORED_CODEC {
      part := Some(bytes);
    } else {
      part := Lz4.Lz4(bytes, raw.value);
    }
  }

  /** Reading back a packed container gives the body, the block sizes and the number of chunks. */
  method RoundTrip(body: seq<Byte>, blocks: seq<nat>) returns (r: Option<(seq<Byte>, seq<nat>, nat)>)
    ensures r == if Packable(body, blocks) then Some((body, blocks, ChunkCount(|body|))) else None
  {
    var packed := Pack(body, blocks);
    if packed.None? {
      return None;
    }
    r := Unpack(packed.value);
  }
}
