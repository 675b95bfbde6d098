/** Android sparse images (crates/fastboot-protocol/src/sparse.rs): chunks, the file
    format, and the expansion to a raw image. */
module Sparse {
  import opened Wrappers
  import opened LittleEndian

  const SPARSE_HEADER_MAGIC: U32 := 0xED26FF3A
  const CHUNK_TYPE_RAW: U16 := 0xCAC1
  const CHUNK_TYPE_FILL: U16 := 0xCAC2
  const CHUNK_TYPE_DONT_CARE: U16 := 0xCAC3
  const CHUNK_TYPE_CRC32: U16 := 0xCAC4
  const FILE_HEADER: nat := 28
  const CHUNK_HEADER: nat := 12
  const U32_LIMIT: nat := 0x1_0000_0000

  datatype SparseError =
    | HeaderTooShort(got: nat)
    | InvalidMagic(magic: U32)
    | UnsupportedVersion(major: U16, minor: U16)
    | InvalidFileHeaderSize(size16: U16)
    | InvalidChunkHeaderSize(size16: U16)
    | MaxDownloadSizeTooSmall(maxSize: nat, minRequired: nat)
    | InvalidBlockSize(blkSz: U32)
    | ChunkPayloadTooShort(expected: int, found: int)
    | UnknownChunkType(chunkType: U16)

  type SparseResult<T> = Result<T, SparseError>

  datatype Header = Header(
    magic: U32, major: U16, minor: U16, fileHdrSz: U16, chunkHdrSz: U16,
    blkSz: U32, totalBlks: U32, totalChunks: U32, checksum: U32)

  function NewHeader(blkSz: U32, totalBlks: U32, totalChunks: U32): Header {
    Header(SPARSE_HEADER_MAGIC, 1, 0, FILE_HEADER, CHUNK_HEADER, blkSz, totalBlks, totalChunks, 0)
  }

  datatype Chunk = Chunk(chunkType: U16, blocks: U32, payload: Bytes) {
    function TotalSize(): nat { CHUNK_HEADER + |payload| }
  }

  datatype SparseFile = SparseFile(header: Header, chunks: seq<Chunk>)

  // ---------- block arithmetic ----------

  /** `n` blocks of `size` bytes: the product, by recursion. */
  function Span(n: nat, size: nat): nat {
    if n == 0 then 0 else Span(n - 1, size) + size
  }

  /** How many blocks of `size` bytes there are in `bytes`: the quotient, by recursion. */
  function Fits(bytes: nat, size: nat): nat
    requires size > 0
  {
    if bytes < size then 0 else 1 + Fits(bytes - size, size)
  }

  lemma {:induction false} SpanIsProduct(n: nat, size: nat)
    ensures Span(n, size) == n * size
  {
    if n > 0 {
      SpanIsProduct(n - 1, size);
      assert n * size == (n - 1) * size + size;
    }
  }

  lemma {:induction false} FitsBounds(bytes: nat, size: nat)
    requires size > 0
    ensures Span(Fits(bytes, size), size) <= bytes < Span(Fits(bytes, size), size) + size
  {
    if bytes >= size {
      FitsBounds(bytes - size, size);
    }
  }

  lemma FitsIsQuotient(bytes: nat, size: nat)
    requires size > 0
    ensures Fits(bytes, size) == bytes / size
  {
    var q, r := Fits(bytes, size), bytes / size;
    FitsBounds(bytes, size);
    SpanIsProduct(q, size);
    assert r * size <= bytes < r * size + size;
    if q < r {
      AtLeastOnce(r - q, size);
    } else if r < q {
      AtLeastOnce(q - r, size);
    }
  }

  lemma AtLeastOnce(k: int, n: nat)
    requires k >= 1
    ensures k * n >= n
  {}

  lemma {:induction false} SpanAdd(a: nat, b: nat, size: nat)
    ensures Span(a + b, size) == Span(a, size) + Span(b, size)
  {
    if b > 0 { SpanAdd(a, b - 1, size); }
  }

  lemma SpanPart(k: nat, n: nat, size: nat)
    requires k <= n
    ensures Span(k, size) <= Span(n, size) && Span(n - k, size) == Span(n, size) - Span(k, size)
  {
    SpanAdd(k, n - k, size);
  }

  // ---------- totals ----------

  function Blocks(cs: seq<Chunk>): nat {
    if cs == [] then 0 else cs[0].blocks + Blocks(cs[1..])
  }

  function Size(cs: seq<Chunk>): nat {
    if cs == [] then 0 else cs[0].TotalSize() + Size(cs[1..])
  }

  lemma {:induction false} TotalsConcat(a: seq<Chunk>, b: seq<Chunk>)
    ensures Blocks(a + b) == Blocks(a) + Blocks(b) && Size(a + b) == Size(a) + Size(b)
  {
    if a == [] {
      assert a + b == b;
    } else {
      assert (a + b)[1..] == a[1..] + b;
      TotalsConcat(a[1..], b);
    }
  }

  /** The shape `from_bytes` accepts. */
  predicate ShapeOk(c: Chunk, blkSz: nat) {
    if c.chunkType == CHUNK_TYPE_RAW then |c.payload| == Span(c.blocks, blkSz)
    else if c.chunkType == CHUNK_TYPE_FILL then |c.payload| == 4
    else if c.chunkType == CHUNK_TYPE_DONT_CARE then |c.payload| == 0
    else c.chunkType == CHUNK_TYPE_CRC32 && |c.payload| == 4
  }

  ghost predicate AllShaped(cs: seq<Chunk>, blkSz: nat) {
    forall i {:trigger ShapeOk(cs[i], blkSz)} :: 0 <= i < |cs| ==> ShapeOk(cs[i], blkSz)
  }

  // ---------- expansion ----------

  function Repeat(pattern: Bytes, n: nat): Bytes {
    if n == 0 then [] else pattern + Repeat(pattern, n - 1)
  }

  lemma {:induction false} RepeatSnoc(pattern: Bytes, n: nat)
    ensures Repeat(pattern, n + 1) == Repeat(pattern, n) + pattern
  {
    if n == 0 {
      assert Repeat(pattern, 1) == pattern + [] == [] + pattern;
    } else {
      RepeatSnoc(pattern, n - 1);
      assert pattern + (Repeat(pattern, n - 1) + pattern) == pattern + Repeat(pattern, n - 1) + pattern;
    }
  }

  /** The raw bytes of a chunk: data as it is, a fill word repeated, zeros for a hole, nothing for a checksum. */
  function ExpandChunk(c: Chunk, blkSz: nat): Bytes {
    if c.chunkType == CHUNK_TYPE_RAW then c.payload
    else if c.chunkType == CHUNK_TYPE_FILL then
      if |c.payload| == 4 then Repeat(c.payload, Span(c.blocks, blkSz) / 4) else Zeros(Span(c.blocks, blkSz))
    else if c.chunkType == CHUNK_TYPE_DONT_CARE then Zeros(Span(c.blocks, blkSz))
    else []
  }

  function Expand(cs: seq<Chunk>, blkSz: nat): Bytes {
    if cs == [] then [] else ExpandChunk(cs[0], blkSz) + Expand(cs[1..], blkSz)
  }

  lemma {:induction false} ExpandConcat(a: seq<Chunk>, b: seq<Chunk>, blkSz: nat)
    ensures Expand(a + b, blkSz) == Expand(a, blkSz) + Expand(b, blkSz)
  {
    if a == [] {
      assert a + b == b;
    } else {
      assert (a + b)[1..] == a[1..] + b;
      ExpandConcat(a[1..], b, blkSz);
    }
  }

  lemma {:induction false} RepeatSize(pattern: Bytes, n: nat)
    requires |pattern| == 4
    ensures |Repeat(pattern, n)| == n * 4
  {
    if n > 0 { RepeatSize(pattern, n - 1); }
  }

  lemma {:induction false} SpanWords(n: nat, blkSz: nat)
    requires blkSz % 4 == 0
    ensures Span(n, blkSz) % 4 == 0
  {
    if n > 0 { SpanWords(n - 1, blkSz); }
  }

  /** A fill of whole words, and no checksum that claims bytes. */
  predicate Whole(c: Chunk, blkSz: nat) {
    && (c.chunkType == CHUNK_TYPE_FILL ==> Span(c.blocks, blkSz) % 4 == 0)
    && (c.chunkType == CHUNK_TYPE_CRC32 ==> Span(c.blocks, blkSz) == 0)
  }

  lemma ExpandChunkSize(c: Chunk, blkSz: nat)
    requires ShapeOk(c, blkSz)
    ensures |ExpandChunk(c, blkSz)| <= Span(c.blocks, blkSz)
    ensures |ExpandChunk(c, blkSz)| == Span(c.blocks, blkSz) <==> Whole(c, blkSz)
  {
    if c.chunkType == CHUNK_TYPE_FILL {
      RepeatSize(c.payload, Span(c.blocks, blkSz) / 4);
    }
  }

  /** A shaped image never expands beyond its blocks, and fills them exactly if every fill is of whole
      words and no checksum claims bytes. */
  lemma {:induction false} ExpandSize(cs: seq<Chunk>, blkSz: nat)
    requires AllShaped(cs, blkSz)
    ensures |Expand(cs, blkSz)| <= Span(Blocks(cs), blkSz)
    ensures |Expand(cs, blkSz)| == Span(Blocks(cs), blkSz) <==> forall i :: 0 <= i < |cs| ==> Whole(cs[i], blkSz)
  {
    if cs != [] {
      hide Span, ExpandChunk, Whole;
      ExpandSize(cs[1..], blkSz);
      assert ShapeOk(cs[0], blkSz);
      ExpandChunkSize(cs[0], blkSz);
      SpanAdd(cs[0].blocks, Blocks(cs[1..]), blkSz);
      assert forall i :: 0 < i < |cs| ==> cs[i] == cs[1..][i - 1];
      assert forall i :: 0 <= i < |cs[1..]| ==> cs[1..][i] == cs[i + 1];
    }
  }

  /** So does any image whose blocks are whole words and whose checksums claim no blocks. */
  lemma WordBlocksFill(cs: seq<Chunk>, blkSz: nat)
    requires AllShaped(cs, blkSz) && blkSz % 4 == 0
    requires forall i :: 0 <= i < |cs| && cs[i].chunkType == CHUNK_TYPE_CRC32 ==> cs[i].blocks == 0
    ensures |Expand(cs, blkSz)| == Span(Blocks(cs), blkSz)
  {
    forall i | 0 <= i < |cs| ensures Whole(cs[i], blkSz) {
      SpanWords(cs[i].blocks, blkSz);
    }
    ExpandSize(cs, blkSz);
  }

  lemma ExpandSnoc(cs: seq<Chunk>, i: nat, blkSz: nat)
    requires i < |cs|
    ensures Expand(cs[..i + 1], blkSz) == Expand(cs[..i], blkSz) + ExpandChunk(cs[i], blkSz)
  {
    assert cs[..i + 1] == cs[..i] + [cs[i]];
    ExpandConcat(cs[..i], [cs[i]], blkSz);
    OneChunk(cs[i], blkSz);
  }

  lemma {:induction false} RepeatByte(pattern: Bytes, n: nat, j: nat)
    requires |pattern| == 4 && j < 4 * n
    ensures |Repeat(pattern, n)| == n * 4 && Repeat(pattern, n)[j] == pattern[j % 4]
    decreases n
  {
    RepeatSize(pattern, n);
    RepeatSize(pattern, n - 1);
    if j >= 4 {
      RepeatByte(pattern, n - 1, j - 4);
      WordBefore(j);
    }
  }

  lemma WordBefore(j: nat)
    requires j >= 4
    ensures (j - 4) % 4 == j % 4
  {}

  /** Every byte of an expanded chunk: data as it is, the word of a fill byte by byte, zeros for a hole
      and for a fill without its word. */
  lemma ChunkByte(c: Chunk, blkSz: nat, j: nat)
    requires j < |ExpandChunk(c, blkSz)|
    ensures c.chunkType == CHUNK_TYPE_RAW ==> j < |c.payload| && ExpandChunk(c, blkSz)[j] == c.payload[j]
    ensures c.chunkType == CHUNK_TYPE_FILL ==>
              ExpandChunk(c, blkSz)[j] == if |c.payload| == 4 then c.payload[j % 4] else 0
    ensures c.chunkType == CHUNK_TYPE_DONT_CARE ==> ExpandChunk(c, blkSz)[j] == 0
    ensures c.chunkType in {CHUNK_TYPE_RAW, CHUNK_TYPE_FILL, CHUNK_TYPE_DONT_CARE}
  {
    if c.chunkType == CHUNK_TYPE_FILL && |c.payload| == 4 {
      var n := Span(c.blocks, blkSz) / 4;
      RepeatSize(c.payload, n);
      RepeatByte(c.payload, n, j);
    }
  }

  /** Every byte of an expanded image: those of a chunk stand where the blocks before it end, if these
      are filled. */
  lemma ExpandByte(cs: seq<Chunk>, blkSz: nat, i: nat, j: nat)
    requires i < |cs| && j < |ExpandChunk(cs[i], blkSz)|
    requires AllShaped(cs[..i], blkSz) && forall k :: 0 <= k < i ==> Whole(cs[..i][k], blkSz)
    ensures var at := Span(Blocks(cs[..i]), blkSz) + j;
            && at < |Expand(cs, blkSz)|
            && (cs[i].chunkType == CHUNK_TYPE_RAW ==>
                  j < |cs[i].payload| && Expand(cs, blkSz)[at] == cs[i].payload[j])
            && (cs[i].chunkType == CHUNK_TYPE_FILL ==>
                  Expand(cs, blkSz)[at] == if |cs[i].payload| == 4 then cs[i].payload[j % 4] else 0)
            && (cs[i].chunkType == CHUNK_TYPE_DONT_CARE ==> Expand(cs, blkSz)[at] == 0)
  {
    hide ExpandChunk, Whole, AllShaped;
    var front, back := cs[..i], cs[i..];
    assert cs == front + back && back[0] == cs[i];
    ExpandConcat(front, back, blkSz);
    ExpandSize(front, blkSz);
    ChunkByte(cs[i], blkSz, j);
  }

  method FillPattern(pattern: Bytes, n: nat) returns (raw: Bytes)
    ensures raw == Repeat(pattern, n)
  {
    raw := [];
    for k := 0 to n
      invariant raw == Repeat(pattern, k)
    {
      RepeatSnoc(pattern, k);
      raw := raw + pattern;
    }
  }

  method ToRawChunk(c: Chunk, blkSz: nat) returns (raw: Bytes)
    ensures raw == ExpandChunk(c, blkSz)
  {
    raw := [];
    if c.chunkType == CHUNK_TYPE_RAW {
      raw := c.payload;
    } else if c.chunkType == CHUNK_TYPE_FILL {
      if |c.payload| == 4 {
        raw := FillPattern(c.payload, Span(c.blocks, blkSz) / 4);
      } else {
        raw := Zeros(Span(c.blocks, blkSz));
      }
    } else if c.chunkType == CHUNK_TYPE_DONT_CARE {
      raw := Zeros(Span(c.blocks, blkSz));
    }
  }

  method ToRaw(f: SparseFile) returns (raw: Bytes)
    ensures raw == Expand(f.chunks, f.header.blkSz)
  {
    raw := [];
    for i := 0 to |f.chunks|
      invariant raw == Expand(f.chunks[..i], f.header.blkSz)
    {
      var part := ToRawChunk(f.chunks[i], f.header.blkSz);
      raw := raw + part;
      ExpandSnoc(f.chunks, i, f.header.blkSz);
    }
    assert f.chunks[..|f.chunks|] == f.chunks;
  }

  // ---------- the file format ----------

  function EncodeHeader(h: Header): Bytes {
    Write32(h.magic) + Write16(h.major) + Write16(h.minor) + Write16(h.fileHdrSz) + Write16(h.chunkHdrSz)
    + Write32(h.blkSz) + Write32(h.totalBlks) + Write32(h.totalChunks) + Write32(h.checksum)
  }

  function DecodeHeader(buf: Bytes): SparseResult<Header> {
    if |buf| < FILE_HEADER then Err(HeaderTooShort(|buf|))
    else if Read32(buf, 0) != SPARSE_HEADER_MAGIC then Err(InvalidMagic(Read32(buf, 0)))
    else if Read16(buf, 4) != 1 then Err(UnsupportedVersion(Read16(buf, 4), Read16(buf, 6)))
    else if Read16(buf, 8) < FILE_HEADER then Err(InvalidFileHeaderSize(Read16(buf, 8)))
    else if Read16(buf, 10) < CHUNK_HEADER then Err(InvalidChunkHeaderSize(Read16(buf, 10)))
    else Ok(Header(Read32(buf, 0), Read16(buf, 4), Read16(buf, 6), Read16(buf, 8), Read16(buf, 10),
                   Read32(buf, 12), Read32(buf, 16), Read32(buf, 20), Read32(buf, 24)))
  }

  datatype ChunkHeader = ChunkHeader(chunkType: U16, reserved: U16, chunkSz: U32, totalSz: U32)

  function EncodeChunkHeader(h: ChunkHeader): Bytes {
    Write16(h.chunkType) + Write16(h.reserved) + Write32(h.chunkSz) + Write32(h.totalSz)
  }

  function DecodeChunkHeader(buf: Bytes, at: nat): ChunkHeader
    requires at + CHUNK_HEADER <= |buf|
  {
    ChunkHeader(Read16(buf, at), Read16(buf, at + 2), Read32(buf, at + 4), Read32(buf, at + 8))
  }

  predicate Standard(h: Header) {
    h.magic == SPARSE_HEADER_MAGIC && h.major == 1 && h.fileHdrSz == FILE_HEADER && h.chunkHdrSz == CHUNK_HEADER
  }

  lemma HeaderFields(h: Header, rest: Bytes)
    ensures var buf := EncodeHeader(h) + rest;
            && |EncodeHeader(h)| == FILE_HEADER
            && Holds(buf, 0, Write32(h.magic)) && Holds(buf, 4, Write16(h.major)) && Holds(buf, 6, Write16(h.minor))
            && Holds(buf, 8, Write16(h.fileHdrSz)) && Holds(buf, 10, Write16(h.chunkHdrSz))
            && Holds(buf, 12, Write32(h.blkSz)) && Holds(buf, 16, Write32(h.totalBlks))
            && Holds(buf, 20, Write32(h.totalChunks)) && Holds(buf, 24, Write32(h.checksum))
  {}

  lemma DecodeEncodedHeader(h: Header, rest: Bytes)
    requires Standard(h)
    ensures |EncodeHeader(h)| == FILE_HEADER && DecodeHeader(EncodeHeader(h) + rest) == Ok(h)
  {
    var buf := EncodeHeader(h) + rest;
    HeaderFields(h, rest);
    ReadWritten32(buf, 0, h.magic);
    ReadWritten16(buf, 4, h.major);
    ReadWritten16(buf, 6, h.minor);
    ReadWritten16(buf, 8, h.fileHdrSz);
    ReadWritten16(buf, 10, h.chunkHdrSz);
    ReadWritten32(buf, 12, h.blkSz);
    ReadWritten32(buf, 16, h.totalBlks);
    ReadWritten32(buf, 20, h.totalChunks);
    ReadWritten32(buf, 24, h.checksum);
  }

  /** A cast to 32 bits: the remainder, by recursion. */
  function Low32(x: nat): U32 {
    if x < U32_LIMIT then x else Low32(x - U32_LIMIT)
  }

  lemma {:induction false} Low32IsRemainder(x: nat)
    ensures Low32(x) == x % U32_LIMIT
  {
    if x >= U32_LIMIT {
      Low32IsRemainder(x - U32_LIMIT);
    }
  }

  /** The size field is the size cut to 32 bits. */
  function EncodeChunk(c: Chunk): Bytes {
    EncodeChunkHeader(ChunkHeader(c.chunkType, 0, c.blocks, Low32(c.TotalSize()))) + c.payload
  }

  /** Chunk sizes that fit the format's 32-bit fields. */
  ghost predicate Encodable(cs: seq<Chunk>) {
    |cs| < U32_LIMIT && Blocks(cs) < U32_LIMIT && forall i :: 0 <= i < |cs| ==> cs[i].TotalSize() < U32_LIMIT
  }

  function EncodeChunks(cs: seq<Chunk>): Bytes {
    if cs == [] then [] else EncodeChunk(cs[0]) + EncodeChunks(cs[1..])
  }

  /** `encode` recomputes the two totals of the header. */
  function WithTotals(f: SparseFile): SparseFile
    requires Blocks(f.chunks) < U32_LIMIT
  {
    f.(header := f.header.(totalBlks := Blocks(f.chunks), totalChunks := Low32(|f.chunks|)))
  }

  function EncodeFile(f: SparseFile): Bytes
    requires Blocks(f.chunks) < U32_LIMIT
  {
    EncodeHeader(WithTotals(f).header) + EncodeChunks(f.chunks)
  }

  lemma {:induction false} EncodeChunksSnoc(cs: seq<Chunk>, c: Chunk)
    ensures EncodeChunks(cs + [c]) == EncodeChunks(cs) + EncodeChunk(c)
  {
    if cs == [] {
      assert EncodeChunks([c]) == EncodeChunk(c) + [];
    } else {
      assert (cs + [c])[1..] == cs[1..] + [c];
      EncodeChunksSnoc(cs[1..], c);
    }
  }

  method Encode(f: SparseFile) returns (buf: Bytes)
    requires Blocks(f.chunks) < U32_LIMIT
    ensures buf == EncodeFile(f)
  {
    buf := EncodeHeader(WithTotals(f).header);
    ghost var head := buf;
    for i := 0 to |f.chunks|
      invariant buf == head + EncodeChunks(f.chunks[..i])
    {
      assert f.chunks[..i + 1] == f.chunks[..i] + [f.chunks[i]];
      EncodeChunksSnoc(f.chunks[..i], f.chunks[i]);
      ConcatAssoc(head, EncodeChunks(f.chunks[..i]), EncodeChunk(f.chunks[i]));
      buf := buf + EncodeChunk(f.chunks[i]);
    }
    assert f.chunks[..|f.chunks|] == f.chunks;
  }

  lemma {:induction false} EncodedSize(cs: seq<Chunk>)
    ensures |EncodeChunks(cs)| == Size(cs)
  {
    if cs != [] { EncodedSize(cs[1..]); }
  }

  /** One chunk read at an offset, with the checks in the order of `from_bytes`. */
  function DecodeChunk(h: Header, buf: Bytes, at: nat): SparseResult<(Chunk, nat)>
    requires CHUNK_HEADER <= h.chunkHdrSz
  {
    if at + h.chunkHdrSz > |buf| then Err(HeaderTooShort(|buf|))
    else
      var ch := DecodeChunkHeader(buf, at);
      if ch.totalSz < h.chunkHdrSz then Err(InvalidChunkHeaderSize(ch.totalSz % 0x1_0000))
      else
        var payloadAt, len := at + h.chunkHdrSz, ch.totalSz - h.chunkHdrSz;
        if payloadAt + len > |buf| then Err(ChunkPayloadTooShort(payloadAt + len, |buf|))
        else if ch.chunkType == CHUNK_TYPE_RAW && len != Span(ch.chunkSz, h.blkSz) then
          Err(ChunkPayloadTooShort(Span(ch.chunkSz, h.blkSz), len))
        else if ch.chunkType == CHUNK_TYPE_FILL && len != 4 then Err(ChunkPayloadTooShort(4, len))
        else if ch.chunkType == CHUNK_TYPE_DONT_CARE && len != 0 then Err(ChunkPayloadTooShort(0, len))
        else if ch.chunkType == CHUNK_TYPE_CRC32 && len != 4 then Err(ChunkPayloadTooShort(4, len))
        else if ch.chunkType !in {CHUNK_TYPE_RAW, CHUNK_TYPE_FILL, CHUNK_TYPE_DONT_CARE, CHUNK_TYPE_CRC32} then
          Err(UnknownChunkType(ch.chunkType))
        else Ok((Chunk(ch.chunkType, ch.chunkSz, buf[payloadAt..payloadAt + len]), at + ch.totalSz))
  }

  function DecodeChunks(h: Header, buf: Bytes, at: nat, n: nat): SparseResult<seq<Chunk>>
    requires CHUNK_HEADER <= h.chunkHdrSz
    decreases n
  {
    if n == 0 then Ok([])
    else match DecodeChunk(h, buf, at)
      case Err(e) => Err(e)
      case Ok((c, next)) =>
        match DecodeChunks(h, buf, next, n - 1)
        case Err(e) => Err(e)
        case Ok(cs) => Ok([c] + cs)
  }

  function DecodeFile(buf: Bytes): SparseResult<SparseFile> {
    match DecodeHeader(buf)
    case Err(e) => Err(e)
    case Ok(h) =>
      match DecodeChunks(h, buf, h.fileHdrSz, h.totalChunks)
      case Err(e) => Err(e)
      case Ok(cs) => Ok(SparseFile(h, cs))
  }

  function Prepend(cs: seq<Chunk>, r: SparseResult<seq<Chunk>>): SparseResult<seq<Chunk>> {
    match r
    case Err(e) => Err(e)
    case Ok(ds) => Ok(cs + ds)
  }

  lemma PrependNothing(r: SparseResult<seq<Chunk>>)
    ensures Prepend([], r) == r
  {
    assert r.Ok? ==> [] + r.value == r.value;
  }

  method FromBytes(buf: Bytes) returns (r: SparseResult<SparseFile>)
    ensures r == DecodeFile(buf)
  {
    hide DecodeChunk, Read16, Read32;
    var hr := DecodeHeader(buf);
    if hr.Err? {
      return Err(hr.error);
    }
    var h := hr.value;
    var offset: nat, chunks := h.fileHdrSz, [];
    PrependNothing(DecodeChunks(h, buf, offset, h.totalChunks));
    for i := 0 to h.totalChunks
      invariant DecodeChunks(h, buf, h.fileHdrSz, h.totalChunks) ==
                Prepend(chunks, DecodeChunks(h, buf, offset, h.totalChunks - i))
    {
      var step := DecodeChunk(h, buf, offset);
      if step.Err? {
        return Err(step.error);
      }
      DecodeStep(h, buf, offset, h.totalChunks - i, chunks);
      chunks := chunks + [step.value.0];
      offset := step.value.1;
    }
    assert chunks + [] == chunks;
    r := Ok(SparseFile(h, chunks));
  }

  lemma DecodeStep(h: Header, buf: Bytes, at: nat, n: nat, before: seq<Chunk>)
    requires CHUNK_HEADER <= h.chunkHdrSz && n > 0 && DecodeChunk(h, buf, at).Ok?
    ensures var (c, next) := DecodeChunk(h, buf, at).value;
            && DecodeChunks(h, buf, at, n) == Prepend([c], DecodeChunks(h, buf, next, n - 1))
            && Prepend(before, DecodeChunks(h, buf, at, n)) == Prepend(before + [c], DecodeChunks(h, buf, next, n - 1))
  {
    var (c, next) := DecodeChunk(h, buf, at).value;
    var rest := DecodeChunks(h, buf, next, n - 1);
    assert rest.Ok? ==> before + ([c] + rest.value) == (before + [c]) + rest.value;
  }

  /** The fields of a file header stand at these offsets. */
  ghost predicate HeaderAt(h: Header, buf: Bytes) {
    && |buf| >= 28
    && h.magic == Read32(buf, 0) && h.major == Read16(buf, 4) && h.minor == Read16(buf, 6)
    && h.fileHdrSz == Read16(buf, 8) && h.chunkHdrSz == Read16(buf, 10) && h.blkSz == Read32(buf, 12)
    && h.totalBlks == Read32(buf, 16) && h.totalChunks == Read32(buf, 20) && h.checksum == Read32(buf, 24)
  }

  /** A chunk stands at an offset: type, blocks and size in a header as long as the file says, and then
      a payload that makes up the size and has the length its type demands. */
  ghost predicate ChunkAt(h: Header, buf: Bytes, at: nat, c: Chunk) {
    var payloadAt := at + h.chunkHdrSz;
    && payloadAt + |c.payload| <= |buf| && at + 12 <= |buf|
    && c.chunkType == Read16(buf, at) && c.blocks == Read32(buf, at + 4)
    && Read32(buf, at + 8) == h.chunkHdrSz + |c.payload|
    && c.payload == buf[payloadAt..payloadAt + |c.payload|] && Demanded(c.chunkType, c.blocks, h.blkSz) == |c.payload|
  }

  /** The payload a chunk type demands: its blocks for data, a word for a fill or a checksum, none for a
      hole; -1 for any other type. */
  function Demanded(chunkType: U16, blocks: U32, blkSz: U32): int {
    match chunkType
    case 0xCAC1 => Span(blocks, blkSz)
    case 0xCAC2 => 4
    case 0xCAC3 => 0
    case 0xCAC4 => 4
    case _ => -1
  }

  /** Chunks stand one after the other. */
  ghost predicate ChunksAt(h: Header, buf: Bytes, at: nat, cs: seq<Chunk>)
    decreases |cs|
  {
    cs == [] || (ChunkAt(h, buf, at, cs[0]) && ChunksAt(h, buf, at + h.chunkHdrSz + |cs[0].payload|, cs[1..]))
  }

  lemma ChunkReadsIff(h: Header, buf: Bytes, at: nat, c: Chunk, next: nat)
    requires CHUNK_HEADER <= h.chunkHdrSz
    ensures DecodeChunk(h, buf, at) == Ok((c, next)) <==>
            ChunkAt(h, buf, at, c) && next == at + h.chunkHdrSz + |c.payload|
  {
    hide Span, Read16, Read32;
  }

  lemma {:induction false} ChunksReadIff(h: Header, buf: Bytes, at: nat, n: nat, cs: seq<Chunk>)
    requires CHUNK_HEADER <= h.chunkHdrSz
    ensures DecodeChunks(h, buf, at, n) == Ok(cs) <==> |cs| == n && ChunksAt(h, buf, at, cs)
    decreases n
  {
    hide DecodeChunk, ChunkAt;
    if n > 0 {
      var step := DecodeChunk(h, buf, at);
      if step.Ok? {
        var (c, next) := step.value;
        ChunkReadsIff(h, buf, at, c, next);
        if cs != [] {
          ChunkReadsIff(h, buf, at, cs[0], at + h.chunkHdrSz + |cs[0].payload|);
          ChunksReadIff(h, buf, next, n - 1, cs[1..]);
        }
        var more := DecodeChunks(h, buf, next, n - 1);
        assert more.Ok? ==> ([c] + more.value)[1..] == more.value;
        assert cs != [] ==> cs == [cs[0]] + cs[1..];
      } else if cs != [] {
        ChunkReadsIff(h, buf, at, cs[0], at + h.chunkHdrSz + |cs[0].payload|);
      }
    }
  }

  /** The first thing wrong with a file header is reported. */
  lemma HeaderRefusals(buf: Bytes)
    ensures |buf| < 28 ==> DecodeHeader(buf) == Err(HeaderTooShort(|buf|))
    ensures |buf| >= 28 ==>
              var magic, major, minor := Read32(buf, 0), Read16(buf, 4), Read16(buf, 6);
              var fileHdrSz, chunkHdrSz := Read16(buf, 8), Read16(buf, 10);
              && (magic != 0xED26FF3A ==> DecodeHeader(buf) == Err(InvalidMagic(magic)))
              && (magic == 0xED26FF3A && major != 1 ==> DecodeHeader(buf) == Err(UnsupportedVersion(major, minor)))
              && (magic == 0xED26FF3A && major == 1 ==>
                    && (fileHdrSz < 28 ==> DecodeHeader(buf) == Err(InvalidFileHeaderSize(fileHdrSz)))
                    && (fileHdrSz >= 28 && chunkHdrSz < 12 ==>
                          DecodeHeader(buf) == Err(InvalidChunkHeaderSize(chunkHdrSz)))
                    && (fileHdrSz >= 28 && chunkHdrSz >= 12 ==> DecodeHeader(buf).Ok?))
  {
    hide Read16, Read32;
  }

  /** So is the first thing wrong with a chunk; a size is cut to 16 bits in the report. */
  lemma ChunkRefusals(h: Header, buf: Bytes, at: nat)
    requires h.chunkHdrSz >= 12
    ensures at + h.chunkHdrSz > |buf| ==> DecodeChunk(h, buf, at) == Err(HeaderTooShort(|buf|))
    ensures at + h.chunkHdrSz <= |buf| ==>
              var chunkType, blocks, size := Read16(buf, at), Read32(buf, at + 4), Read32(buf, at + 8);
              var need := Demanded(chunkType, blocks, h.blkSz);
              && (size < h.chunkHdrSz ==> DecodeChunk(h, buf, at) == Err(InvalidChunkHeaderSize(size % 65536)))
              && (size >= h.chunkHdrSz && at + size > |buf| ==>
                    DecodeChunk(h, buf, at) == Err(ChunkPayloadTooShort(at + size, |buf|)))
              && (size >= h.chunkHdrSz && at + size <= |buf| ==>
                    && (need < 0 ==> DecodeChunk(h, buf, at) == Err(UnknownChunkType(chunkType)))
                    && (need >= 0 && need != size - h.chunkHdrSz ==>
                          DecodeChunk(h, buf, at) == Err(ChunkPayloadTooShort(need, size - h.chunkHdrSz)))
                    && (need == size - h.chunkHdrSz ==> DecodeChunk(h, buf, at).Ok?))
  {
    hide Read16, Read32, Span;
  }

  /** Bytes are read as a file if and only if they are laid out as one: magic word, version 1, headers no
      shorter than the standard ones, and as many chunks as announced. What follows them is ignored. */
  lemma ReadsIff(buf: Bytes, f: SparseFile)
    ensures DecodeFile(buf) == Ok(f) <==>
            && HeaderAt(f.header, buf) && f.header.magic == 0xED26FF3A && f.header.major == 1
            && f.header.fileHdrSz >= 28 && f.header.chunkHdrSz >= 12
            && |f.chunks| == f.header.totalChunks && ChunksAt(f.header, buf, f.header.fileHdrSz, f.chunks)
  {
    hide DecodeChunks, ChunksAt, Read16, Read32;
    if DecodeHeader(buf).Ok? {
      var h := DecodeHeader(buf).value;
      ChunksReadIff(h, buf, h.fileHdrSz, h.totalChunks, f.chunks);
    }
  }

  /** Whatever is accepted has the shape its type demands. */
  lemma {:induction false} DecodedIsShaped(h: Header, buf: Bytes, at: nat, n: nat)
    requires CHUNK_HEADER <= h.chunkHdrSz && DecodeChunks(h, buf, at, n).Ok?
    ensures AllShaped(DecodeChunks(h, buf, at, n).value, h.blkSz) && |DecodeChunks(h, buf, at, n).value| == n
    decreases n
  {
    if n > 0 {
      DecodedIsShaped(h, buf, DecodeChunk(h, buf, at).value.1, n - 1);
    }
  }

  lemma ChunkFields(buf: Bytes, at: nat, h: ChunkHeader)
    requires Holds(buf, at, EncodeChunkHeader(h))
    ensures at + CHUNK_HEADER <= |buf| && DecodeChunkHeader(buf, at) == h
  {
    var t, r, s, z := Write16(h.chunkType), Write16(h.reserved), Write32(h.chunkSz), Write32(h.totalSz);
    HoldsParts(buf, at, t + r + s, z);
    HoldsParts(buf, at, t + r, s);
    HoldsParts(buf, at, t, r);
    ReadWritten16(buf, at, h.chunkType);
    ReadWritten16(buf, at + 2, h.reserved);
    ReadWritten32(buf, at + 4, h.chunkSz);
    ReadWritten32(buf, at + 8, h.totalSz);
  }

  lemma DecodeEncodedChunk(h: Header, buf: Bytes, at: nat, c: Chunk)
    requires Standard(h) && c.TotalSize() < U32_LIMIT && ShapeOk(c, h.blkSz)
    requires Holds(buf, at, EncodeChunk(c))
    ensures DecodeChunk(h, buf, at) == Ok((c, at + c.TotalSize()))
  {
    var ch := ChunkHeader(c.chunkType, 0, c.blocks, c.TotalSize());
    HoldsParts(buf, at, EncodeChunkHeader(ch), c.payload);
    ChunkFields(buf, at, ch);
    assert buf[at + CHUNK_HEADER..at + c.TotalSize()] == c.payload;
  }

  lemma ChunkSize(c: Chunk)
    ensures |EncodeChunk(c)| == c.TotalSize()
  {}

  lemma DecodeCons(h: Header, buf: Bytes, at: nat, next: nat, c: Chunk, rest: seq<Chunk>)
    requires CHUNK_HEADER <= h.chunkHdrSz && DecodeChunk(h, buf, at) == Ok((c, next))
    requires DecodeChunks(h, buf, next, |rest|) == Ok(rest)
    ensures DecodeChunks(h, buf, at, 1 + |rest|) == Ok([c] + rest)
  {}

  lemma FirstEncoded(buf: Bytes, at: nat, cs: seq<Chunk>)
    requires cs != [] && Holds(buf, at, EncodeChunks(cs))
    ensures Holds(buf, at, EncodeChunk(cs[0])) && Holds(buf, at + cs[0].TotalSize(), EncodeChunks(cs[1..]))
  {
    ChunkSize(cs[0]);
    HoldsSplit(buf, at, EncodeChunks(cs), EncodeChunk(cs[0]), EncodeChunks(cs[1..]), cs[0].TotalSize());
  }

  lemma {:induction false} DecodeEncodedChunks(h: Header, buf: Bytes, at: nat, cs: seq<Chunk>)
    requires Standard(h) && AllShaped(cs, h.blkSz)
    requires forall i :: 0 <= i < |cs| ==> cs[i].TotalSize() < U32_LIMIT
    requires Holds(buf, at, EncodeChunks(cs))
    ensures DecodeChunks(h, buf, at, |cs|) == Ok(cs)
    decreases cs
  {
    if cs != [] {
      FirstEncoded(buf, at, cs);
      DecodeEncodedChunk(h, buf, at, cs[0]);
      DecodeEncodedChunks(h, buf, at + cs[0].TotalSize(), cs[1..]);
      DecodeCons(h, buf, at, at + cs[0].TotalSize(), cs[0], cs[1..]);
      assert cs == [cs[0]] + cs[1..];
    }
  }

  /** A file of standard headers and shaped chunks is read back from its encoding, totals filled in. */
  lemma DecodeEncodedFile(f: SparseFile)
    requires Standard(f.header) && AllShaped(f.chunks, f.header.blkSz) && Encodable(f.chunks)
    ensures DecodeFile(EncodeFile(f)) == Ok(WithTotals(f))
    ensures |EncodeFile(f)| == FILE_HEADER + Size(f.chunks)
  {
    var h, buf := WithTotals(f).header, EncodeFile(f);
    assert DecodeHeader(buf) == Ok(h) && |EncodeHeader(h)| == FILE_HEADER by {
      DecodeEncodedHeader(h, EncodeChunks(f.chunks));
    }
    assert Holds(buf, FILE_HEADER, EncodeChunks(f.chunks)) by {
      HoldsSplit(buf, 0, buf, EncodeHeader(h), EncodeChunks(f.chunks), FILE_HEADER);
    }
    assert DecodeChunks(h, buf, FILE_HEADER, |f.chunks|) == Ok(f.chunks) by {
      DecodeEncodedChunks(h, buf, FILE_HEADER, f.chunks);
    }
    EncodedSize(f.chunks);
  }

  // ---------- from a raw image ----------

  /** `raw_data` zero-padded to whole blocks. */
  function Padded(raw: Bytes, blkSz: nat): Bytes
    requires blkSz > 0
  {
    var rem := |raw| % blkSz;
    if rem == 0 then raw else raw + Zeros(blkSz - rem)
  }

  lemma PaddedIsLeast(raw: Bytes, blkSz: nat)
    requires blkSz > 0
    ensures var p := Padded(raw, blkSz);
            raw <= p && |p| % blkSz == 0 && |raw| <= |p| < |raw| + blkSz && |p| / blkSz * blkSz == |p|
  {
    var rem, p := |raw| % blkSz, Padded(raw, blkSz);
    var q := |raw| / blkSz;
    assert |raw| == q * blkSz + rem;
    var k := if rem == 0 then q else q + 1;
    assert |p| == k * blkSz by {
      assert (q + 1) * blkSz == q * blkSz + blkSz;
    }
    Multiple(k, blkSz);
  }

  lemma Multiple(k: nat, n: nat)
    requires n > 0
    ensures k * n % n == 0 && k * n / n == k
  {
    var q, r := k * n / n, k * n % n;
    assert k * n == q * n + r;
    assert (k - q) * n == r;
    if q < k {
      AtLeastOnce(k - q, n);
    } else if k < q {
      AtLeastOnce(q - k, n);
    }
  }

  function EffectiveBlockSize(blkSz: U32): U32 {
    if blkSz == 0 then 4096 else blkSz
  }

  /** One RAW chunk over the padded data; no chunk at all for no data. */
  function FromRaw(raw: Bytes, blkSz: U32): SparseFile
    requires |Padded(raw, EffectiveBlockSize(blkSz))| / EffectiveBlockSize(blkSz) < U32_LIMIT
  {
    var b := EffectiveBlockSize(blkSz);
    if raw == [] then SparseFile(NewHeader(b, 0, 0), [])
    else
      var data := Padded(raw, b);
      SparseFile(NewHeader(b, |data| / b, 1), [Chunk(CHUNK_TYPE_RAW, |data| / b, data)])
  }

  lemma FromRawExpands(raw: Bytes, blkSz: U32)
    requires |Padded(raw, EffectiveBlockSize(blkSz))| / EffectiveBlockSize(blkSz) < U32_LIMIT
    ensures var f, b := FromRaw(raw, blkSz), EffectiveBlockSize(blkSz);
            && f.header.blkSz == b && Standard(f.header) && AllShaped(f.chunks, b)
            && Expand(f.chunks, b) == Padded(raw, b)
            && (forall i :: 0 <= i < |f.chunks| ==> f.chunks[i].chunkType == CHUNK_TYPE_RAW && f.chunks[i].blocks > 0)
  {
    var b := EffectiveBlockSize(blkSz);
    PaddedIsLeast(raw, b);
    if raw != [] {
      var data := Padded(raw, b);
      WholeBlocks(|data|, b);
      SpanIsProduct(|data| / b, b);
      var c := Chunk(CHUNK_TYPE_RAW, |data| / b, data);
      assert FromRaw(raw, blkSz).chunks == [c] && ShapeOk(c, b);
      OneChunk(c, b);
    } else {
      Multiple(0, b);
      assert Padded(raw, b) == [];
    }
  }

  /** An image made of raw data counts its blocks of the given size, or of 4096 bytes for none, in a header
      of version 1.0, and has one chunk, or none for no data. */
  lemma FromRawHeader(raw: Bytes, blkSz: U32)
    requires |Padded(raw, EffectiveBlockSize(blkSz))| / EffectiveBlockSize(blkSz) < U32_LIMIT
    ensures var f, b := FromRaw(raw, blkSz), if blkSz == 0 then 4096 else blkSz;
            && |f.chunks| == (if raw == [] then 0 else 1) && Blocks(f.chunks) < U32_LIMIT
            && f.header == Header(0xED26FF3A, 1, 0, 28, 12, b, Blocks(f.chunks), |f.chunks|, 0)
  {
    var f := FromRaw(raw, blkSz);
    assert raw != [] ==> f.chunks[1..] == [];
  }

  lemma WholeBlocks(len: nat, b: nat)
    requires b > 0 && len > 0 && len / b * b == len
    ensures len / b > 0
  {}

  lemma OneChunk(c: Chunk, b: nat)
    ensures Expand([c], b) == ExpandChunk(c, b)
  {
    assert [c][1..] == [];
  }
}
