/** Splitting a sparse image into files of bounded size
    (`SparseFile::split`, crates/fastboot-protocol/src/sparse.rs). */
module SparseSplit {
  import opened Wrappers
  import opened LittleEndian
  import opened Sparse

  // ---------- the chunks that matter, and cutting them ----------

  predicate KnownType(c: Chunk) {
    c.chunkType in {CHUNK_TYPE_RAW, CHUNK_TYPE_FILL, CHUNK_TYPE_DONT_CARE, CHUNK_TYPE_CRC32}
  }

  /** A chunk as it reaches an output file: covering blocks, or a checksum of none. */
  predicate Ready(c: Chunk, blkSz: nat) {
    KnownType(c) && ShapeOk(c, blkSz) && (c.chunkType == CHUNK_TYPE_CRC32 <==> c.blocks == 0)
  }

  ghost predicate AllReady(cs: seq<Chunk>, blkSz: nat) {
    forall i {:trigger Ready(cs[i], blkSz)} :: 0 <= i < |cs| ==> Ready(cs[i], blkSz)
  }

  /** Chunks of no blocks are skipped; a checksum is copied with a block count of zero. */
  function Live(cs: seq<Chunk>): seq<Chunk> {
    if cs == [] then []
    else if cs[0].chunkType == CHUNK_TYPE_CRC32 then [cs[0].(blocks := 0)] + Live(cs[1..])
    else if cs[0].blocks > 0 then [cs[0]] + Live(cs[1..])
    else Live(cs[1..])
  }

  /** Indivisible steps through a chunk: its blocks, or one for a checksum. */
  function Units(c: Chunk): nat {
    if c.chunkType == CHUNK_TYPE_CRC32 then 1 else c.blocks
  }

  function AllUnits(cs: seq<Chunk>): nat {
    if cs == [] then 0 else Units(cs[0]) + AllUnits(cs[1..])
  }

  function Front(c: Chunk, k: nat, blkSz: nat): Chunk
    requires k <= c.blocks && ShapeOk(c, blkSz)
  {
    SpanPart(k, c.blocks, blkSz);
    Chunk(c.chunkType, k, if c.chunkType == CHUNK_TYPE_RAW then c.payload[..Span(k, blkSz)] else c.payload)
  }

  function Back(c: Chunk, k: nat, blkSz: nat): Chunk
    requires k <= c.blocks && ShapeOk(c, blkSz)
  {
    SpanPart(k, c.blocks, blkSz);
    Chunk(c.chunkType, c.blocks - k, if c.chunkType == CHUNK_TYPE_RAW then c.payload[Span(k, blkSz)..] else c.payload)
  }

  lemma CutIsReady(c: Chunk, k: nat, blkSz: nat)
    requires Ready(c, blkSz) && 0 < k < c.blocks
    ensures Ready(Front(c, k, blkSz), blkSz) && Ready(Back(c, k, blkSz), blkSz)
  {
    SpanPart(k, c.blocks, blkSz);
  }

  lemma BackBack(c: Chunk, j: nat, k: nat, blkSz: nat)
    requires Ready(c, blkSz) && 0 < j && 0 < k && j + k < c.blocks
    ensures Ready(Back(c, j, blkSz), blkSz) && Back(Back(c, j, blkSz), k, blkSz) == Back(c, j + k, blkSz)
  {
    CutIsReady(c, j, blkSz);
    CutIsReady(Back(c, j, blkSz), k, blkSz);
    if c.chunkType == CHUNK_TYPE_RAW {
      SpanAdd(j, k, blkSz);
      SpanPart(j, c.blocks, blkSz);
      SpanPart(j + k, c.blocks, blkSz);
      assert c.payload[Span(j, blkSz)..][Span(k, blkSz)..] == c.payload[Span(j, blkSz) + Span(k, blkSz)..];
    }
  }

  // ---------- the greedy cut ----------

  /** How many whole blocks of a RAW chunk go into so many free bytes. */
  function Fit(room: nat, blkSz: nat): nat
    requires blkSz > 0
  {
    if room < CHUNK_HEADER then 0 else Fits(room - CHUNK_HEADER, blkSz)
  }

  datatype Cut = Cut(taken: seq<Chunk>, rest: seq<Chunk>)

  /** Fills `room` bytes from the front of `cs`. */
  function TakeFile(room: nat, cs: seq<Chunk>, blkSz: nat): (cut: Cut)
    requires blkSz > 0 && AllReady(cs, blkSz)
    ensures AllReady(cut.taken, blkSz) && AllReady(cut.rest, blkSz)
    decreases cs
  {
    if cs == [] then Cut([], [])
    else
      var c := cs[0];
      if c.chunkType == CHUNK_TYPE_RAW && Fit(room, blkSz) < c.blocks then
        var k := Fit(room, blkSz);
        if k == 0 then Cut([], cs)
        else
          CutIsReady(c, k, blkSz);
          Cut([Front(c, k, blkSz)], [Back(c, k, blkSz)] + cs[1..])
      else if c.chunkType != CHUNK_TYPE_RAW && room < c.TotalSize() then Cut([], cs)
      else
        WholeFits(room, c, blkSz);
        var cut := TakeFile(room - c.TotalSize(), cs[1..], blkSz);
        Cut([c] + cut.taken, cut.rest)
  }

  lemma FitBounds(room: nat, blkSz: nat, k: nat)
    requires blkSz > 0 && k > 0
    ensures k <= Fit(room, blkSz) <==> CHUNK_HEADER + Span(k, blkSz) <= room
  {
    if room >= CHUNK_HEADER {
      var q := Fits(room - CHUNK_HEADER, blkSz);
      FitsBounds(room - CHUNK_HEADER, blkSz);
      if k <= q {
        SpanPart(k, q, blkSz);
      } else {
        SpanPart(q + 1, k, blkSz);
      }
    }
  }

  lemma WholeFits(room: nat, c: Chunk, blkSz: nat)
    requires blkSz > 0 && Ready(c, blkSz)
    requires if c.chunkType == CHUNK_TYPE_RAW then Fit(room, blkSz) >= c.blocks else room >= c.TotalSize()
    ensures c.TotalSize() <= room
  {
    if c.chunkType == CHUNK_TYPE_RAW {
      FitBounds(room, blkSz, c.blocks);
    }
  }

  /** A chunk that carries one 4-byte word. */
  predicate OneWord(c: Chunk) {
    c.chunkType == CHUNK_TYPE_FILL || c.chunkType == CHUNK_TYPE_CRC32
  }

  /** Room enough for any single unit. */
  ghost predicate Roomy(room: nat, cs: seq<Chunk>, blkSz: nat) {
    && room >= CHUNK_HEADER + blkSz
    && (room >= CHUNK_HEADER + 4 || forall i {:trigger OneWord(cs[i])} :: 0 <= i < |cs| ==> !OneWord(cs[i]))
  }

  lemma {:induction false} TakeConserves(room: nat, cs: seq<Chunk>, blkSz: nat)
    requires blkSz > 0 && AllReady(cs, blkSz)
    ensures var cut := TakeFile(room, cs, blkSz);
            && AllUnits(cut.taken) + AllUnits(cut.rest) == AllUnits(cs)
            && Blocks(cut.taken) + Blocks(cut.rest) == Blocks(cs)
            && Size(cut.taken) <= room
    decreases cs
  {
    hide Span, Fits;
    if cs != [] {
      var c, k := cs[0], Fit(room, blkSz);
      if c.chunkType == CHUNK_TYPE_RAW && k < c.blocks {
        if k > 0 {
          FitBounds(room, blkSz, k);
          TakePart(c, k, cs[1..], blkSz);
        }
      } else if c.chunkType == CHUNK_TYPE_RAW || room >= c.TotalSize() {
        WholeFits(room, c, blkSz);
        TakeConserves(room - c.TotalSize(), cs[1..], blkSz);
        TakeWhole(c, TakeFile(room - c.TotalSize(), cs[1..], blkSz).taken);
        assert cs == [c] + cs[1..];
      }
    }
  }

  lemma TakePart(c: Chunk, k: nat, later: seq<Chunk>, blkSz: nat)
    requires Ready(c, blkSz) && c.chunkType == CHUNK_TYPE_RAW && 0 < k < c.blocks
    ensures var f, b := Front(c, k, blkSz), Back(c, k, blkSz);
            && AllUnits([f]) == k && AllUnits([b] + later) == c.blocks - k + AllUnits(later)
            && Blocks([f]) == k && Blocks([b] + later) == c.blocks - k + Blocks(later)
            && Size([f]) == CHUNK_HEADER + Span(k, blkSz)
  {
    SpanPart(k, c.blocks, blkSz);
    assert ([Back(c, k, blkSz)] + later)[1..] == later;
  }

  lemma TakeWhole(c: Chunk, later: seq<Chunk>)
    ensures AllUnits([c] + later) == Units(c) + AllUnits(later)
    ensures Blocks([c] + later) == c.blocks + Blocks(later)
    ensures Size([c] + later) == c.TotalSize() + Size(later)
  {
    assert ([c] + later)[1..] == later;
  }

  /** With room for a unit something is taken. */
  lemma TakeProgress(room: nat, cs: seq<Chunk>, blkSz: nat)
    requires blkSz > 0 && AllReady(cs, blkSz) && cs != [] && Roomy(room, cs, blkSz)
    ensures var cut := TakeFile(room, cs, blkSz); cut.taken != [] && AllUnits(cut.rest) < AllUnits(cs)
  {
    FitBounds(room, blkSz, 1);
    TakeConserves(room, cs, blkSz);
    var cut := TakeFile(room, cs, blkSz);
    assert Ready(cs[0], blkSz) && (OneWord(cs[0]) ==> room >= CHUNK_HEADER + 4);
    assert cut.taken != [];
    assert Ready(cut.taken[0], blkSz);
  }

  /** What is left can be treated like the whole. */
  lemma {:induction false} TakeKeepsRoomy(room: nat, cs: seq<Chunk>, blkSz: nat, r: nat)
    requires blkSz > 0 && AllReady(cs, blkSz) && Roomy(r, cs, blkSz)
    ensures Roomy(r, TakeFile(room, cs, blkSz).rest, blkSz)
    decreases cs
  {
    if cs != [] {
      var c := cs[0];
      if (c.chunkType == CHUNK_TYPE_RAW && Fit(room, blkSz) >= c.blocks) ||
         (c.chunkType != CHUNK_TYPE_RAW && room >= c.TotalSize()) {
        WholeFits(room, c, blkSz);
        TakeKeepsRoomy(room - c.TotalSize(), cs[1..], blkSz, r);
      } else if c.chunkType == CHUNK_TYPE_RAW && Fit(room, blkSz) > 0 {
        var rest := TakeFile(room, cs, blkSz).rest;
        assert forall i :: 0 < i < |rest| ==> rest[i] == cs[i];
      }
    }
  }

  /** The whole split, from a file already holding `cur`: each file as full as it gets. */
  ghost function SplitFrom(room: nat, cur: seq<Chunk>, cs: seq<Chunk>, blkSz: nat): seq<seq<Chunk>>
    requires blkSz > 0 && AllReady(cs, blkSz) && Roomy(room, cs, blkSz) && Size(cur) <= room
    decreases AllUnits(cs), |cur|
  {
    if cur == [] && cs == [] then []
    else
      var cut := TakeFile(room - Size(cur), cs, blkSz);
      TakeKeepsRoomy(room - Size(cur), cs, blkSz, room);
      TakeConserves(room - Size(cur), cs, blkSz);
      if cur == [] then TakeProgress(room, cs, blkSz); [cut.taken] + SplitFrom(room, [], cut.rest, blkSz)
      else [cur + cut.taken] + SplitFrom(room, [], cut.rest, blkSz)
  }

  // ---------- conservation ----------

  function Flatten(files: seq<seq<Chunk>>): seq<Chunk> {
    if files == [] then [] else files[0] + Flatten(files[1..])
  }

  /** The checksums, in order. */
  function Crcs(cs: seq<Chunk>): seq<Bytes> {
    if cs == [] then []
    else (if cs[0].chunkType == CHUNK_TYPE_CRC32 then [cs[0].payload] else []) + Crcs(cs[1..])
  }

  lemma {:induction false} CrcsConcat(a: seq<Chunk>, b: seq<Chunk>)
    ensures Crcs(a + b) == Crcs(a) + Crcs(b)
  {
    if a == [] {
      assert a + b == b;
    } else {
      assert (a + b)[1..] == a[1..] + b;
      CrcsConcat(a[1..], b);
    }
  }

  /** What a list of chunks stands for. */
  ghost predicate SameImage(a: seq<Chunk>, b: seq<Chunk>, blkSz: nat) {
    Expand(a, blkSz) == Expand(b, blkSz) && Crcs(a) == Crcs(b) && Blocks(a) == Blocks(b)
  }

  lemma SameImageConcat(a: seq<Chunk>, b: seq<Chunk>, c: seq<Chunk>, d: seq<Chunk>, blkSz: nat)
    requires SameImage(a, b, blkSz) && SameImage(c, d, blkSz)
    ensures SameImage(a + c, b + d, blkSz)
  {
    ExpandConcat(a, c, blkSz);
    ExpandConcat(b, d, blkSz);
    CrcsConcat(a, c);
    CrcsConcat(b, d);
    TotalsConcat(a, c);
    TotalsConcat(b, d);
  }

  /** Cutting a RAW chunk in two keeps its image. */
  lemma CutKeepsImage(c: Chunk, k: nat, blkSz: nat)
    requires Ready(c, blkSz) && c.chunkType == CHUNK_TYPE_RAW && 0 < k < c.blocks
    ensures SameImage([Front(c, k, blkSz)] + [Back(c, k, blkSz)], [c], blkSz)
  {
    var f, b := Front(c, k, blkSz), Back(c, k, blkSz);
    ExpandConcat([f], [b], blkSz);
    OneChunk(f, blkSz);
    OneChunk(b, blkSz);
    OneChunk(c, blkSz);
    SpanPart(k, c.blocks, blkSz);
    assert f.payload + b.payload == c.payload;
    assert ([f] + [b])[1..] == [b];
  }

  lemma SameItself(cs: seq<Chunk>, blkSz: nat)
    ensures SameImage(cs, cs, blkSz)
  {}

  lemma {:induction false} TakeKeepsImage(room: nat, cs: seq<Chunk>, blkSz: nat)
    requires blkSz > 0 && AllReady(cs, blkSz)
    ensures var cut := TakeFile(room, cs, blkSz); SameImage(cut.taken + cut.rest, cs, blkSz)
    decreases cs
  {
    hide Span, Fits, SameImage;
    var cut := TakeFile(room, cs, blkSz);
    if cut.taken == [] {
      SameItself(cs, blkSz);
      assert [] + cs == cs;
    } else {
      var c, k, later := cs[0], Fit(room, blkSz), cs[1..];
      assert [c] + later == cs;
      if c.chunkType == CHUNK_TYPE_RAW && k < c.blocks {
        CutKeepsImage(c, k, blkSz);
        SameItself(later, blkSz);
        SameImageConcat([Front(c, k, blkSz)] + [Back(c, k, blkSz)], [c], later, later, blkSz);
        ConcatAssoc([Front(c, k, blkSz)], [Back(c, k, blkSz)], later);
      } else {
        WholeFits(room, c, blkSz);
        TakeKeepsImage(room - c.TotalSize(), later, blkSz);
        var next := TakeFile(room - c.TotalSize(), later, blkSz);
        SameItself([c], blkSz);
        SameImageConcat([c], [c], next.taken + next.rest, later, blkSz);
        ConcatAssoc([c], next.taken, next.rest);
      }
    }
  }

  ghost predicate GoodFile(f: seq<Chunk>, room: nat, blkSz: nat) {
    f != [] && AllReady(f, blkSz) && Size(f) <= room
  }

  lemma SplitShrinks(room: nat, cur: seq<Chunk>, cs: seq<Chunk>, blkSz: nat)
    requires blkSz > 0 && AllReady(cs, blkSz) && Roomy(room, cs, blkSz) && Size(cur) <= room && (cur != [] || cs != [])
    ensures var rest := TakeFile(room - Size(cur), cs, blkSz).rest;
            AllUnits(rest) <= AllUnits(cs) && (cur == [] ==> AllUnits(rest) < AllUnits(cs))
  {
    hide TakeFile, Roomy, AllReady;
    TakeConserves(room - Size(cur), cs, blkSz);
    if cur == [] {
      TakeProgress(room, cs, blkSz);
    }
  }

  lemma TakenFits(room: nat, cs: seq<Chunk>, blkSz: nat)
    requires blkSz > 0 && AllReady(cs, blkSz)
    ensures Size(TakeFile(room, cs, blkSz).taken) <= room
  {
    TakeConserves(room, cs, blkSz);
  }

  lemma NewFileGood(room: nat, cs: seq<Chunk>, blkSz: nat)
    requires blkSz > 0 && AllReady(cs, blkSz) && Roomy(room, cs, blkSz) && cs != []
    ensures GoodFile(TakeFile(room, cs, blkSz).taken, room, blkSz)
  {
    TakenFits(room, cs, blkSz);
    TakeProgress(room, cs, blkSz);
  }

  lemma OpenFileGood(room: nat, cur: seq<Chunk>, cs: seq<Chunk>, blkSz: nat)
    requires blkSz > 0 && AllReady(cs, blkSz) && Size(cur) <= room && cur != [] && AllReady(cur, blkSz)
    ensures GoodFile(cur + TakeFile(room - Size(cur), cs, blkSz).taken, room, blkSz)
  {
    TakenFits(room - Size(cur), cs, blkSz);
    GoodConcat(cur, TakeFile(room - Size(cur), cs, blkSz).taken, room, blkSz);
  }

  lemma GoodConcat(cur: seq<Chunk>, taken: seq<Chunk>, room: nat, blkSz: nat)
    requires AllReady(cur, blkSz) && AllReady(taken, blkSz) && Size(cur) + Size(taken) <= room &&
             (cur != [] || taken != [])
    ensures GoodFile(cur + taken, room, blkSz)
  {
    TotalsConcat(cur, taken);
  }

  /** Every file of the split is non-empty, well formed and within bounds. */
  lemma {:induction false} SplitFilesGood(room: nat, cur: seq<Chunk>, cs: seq<Chunk>, blkSz: nat)
    requires blkSz > 0 && AllReady(cs, blkSz) && Roomy(room, cs, blkSz) && Size(cur) <= room && AllReady(cur, blkSz)
    ensures forall f :: f in SplitFrom(room, cur, cs, blkSz) ==> GoodFile(f, room, blkSz)
    decreases AllUnits(cs), |cur|
  {
    if cur != [] || cs != [] {
      var cut := TakeFile(room - Size(cur), cs, blkSz);
      SplitHead(room, cur, cs, blkSz);
      SplitShrinks(room, cur, cs, blkSz);
      if cur == [] {
        NewFileGood(room, cs, blkSz);
        assert cur + cut.taken == cut.taken;
      } else {
        OpenFileGood(room, cur, cs, blkSz);
      }
      SplitFilesGood(room, [], cut.rest, blkSz);
    }
  }

  lemma ImageStep(cur: seq<Chunk>, taken: seq<Chunk>, rest: seq<Chunk>, cs: seq<Chunk>, later: seq<seq<Chunk>>,
                  blkSz: nat)
    requires SameImage(taken + rest, cs, blkSz) && SameImage(Flatten(later), rest, blkSz)
    ensures SameImage(Flatten([cur + taken] + later), cur + cs, blkSz)
  {
    SameImageConcat(cur + taken, cur + taken, Flatten(later), rest, blkSz);
    SameImageConcat(cur, cur, taken + rest, cs, blkSz);
    ConcatAssoc(cur, taken, rest);
    FlattenCons(cur + taken, later);
  }

  /** The files together are the image. */
  lemma {:induction false} SplitKeepsImage(room: nat, cur: seq<Chunk>, cs: seq<Chunk>, blkSz: nat)
    requires blkSz > 0 && AllReady(cs, blkSz) && Roomy(room, cs, blkSz) && Size(cur) <= room && AllReady(cur, blkSz)
    ensures SameImage(Flatten(SplitFrom(room, cur, cs, blkSz)), cur + cs, blkSz)
    decreases AllUnits(cs), |cur|
  {
    if cur == [] && cs == [] {
      assert SplitFrom(room, cur, cs, blkSz) == [];
    } else {
      var cut := TakeFile(room - Size(cur), cs, blkSz);
      SplitHead(room, cur, cs, blkSz);
      SplitShrinks(room, cur, cs, blkSz);
      SplitKeepsImage(room, [], cut.rest, blkSz);
      var later := SplitFrom(room, [], cut.rest, blkSz);
      assert SameImage(Flatten(later), cut.rest, blkSz) by { assert [] + cut.rest == cut.rest; }
      TakeKeepsImage(room - Size(cur), cs, blkSz);
      ImageStep(cur, cut.taken, cut.rest, cs, later, blkSz);
    }
  }

  lemma FlattenCons(f: seq<Chunk>, later: seq<seq<Chunk>>)
    ensures Flatten([f] + later) == f + Flatten(later)
  {
    assert ([f] + later)[1..] == later;
  }

  lemma SplitHead(room: nat, cur: seq<Chunk>, cs: seq<Chunk>, blkSz: nat)
    requires blkSz > 0 && AllReady(cs, blkSz) && Roomy(room, cs, blkSz) && Size(cur) <= room && (cur != [] || cs != [])
    ensures var cut := TakeFile(room - Size(cur), cs, blkSz);
            && Roomy(room, cut.rest, blkSz)
            && SplitFrom(room, cur, cs, blkSz) == [cur + cut.taken] + SplitFrom(room, [], cut.rest, blkSz)
  {
    var cut := TakeFile(room - Size(cur), cs, blkSz);
    TakeKeepsRoomy(room - Size(cur), cs, blkSz, room);
    assert cur == [] ==> cur + cut.taken == cut.taken;
  }

  // ---------- fewest files ----------

  /** `parts` is `cs` with some chunks cut at block boundaries, order kept. */
  ghost predicate Refines(parts: seq<Chunk>, cs: seq<Chunk>, blkSz: nat)
    requires AllReady(cs, blkSz)
    decreases |parts|
  {
    if parts == [] then cs == []
    else if cs == [] then false
    else if parts[0] == cs[0] then Refines(parts[1..], cs[1..], blkSz)
    else
      var k := parts[0].blocks;
      && Ready(cs[0], blkSz) && 0 < k < cs[0].blocks
      && parts[0] == Front(cs[0], k, blkSz)
      && (CutIsReady(cs[0], k, blkSz); Refines(parts[1..], [Back(cs[0], k, blkSz)] + cs[1..], blkSz))
  }

  /** What is left of `cs` after `u` units. */
  function Drop(cs: seq<Chunk>, u: nat, blkSz: nat): (rest: seq<Chunk>)
    requires AllReady(cs, blkSz) && u <= AllUnits(cs)
    ensures AllReady(rest, blkSz)
  {
    if u == 0 then cs
    else if u >= Units(cs[0]) then Drop(cs[1..], u - Units(cs[0]), blkSz)
    else
      CutIsReady(cs[0], u, blkSz);
      [Back(cs[0], u, blkSz)] + cs[1..]
  }

  /** The least size of chunks covering the first `u` units of `c`. */
  function CostOf(c: Chunk, u: nat, blkSz: nat): nat {
    if c.chunkType == CHUNK_TYPE_RAW then CHUNK_HEADER + Span(u, blkSz) else c.TotalSize()
  }

  function Cost(cs: seq<Chunk>, u: nat, blkSz: nat): nat
    requires AllReady(cs, blkSz) && u <= AllUnits(cs)
  {
    if u == 0 then 0
    else if u >= Units(cs[0]) then CostOf(cs[0], Units(cs[0]), blkSz) + Cost(cs[1..], u - Units(cs[0]), blkSz)
    else CostOf(cs[0], u, blkSz)
  }

  lemma UnitsCons(c: Chunk, cs: seq<Chunk>)
    ensures AllUnits([c] + cs) == Units(c) + AllUnits(cs)
  {
    assert ([c] + cs)[1..] == cs;
  }

  lemma {:induction false} DropUnits(cs: seq<Chunk>, u: nat, blkSz: nat)
    requires AllReady(cs, blkSz) && u <= AllUnits(cs)
    ensures AllUnits(Drop(cs, u, blkSz)) == AllUnits(cs) - u
    decreases cs
  {
    if u > 0 {
      if u >= Units(cs[0]) {
        DropUnits(cs[1..], u - Units(cs[0]), blkSz);
      } else {
        assert Ready(cs[0], blkSz);
        UnitsCons(Back(cs[0], u, blkSz), cs[1..]);
      }
    }
  }

  lemma DropInFirst(cs: seq<Chunk>, a: nat, b: nat, blkSz: nat)
    requires AllReady(cs, blkSz) && 0 < a && 0 < b && a + b <= AllUnits(cs) && cs != [] && a < Units(cs[0])
    ensures AllUnits(Drop(cs, a, blkSz)) == AllUnits(cs) - a
    ensures Drop(Drop(cs, a, blkSz), b, blkSz) == Drop(cs, a + b, blkSz)
  {
    hide Span, ShapeOk;
    assert Ready(cs[0], blkSz);
    var c, n, back := cs[0], Units(cs[0]), Back(cs[0], a, blkSz);
    DropUnits(cs, a, blkSz);
    assert n == c.blocks;
    CutIsReady(c, a, blkSz);
    assert Units(back) == n - a;
    var mid := [back] + cs[1..];
    assert Drop(cs, a, blkSz) == mid && mid[0] == back && mid[1..] == cs[1..];
    if b < n - a {
      BackBack(c, a, b, blkSz);
    }
  }

  lemma {:induction false} DropDrop(cs: seq<Chunk>, a: nat, b: nat, blkSz: nat)
    requires AllReady(cs, blkSz) && a + b <= AllUnits(cs)
    ensures AllUnits(Drop(cs, a, blkSz)) == AllUnits(cs) - a
    ensures Drop(Drop(cs, a, blkSz), b, blkSz) == Drop(cs, a + b, blkSz)
    decreases cs
  {
    DropUnits(cs, a, blkSz);
    if a > 0 && b > 0 {
      hide Span, ShapeOk;
      var n := Units(cs[0]);
      if a >= n {
        DropDrop(cs[1..], a - n, b, blkSz);
      } else {
        DropInFirst(cs, a, b, blkSz);
      }
    }
  }

  /** Starting later never costs more. */
  lemma {:induction false} CostDrop(cs: seq<Chunk>, d: nat, u: nat, blkSz: nat)
    requires AllReady(cs, blkSz) && d <= u <= AllUnits(cs)
    ensures AllUnits(Drop(cs, d, blkSz)) == AllUnits(cs) - d
    ensures Cost(Drop(cs, d, blkSz), u - d, blkSz) <= Cost(cs, u, blkSz)
    decreases cs
  {
    DropUnits(cs, d, blkSz);
    if 0 < d < u {
      var c, n := cs[0], Units(cs[0]);
      if d >= n {
        CostDrop(cs[1..], d - n, u - n, blkSz);
      } else {
        assert Ready(c, blkSz);
        var back := Back(c, d, blkSz);
        CutIsReady(c, d, blkSz);
        assert ([back] + cs[1..])[1..] == cs[1..];
        BackCosts(c, d, if u >= n then n else u, blkSz);
      }
    }
  }

  lemma BackCosts(c: Chunk, d: nat, u: nat, blkSz: nat)
    requires Ready(c, blkSz) && 0 < d <= u <= c.blocks && d < c.blocks
    ensures CostOf(Back(c, d, blkSz), u - d, blkSz) <= CostOf(c, u, blkSz)
  {
    SpanPart(d, u, blkSz);
  }

  /** The greedy cut leaves what dropping its units leaves. */
  lemma {:induction false} TakeDrops(room: nat, cs: seq<Chunk>, blkSz: nat)
    requires blkSz > 0 && AllReady(cs, blkSz)
    ensures var cut := TakeFile(room, cs, blkSz);
            AllUnits(cut.taken) <= AllUnits(cs) && cut.rest == Drop(cs, AllUnits(cut.taken), blkSz)
    decreases cs
  {
    hide Span, Fits, Blocks, Size;
    TakeConserves(room, cs, blkSz);
    if cs != [] {
      var c, k := cs[0], Fit(room, blkSz);
      assert Ready(c, blkSz);
      if c.chunkType == CHUNK_TYPE_RAW && k < c.blocks {
        if k > 0 {
          TakePart(c, k, cs[1..], blkSz);
        }
      } else if c.chunkType == CHUNK_TYPE_RAW || room >= c.TotalSize() {
        WholeFits(room, c, blkSz);
        TakeDrops(room - c.TotalSize(), cs[1..], blkSz);
        UnitsCons(c, TakeFile(room - c.TotalSize(), cs[1..], blkSz).taken);
      }
    }
  }

  /** The greedy cut reaches as far as any that fits. */
  lemma {:induction false} TakeReaches(room: nat, cs: seq<Chunk>, u: nat, blkSz: nat)
    requires blkSz > 0 && AllReady(cs, blkSz) && u <= AllUnits(cs) && Cost(cs, u, blkSz) <= room
    ensures u <= AllUnits(TakeFile(room, cs, blkSz).taken)
    decreases cs
  {
    if u > 0 {
      var c, n := cs[0], Units(cs[0]);
      assert Ready(c, blkSz);
      var first := if u >= n then n else u;
      assert CostOf(c, first, blkSz) <= room;
      if c.chunkType == CHUNK_TYPE_RAW {
        FitBounds(room, blkSz, first);
      }
      if c.chunkType == CHUNK_TYPE_RAW && Fit(room, blkSz) < c.blocks {
        TakePart(c, Fit(room, blkSz), cs[1..], blkSz);
      } else {
        WholeFits(room, c, blkSz);
        UnitsCons(c, TakeFile(room - c.TotalSize(), cs[1..], blkSz).taken);
        if u >= n {
          TakeReaches(room - c.TotalSize(), cs[1..], u - n, blkSz);
        }
      }
    }
  }

  lemma CostJoin(cs: seq<Chunk>, k: nat, u: nat, blkSz: nat)
    requires AllReady(cs, blkSz) && cs != [] && 0 < k < cs[0].blocks && k + u <= AllUnits(cs)
    ensures AllUnits(Drop(cs, k, blkSz)) == AllUnits(cs) - k
    ensures Cost(cs, k + u, blkSz) <= CostOf(cs[0], k, blkSz) + Cost(Drop(cs, k, blkSz), u, blkSz)
  {
    DropUnits(cs, k, blkSz);
    var c, n := cs[0], Units(cs[0]);
    assert Ready(c, blkSz);
    var rest := Drop(cs, k, blkSz);
    assert rest[1..] == cs[1..];
    if u > 0 {
      CostSum(c, k, if k + u >= n then n - k else u, blkSz);
    }
  }

  lemma CostSum(c: Chunk, k: nat, u: nat, blkSz: nat)
    requires Ready(c, blkSz) && 0 < k && k + u <= c.blocks && k < c.blocks
    ensures CostOf(c, k + u, blkSz) <= CostOf(c, k, blkSz) + CostOf(Back(c, k, blkSz), u, blkSz)
  {
    SpanAdd(k, u, blkSz);
  }

  lemma FrontCosts(c: Chunk, k: nat, blkSz: nat)
    requires Ready(c, blkSz) && 0 < k < c.blocks
    ensures Front(c, k, blkSz).TotalSize() == CostOf(c, k, blkSz) && Units(Front(c, k, blkSz)) == k
  {
    SpanPart(k, c.blocks, blkSz);
  }

  /** `front` covers the first units of `cs` at no less than their cost, and `back` refines what is left. */
  ghost predicate CoversFront(front: seq<Chunk>, back: seq<Chunk>, cs: seq<Chunk>, blkSz: nat)
    requires AllReady(cs, blkSz)
  {
    && AllUnits(front) <= AllUnits(cs)
    && Cost(cs, AllUnits(front), blkSz) <= Size(front)
    && Refines(back, Drop(cs, AllUnits(front), blkSz), blkSz)
  }

  lemma CoverWhole(front: seq<Chunk>, back: seq<Chunk>, cs: seq<Chunk>, blkSz: nat)
    requires AllReady(cs, blkSz) && front != [] && cs != [] && front[0] == cs[0]
    requires CoversFront(front[1..], back, cs[1..], blkSz)
    ensures CoversFront(front, back, cs, blkSz)
  {
    assert Ready(cs[0], blkSz);
  }

  lemma CoverPart(front: seq<Chunk>, back: seq<Chunk>, cs: seq<Chunk>, k: nat, blkSz: nat)
    requires AllReady(cs, blkSz) && front != [] && cs != [] && Ready(cs[0], blkSz) && 0 < k < cs[0].blocks
    requires front[0] == Front(cs[0], k, blkSz) && k <= AllUnits(cs)
    requires CoversFront(front[1..], back, Drop(cs, k, blkSz), blkSz)
    ensures CoversFront(front, back, cs, blkSz)
  {
    hide Span, Cost, Drop, Refines, AllReady, Ready;
    var u := AllUnits(front[1..]);
    FrontCosts(cs[0], k, blkSz);
    DropUnits(cs, k, blkSz);
    DropDrop(cs, k, u, blkSz);
    CostJoin(cs, k, u, blkSz);
  }

  lemma {:induction false} RefinesSplit(front: seq<Chunk>, back: seq<Chunk>, cs: seq<Chunk>, blkSz: nat)
    requires AllReady(cs, blkSz) && Refines(front + back, cs, blkSz)
    ensures CoversFront(front, back, cs, blkSz)
    decreases front
  {
    if front == [] {
      assert front + back == back;
    } else {
      assert (front + back)[1..] == front[1..] + back;
      assert Ready(cs[0], blkSz);
      if front[0] == cs[0] {
        RefinesSplit(front[1..], back, cs[1..], blkSz);
        CoverWhole(front, back, cs, blkSz);
      } else {
        var k := front[0].blocks;
        CutIsReady(cs[0], k, blkSz);
        var rest := [Back(cs[0], k, blkSz)] + cs[1..];
        assert Drop(cs, k, blkSz) == rest;
        RefinesSplit(front[1..], back, rest, blkSz);
        CoverPart(front, back, cs, k, blkSz);
      }
    }
  }

  lemma {:induction false} DropRoomy(room: nat, cs: seq<Chunk>, u: nat, blkSz: nat)
    requires AllReady(cs, blkSz) && u <= AllUnits(cs) && Roomy(room, cs, blkSz)
    ensures Roomy(room, Drop(cs, u, blkSz), blkSz)
    decreases cs
  {
    if u > 0 {
      if u >= Units(cs[0]) {
        DropRoomy(room, cs[1..], u - Units(cs[0]), blkSz);
      } else {
        var rest := Drop(cs, u, blkSz);
        assert OneWord(rest[0]) == OneWord(cs[0]) && forall i :: 0 < i < |rest| ==> rest[i] == cs[i];
      }
    }
  }

  /** Greedy stays ahead: from any point no earlier than where another split stands, it
      needs no more files than that split still has. */
  lemma {:induction false} StaysAhead(room: nat, cs: seq<Chunk>, d: nat, files: seq<seq<Chunk>>, blkSz: nat)
    requires blkSz > 0 && AllReady(cs, blkSz) && d <= AllUnits(cs) && Roomy(room, cs, blkSz)
    requires Refines(Flatten(files), cs, blkSz) && forall f :: f in files ==> Size(f) <= room
    ensures Roomy(room, Drop(cs, d, blkSz), blkSz)
    ensures |SplitFrom(room, [], Drop(cs, d, blkSz), blkSz)| <= |files|
    decreases files
  {
    DropRoomy(room, cs, d, blkSz);
    DropUnits(cs, d, blkSz);
    var mine := Drop(cs, d, blkSz);
    if mine == [] {
      assert SplitFrom(room, [], mine, blkSz) == [];
    } else {
      assert files != [];
      var u := AllUnits(files[0]);
      RefinesSplit(files[0], Flatten(files[1..]), cs, blkSz);
      DropRoomy(room, cs, u, blkSz);
      var theirs, rest := Drop(cs, u, blkSz), TakeFile(room, mine, blkSz).rest;
      var ahead := AheadByOne(room, cs, d, u, blkSz);
      SplitCount(room, mine, blkSz);
      StaysAhead(room, theirs, ahead, files[1..], blkSz);
    }
  }

  lemma SplitCount(room: nat, cs: seq<Chunk>, blkSz: nat)
    requires blkSz > 0 && AllReady(cs, blkSz) && Roomy(room, cs, blkSz) && cs != []
    ensures var rest := TakeFile(room, cs, blkSz).rest;
            Roomy(room, rest, blkSz) && |SplitFrom(room, [], cs, blkSz)| == 1 + |SplitFrom(room, [], rest, blkSz)|
  {
    hide SplitFrom, TakeFile, Roomy, AllReady;
    assert Size([]) == 0;
    SplitHead(room, [], cs, blkSz);
  }

  /** One greedy file from `d` ends at or beyond any `u` that one file can reach from the start. */
  lemma AheadByOne(room: nat, cs: seq<Chunk>, d: nat, u: nat, blkSz: nat) returns (ahead: nat)
    requires blkSz > 0 && AllReady(cs, blkSz) && d <= AllUnits(cs) && u <= AllUnits(cs) && Cost(cs, u, blkSz) <= room
    ensures ahead <= AllUnits(Drop(cs, u, blkSz))
    ensures TakeFile(room, Drop(cs, d, blkSz), blkSz).rest == Drop(Drop(cs, u, blkSz), ahead, blkSz)
  {
    var g := Reach(room, cs, d, u, blkSz);
    ahead := d + g - u;
    SameSuffix(cs, d, g, u, ahead, blkSz);
  }

  lemma SameSuffix(cs: seq<Chunk>, a: nat, b: nat, c: nat, d: nat, blkSz: nat)
    requires AllReady(cs, blkSz) && a + b == c + d <= AllUnits(cs)
    ensures AllUnits(Drop(cs, a, blkSz)) == AllUnits(cs) - a && AllUnits(Drop(cs, c, blkSz)) == AllUnits(cs) - c
    ensures Drop(Drop(cs, a, blkSz), b, blkSz) == Drop(Drop(cs, c, blkSz), d, blkSz)
  {
    DropDrop(cs, a, b, blkSz);
    DropDrop(cs, c, d, blkSz);
  }

  lemma Reach(room: nat, cs: seq<Chunk>, d: nat, u: nat, blkSz: nat) returns (g: nat)
    requires blkSz > 0 && AllReady(cs, blkSz) && d <= AllUnits(cs) && u <= AllUnits(cs) && Cost(cs, u, blkSz) <= room
    ensures u <= d + g <= AllUnits(cs) && AllUnits(Drop(cs, d, blkSz)) == AllUnits(cs) - d
    ensures TakeFile(room, Drop(cs, d, blkSz), blkSz).rest == Drop(Drop(cs, d, blkSz), g, blkSz)
  {
    var mine := Drop(cs, d, blkSz);
    g := AllUnits(TakeFile(room, mine, blkSz).taken);
    DropUnits(cs, d, blkSz);
    TakeDrops(room, mine, blkSz);
    if u > d {
      CostDrop(cs, d, u, blkSz);
      TakeReaches(room, mine, u - d, blkSz);
    }
  }

  // ---------- `split` itself ----------

  /** Known types have their shape; anything may carry an unknown type. */
  ghost predicate Splittable(cs: seq<Chunk>, blkSz: nat) {
    forall i {:trigger cs[i]} :: 0 <= i < |cs| && KnownType(cs[i]) ==> ShapeOk(cs[i], blkSz)
  }

  function MinRequired(blkSz: nat): nat {
    FILE_HEADER + CHUNK_HEADER + blkSz
  }

  /** A split can fail with an error, or stop where it slices the payload of a RAW chunk beyond its end. */
  datatype Failure = Refused(error: SparseError) | SliceOutOfRange

  /** A chunk that reaches the inner loop and has no place even in an empty file, or lacks bytes. */
  function ChunkFault(c: Chunk, blkSz: nat, maxSize: nat): Option<Failure> {
    if c.blocks == 0 && c.chunkType != CHUNK_TYPE_CRC32 then None
    else if !KnownType(c) then Some(Refused(UnknownChunkType(c.chunkType)))
    else if c.chunkType in {CHUNK_TYPE_FILL, CHUNK_TYPE_CRC32} && maxSize < FILE_HEADER + CHUNK_HEADER + 4 then
      Some(Refused(MaxDownloadSizeTooSmall(maxSize, MinRequired(blkSz))))
    else if c.chunkType == CHUNK_TYPE_RAW && |c.payload| < Span(c.blocks, blkSz) then Some(SliceOutOfRange)
    else None
  }

  function FirstFault(cs: seq<Chunk>, blkSz: nat, maxSize: nat): Option<Failure> {
    if cs == [] then None
    else if ChunkFault(cs[0], blkSz, maxSize).Some? then ChunkFault(cs[0], blkSz, maxSize)
    else FirstFault(cs[1..], blkSz, maxSize)
  }

  /** Why a split fails, if it does. */
  function SplitFault(f: SparseFile, maxSize: nat): Option<Failure> {
    if f.header.blkSz == 0 then Some(Refused(InvalidBlockSize(0)))
    else if maxSize < MinRequired(f.header.blkSz) then
      Some(Refused(MaxDownloadSizeTooSmall(maxSize, MinRequired(f.header.blkSz))))
    else FirstFault(f.chunks, f.header.blkSz, maxSize)
  }

  lemma {:induction false} LiveIsReady(cs: seq<Chunk>, blkSz: nat, maxSize: nat)
    requires Splittable(cs, blkSz) && FirstFault(cs, blkSz, maxSize) == None && maxSize >= MinRequired(blkSz)
    ensures AllReady(Live(cs), blkSz) && Roomy(maxSize - FILE_HEADER, Live(cs), blkSz)
  {
    if cs != [] {
      assert Splittable(cs[1..], blkSz);
      LiveIsReady(cs[1..], blkSz, maxSize);
      var c := cs[0];
      if c.chunkType == CHUNK_TYPE_CRC32 || c.blocks > 0 {
        assert Ready(c.(blocks := if c.chunkType == CHUNK_TYPE_CRC32 then 0 else c.blocks), blkSz);
      }
    }
  }

  /** Blocks claimed by checksums, which `split` drops. */
  function CrcBlocks(cs: seq<Chunk>): nat {
    if cs == [] then 0
    else (if cs[0].chunkType == CHUNK_TYPE_CRC32 then cs[0].blocks else 0) + CrcBlocks(cs[1..])
  }

  lemma {:induction false} LiveKeepsImage(cs: seq<Chunk>, blkSz: nat)
    requires Splittable(cs, blkSz)
    ensures Expand(Live(cs), blkSz) == Expand(cs, blkSz) && Crcs(Live(cs)) == Crcs(cs)
    ensures Blocks(Live(cs)) + CrcBlocks(cs) == Blocks(cs)
  {
    if cs != [] {
      assert Splittable(cs[1..], blkSz);
      LiveKeepsImage(cs[1..], blkSz);
      var c, more := cs[0], Live(cs[1..]);
      if c.chunkType == CHUNK_TYPE_CRC32 {
        assert Live(cs)[1..] == more;
      } else if c.blocks > 0 {
        assert Live(cs)[1..] == more;
      } else {
        assert KnownType(c) ==> ShapeOk(c, blkSz);
        NothingExpands(c, blkSz);
        assert Expand(cs, blkSz) == [] + Expand(cs[1..], blkSz);
      }
    }
  }

  lemma NothingExpands(c: Chunk, blkSz: nat)
    requires c.blocks == 0 && (KnownType(c) ==> ShapeOk(c, blkSz))
    ensures ExpandChunk(c, blkSz) == []
  {}

  function FileOf(blkSz: U32, cs: seq<Chunk>): SparseFile {
    SparseFile(NewHeader(blkSz, Low32(Blocks(cs)), Low32(|cs|)), cs)
  }

  function FilesOf(blkSz: U32, lists: seq<seq<Chunk>>): seq<SparseFile> {
    seq(|lists|, i requires 0 <= i < |lists| => FileOf(blkSz, lists[i]))
  }

  ghost function SplitFiles(f: SparseFile, maxSize: nat): seq<SparseFile>
    requires Splittable(f.chunks, f.header.blkSz) && SplitFault(f, maxSize) == None
  {
    LiveIsReady(f.chunks, f.header.blkSz, maxSize);
    FilesOf(f.header.blkSz, SplitFrom(maxSize - FILE_HEADER, [], Live(f.chunks), f.header.blkSz))
  }

  function AddChunk(f: SparseFile, c: Chunk): SparseFile
    requires f.header.totalBlks + c.blocks < U32_LIMIT
  {
    f.(header := f.header.(totalBlks := f.header.totalBlks + c.blocks, totalChunks := Low32(|f.chunks| + 1)),
       chunks := f.chunks + [c])
  }

  lemma AddToFileOf(blkSz: U32, cs: seq<Chunk>, c: Chunk)
    requires Blocks(cs) + c.blocks < U32_LIMIT
    ensures AddChunk(FileOf(blkSz, cs), c) == FileOf(blkSz, cs + [c])
  {
    TotalsConcat(cs, [c]);
    assert [c][1..] == [];
  }

  /** Placing a chunk that is never cut: the files flushed, and the one now open. */
  function PlaceWhole(room: nat, cur: seq<Chunk>, c: Chunk): (seq<seq<Chunk>>, seq<Chunk>) {
    if Size(cur) + c.TotalSize() <= room then ([], cur + [c]) else ([cur], [c])
  }

  lemma RoomyLater(room: nat, c: Chunk, later: seq<Chunk>, blkSz: nat)
    requires Roomy(room, [c] + later, blkSz)
    ensures Roomy(room, later, blkSz)
  {
    assert forall i :: 0 <= i < |later| ==> later[i] == ([c] + later)[i + 1];
  }

  lemma ReadyCons(c: Chunk, later: seq<Chunk>, blkSz: nat)
    requires Ready(c, blkSz) && AllReady(later, blkSz)
    ensures AllReady([c] + later, blkSz)
  {}

  /** Taking a chunk that fits whole, then the rest. */
  lemma TakeFits(room: nat, c: Chunk, later: seq<Chunk>, blkSz: nat)
    requires blkSz > 0 && Ready(c, blkSz) && AllReady(later, blkSz) && c.TotalSize() <= room
    ensures AllReady([c] + later, blkSz)
    ensures TakeFile(room, [c] + later, blkSz) ==
            var cut := TakeFile(room - c.TotalSize(), later, blkSz); Cut([c] + cut.taken, cut.rest)
  {
    ReadyCons(c, later, blkSz);
    assert ([c] + later)[1..] == later;
    if c.chunkType == CHUNK_TYPE_RAW {
      FitBounds(room, blkSz, c.blocks);
    }
  }

  /** A chunk that fits goes into the open file. */
  lemma SplitPut(room: nat, cur: seq<Chunk>, c: Chunk, later: seq<Chunk>, blkSz: nat)
    requires blkSz > 0 && Ready(c, blkSz) && AllReady(later, blkSz) && Roomy(room, [c] + later, blkSz)
    requires Size(cur) + c.TotalSize() <= room
    ensures AllReady([c] + later, blkSz) && Roomy(room, later, blkSz) && Size(cur + [c]) <= room
    ensures SplitFrom(room, cur, [c] + later, blkSz) == SplitFrom(room, cur + [c], later, blkSz)
  {
    ReadyCons(c, later, blkSz);
    RoomyLater(room, c, later, blkSz);
    BlocksSnoc(cur, c);
    var cut := TakeFile(room - Size(cur + [c]), later, blkSz);
    assert TakeFile(room - Size(cur), [c] + later, blkSz) == Cut([c] + cut.taken, cut.rest) by {
      TakeFits(room - Size(cur), c, later, blkSz);
    }
    ConcatAssoc(cur, [c], cut.taken);
    SplitHead(room, cur, [c] + later, blkSz);
    SplitHead(room, cur + [c], later, blkSz);
  }

  /** A file with no room for anything of the next chunk is closed. */
  lemma SplitFlush(room: nat, cur: seq<Chunk>, cs: seq<Chunk>, blkSz: nat)
    requires blkSz > 0 && AllReady(cs, blkSz) && Roomy(room, cs, blkSz) && Size(cur) <= room && cur != []
    requires TakeFile(room - Size(cur), cs, blkSz) == Cut([], cs)
    ensures SplitFrom(room, cur, cs, blkSz) == [cur] + SplitFrom(room, [], cs, blkSz)
  {
    SplitHead(room, cur, cs, blkSz);
    assert cur + [] == cur;
  }

  lemma PlaceWholeSplits(room: nat, cur: seq<Chunk>, c: Chunk, later: seq<Chunk>, blkSz: nat)
    requires blkSz > 0 && Ready(c, blkSz) && c.chunkType != CHUNK_TYPE_RAW && AllReady(later, blkSz)
    requires Size(cur) <= room && Roomy(room, [c] + later, blkSz)
    ensures var (flushed, open) := PlaceWhole(room, cur, c);
            && Size(open) <= room && AllReady([c] + later, blkSz) && Roomy(room, later, blkSz)
            && SplitFrom(room, cur, [c] + later, blkSz) == flushed + SplitFrom(room, open, later, blkSz)
  {
    ReadyCons(c, later, blkSz);
    assert ([c] + later)[0] == c && (OneWord(([c] + later)[0]) ==> room >= CHUNK_HEADER + 4);
    if Size(cur) + c.TotalSize() <= room {
      SplitPut(room, cur, c, later, blkSz);
    } else {
      SplitFlush(room, cur, [c] + later, blkSz);
      SplitPut(room, [], c, later, blkSz);
      assert [] + [c] == [c];
    }
  }

  /** Placing a RAW chunk: fill the open file, close it, and go on with what is left. */
  function PlaceRaw(room: nat, cur: seq<Chunk>, c: Chunk, blkSz: nat): (seq<seq<Chunk>>, seq<Chunk>)
    requires blkSz > 0 && Ready(c, blkSz) && c.chunkType == CHUNK_TYPE_RAW
    requires Size(cur) <= room && room >= CHUNK_HEADER + blkSz
    decreases c.blocks, |cur|
  {
    FitBounds(room, blkSz, 1);
    var k := Fit(room - Size(cur), blkSz);
    if k == 0 then
      var (flushed, open) := PlaceRaw(room, [], c, blkSz);
      ([cur] + flushed, open)
    else if c.blocks <= k then ([], cur + [c])
    else
      PutFront(room, cur, c, k, blkSz);
      PlaceRaw(room, cur + [Front(c, k, blkSz)], Back(c, k, blkSz), blkSz)
  }

  lemma PutFront(room: nat, cur: seq<Chunk>, c: Chunk, k: nat, blkSz: nat)
    requires blkSz > 0 && Ready(c, blkSz) && c.chunkType == CHUNK_TYPE_RAW && Size(cur) <= room
    requires k == Fit(room - Size(cur), blkSz) && 0 < k < c.blocks
    ensures Ready(Front(c, k, blkSz), blkSz) && Ready(Back(c, k, blkSz), blkSz)
    ensures Size(cur + [Front(c, k, blkSz)]) <= room
    ensures Fit(room - Size(cur + [Front(c, k, blkSz)]), blkSz) == 0
  {
    CutIsReady(c, k, blkSz);
    FrontCosts(c, k, blkSz);
    TotalsConcat(cur, [Front(c, k, blkSz)]);
    FitBounds(room - Size(cur), blkSz, k);
    FitBounds(room - Size(cur), blkSz, k + 1);
    SpanAdd(k, 1, blkSz);
    FitBounds(room - Size(cur + [Front(c, k, blkSz)]), blkSz, 1);
  }

  /** Part of a RAW chunk goes into the open file. */
  lemma SplitPutPart(room: nat, cur: seq<Chunk>, c: Chunk, later: seq<Chunk>, k: nat, blkSz: nat)
    requires blkSz > 0 && Ready(c, blkSz) && c.chunkType == CHUNK_TYPE_RAW && AllReady(later, blkSz)
    requires Size(cur) <= room && Roomy(room, [c] + later, blkSz)
    requires k == Fit(room - Size(cur), blkSz) && 0 < k < c.blocks
    ensures Ready(Front(c, k, blkSz), blkSz) && Ready(Back(c, k, blkSz), blkSz)
    ensures var cs, cs', cur' := [c] + later, [Back(c, k, blkSz)] + later, cur + [Front(c, k, blkSz)];
            && AllReady(cs, blkSz) && AllReady(cs', blkSz) && Roomy(room, cs', blkSz) && Size(cur') <= room
            && SplitFrom(room, cur, cs, blkSz) == SplitFrom(room, cur', cs', blkSz)
  {
    PutFront(room, cur, c, k, blkSz);
    var front, back := Front(c, k, blkSz), Back(c, k, blkSz);
    var cs, cs', cur' := [c] + later, [back] + later, cur + [front];
    ReadyCons(c, later, blkSz);
    ReadyCons(back, later, blkSz);
    assert cs[0] == c && cs[1..] == later && cs'[0] == back;
    assert forall i :: 0 < i < |cs| ==> cs[i] == cs'[i];
    assert TakeFile(room - Size(cur), cs, blkSz) == Cut([front], cs');
    assert TakeFile(room - Size(cur'), cs', blkSz) == Cut([], cs');
    SplitHead(room, cur, cs, blkSz);
    SplitFlush(room, cur', cs', blkSz);
  }

  lemma {:induction false} PlaceRawSplits(room: nat, cur: seq<Chunk>, c: Chunk, later: seq<Chunk>, blkSz: nat)
    requires blkSz > 0 && Ready(c, blkSz) && c.chunkType == CHUNK_TYPE_RAW && AllReady(later, blkSz)
    requires Size(cur) <= room && Roomy(room, [c] + later, blkSz)
    ensures var (flushed, open) := PlaceRaw(room, cur, c, blkSz);
            && Size(open) <= room && AllReady([c] + later, blkSz) && Roomy(room, later, blkSz)
            && SplitFrom(room, cur, [c] + later, blkSz) == flushed + SplitFrom(room, open, later, blkSz)
    decreases c.blocks, |cur|
  {
    ReadyCons(c, later, blkSz);
    assert ([c] + later)[0] == c;
    FitBounds(room, blkSz, 1);
    var k := Fit(room - Size(cur), blkSz);
    if k == 0 {
      SplitFlush(room, cur, [c] + later, blkSz);
      PlaceRawSplits(room, [], c, later, blkSz);
      var (flushed, open) := PlaceRaw(room, [], c, blkSz);
      ConcatAssoc([cur], flushed, SplitFrom(room, open, later, blkSz));
    } else if c.blocks <= k {
      FitBounds(room - Size(cur), blkSz, c.blocks);
      SplitPut(room, cur, c, later, blkSz);
    } else {
      SplitPutPart(room, cur, c, later, k, blkSz);
      PlaceRawSplits(room, cur + [Front(c, k, blkSz)], Back(c, k, blkSz), later, blkSz);
    }
  }

  // ---------- the loops of `split` ----------

  function Before(lists: seq<seq<Chunk>>, r: (seq<seq<Chunk>>, seq<Chunk>)): (seq<seq<Chunk>>, seq<Chunk>) {
    (lists + r.0, r.1)
  }

  /** `left` is what is still to be placed of a RAW chunk with this payload, from `offset` on. */
  ghost predicate Leaves(payload: Bytes, left: Chunk, remaining: nat, offset: nat, blkSz: nat) {
    && Ready(left, blkSz) && left.chunkType == CHUNK_TYPE_RAW && left.blocks == remaining
    && offset <= |payload| && left.payload == payload[offset..]
  }

  lemma LeavesPart(payload: Bytes, left: Chunk, remaining: nat, offset: nat, take: nat, blkSz: nat)
    requires Leaves(payload, left, remaining, offset, blkSz) && 0 < take < remaining
    ensures offset + Span(take, blkSz) <= |payload|
    ensures Chunk(CHUNK_TYPE_RAW, take, payload[offset..offset + Span(take, blkSz)]) == Front(left, take, blkSz)
    ensures Leaves(payload, Back(left, take, blkSz), remaining - take, offset + Span(take, blkSz), blkSz)
  {
    CutIsReady(left, take, blkSz);
    SpanPart(take, remaining, blkSz);
    assert payload[offset..][..Span(take, blkSz)] == payload[offset..offset + Span(take, blkSz)];
    assert payload[offset..][Span(take, blkSz)..] == payload[offset + Span(take, blkSz)..];
  }

  lemma LeavesAll(payload: Bytes, left: Chunk, remaining: nat, offset: nat, blkSz: nat)
    requires Leaves(payload, left, remaining, offset, blkSz)
    ensures offset + Span(remaining, blkSz) == |payload|
    ensures Chunk(CHUNK_TYPE_RAW, remaining, payload[offset..offset + Span(remaining, blkSz)]) == left
  {
    assert payload[offset..|payload|] == payload[offset..];
  }

  type Placed = (seq<seq<Chunk>>, seq<Chunk>)

  /** Half-way through placing a RAW chunk: `lists` flushed, `cur` open, `left` to go, towards the result `goal`. */
  ghost predicate Placing(room: nat, goal: Placed, payload: Bytes, blkSz: nat,
                          lists: seq<seq<Chunk>>, cur: seq<Chunk>, left: Chunk, remaining: nat, offset: nat) {
    && blkSz > 0 && room >= CHUNK_HEADER + blkSz && Size(cur) <= room
    && if remaining == 0 then goal == (lists, cur)
       else Leaves(payload, left, remaining, offset, blkSz) && goal == Before(lists, PlaceRaw(room, cur, left, blkSz))
  }

  lemma PlacingStart(room: nat, cur: seq<Chunk>, c: Chunk, blkSz: nat)
    requires blkSz > 0 && Ready(c, blkSz) && c.chunkType == CHUNK_TYPE_RAW && room >= CHUNK_HEADER + blkSz
    requires Size(cur) <= room
    ensures Placing(room, PlaceRaw(room, cur, c, blkSz), c.payload, blkSz, [], cur, c, c.blocks, 0)
  {
    var goal := PlaceRaw(room, cur, c, blkSz);
    assert [] + goal.0 == goal.0 && c.payload[0..] == c.payload;
  }

  lemma PlacingFlush(room: nat, goal: Placed, payload: Bytes, blkSz: nat,
                     lists: seq<seq<Chunk>>, cur: seq<Chunk>, left: Chunk, remaining: nat, offset: nat)
    requires Placing(room, goal, payload, blkSz, lists, cur, left, remaining, offset)
    requires remaining > 0 && Fit(room - Size(cur), blkSz) == 0
    ensures cur != [] && Placing(room, goal, payload, blkSz, lists + [cur], [], left, remaining, offset)
  {
    FitBounds(room, blkSz, 1);
    ConcatAssoc(lists, [cur], PlaceRaw(room, [], left, blkSz).0);
  }

  lemma PlacingPart(room: nat, goal: Placed, payload: Bytes, blkSz: nat,
                    lists: seq<seq<Chunk>>, cur: seq<Chunk>, left: Chunk, remaining: nat, offset: nat, take: nat)
    requires Placing(room, goal, payload, blkSz, lists, cur, left, remaining, offset)
    requires 0 < take < remaining && take == Fit(room - Size(cur), blkSz)
    ensures offset + Span(take, blkSz) <= |payload|
    ensures Placing(room, goal, payload, blkSz, lists,
                    cur + [Chunk(CHUNK_TYPE_RAW, take, payload[offset..offset + Span(take, blkSz)])],
                    Back(left, take, blkSz), remaining - take, offset + Span(take, blkSz))
  {
    LeavesPart(payload, left, remaining, offset, take, blkSz);
    PutFront(room, cur, left, take, blkSz);
  }

  lemma PlacingLast(room: nat, goal: Placed, payload: Bytes, blkSz: nat,
                    lists: seq<seq<Chunk>>, cur: seq<Chunk>, left: Chunk, remaining: nat, offset: nat)
    requires Placing(room, goal, payload, blkSz, lists, cur, left, remaining, offset)
    requires 0 < remaining <= Fit(room - Size(cur), blkSz)
    ensures offset + Span(remaining, blkSz) <= |payload|
    ensures Placing(room, goal, payload, blkSz, lists,
                    cur + [Chunk(CHUNK_TYPE_RAW, remaining, payload[offset..offset + Span(remaining, blkSz)])],
                    left, 0, offset + Span(remaining, blkSz))
  {
    hide Span, Fits, Blocks;
    LeavesAll(payload, left, remaining, offset, blkSz);
    FitBounds(room - Size(cur), blkSz, left.blocks);
    BlocksSnoc(cur, left);
    assert lists + [] == lists;
  }

  lemma PlacingPut(room: nat, goal: Placed, payload: Bytes, blkSz: nat, lists: seq<seq<Chunk>>, cur: seq<Chunk>,
                   left: Chunk, remaining: nat, offset: nat, take: nat) returns (next: Chunk)
    requires Placing(room, goal, payload, blkSz, lists, cur, left, remaining, offset)
    requires remaining > 0 && Fit(room - Size(cur), blkSz) > 0
    requires take == if remaining <= Fit(room - Size(cur), blkSz) then remaining else Fit(room - Size(cur), blkSz)
    ensures offset + Span(take, blkSz) <= |payload|
    ensures Placing(room, goal, payload, blkSz, lists,
                    cur + [Chunk(CHUNK_TYPE_RAW, take, payload[offset..offset + Span(take, blkSz)])],
                    next, remaining - take, offset + Span(take, blkSz))
  {
    if take < remaining {
      PlacingPart(room, goal, payload, blkSz, lists, cur, left, remaining, offset, take);
      next := Back(left, take, blkSz);
    } else {
      PlacingLast(room, goal, payload, blkSz, lists, cur, left, remaining, offset);
      next := left;
    }
  }

  lemma FilesSnoc(blkSz: U32, lists: seq<seq<Chunk>>, cs: seq<Chunk>)
    ensures FilesOf(blkSz, lists + [cs]) == FilesOf(blkSz, lists) + [FileOf(blkSz, cs)]
  {}

  /** `max_size.saturating_sub(current_len)`. */
  function Avail(maxSize: nat, cur: seq<Chunk>): nat {
    if FILE_HEADER + Size(cur) <= maxSize then maxSize - (FILE_HEADER + Size(cur)) else 0
  }

  lemma EmptyHasRoom(maxSize: nat, cur: seq<Chunk>, blkSz: nat)
    requires blkSz > 0 && MinRequired(blkSz) <= maxSize && Fit(Avail(maxSize, cur), blkSz) == 0
    ensures cur != []
  {
    FitBounds(maxSize - FILE_HEADER, blkSz, 1);
  }

  /** The inner loop for a RAW chunk. It stops exactly when bytes are missing; its error branch cannot
      be taken, since an empty file has room for a block. */
  method SplitRaw(maxSize: nat, blkSz: U32, c: Chunk, start: SparseFile)
    returns (stopped: bool, flushed: seq<SparseFile>, current: SparseFile)
    requires blkSz > 0 && c.chunkType == CHUNK_TYPE_RAW && MinRequired(blkSz) <= maxSize < U32_LIMIT
    requires start == FileOf(blkSz, start.chunks) && Blocks(start.chunks) + c.blocks < U32_LIMIT
    ensures stopped <==> |c.payload| < Span(c.blocks, blkSz)
    ensures !stopped ==>
              current == FileOf(blkSz, current.chunks) && Blocks(current.chunks) <= Blocks(start.chunks) + c.blocks
    ensures Ready(c, blkSz) && FILE_HEADER + Size(start.chunks) <= maxSize ==>
              var (lists, open) := PlaceRaw(maxSize - FILE_HEADER, start.chunks, c, blkSz);
              flushed == FilesOf(blkSz, lists) && current == FileOf(blkSz, open)
  {
    hide Leaves, Span, Fits, Blocks;
    ghost var room, goal: Placed := maxSize - FILE_HEADER, ([], []);
    ghost var good := Ready(c, blkSz) && Size(start.chunks) <= room;
    stopped, flushed, current := false, [], start;
    var remaining: nat, rawOffset: nat := c.blocks, 0;
    ghost var lists: seq<seq<Chunk>>, left := [], c;
    if good {
      goal := PlaceRaw(room, start.chunks, c, blkSz);
      PlacingStart(room, start.chunks, c, blkSz);
    }
    while remaining > 0
      invariant good ==> Placing(room, goal, c.payload, blkSz, lists, current.chunks, left, remaining, rawOffset)
      invariant Tracks(blkSz, flushed, current, lists, remaining)
      invariant Blocks(current.chunks) + remaining <= Blocks(start.chunks) + c.blocks
      invariant remaining <= c.blocks && rawOffset <= |c.payload|
      invariant rawOffset + Span(remaining, blkSz) == Span(c.blocks, blkSz)
      decreases remaining, |current.chunks|
    {
      var blocksThatFit := Fit(Avail(maxSize, current.chunks), blkSz);
      if blocksThatFit == 0 {
        EmptyHasRoom(maxSize, current.chunks, blkSz);
        if good {
          PlacingFlush(room, goal, c.payload, blkSz, lists, current.chunks, left, remaining, rawOffset);
        }
        TracksFlush(blkSz, flushed, current, lists, remaining);
        flushed, lists, current := flushed + [current], lists + [current.chunks], FileOf(blkSz, []);
      } else {
        var take := if remaining <= blocksThatFit then remaining else blocksThatFit;
        SpanPart(take, remaining, blkSz);
        if rawOffset + Span(take, blkSz) > |c.payload| {
          return true, flushed, current;
        }
        if good {
          left := PlacingPut(room, goal, c.payload, blkSz, lists, current.chunks, left, remaining, rawOffset, take);
        }
        var part := Chunk(CHUNK_TYPE_RAW, take, c.payload[rawOffset..rawOffset + Span(take, blkSz)]);
        TracksPut(blkSz, flushed, current, lists, remaining, part);
        current := AddChunk(current, part);
        remaining, rawOffset := remaining - take, rawOffset + Span(take, blkSz);
      }
    }
    assert Span(0, blkSz) == 0 by { SpanNone(blkSz); }
  }

  lemma SpanNone(blkSz: nat)
    ensures Span(0, blkSz) == 0
  {}

  /** The files hold the lists, and the open one can still count `more` blocks. */
  ghost predicate Tracks(blkSz: U32, flushed: seq<SparseFile>, current: SparseFile, lists: seq<seq<Chunk>>, more: nat) {
    && flushed == FilesOf(blkSz, lists) && current == FileOf(blkSz, current.chunks)
    && Blocks(current.chunks) + more < U32_LIMIT
  }

  lemma TracksFlush(blkSz: U32, flushed: seq<SparseFile>, current: SparseFile, lists: seq<seq<Chunk>>, more: nat)
    requires Tracks(blkSz, flushed, current, lists, more)
    ensures Tracks(blkSz, flushed + [current], FileOf(blkSz, []), lists + [current.chunks], more)
    ensures Blocks(FileOf(blkSz, []).chunks) == 0
  {
    FilesSnoc(blkSz, lists, current.chunks);
  }

  lemma TracksPut(blkSz: U32, flushed: seq<SparseFile>, current: SparseFile, lists: seq<seq<Chunk>>, more: nat,
                  c: Chunk)
    requires Tracks(blkSz, flushed, current, lists, more) && c.blocks <= more
    ensures current.header.totalBlks + c.blocks < U32_LIMIT
    ensures AddChunk(current, c) == FileOf(blkSz, current.chunks + [c])
    ensures Tracks(blkSz, flushed, AddChunk(current, c), lists, more - c.blocks)
    ensures Blocks(AddChunk(current, c).chunks) == Blocks(current.chunks) + c.blocks
  {
    AddToFileOf(blkSz, current.chunks, c);
    BlocksSnoc(current.chunks, c);
  }

  lemma BlocksSnoc(cs: seq<Chunk>, c: Chunk)
    ensures Blocks(cs + [c]) == Blocks(cs) + c.blocks && Size(cs + [c]) == Size(cs) + c.TotalSize()
  {
    TotalsConcat(cs, [c]);
    assert [c][1..] == [];
  }

  /** The inner loop for a chunk that is not cut, and is taken to need `size` bytes. It fails exactly when
      these have no place in an empty file. */
  method SplitWhole(maxSize: nat, blkSz: U32, c: Chunk, size: nat, start: SparseFile)
    returns (ok: bool, flushed: seq<SparseFile>, current: SparseFile)
    requires start == FileOf(blkSz, start.chunks) && Blocks(start.chunks) + c.blocks < U32_LIMIT && size > 0
    ensures ok <==> FILE_HEADER + size <= maxSize
    ensures ok ==> current == FileOf(blkSz, current.chunks) && Blocks(current.chunks) <= Blocks(start.chunks) + c.blocks
    ensures ok && c.TotalSize() == size && FILE_HEADER + Size(start.chunks) <= maxSize ==>
              var (lists, open) := PlaceWhole(maxSize - FILE_HEADER, start.chunks, c);
              flushed == FilesOf(blkSz, lists) && current == FileOf(blkSz, open)
  {
    ok, flushed, current := true, [], start;
    while Avail(maxSize, current.chunks) < size
      invariant || (flushed == [] && current == start)
                || (&& flushed == [start] && current == FileOf(blkSz, []) && start.chunks != []
                    && Avail(maxSize, start.chunks) < size)
      decreases |current.chunks|
    {
      if current.chunks == [] {
        return false, flushed, current;
      }
      flushed, current := flushed + [current], FileOf(blkSz, []);
    }
    assert current.chunks == [] ==> current.chunks + [c] == [c];
    AddToFileOf(blkSz, current.chunks, c);
    BlocksSnoc(current.chunks, c);
    current := AddChunk(current, c);
  }

  lemma {:induction false} PlaceRawBounds(room: nat, cur: seq<Chunk>, c: Chunk, blkSz: nat)
    requires blkSz > 0 && Ready(c, blkSz) && c.chunkType == CHUNK_TYPE_RAW
    requires Size(cur) <= room && room >= CHUNK_HEADER + blkSz
    ensures var open := PlaceRaw(room, cur, c, blkSz).1; Size(open) <= room && Blocks(open) <= Blocks(cur) + c.blocks
    decreases c.blocks, |cur|
  {
    FitBounds(room, blkSz, 1);
    var k := Fit(room - Size(cur), blkSz);
    if k == 0 {
      PlaceRawBounds(room, [], c, blkSz);
    } else if c.blocks <= k {
      FitBounds(room - Size(cur), blkSz, c.blocks);
      BlocksSnoc(cur, c);
    } else {
      PutFront(room, cur, c, k, blkSz);
      BlocksSnoc(cur, Front(c, k, blkSz));
      PlaceRawBounds(room, cur + [Front(c, k, blkSz)], Back(c, k, blkSz), blkSz);
    }
  }

  lemma PlaceWholeBounds(room: nat, cur: seq<Chunk>, c: Chunk)
    requires Size(cur) <= room && c.TotalSize() <= room
    ensures var open := PlaceWhole(room, cur, c).1; Size(open) <= room && Blocks(open) <= Blocks(cur) + c.blocks
  {
    BlocksSnoc(cur, c);
    assert [c][1..] == [];
  }

  /** The chunk as it is placed: a checksum counts no blocks. */
  function LiveChunk(c: Chunk): Chunk {
    if c.chunkType == CHUNK_TYPE_CRC32 then c.(blocks := 0) else c
  }

  predicate IsLive(c: Chunk) {
    c.chunkType == CHUNK_TYPE_CRC32 || c.blocks > 0
  }

  function Place(room: nat, cur: seq<Chunk>, c: Chunk, blkSz: nat): Placed
    requires blkSz > 0 && Ready(c, blkSz) && Size(cur) <= room && room >= CHUNK_HEADER + blkSz
  {
    if c.chunkType == CHUNK_TYPE_RAW then PlaceRaw(room, cur, c, blkSz) else PlaceWhole(room, cur, c)
  }

  /** Until the end, or a fault, the files so far and the open one are on the way to the whole split. */
  ghost predicate OnTrack(cs: seq<Chunk>, blkSz: nat, maxSize: nat, lists: seq<seq<Chunk>>, cur: seq<Chunk>,
                          rest: seq<Chunk>)
    requires blkSz > 0 && maxSize >= MinRequired(blkSz) && Size(cur) <= maxSize - FILE_HEADER
    requires Splittable(cs, blkSz) && Splittable(rest, blkSz)
  {
    && FirstFault(cs, blkSz, maxSize) == FirstFault(rest, blkSz, maxSize)
    && (FirstFault(cs, blkSz, maxSize) == None ==>
          (LiveIsReady(cs, blkSz, maxSize);
           LiveIsReady(rest, blkSz, maxSize);
           SplitFrom(maxSize - FILE_HEADER, [], Live(cs), blkSz) ==
           lists + SplitFrom(maxSize - FILE_HEADER, cur, Live(rest), blkSz)))
  }

  lemma OnTrackSkip(cs: seq<Chunk>, blkSz: nat, maxSize: nat, lists: seq<seq<Chunk>>, cur: seq<Chunk>, rest: seq<Chunk>)
    requires blkSz > 0 && maxSize >= MinRequired(blkSz) && Size(cur) <= maxSize - FILE_HEADER
    requires Splittable(cs, blkSz) && Splittable(rest, blkSz) && rest != [] && !IsLive(rest[0])
    requires OnTrack(cs, blkSz, maxSize, lists, cur, rest)
    ensures Splittable(rest[1..], blkSz) && OnTrack(cs, blkSz, maxSize, lists, cur, rest[1..])
  {}

  lemma OnTrackPlace(cs: seq<Chunk>, blkSz: nat, maxSize: nat, lists: seq<seq<Chunk>>, cur: seq<Chunk>,
                     rest: seq<Chunk>)
    requires blkSz > 0 && maxSize >= MinRequired(blkSz) && Size(cur) <= maxSize - FILE_HEADER
    requires Splittable(cs, blkSz) && Splittable(rest, blkSz) && rest != [] && IsLive(rest[0])
    requires OnTrack(cs, blkSz, maxSize, lists, cur, rest) && ChunkFault(rest[0], blkSz, maxSize) == None
    ensures Ready(LiveChunk(rest[0]), blkSz) && Splittable(rest[1..], blkSz)
    ensures var (flushed, open) := Place(maxSize - FILE_HEADER, cur, LiveChunk(rest[0]), blkSz);
            && Size(open) <= maxSize - FILE_HEADER && Blocks(open) <= Blocks(cur) + LiveChunk(rest[0]).blocks
            && OnTrack(cs, blkSz, maxSize, lists + flushed, open, rest[1..])
  {
    var room, c := maxSize - FILE_HEADER, LiveChunk(rest[0]);
    LiveChunkReady(rest, blkSz, maxSize);
    PlaceBounds(room, cur, c, blkSz);
    if FirstFault(cs, blkSz, maxSize) == None {
      LiveHead(rest, blkSz, maxSize);
      PlaceSplits(room, lists, cur, c, Live(rest[1..]), blkSz);
    }
  }

  lemma LiveChunkReady(rest: seq<Chunk>, blkSz: nat, maxSize: nat)
    requires Splittable(rest, blkSz) && rest != [] && IsLive(rest[0]) && ChunkFault(rest[0], blkSz, maxSize) == None
    requires maxSize >= MinRequired(blkSz)
    ensures var c := LiveChunk(rest[0]);
            Ready(c, blkSz) && (c.chunkType != CHUNK_TYPE_RAW ==> c.TotalSize() <= maxSize - FILE_HEADER)
    ensures Splittable(rest[1..], blkSz)
  {}

  lemma LiveHead(rest: seq<Chunk>, blkSz: nat, maxSize: nat)
    requires Splittable(rest, blkSz) && rest != [] && IsLive(rest[0]) && FirstFault(rest, blkSz, maxSize) == None
    requires maxSize >= MinRequired(blkSz) && Splittable(rest[1..], blkSz)
    ensures Live(rest) == [LiveChunk(rest[0])] + Live(rest[1..])
    ensures AllReady(Live(rest), blkSz) && AllReady(Live(rest[1..]), blkSz)
    ensures Roomy(maxSize - FILE_HEADER, Live(rest), blkSz)
  {
    LiveIsReady(rest, blkSz, maxSize);
    LiveIsReady(rest[1..], blkSz, maxSize);
  }

  lemma PlaceBounds(room: nat, cur: seq<Chunk>, c: Chunk, blkSz: nat)
    requires blkSz > 0 && Ready(c, blkSz) && Size(cur) <= room && room >= CHUNK_HEADER + blkSz
    requires c.chunkType != CHUNK_TYPE_RAW ==> c.TotalSize() <= room
    ensures var open := Place(room, cur, c, blkSz).1; Size(open) <= room && Blocks(open) <= Blocks(cur) + c.blocks
  {
    if c.chunkType == CHUNK_TYPE_RAW {
      PlaceRawBounds(room, cur, c, blkSz);
    } else {
      PlaceWholeBounds(room, cur, c);
    }
  }

  lemma PlaceSplits(room: nat, lists: seq<seq<Chunk>>, cur: seq<Chunk>, c: Chunk, later: seq<Chunk>, blkSz: nat)
    requires blkSz > 0 && Ready(c, blkSz) && AllReady(later, blkSz) && AllReady([c] + later, blkSz)
    requires Size(cur) <= room && Roomy(room, [c] + later, blkSz)
    ensures var (flushed, open) := Place(room, cur, c, blkSz);
            && Size(open) <= room && Roomy(room, later, blkSz)
            && lists + SplitFrom(room, cur, [c] + later, blkSz) ==
               lists + flushed + SplitFrom(room, open, later, blkSz)
  {
    if c.chunkType == CHUNK_TYPE_RAW {
      PlaceRawSplits(room, cur, c, later, blkSz);
    } else {
      PlaceWholeSplits(room, cur, c, later, blkSz);
    }
    var (flushed, open) := Place(room, cur, c, blkSz);
    ConcatAssoc(lists, flushed, SplitFrom(room, open, later, blkSz));
  }

  lemma FilesConcat(blkSz: U32, a: seq<seq<Chunk>>, b: seq<seq<Chunk>>)
    ensures FilesOf(blkSz, a + b) == FilesOf(blkSz, a) + FilesOf(blkSz, b)
  {}

  lemma SplitEnd(room: nat, cur: seq<Chunk>, blkSz: nat)
    requires blkSz > 0 && Size(cur) <= room && Roomy(room, [], blkSz)
    ensures SplitFrom(room, cur, [], blkSz) == if cur == [] then [] else [cur]
  {
    if cur != [] {
      assert cur + [] == cur;
      assert SplitFrom(room, [], [], blkSz) == [];
    }
  }

  /** The inner loop of `split` for one chunk that covers blocks or is a checksum. */
  method SplitChunk(maxSize: nat, blkSz: U32, c: Chunk, start: SparseFile)
    returns (fault: Option<Failure>, flushed: seq<SparseFile>, current: SparseFile)
    requires blkSz > 0 && KnownType(c) && IsLive(c) && MinRequired(blkSz) <= maxSize < U32_LIMIT
    requires start == FileOf(blkSz, start.chunks) && Blocks(start.chunks) + c.blocks < U32_LIMIT
    ensures fault == ChunkFault(c, blkSz, maxSize)
    ensures fault == None ==>
              current == FileOf(blkSz, current.chunks) && Blocks(current.chunks) <= Blocks(start.chunks) + c.blocks
    ensures fault == None && Ready(c, blkSz) && FILE_HEADER + Size(start.chunks) <= maxSize ==>
              var (lists, open) := Place(maxSize - FILE_HEADER, start.chunks, c, blkSz);
              flushed == FilesOf(blkSz, lists) && current == FileOf(blkSz, open)
  {
    if c.chunkType == CHUNK_TYPE_RAW {
      var stopped;
      stopped, flushed, current := SplitRaw(maxSize, blkSz, c, start);
      fault := if stopped then Some(SliceOutOfRange) else None;
    } else {
      var hole := c.chunkType == CHUNK_TYPE_DONT_CARE;
      var size, placed := if hole then CHUNK_HEADER else CHUNK_HEADER + 4, if hole then c.(payload := []) else c;
      var ok;
      ok, flushed, current := SplitWhole(maxSize, blkSz, placed, size, start);
      fault := if ok then None else Some(Refused(MaxDownloadSizeTooSmall(maxSize, MinRequired(blkSz))));
    }
  }

  /** The files so far are on the way to the whole split. */
  ghost predicate Underway(cs: seq<Chunk>, blkSz: U32, maxSize: nat, splits: seq<SparseFile>, cur: seq<Chunk>,
                           lists: seq<seq<Chunk>>, rest: seq<Chunk>) {
    && blkSz > 0 && maxSize >= MinRequired(blkSz) && Size(cur) <= maxSize - FILE_HEADER
    && Splittable(cs, blkSz) && Splittable(rest, blkSz)
    && splits == FilesOf(blkSz, lists) && OnTrack(cs, blkSz, maxSize, lists, cur, rest)
  }

  lemma UnderwayPlace(cs: seq<Chunk>, blkSz: U32, maxSize: nat, splits: seq<SparseFile>, cur: seq<Chunk>,
                      lists: seq<seq<Chunk>>, rest: seq<Chunk>)
    requires Underway(cs, blkSz, maxSize, splits, cur, lists, rest)
    requires rest != [] && IsLive(rest[0]) && ChunkFault(rest[0], blkSz, maxSize) == None
    ensures Ready(LiveChunk(rest[0]), blkSz)
    ensures var (flushed, open) := Place(maxSize - FILE_HEADER, cur, LiveChunk(rest[0]), blkSz);
            Underway(cs, blkSz, maxSize, splits + FilesOf(blkSz, flushed), open, lists + flushed, rest[1..])
  {
    OnTrackPlace(cs, blkSz, maxSize, lists, cur, rest);
    var (flushed, _) := Place(maxSize - FILE_HEADER, cur, LiveChunk(rest[0]), blkSz);
    FilesConcat(blkSz, lists, flushed);
  }

  /** `SparseFile::split`. */
  method Split(f: SparseFile, maxSize: nat) returns (r: Result<seq<SparseFile>, Failure>)
    requires Blocks(f.chunks) < U32_LIMIT && maxSize < U32_LIMIT
    ensures SplitFault(f, maxSize).Some? ==> r == Err(SplitFault(f, maxSize).value)
    ensures SplitFault(f, maxSize).None? ==> r.Ok?
    ensures SplitFault(f, maxSize).None? && Splittable(f.chunks, f.header.blkSz) ==> r == Ok(SplitFiles(f, maxSize))
  {
    hide Splittable, Place, PlaceRaw, OnTrack, SplitFrom, Live, Ready, FilesOf;
    var blkSz := f.header.blkSz;
    if blkSz == 0 {
      return Err(Refused(InvalidBlockSize(0)));
    }
    if maxSize < MinRequired(blkSz) {
      return Err(Refused(MaxDownloadSizeTooSmall(maxSize, MinRequired(blkSz))));
    }
    var splits, current := [], FileOf(blkSz, []);
    ghost var lists: seq<seq<Chunk>>, good := [], Splittable(f.chunks, blkSz);
    ghost var rest := f.chunks;
    if good {
      UnderwayStart(f.chunks, blkSz, maxSize);
    }
    for i := 0 to |f.chunks|
      invariant rest == f.chunks[i..] && current == FileOf(blkSz, current.chunks)
      invariant Blocks(current.chunks) + Blocks(rest) < U32_LIMIT
      invariant FirstFault(f.chunks, blkSz, maxSize) == FirstFault(rest, blkSz, maxSize)
      invariant good ==> Underway(f.chunks, blkSz, maxSize, splits, current.chunks, lists, rest)
    {
      assert rest[1..] == f.chunks[i + 1..] && rest[0] == f.chunks[i];
      if IsLive(f.chunks[i]) {
        if !KnownType(f.chunks[i]) {
          return Err(Refused(UnknownChunkType(f.chunks[i].chunkType)));
        }
        var fault, flushed, next := SplitChunk(maxSize, blkSz, LiveChunk(f.chunks[i]), current);
        if fault.Some? {
          return Err(fault.value);
        }
        if good {
          UnderwayPlace(f.chunks, blkSz, maxSize, splits, current.chunks, lists, rest);
          lists := lists + Place(maxSize - FILE_HEADER, current.chunks, LiveChunk(rest[0]), blkSz).0;
        }
        splits, current := splits + flushed, next;
      } else if good {
        UnderwaySkip(f.chunks, blkSz, maxSize, splits, current.chunks, lists, rest);
      }
      rest := rest[1..];
    }
    if good {
      UnderwayEnd(f, maxSize, splits, current.chunks, lists);
    }
    if current.chunks != [] {
      splits := splits + [current];
    }
    r := Ok(splits);
  }

  lemma UnderwayStart(cs: seq<Chunk>, blkSz: U32, maxSize: nat)
    requires blkSz > 0 && maxSize >= MinRequired(blkSz) && Splittable(cs, blkSz)
    ensures Underway(cs, blkSz, maxSize, [], [], [], cs)
  {
    OnTrackStart(cs, blkSz, maxSize);
  }

  lemma UnderwaySkip(cs: seq<Chunk>, blkSz: U32, maxSize: nat, splits: seq<SparseFile>, cur: seq<Chunk>,
                     lists: seq<seq<Chunk>>, rest: seq<Chunk>)
    requires Underway(cs, blkSz, maxSize, splits, cur, lists, rest) && rest != [] && !IsLive(rest[0])
    ensures Underway(cs, blkSz, maxSize, splits, cur, lists, rest[1..])
  {
    OnTrackSkip(cs, blkSz, maxSize, lists, cur, rest);
  }

  lemma UnderwayEnd(f: SparseFile, maxSize: nat, splits: seq<SparseFile>, cur: seq<Chunk>, lists: seq<seq<Chunk>>)
    requires Underway(f.chunks, f.header.blkSz, maxSize, splits, cur, lists, [])
    ensures SplitFault(f, maxSize) == None
    ensures SplitFiles(f, maxSize) == if cur == [] then splits else splits + [FileOf(f.header.blkSz, cur)]
  {
    OnTrackEnd(f.chunks, f.header.blkSz, maxSize, lists, cur);
    FilesSnoc(f.header.blkSz, lists, cur);
  }

  lemma OnTrackStart(cs: seq<Chunk>, blkSz: nat, maxSize: nat)
    requires blkSz > 0 && maxSize >= MinRequired(blkSz) && Splittable(cs, blkSz)
    ensures OnTrack(cs, blkSz, maxSize, [], [], cs)
  {
    if FirstFault(cs, blkSz, maxSize) == None {
      LiveIsReady(cs, blkSz, maxSize);
      var all := SplitFrom(maxSize - FILE_HEADER, [], Live(cs), blkSz);
      assert [] + all == all;
    }
  }

  lemma OnTrackEnd(cs: seq<Chunk>, blkSz: nat, maxSize: nat, lists: seq<seq<Chunk>>, cur: seq<Chunk>)
    requires blkSz > 0 && maxSize >= MinRequired(blkSz) && Size(cur) <= maxSize - FILE_HEADER && Splittable(cs, blkSz)
    requires OnTrack(cs, blkSz, maxSize, lists, cur, [])
    ensures FirstFault(cs, blkSz, maxSize) == None
    ensures AllReady(Live(cs), blkSz) && Roomy(maxSize - FILE_HEADER, Live(cs), blkSz)
    ensures SplitFrom(maxSize - FILE_HEADER, [], Live(cs), blkSz) == if cur == [] then lists else lists + [cur]
  {
    hide Roomy, AllReady, Splittable, SplitFrom;
    LiveIsReady(cs, blkSz, maxSize);
    SplitEnd(maxSize - FILE_HEADER, cur, blkSz);
    assert lists + [] == lists;
  }
}
