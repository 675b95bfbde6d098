/** What splitting a sparse image guarantees to a flashing host
    (crates/fastboot-protocol/src/sparse.rs). */
module SparseFlash {
  import opened Wrappers
  import opened LittleEndian
  import opened Sparse
  import opened SparseSplit

  // ---------- when a split succeeds ----------

  lemma {:induction false} NoFaultIff(cs: seq<Chunk>, blkSz: nat, maxSize: nat)
    ensures FirstFault(cs, blkSz, maxSize) == None <==>
            forall i :: 0 <= i < |cs| ==> ChunkFault(cs[i], blkSz, maxSize) == None
  {
    if cs != [] {
      NoFaultIff(cs[1..], blkSz, maxSize);
      assert forall i :: 0 <= i < |cs[1..]| ==> cs[1..][i] == cs[i + 1];
      if i :| 0 <= i < |cs| && ChunkFault(cs[i], blkSz, maxSize) != None {
        assert i > 0 ==> cs[1..][i - 1] == cs[i];
      }
    }
  }

  /** A chunk of a known type; if it carries a word, this fits the limit, and if data, all of it is there. */
  predicate HasPlace(c: Chunk, blkSz: nat, maxSize: nat) {
    && KnownType(c) && (OneWord(c) ==> maxSize >= FILE_HEADER + CHUNK_HEADER + 4)
    && (c.chunkType == CHUNK_TYPE_RAW ==> Span(c.blocks, blkSz) <= |c.payload|)
  }

  /** A split succeeds if and only if there are blocks, the limit holds the two headers and a block,
      and every chunk that is not skipped has a place. */
  lemma SplitSucceedsIff(f: SparseFile, maxSize: nat)
    ensures SplitFault(f, maxSize) == None <==>
            && f.header.blkSz > 0 && maxSize >= FILE_HEADER + CHUNK_HEADER + f.header.blkSz
            && forall i :: 0 <= i < |f.chunks| && IsLive(f.chunks[i]) ==> HasPlace(f.chunks[i], f.header.blkSz, maxSize)
  {
    NoFaultIff(f.chunks, f.header.blkSz, maxSize);
    forall i | 0 <= i < |f.chunks|
      ensures ChunkFault(f.chunks[i], f.header.blkSz, maxSize) == None <==>
              !IsLive(f.chunks[i]) || HasPlace(f.chunks[i], f.header.blkSz, maxSize)
    {}
  }

  /** What a split reports: the first of these that applies, and of the chunks the first at fault. */
  lemma SplitRefusals(f: SparseFile, maxSize: nat, i: nat)
    ensures f.header.blkSz == 0 ==> SplitFault(f, maxSize) == Some(Refused(InvalidBlockSize(0)))
    ensures f.header.blkSz > 0 && maxSize < 40 + f.header.blkSz ==>
              SplitFault(f, maxSize) == Some(Refused(MaxDownloadSizeTooSmall(maxSize, 40 + f.header.blkSz)))
    ensures f.header.blkSz > 0 && maxSize >= 40 + f.header.blkSz && i < |f.chunks| && IsLive(f.chunks[i]) &&
            !HasPlace(f.chunks[i], f.header.blkSz, maxSize) &&
            (forall j :: 0 <= j < i && IsLive(f.chunks[j]) ==> HasPlace(f.chunks[j], f.header.blkSz, maxSize)) ==>
              SplitFault(f, maxSize) ==
              Some(if !KnownType(f.chunks[i]) then Refused(UnknownChunkType(f.chunks[i].chunkType))
                   else if f.chunks[i].chunkType == 0xCAC1 then SliceOutOfRange
                   else Refused(MaxDownloadSizeTooSmall(maxSize, 40 + f.header.blkSz)))
  {
    hide Span;
    var cs, blkSz := f.chunks, f.header.blkSz;
    if i < |cs| && forall j :: 0 <= j < i && IsLive(cs[j]) ==> HasPlace(cs[j], blkSz, maxSize) {
      FaultAt(cs, blkSz, maxSize, i);
    }
  }

  lemma {:induction false} FaultAt(cs: seq<Chunk>, blkSz: nat, maxSize: nat, i: nat)
    requires i < |cs| && forall j :: 0 <= j < i && IsLive(cs[j]) ==> HasPlace(cs[j], blkSz, maxSize)
    ensures FirstFault(cs, blkSz, maxSize) == FirstFault(cs[i..], blkSz, maxSize)
    decreases i
  {
    if i == 0 {
      assert cs[0..] == cs;
    } else {
      assert ChunkFault(cs[0], blkSz, maxSize) == None by {
        assert IsLive(cs[0]) ==> HasPlace(cs[0], blkSz, maxSize);
      }
      FaultAt(cs[1..], blkSz, maxSize, i - 1);
      assert cs[1..][i - 1..] == cs[i..];
    }
  }

  /** With blocks of a word or more and chunks of the known types, the bound in the check at the top
      is the only one, apart from missing bytes: the errors inside the loop are never returned. */
  lemma WideBlocksSucceedIff(f: SparseFile, maxSize: nat)
    requires f.header.blkSz >= 4 && forall i :: 0 <= i < |f.chunks| ==> KnownType(f.chunks[i])
    ensures SplitFault(f, maxSize) == None <==>
            && maxSize >= FILE_HEADER + CHUNK_HEADER + f.header.blkSz
            && forall i :: 0 <= i < |f.chunks| && f.chunks[i].chunkType == CHUNK_TYPE_RAW ==>
                 Span(f.chunks[i].blocks, f.header.blkSz) <= |f.chunks[i].payload|
  {
    SplitSucceedsIff(f, maxSize);
  }

  /** With blocks under four bytes the check at the top is too weak: this image passes it and
      still cannot be split. */
  lemma SmallBlocksCanFail()
    ensures exists f: SparseFile, maxSize: nat ::
              && Splittable(f.chunks, f.header.blkSz) && maxSize >= MinRequired(f.header.blkSz)
              && SplitFault(f, maxSize) == Some(Refused(MaxDownloadSizeTooSmall(maxSize, MinRequired(f.header.blkSz))))
  {
    var f := SparseFile(NewHeader(1, 1, 1), [Chunk(CHUNK_TYPE_FILL, 1, [0, 0, 0, 0])]);
    assert f.chunks[0].chunkType == CHUNK_TYPE_FILL;
    assert SplitFault(f, 41) == Some(Refused(MaxDownloadSizeTooSmall(41, MinRequired(1))));
  }

  /** A RAW chunk of one block without a payload passes the check too, and stops the split. */
  lemma MissingBytesStop()
    ensures exists f: SparseFile, maxSize: nat ::
              maxSize >= MinRequired(f.header.blkSz) && SplitFault(f, maxSize) == Some(SliceOutOfRange)
  {
    var f := SparseFile(NewHeader(4, 1, 1), [Chunk(CHUNK_TYPE_RAW, 1, [])]);
    assert f.chunks[0].chunkType == CHUNK_TYPE_RAW && Span(1, 4) == Span(0, 4) + 4;
    assert SplitFault(f, 100) == Some(SliceOutOfRange);
  }

  /** A file that was read from bytes lacks none. */
  lemma DecodedNeverStops(buf: Bytes, maxSize: nat)
    requires DecodeFile(buf).Ok?
    ensures Splittable(DecodeFile(buf).value.chunks, DecodeFile(buf).value.header.blkSz)
    ensures SplitFault(DecodeFile(buf).value, maxSize) != Some(SliceOutOfRange)
  {
    var f := DecodeFile(buf).value;
    var h := DecodeHeader(buf).value;
    DecodedIsShaped(h, buf, h.fileHdrSz, h.totalChunks);
    assert forall i :: 0 <= i < |f.chunks| ==> ShapeOk(f.chunks[i], h.blkSz);
    ShapedNeverStops(f.chunks, f.header.blkSz, maxSize);
  }

  lemma {:induction false} ShapedNeverStops(cs: seq<Chunk>, blkSz: nat, maxSize: nat)
    requires Splittable(cs, blkSz)
    ensures FirstFault(cs, blkSz, maxSize) != Some(SliceOutOfRange)
  {
    if cs != [] {
      ShapedNeverStops(cs[1..], blkSz, maxSize);
    }
  }

  // ---------- what the pieces are ----------

  function ExpandFiles(files: seq<SparseFile>): Bytes {
    if files == [] then [] else Expand(files[0].chunks, files[0].header.blkSz) + ExpandFiles(files[1..])
  }

  function FlatChunks(files: seq<SparseFile>): seq<Chunk> {
    if files == [] then [] else files[0].chunks + FlatChunks(files[1..])
  }

  lemma {:induction false} FilesOfLists(blkSz: U32, lists: seq<seq<Chunk>>)
    ensures FlatChunks(FilesOf(blkSz, lists)) == Flatten(lists)
    ensures ExpandFiles(FilesOf(blkSz, lists)) == Expand(Flatten(lists), blkSz)
  {
    if lists != [] {
      var files := FilesOf(blkSz, lists);
      assert files[1..] == FilesOf(blkSz, lists[1..]);
      FilesOfLists(blkSz, lists[1..]);
      ExpandConcat(lists[0], Flatten(lists[1..]), blkSz);
    }
  }

  /** A file a device can take: right totals, within the size limit, and read back unchanged. */
  ghost predicate Flashable(p: SparseFile, maxSize: nat) {
    && Blocks(p.chunks) < U32_LIMIT && p.chunks != []
    && p.header.totalBlks == Blocks(p.chunks) && p.header.totalChunks == |p.chunks|
    && |EncodeFile(p)| <= maxSize && DecodeFile(EncodeFile(p)) == Ok(p)
  }

  lemma {:induction false} SizeBounds(cs: seq<Chunk>)
    ensures CHUNK_HEADER * |cs| <= Size(cs) && forall i :: 0 <= i < |cs| ==> cs[i].TotalSize() <= Size(cs)
  {
    if cs != [] {
      SizeBounds(cs[1..]);
      forall i | 0 <= i < |cs| ensures cs[i].TotalSize() <= Size(cs) {
        if i > 0 {
          assert cs[i] == cs[1..][i - 1];
        }
      }
    }
  }

  lemma ReadyIsShaped(cs: seq<Chunk>, blkSz: nat)
    requires AllReady(cs, blkSz)
    ensures AllShaped(cs, blkSz)
  {
    forall i | 0 <= i < |cs| ensures ShapeOk(cs[i], blkSz) {
      assert Ready(cs[i], blkSz);
    }
  }

  lemma PieceIsFlashable(blkSz: U32, cs: seq<Chunk>, maxSize: nat)
    requires FILE_HEADER <= maxSize < U32_LIMIT && GoodFile(cs, maxSize - FILE_HEADER, blkSz) && Blocks(cs) < U32_LIMIT
    ensures Flashable(FileOf(blkSz, cs), maxSize)
  {
    SizeBounds(cs);
    ReadyIsShaped(cs, blkSz);
    DecodeEncodedFile(FileOf(blkSz, cs));
  }

  lemma {:induction false} PieceBlocks(lists: seq<seq<Chunk>>, i: nat)
    requires i < |lists|
    ensures Blocks(lists[i]) <= Blocks(Flatten(lists))
  {
    TotalsConcat(lists[0], Flatten(lists[1..]));
    if i > 0 {
      PieceBlocks(lists[1..], i - 1);
    }
  }

  /** The lists behind a split without fault. */
  ghost function PieceLists(f: SparseFile, maxSize: nat): seq<seq<Chunk>>
    requires Splittable(f.chunks, f.header.blkSz) && SplitFault(f, maxSize) == None
  {
    LiveIsReady(f.chunks, f.header.blkSz, maxSize);
    SplitFrom(maxSize - FILE_HEADER, [], Live(f.chunks), f.header.blkSz)
  }

  lemma PieceFacts(f: SparseFile, maxSize: nat)
    requires Splittable(f.chunks, f.header.blkSz) && SplitFault(f, maxSize) == None
    ensures var lists := PieceLists(f, maxSize);
            && (forall l :: l in lists ==> GoodFile(l, maxSize - FILE_HEADER, f.header.blkSz))
            && SameImage(Flatten(lists), Live(f.chunks), f.header.blkSz)
  {
    hide SplitFrom, GoodFile, SameImage, Flatten, Live, FirstFault, Roomy;
    var b := f.header.blkSz;
    LiveIsReady(f.chunks, b, maxSize);
    assert Size([]) == 0 && AllReady([], b);
    SplitFilesGood(maxSize - FILE_HEADER, [], Live(f.chunks), b);
    SplitKeepsImage(maxSize - FILE_HEADER, [], Live(f.chunks), b);
    assert [] + Live(f.chunks) == Live(f.chunks);
  }

  /** Every piece of a split fits the device and survives the wire; the concatenated
      expansions are the expansion of the whole; checksums and blocks are conserved in
      order, but for blocks a checksum chunk claimed. */
  lemma SplitIsSound(f: SparseFile, maxSize: nat)
    requires Splittable(f.chunks, f.header.blkSz) && SplitFault(f, maxSize) == None
    requires maxSize < U32_LIMIT && Blocks(f.chunks) < U32_LIMIT
    ensures var pieces := SplitFiles(f, maxSize);
            && (forall i :: 0 <= i < |pieces| ==> Flashable(pieces[i], maxSize))
            && ExpandFiles(pieces) == Expand(f.chunks, f.header.blkSz)
            && Crcs(FlatChunks(pieces)) == Crcs(f.chunks)
            && Blocks(FlatChunks(pieces)) + CrcBlocks(f.chunks) == Blocks(f.chunks)
  {
    var b, lists := f.header.blkSz, PieceLists(f, maxSize);
    PieceFacts(f, maxSize);
    LiveKeepsImage(f.chunks, b);
    FilesOfLists(b, lists);
    forall i | 0 <= i < |lists| ensures Flashable(FileOf(b, lists[i]), maxSize) {
      PieceBlocks(lists, i);
      assert lists[i] in lists;
      assert GoodFile(lists[i], maxSize - FILE_HEADER, b);
      PieceIsFlashable(b, lists[i], maxSize);
    }
  }

  // ---------- the fewest files ----------

  lemma RefinesWhole(c: Chunk, more: seq<Chunk>, cs: seq<Chunk>, blkSz: nat)
    requires AllReady(cs, blkSz) && cs != [] && c == cs[0] && Refines(more, cs[1..], blkSz)
    ensures Refines([c] + more, cs, blkSz)
  {
    assert ([c] + more)[1..] == more;
  }

  lemma RefinesPart(k: nat, more: seq<Chunk>, cs: seq<Chunk>, blkSz: nat)
    requires AllReady(cs, blkSz) && cs != [] && Ready(cs[0], blkSz) && 0 < k < cs[0].blocks
    requires AllReady([Back(cs[0], k, blkSz)] + cs[1..], blkSz) &&
             Refines(more, [Back(cs[0], k, blkSz)] + cs[1..], blkSz)
    ensures Refines([Front(cs[0], k, blkSz)] + more, cs, blkSz)
  {
    assert ([Front(cs[0], k, blkSz)] + more)[1..] == more;
  }

  lemma {:induction false} TakeRefines(room: nat, cs: seq<Chunk>, more: seq<Chunk>, blkSz: nat)
    requires blkSz > 0 && AllReady(cs, blkSz) && Refines(more, TakeFile(room, cs, blkSz).rest, blkSz)
    ensures Refines(TakeFile(room, cs, blkSz).taken + more, cs, blkSz)
    decreases cs
  {
    var cut := TakeFile(room, cs, blkSz);
    if cut.taken == [] {
      assert cut.taken + more == more;
    } else {
      assert Ready(cs[0], blkSz);
      if cut.taken[0] == cs[0] {
        var next := TakeRest(room, cs, blkSz);
        TakeRefines(next, cs[1..], more, blkSz);
        RefinesWhole(cs[0], TakeFile(next, cs[1..], blkSz).taken + more, cs, blkSz);
        ConcatAssoc([cs[0]], TakeFile(next, cs[1..], blkSz).taken, more);
      } else {
        RefinesPart(Fit(room, blkSz), more, cs, blkSz);
      }
    }
  }

  /** The room left after the first chunk, when it is taken whole. */
  lemma TakeRest(room: nat, cs: seq<Chunk>, blkSz: nat) returns (next: nat)
    requires blkSz > 0 && AllReady(cs, blkSz) && cs != [] && Ready(cs[0], blkSz)
    requires TakeFile(room, cs, blkSz).taken != [] && TakeFile(room, cs, blkSz).taken[0] == cs[0]
    ensures TakeFile(room, cs, blkSz) ==
            var cut := TakeFile(next, cs[1..], blkSz); Cut([cs[0]] + cut.taken, cut.rest)
  {
    WholeFits(room, cs[0], blkSz);
    next := room - cs[0].TotalSize();
  }

  lemma NothingRefines(room: nat, blkSz: nat)
    requires blkSz > 0 && AllReady([], blkSz) && Roomy(room, [], blkSz)
    ensures Refines(Flatten(SplitFrom(room, [], [], blkSz)), [], blkSz)
  {}

  lemma {:induction false} SplitRefines(room: nat, cs: seq<Chunk>, blkSz: nat)
    requires blkSz > 0 && AllReady(cs, blkSz) && Roomy(room, cs, blkSz)
    ensures Refines(Flatten(SplitFrom(room, [], cs, blkSz)), cs, blkSz)
    decreases AllUnits(cs)
  {
    hide Refines, TakeFile, AllReady, Roomy, AllUnits, SplitFrom, Flatten;
    if cs == [] {
      NothingRefines(room, blkSz);
    } else {
      var cut := TakeFile(room, cs, blkSz);
      SplitHead(room, [], cs, blkSz);
      SplitShrinks(room, [], cs, blkSz);
      SplitRefines(room, cut.rest, blkSz);
      TakeRefines(room, cs, Flatten(SplitFrom(room, [], cut.rest, blkSz)), blkSz);
      assert [] + cut.taken == cut.taken;
      FlattenCons(cut.taken, SplitFrom(room, [], cut.rest, blkSz));
    }
  }

  /** A way to cut the image into files of at most `maxSize` bytes, order kept, chunks cut
      only at block boundaries. */
  ghost predicate Feasible(files: seq<seq<Chunk>>, f: SparseFile, maxSize: nat)
    requires AllReady(Live(f.chunks), f.header.blkSz)
  {
    Refines(Flatten(files), Live(f.chunks), f.header.blkSz) &&
        forall l :: l in files ==> FILE_HEADER + Size(l) <= maxSize
  }

  /** A split is feasible, and no feasible one has fewer files. */
  lemma FewestFiles(f: SparseFile, maxSize: nat)
    requires Splittable(f.chunks, f.header.blkSz) && SplitFault(f, maxSize) == None
    ensures AllReady(Live(f.chunks), f.header.blkSz)
    ensures Feasible(PieceLists(f, maxSize), f, maxSize) && |SplitFiles(f, maxSize)| == |PieceLists(f, maxSize)|
    ensures forall files :: Feasible(files, f, maxSize) ==> |SplitFiles(f, maxSize)| <= |files|
  {
    var b, room, cs := f.header.blkSz, maxSize - FILE_HEADER, Live(f.chunks);
    LiveIsReady(f.chunks, b, maxSize);
    PieceFacts(f, maxSize);
    SplitRefines(room, cs, b);
    forall files | Feasible(files, f, maxSize) ensures |SplitFiles(f, maxSize)| <= |files| {
      StaysAhead(room, cs, 0, files, b);
    }
  }

  // ---------- raw image in, flashed bytes out ----------

  /** Making a sparse image of raw bytes, splitting it, sending each piece through the wire
      format and expanding them in turn writes the bytes, zero-padded to whole blocks. */
  lemma FlashPipeline(raw: Bytes, blkSz: U32, maxSize: nat)
    requires MinRequired(EffectiveBlockSize(blkSz)) <= maxSize < U32_LIMIT
    requires |Padded(raw, EffectiveBlockSize(blkSz))| / EffectiveBlockSize(blkSz) < U32_LIMIT
    ensures var f := FromRaw(raw, blkSz);
            && Splittable(f.chunks, f.header.blkSz) && SplitFault(f, maxSize) == None
            && var pieces := SplitFiles(f, maxSize);
               && (forall i :: 0 <= i < |pieces| ==> Flashable(pieces[i], maxSize))
               && ExpandFiles(pieces) == Padded(raw, EffectiveBlockSize(blkSz))
  {
    var f, b := FromRaw(raw, blkSz), EffectiveBlockSize(blkSz);
    FromRawExpands(raw, blkSz);
    forall i | 0 <= i < |f.chunks| && KnownType(f.chunks[i]) ensures ShapeOk(f.chunks[i], b) {}
    NoFaultIff(f.chunks, b, maxSize);
    assert Blocks(f.chunks) < U32_LIMIT by {
      assert raw != [] ==> f.chunks[1..] == [];
    }
    SplitIsSound(f, maxSize);
  }
}
