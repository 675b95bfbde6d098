/** Building and taking apart Android boot images
    (crates/fastboot-protocol/src/boot_image.rs:683-769, 774-936). */
module BootImage {
  import opened Wrappers
  import opened LittleEndian
  import opened BootPages
  import opened BootHeader

  datatype Image = Image(header: Header, kernel: Bytes, ramdisk: Bytes, second: Bytes, recoveryDtbo: Bytes, dtb: Bytes)

  const DEFAULT_PAGE_SIZE: U32 := 2048

  /** The page size a build uses. */
  function Page(pageSize: U32, version: U32): (p: U32)
    ensures IsPow2(p) && p > 0
  {
    assert IsPow2(2048) && IsPow2(4096) by {
      assert IsPow2(4);
      assert IsPow2(32);
      assert IsPow2(256);
    }
    if version > 2 then 4096 else if IsPow2(pageSize) then pageSize else DEFAULT_PAGE_SIZE
  }

  /** The header of a build. */
  function BuiltHeader(kernel: Bytes, ramdisk: Bytes, second: Bytes, dtb: Bytes, page: U32, version: U32): Header
    requires |kernel| < 0x1_0000_0000 && |ramdisk| < 0x1_0000_0000 && |second| < 0x1_0000_0000 && |dtb| < 0x1_0000_0000
  {
    var early := version <= 2;
    Header(version, |kernel|, if early then 0x8000 else 0, |ramdisk|, if early then 0x0100_0000 else 0, 0,
           |second|, if early then 0x00F0_0000 else 0, if early then 0x100 else 0, page,
           [], [], Zeros(ID_SIZE), [], 0, 0, if version == 0 then 0 else HeaderSize(version),
           if version >= 2 then |dtb| else 0, 0)
  }

  /** Bytes filled up with zeros to a page boundary. */
  function Padded(b: Bytes, page: U32): (r: Bytes)
    requires IsPow2(page) && |b| < 0x1_0000_0000
    ensures |r| == AlignUp(|b|, page) && |b| <= |r| && r[..|b|] == b
  {
    AlignUpIsLeast(|b|, page);
    b + Zeros(AlignUp(|b|, page) - |b|)
  }

  function Section(b: Bytes, page: U32): (r: Bytes)
    requires IsPow2(page) && |b| < 0x1_0000_0000
    ensures |b| <= |r| && r[..|b|] == b && Multiple(|r|, page)
    ensures b != [] ==> |r| == AlignUp(|b|, page)
  {
    AlignUpMultiple(|b|, page);
    if b == [] then [] else Padded(b, page)
  }

  /** `build_boot_image`. */
  function Build(kernel: Bytes, ramdisk: Bytes, second: Bytes, dtb: Bytes, pageSize: U32, version: U32): Bytes
    requires |kernel| < 0x1_0000_0000 && |ramdisk| < 0x1_0000_0000 && |second| < 0x1_0000_0000 && |dtb| < 0x1_0000_0000
  {
    var page := Page(pageSize, version);
    Padded(Encode(BuiltHeader(kernel, ramdisk, second, dtb, page, version)), page) +
    (Section(kernel, page) + (Section(ramdisk, page) +
    (Section(if version <= 2 then second else [], page) + Section(if version >= 2 then dtb else [], page))))
  }

  // ---------- parsing ----------

  /** A section of `size` bytes at `offset`, and where the next one starts. */
  function Take(b: Bytes, name: string, offset: nat, size: U32, page: U32): (r: BootResult<(Bytes, nat)>)
    requires IsPow2(page)
    ensures r.Ok? ==> offset <= r.value.1
  {
    AlignUpIsLeast(size, page);
    var padded := AlignUp(size, page);
    if size == 0 then Ok(([], offset))
    else if offset + padded > |b| then Err(SectionBounds(name, offset, padded, |b|))
    else Ok((b[offset..offset + size], offset + padded))
  }

  /** The recovery overlay of version 1, at an offset of its own. */
  function TakeRecovery(b: Bytes, h: Header, offset: nat, page: U32): BootResult<Bytes>
    requires IsPow2(page)
  {
    AlignUpIsLeast(h.recoveryDtboSize, page);
    var padded := AlignUp(h.recoveryDtboSize, page);
    if h.version != 1 || h.recoveryDtboSize == 0 then Ok([])
    else if h.recoveryDtboOffset < offset then Err(InvalidSectionOffset("recovery_dtbo", h.recoveryDtboOffset, offset))
    else if h.recoveryDtboOffset + padded > |b| then
      Err(SectionBounds("recovery_dtbo", h.recoveryDtboOffset, padded, |b|))
    else Ok(b[h.recoveryDtboOffset..h.recoveryDtboOffset + h.recoveryDtboSize])
  }

  /** The sections after the header. */
  function Sections(b: Bytes, h: Header, start: nat, page: U32): BootResult<Image>
    requires IsPow2(page)
  {
    match Take(b, "kernel", start, h.kernelSize, page)
    case Err(e) => Err(e)
    case Ok((kernel, o1)) =>
      match Take(b, "ramdisk", o1, h.ramdiskSize, page)
      case Err(e) => Err(e)
      case Ok((ramdisk, o2)) =>
        match Take(b, "second", o2, if h.version <= 2 then h.secondSize else 0, page)
        case Err(e) => Err(e)
        case Ok((second, o3)) =>
          match TakeRecovery(b, h, o3, page)
          case Err(e) => Err(e)
          case Ok(recovery) =>
            match Take(b, "dtb", o3, if h.version >= 2 then h.dtbSize else 0, page)
            case Err(e) => Err(e)
            case Ok((dtb, _)) => Ok(Image(h, kernel, ramdisk, second, recovery, dtb))
  }

  /** `parse_boot_image`. */
  function Parse(b: Bytes): BootResult<Image> {
    match Decode(b)
    case Err(e) => Err(e)
    case Ok(h) =>
      var page := if h.version <= 2 then h.pageSize else 4096;
      if page == 0 || !IsPow2(page) then Err(InvalidPageSize(h.pageSize))
      else
        var start := if h.version <= 2 then AlignUp(HeaderSize(h.version), page) else V3_SIZE;
        if |b| < start then Err(BufferTooShort(start, |b|)) else Sections(b, h, start, page)
  }

  // ---------- round trip ----------

  lemma TakeBuilt(b: Bytes, name: string, at: nat, x: Bytes, page: U32)
    requires IsPow2(page) && |x| < 0x1_0000_0000 && Holds(b, at, Section(x, page))
    ensures Take(b, name, at, |x|, page) == Ok((x, at + |Section(x, page)|))
  {
    hide AlignUp, IsPow2, Multiple;
    if x != [] {
      var s := Section(x, page);
      assert forall i :: 0 <= i < |x| ==> b[at + i] == s[i] && s[..|x|][i] == s[i];
      assert b[at..at + |x|] == x;
    }
  }

  /** The sections of a build as they lie one behind the other. */
  lemma SectionsBuilt(b: Bytes, h: Header, start: nat, page: U32, kernel: Bytes, ramdisk: Bytes, second: Bytes,
                      dtb: Bytes)
    requires IsPow2(page) && h.recoveryDtboSize == 0
    requires |kernel| < 0x1_0000_0000 && |ramdisk| < 0x1_0000_0000 && |second| < 0x1_0000_0000 && |dtb| < 0x1_0000_0000
    requires Holds(b, start, Section(kernel, page) +
                             (Section(ramdisk, page) + (Section(second, page) + Section(dtb, page))))
    requires h.kernelSize == |kernel| && h.ramdiskSize == |ramdisk|
    requires |second| == if h.version <= 2 then h.secondSize else 0
    requires h.version >= 2 ==> h.dtbSize == |dtb| || h.dtbSize == 0
    ensures Sections(b, h, start, page) ==
            Ok(Image(h, kernel, ramdisk, second, [], if h.version >= 2 && h.dtbSize > 0 then dtb else []))
  {
    hide Holds, Section, Take, TakeRecovery, IsPow2;
    var k, r, s, d := Section(kernel, page), Section(ramdisk, page), Section(second, page), Section(dtb, page);
    HoldsParts(b, start, k, r + (s + d));
    HoldsParts(b, start + |k|, r, s + d);
    HoldsParts(b, start + |k| + |r|, s, d);
    TakeBuilt(b, "kernel", start, kernel, page);
    TakeBuilt(b, "ramdisk", start + |k|, ramdisk, page);
    TakeBuilt(b, "second", start + |k| + |r|, second, page);
    NoRecovery(b, h, start + |k| + |r| + |s|, page);
    if h.version >= 2 && h.dtbSize > 0 {
      TakeBuilt(b, "dtb", start + |k| + |r| + |s|, dtb, page);
    } else {
      TakeNothing(b, "dtb", start + |k| + |r| + |s|, page);
    }
  }

  lemma NoRecovery(b: Bytes, h: Header, offset: nat, page: U32)
    requires IsPow2(page) && h.recoveryDtboSize == 0
    ensures TakeRecovery(b, h, offset, page) == Ok([])
  {}

  lemma TakeNothing(b: Bytes, name: string, offset: nat, page: U32)
    requires IsPow2(page)
    ensures Take(b, name, offset, 0, page) == Ok(([], offset))
  {}

  /** What parsing should give back. */
  function Original(kernel: Bytes, ramdisk: Bytes, second: Bytes, dtb: Bytes, pageSize: U32, version: U32): Image
    requires |kernel| < 0x1_0000_0000 && |ramdisk| < 0x1_0000_0000 && |second| < 0x1_0000_0000 && |dtb| < 0x1_0000_0000
    requires version <= 4
  {
    Image(Stored(BuiltHeader(kernel, ramdisk, second, dtb, Page(pageSize, version), version)),
          kernel, ramdisk, if version <= 2 then second else [], [], if version == 2 then dtb else [])
  }

  /** A build is whole pages. */
  lemma BuildIsPages(kernel: Bytes, ramdisk: Bytes, second: Bytes, dtb: Bytes, pageSize: U32, version: U32)
    requires |kernel| < 0x1_0000_0000 && |ramdisk| < 0x1_0000_0000 && |second| < 0x1_0000_0000 && |dtb| < 0x1_0000_0000
    ensures |Build(kernel, ramdisk, second, dtb, pageSize, version)| % Page(pageSize, version) == 0
  {
    hide Section, Padded, AlignUp, IsPow2, Encode, Page;
    var page := Page(pageSize, version);
    var header := Encode(BuiltHeader(kernel, ramdisk, second, dtb, page, version));
    var k, r := Section(kernel, page), Section(ramdisk, page);
    var s, d := Section(if version <= 2 then second else [], page), Section(if version >= 2 then dtb else [], page);
    AlignUpMultiple(|header|, page);
    MultipleAdd(|s|, |d|, page);
    MultipleAdd(|r|, |s| + |d|, page);
    MultipleAdd(|k|, |r| + (|s| + |d|), page);
    MultipleAdd(|Padded(header, page)|, |k| + (|r| + (|s| + |d|)), page);
    MultipleIsMod(|Build(kernel, ramdisk, second, dtb, pageSize, version)|, page);
  }

  /** Parsing a build gives its parts back, the second stage for versions 0 to 2 and the device tree
      for version 2, if and only if the kernel of a version 0 to 2 build is not 3 or 4 bytes long. */
  lemma BuildRoundTrip(kernel: Bytes, ramdisk: Bytes, second: Bytes, dtb: Bytes, pageSize: U32, version: U32)
    requires |kernel| < 0x1_0000_0000 && |ramdisk| < 0x1_0000_0000 && |second| < 0x1_0000_0000 && |dtb| < 0x1_0000_0000
    requires version <= 4
    ensures var b := Build(kernel, ramdisk, second, dtb, pageSize, version);
            Readable(b) &&
            (Parse(b) == Ok(Original(kernel, ramdisk, second, dtb, pageSize, version)) <==>
                version >= 3 || |kernel| !in {3, 4})
  {
    hide Section, AlignUp, IsPow2, Encode, Decode, Sections, Holds, Readable;
    var page := Page(pageSize, version);
    var h := BuiltHeader(kernel, ramdisk, second, dtb, page, version);
    var b := Build(kernel, ramdisk, second, dtb, pageSize, version);
    var rest := BuildHeader(kernel, ramdisk, second, dtb, pageSize, version);
    HeaderRoundTrip(h, rest);
    if version >= 3 || |kernel| !in {3, 4} {
      BuildStart(kernel, ramdisk, second, dtb, pageSize, version);
    } else {
      ParseHeader(b);
    }
  }

  lemma ParseHeader(b: Bytes)
    ensures Parse(b).Ok? ==> Decode(b) == Ok(Parse(b).value.header)
  {
    hide Decode, Take, TakeRecovery, AlignUp, IsPow2;
  }

  /** Parsing stops on a slice out of range if and only if the version is looked for beyond the end;
      no section does that. */
  lemma StopsIff(b: Bytes)
    ensures Parse(b) == Err(SliceOutOfRange) <==> !Readable(b)
  {
    hide AlignUp, IsPow2;
  }

  /** Builds of versions 0 to 2 have the caller's page size if it is a power of two and 2048 otherwise, and
      the customary addresses; later ones have pages of 4096. */
  lemma BuiltFields(kernel: Bytes, ramdisk: Bytes, second: Bytes, dtb: Bytes, pageSize: U32, version: U32)
    requires |kernel| < 0x1_0000_0000 && |ramdisk| < 0x1_0000_0000 && |second| < 0x1_0000_0000 && |dtb| < 0x1_0000_0000
    requires version <= 4 && (version >= 3 || |kernel| !in {3, 4})
    ensures var b := Build(kernel, ramdisk, second, dtb, pageSize, version);
            && Parse(b).Ok?
            && var h := Parse(b).value.header;
               && h.version == version && h.kernelSize == |kernel| && h.ramdiskSize == |ramdisk| && h.osVersion == 0
               && h.pageSize ==
                  (if version > 2 then 4096 else if exists k :: Pow2(k) == pageSize then pageSize else 2048)
               && h.bootHeaderSize == (match version case 0 => 0 case 1 => 1648 case 2 => 1664 case _ => 4096)
               && h.dtbSize == (if version == 2 then |dtb| else 0) && h.dtbAddr == 0
               && h.secondSize == (if version <= 2 then |second| else 0)
               && h.recoveryDtboSize == 0 && h.recoveryDtboOffset == 0
               && (version > 2 ==> h.kernelAddr == 0 && h.ramdiskAddr == 0 && h.secondAddr == 0 && h.tagsAddr == 0)
               && (version <= 2 ==>
                     && h.kernelAddr == 0x8000 && h.ramdiskAddr == 0x0100_0000
                     && h.secondAddr == 0x00F0_0000 && h.tagsAddr == 0x100)
  {
    hide Build, Parse, Readable, IsPow2, Pow2;
    BuildRoundTrip(kernel, ramdisk, second, dtb, pageSize, version);
    PowersOnly(pageSize);
  }

  // ---------- where the sections stand ----------

  /** A section is read off an offset, and there is room for the rest of its last page. */
  ghost predicate SectionAt(b: Bytes, at: nat, size: U32, page: U32, data: Bytes)
    requires IsPow2(page)
  {
    AlignUpIsLeast(size, page);
    if size == 0 then data == [] else at + AlignUp(size, page) <= |b| && data == b[at..at + size]
  }

  /** The pages of a section. */
  function Pages(size: U32, page: U32): nat
    requires IsPow2(page)
  {
    if size == 0 then 0 else AlignUp(size, page)
  }

  /** The recovery overlay, at an offset of its own behind the sections before it. */
  ghost predicate RecoveryAt(b: Bytes, h: Header, min: nat, page: U32, data: Bytes)
    requires IsPow2(page)
  {
    if h.version == 1 && h.recoveryDtboSize > 0 then
      min <= h.recoveryDtboOffset && SectionAt(b, h.recoveryDtboOffset, h.recoveryDtboSize, page, data)
    else data == []
  }

  lemma TakesIff(b: Bytes, name: string, at: nat, size: U32, page: U32, data: Bytes, next: nat)
    requires IsPow2(page)
    ensures Take(b, name, at, size, page) == Ok((data, next)) <==>
            SectionAt(b, at, size, page, data) && next == at + Pages(size, page)
  {
    AlignUpIsLeast(size, page);
  }

  lemma TakesRecoveryIff(b: Bytes, h: Header, at: nat, page: U32, data: Bytes)
    requires IsPow2(page)
    ensures TakeRecovery(b, h, at, page) == Ok(data) <==> RecoveryAt(b, h, at, page, data)
  {
    AlignUpIsLeast(h.recoveryDtboSize, page);
  }

  /** The sections after the header: kernel, ramdisk, second stage up to version 2, recovery overlay of
      version 1, and device tree from version 2 on. */
  ghost predicate Contains(b: Bytes, start: nat, page: U32, img: Image)
    requires IsPow2(page)
  {
    var h := img.header;
    var ramdiskAt := start + Pages(h.kernelSize, page);
    var secondAt := ramdiskAt + Pages(h.ramdiskSize, page);
    var secondSize, dtbSize := if h.version <= 2 then h.secondSize else 0, if h.version >= 2 then h.dtbSize else 0;
    var after := secondAt + Pages(secondSize, page);
    && SectionAt(b, start, h.kernelSize, page, img.kernel)
    && SectionAt(b, ramdiskAt, h.ramdiskSize, page, img.ramdisk)
    && SectionAt(b, secondAt, secondSize, page, img.second)
    && RecoveryAt(b, h, after, page, img.recoveryDtbo)
    && SectionAt(b, after, dtbSize, page, img.dtb)
  }

  lemma SectionsIff(b: Bytes, h: Header, start: nat, page: U32, img: Image)
    requires IsPow2(page)
    ensures Sections(b, h, start, page) == Ok(img) <==> img.header == h && Contains(b, start, page, img)
  {
    hide Take, TakeRecovery, SectionAt, RecoveryAt, Pages, IsPow2;
    var ramdiskAt := start + Pages(h.kernelSize, page);
    var secondAt := ramdiskAt + Pages(h.ramdiskSize, page);
    var secondSize, dtbSize := if h.version <= 2 then h.secondSize else 0, if h.version >= 2 then h.dtbSize else 0;
    var after := secondAt + Pages(secondSize, page);
    TakeOr(b, "kernel", start, h.kernelSize, page, img.kernel);
    TakeOr(b, "ramdisk", ramdiskAt, h.ramdiskSize, page, img.ramdisk);
    TakeOr(b, "second", secondAt, secondSize, page, img.second);
    TakesRecoveryIff(b, h, after, page, img.recoveryDtbo);
    TakeOr(b, "dtb", after, dtbSize, page, img.dtb);
  }

  /** A section that is taken leads to where its pages end. */
  lemma TakeOr(b: Bytes, name: string, at: nat, size: U32, page: U32, data: Bytes)
    requires IsPow2(page)
    ensures Take(b, name, at, size, page).Ok? ==> Take(b, name, at, size, page).value.1 == at + Pages(size, page)
    ensures SectionAt(b, at, size, page, data) <==> Take(b, name, at, size, page) == Ok((data, at + Pages(size, page)))
  {
    TakesIff(b, name, at, size, page, data, at + Pages(size, page));
    var t := Take(b, name, at, size, page);
    if t.Ok? {
      TakesIff(b, name, at, size, page, t.value.0, t.value.1);
    }
  }

  /** Bytes are parsed as an image if and only if its header is read from them, its page size is a power
      of two, and its sections stand one after the other from the end of the header on. */
  lemma ParsesIff(b: Bytes, img: Image)
    ensures Parse(b) == Ok(img) <==>
            && Decode(b) == Ok(img.header)
            && var page := if img.header.version <= 2 then img.header.pageSize else 4096;
               && IsPow2(page)
               && var start := if img.header.version <= 2 then AlignUp(HeaderSize(img.header.version), page) else 4096;
                  start <= |b| && Contains(b, start, page, img)
  {
    hide Decode, Sections, Contains, AlignUp, IsPow2;
    FullPage();
    if Decode(b).Ok? {
      var h := Decode(b).value;
      var page := if h.version <= 2 then h.pageSize else 4096;
      if IsPow2(page) {
        PowersArePositive(page);
        SectionsIff(b, h, if h.version <= 2 then AlignUp(HeaderSize(h.version), page) else 4096, page, img);
      }
    }
  }

  /** The first section without room is reported. */
  lemma FirstMissing(b: Bytes, h: Header, start: nat, page: U32)
    requires IsPow2(page)
    ensures var ramdiskAt := start + Pages(h.kernelSize, page);
            var secondAt := ramdiskAt + Pages(h.ramdiskSize, page);
            var secondSize := if h.version <= 2 then h.secondSize else 0;
            var dtbSize := if h.version >= 2 then h.dtbSize else 0;
            var after, recovery := secondAt + Pages(secondSize, page), h.recoveryDtboSize;
            Sections(b, h, start, page).Err? ==>
              Sections(b, h, start, page).error ==
              if ramdiskAt > |b| && h.kernelSize > 0 then SectionBounds("kernel", start, Pages(h.kernelSize, page), |b|)
              else if secondAt > |b| && h.ramdiskSize > 0 then
                SectionBounds("ramdisk", ramdiskAt, Pages(h.ramdiskSize, page), |b|)
              else if after > |b| && secondSize > 0 then SectionBounds("second", secondAt, Pages(secondSize, page), |b|)
              else if h.version == 1 && recovery > 0 && h.recoveryDtboOffset < after then
                InvalidSectionOffset("recovery_dtbo", h.recoveryDtboOffset, after)
              else if h.version == 1 && recovery > 0 then
                SectionBounds("recovery_dtbo", h.recoveryDtboOffset, Pages(recovery, page), |b|)
              else SectionBounds("dtb", after, Pages(dtbSize, page), |b|)
  {
    hide AlignUp, IsPow2;
  }

  lemma PowersArePositive(n: nat)
    requires IsPow2(n)
    ensures n > 0
  {}

  /** When parsing succeeds so, the second stage is lost for versions 3 and 4, and the device tree for
      all but version 2, unless there is none. */
  lemma WhatIsLost(kernel: Bytes, ramdisk: Bytes, second: Bytes, dtb: Bytes, pageSize: U32, version: U32)
    requires |kernel| < 0x1_0000_0000 && |ramdisk| < 0x1_0000_0000 && |second| < 0x1_0000_0000 && |dtb| < 0x1_0000_0000
    requires version <= 4 && (version >= 3 || |kernel| !in {3, 4})
    ensures var b := Build(kernel, ramdisk, second, dtb, pageSize, version);
            && Readable(b) && Parse(b).Ok? && Parse(b).value.kernel == kernel && Parse(b).value.ramdisk == ramdisk
            && (Parse(b).value.second == second <==> version <= 2 || second == [])
            && (Parse(b).value.dtb == dtb <==> version == 2 || dtb == [])
  {
    hide Build, Parse, Readable;
    BuildRoundTrip(kernel, ramdisk, second, dtb, pageSize, version);
  }

  /** A build starts with its header. */
  lemma BuildHeader(kernel: Bytes, ramdisk: Bytes, second: Bytes, dtb: Bytes, pageSize: U32, version: U32)
    returns (rest: Bytes)
    requires |kernel| < 0x1_0000_0000 && |ramdisk| < 0x1_0000_0000 && |second| < 0x1_0000_0000 && |dtb| < 0x1_0000_0000
    ensures Build(kernel, ramdisk, second, dtb, pageSize, version) ==
            Encode(BuiltHeader(kernel, ramdisk, second, dtb, Page(pageSize, version), version)) + rest
  {
    hide Section, AlignUp, IsPow2, Encode, Page;
    var b := Build(kernel, ramdisk, second, dtb, pageSize, version);
    var e := Encode(BuiltHeader(kernel, ramdisk, second, dtb, Page(pageSize, version), version));
    rest := b[|e|..];
    assert b[..|e|] == e;
  }

  lemma BuildStart(kernel: Bytes, ramdisk: Bytes, second: Bytes, dtb: Bytes, pageSize: U32, version: U32)
    requires |kernel| < 0x1_0000_0000 && |ramdisk| < 0x1_0000_0000 && |second| < 0x1_0000_0000 && |dtb| < 0x1_0000_0000
    requires version <= 4
    ensures var page := Page(pageSize, version);
            var b := Build(kernel, ramdisk, second, dtb, pageSize, version);
            var h := Stored(BuiltHeader(kernel, ramdisk, second, dtb, page, version));
            var start := if version <= 2 then AlignUp(HeaderSize(version), page) else V3_SIZE;
            && |b| >= start
            && Sections(b, h, start, page) == Ok(Original(kernel, ramdisk, second, dtb, pageSize, version))
  {
    hide Section, AlignUp, IsPow2, Encode, Sections, Kept, Holds;
    var page := Page(pageSize, version);
    var b := Build(kernel, ramdisk, second, dtb, pageSize, version);
    var h := BuiltHeader(kernel, ramdisk, second, dtb, page, version);
    var front := Padded(Encode(h), page);
    var second', dtb' := if version <= 2 then second else [], if version >= 2 then dtb else [];
    var sections := Section(kernel, page) + (Section(ramdisk, page) + (Section(second', page) + Section(dtb', page)));
    HoldsWhole(front, sections);
    FullPage();
    SectionsBuilt(b, Stored(h), |front|, page, kernel, ramdisk, second', dtb');
  }

  lemma HoldsWhole(x: Bytes, y: Bytes)
    ensures Holds(x + y, |x|, y)
  {}

  lemma FullPage()
    ensures IsPow2(4096) && AlignUp(4096, 4096) == 4096
  {
    assert IsPow2(4096) by {
      assert IsPow2(4);
      assert IsPow2(32);
      assert IsPow2(256);
    }
    assert Multiple(4096 - 4096, 4096);
    AlignUpMultiple(4096, 4096);
  }

  /** A build with a version it does not know is only a magic word, and is refused. */
  lemma UnknownVersion(kernel: Bytes, ramdisk: Bytes, second: Bytes, dtb: Bytes, pageSize: U32, version: U32)
    requires |kernel| < 0x1_0000_0000 && |ramdisk| < 0x1_0000_0000 && |second| < 0x1_0000_0000 && |dtb| < 0x1_0000_0000
    requires version > 4
    ensures var b := Build(kernel, ramdisk, second, dtb, pageSize, version);
            Readable(b) && Parse(b) == Err(InvalidPageSize(0))
  {
    hide Section, AlignUp, IsPow2;
    FullPage();
    AlignUpIsLeast(8, 4096);
    var b := Build(kernel, ramdisk, second, dtb, pageSize, version);
    assert AlignUp(8, 4096) == 4096;
    assert b[..8] == MAGIC && forall i :: 8 <= i < 4096 ==> b[i] == 0;
    ZerosRead(b, 8);
    ZerosRead(b, 36);
    ZerosRead(b, 40);
  }

  lemma ZerosRead(b: Bytes, at: nat)
    requires at + 4 <= |b| && forall i :: at <= i < at + 4 ==> b[i] == 0
    ensures Read32(b, at) == 0
  {}

  // ---------- step by step ----------

  method AppendSection(b: Bytes, section: Bytes, page: U32) returns (image: Bytes)
    requires IsPow2(page) && |section| < 0x1_0000_0000
    ensures image == b + Section(section, page)
  {
    image := b;
    if section != [] {
      image := b + Padded(section, page);
    }
  }

  method BuildBootImage(kernel: Bytes, ramdisk: Bytes, second: Bytes, dtb: Bytes, pageSize: U32, version: U32)
    returns (image: Bytes)
    requires |kernel| < 0x1_0000_0000 && |ramdisk| < 0x1_0000_0000 && |second| < 0x1_0000_0000 && |dtb| < 0x1_0000_0000
    ensures image == Build(kernel, ramdisk, second, dtb, pageSize, version)
  {
    hide Section, AlignUp, IsPow2, Encode;
    var page := Page(pageSize, version);
    var header := EncodeHeader(BuiltHeader(kernel, ramdisk, second, dtb, page, version));
    ghost var front := Padded(header, page);
    image := Padded(header, page);
    image := AppendSection(image, kernel, page);
    image := AppendSection(image, ramdisk, page);
    if version <= 2 {
      image := AppendSection(image, second, page);
    }
    if version >= 2 {
      image := AppendSection(image, dtb, page);
    }
    NoSection(page);
    Regroup(front, Section(kernel, page), Section(ramdisk, page),
            Section(if version <= 2 then second else [], page), Section(if version >= 2 then dtb else [], page));
  }

  lemma NoSection(page: U32)
    requires IsPow2(page)
    ensures Section([], page) == []
  {}

  lemma Regroup(a: Bytes, b: Bytes, c: Bytes, d: Bytes, e: Bytes)
    ensures a + (b + (c + (d + e))) == a + b + c + d + e
  {}

  method TakeSection(b: Bytes, name: string, offset: nat, size: U32, page: U32) returns (r: BootResult<(Bytes, nat)>)
    requires IsPow2(page)
    ensures r == Take(b, name, offset, size, page)
  {
    if size == 0 {
      return Ok(([], offset));
    }
    AlignUpIsLeast(size, page);
    var padded := AlignUp(size, page);
    if offset + padded > |b| {
      return Err(SectionBounds(name, offset, padded, |b|));
    }
    r := Ok((b[offset..offset + size], offset + padded));
  }

  method ParseBootImage(b: Bytes) returns (r: BootResult<Image>)
    ensures r == Parse(b)
  {
    hide Take, TakeRecovery, AlignUp, IsPow2;
    var decoded := Decode(b);
    if decoded.Err? {
      return Err(decoded.error);
    }
    var h := decoded.value;
    var page := if h.version <= 2 then h.pageSize else 4096;
    if page == 0 || !IsPow2(page) {
      return Err(InvalidPageSize(h.pageSize));
    }
    var offset := if h.version <= 2 then AlignUp(HeaderSize(h.version), page) else V3_SIZE;
    if |b| < offset {
      return Err(BufferTooShort(offset, |b|));
    }
    var kernel := TakeSection(b, "kernel", offset, h.kernelSize, page);
    if kernel.Err? {
      return Err(kernel.error);
    }
    offset := kernel.value.1;
    var ramdisk := TakeSection(b, "ramdisk", offset, h.ramdiskSize, page);
    if ramdisk.Err? {
      return Err(ramdisk.error);
    }
    offset := ramdisk.value.1;
    var second := TakeSection(b, "second", offset, if h.version <= 2 then h.secondSize else 0, page);
    if second.Err? {
      return Err(second.error);
    }
    offset := second.value.1;
    var recovery := TakeRecovery(b, h, offset, page);
    if recovery.Err? {
      return Err(recovery.error);
    }
    var dtb := TakeSection(b, "dtb", offset, if h.version >= 2 then h.dtbSize else 0, page);
    if dtb.Err? {
      return Err(dtb.error);
    }
    r := Ok(Image(h, kernel.value.0, ramdisk.value.0, second.value.0, recovery.value, dtb.value.0));
  }
}
