/** The header of an Android boot image, versions 0 to 4
    (crates/fastboot-protocol/src/boot_image.rs:8-20, 150-571, 946-988). Strings are byte strings. */
module BootHeader {
  import opened Wrappers
  import opened LittleEndian

  type BootResult<T> = Result<T, BootImageError>

  /** The source's errors, and where it stops on a slice that runs past the end. */
  datatype BootImageError =
    | BufferTooShort(expected: nat, got: nat)
    | InvalidMagic(magic: Bytes)
    | UnsupportedVersion(version: U32)
    | InvalidPageSize(pageSize: U32)
    | SectionBounds(section: string, offset: nat, size: nat, len: nat)
    | InvalidSectionOffset(section: string, offset: nat, minimum: nat)
    | SliceOutOfRange

  /** ANDROID! */
  const MAGIC: Bytes := [0x41, 0x4E, 0x44, 0x52, 0x4F, 0x49, 0x44, 0x21]

  const NAME_SIZE: nat := 16
  const ARGS_SIZE: nat := 512
  const ID_SIZE: nat := 32
  const EXTRA_ARGS_SIZE: nat := 1024
  const V0_SIZE: nat := 1632
  const V1_SIZE: nat := 1648
  const V2_SIZE: nat := 1664
  const V3_SIZE: nat := 4096

  type Id = b: Bytes | |b| == ID_SIZE witness Zeros(ID_SIZE)

  datatype Header = Header(
    version: U32, kernelSize: U32, kernelAddr: U32, ramdiskSize: U32, ramdiskAddr: U32, osVersion: U32,
    secondSize: U32, secondAddr: U32, tagsAddr: U32, pageSize: U32,
    name: Bytes, cmdline: Bytes, id: Id, extraCmdline: Bytes,
    recoveryDtboSize: U32, recoveryDtboOffset: U64, bootHeaderSize: U32,
    dtbSize: U32, dtbAddr: U64)

  /** Bytes of a header of a known version. */
  function HeaderSize(version: nat): nat {
    match version
    case 0 => V0_SIZE
    case 1 => V1_SIZE
    case 2 => V2_SIZE
    case 3 => V3_SIZE
    case 4 => V3_SIZE
    case _ => 0
  }

  // ---------- fixed strings ----------

  function Cut(s: Bytes, n: nat): (r: Bytes)
    ensures |r| <= n
  {
    if |s| <= n then s else s[..n]
  }

  /** A string in `n` bytes: cut, or filled up with zeros. */
  function Fixed(s: Bytes, n: nat): (r: Bytes)
    ensures |r| == n
  {
    Cut(s, n) + Zeros(n - |Cut(s, n)|)
  }

  /** The bytes before the first zero. */
  function UpToNul(s: Bytes): Bytes {
    if s == [] || s[0] == 0 then [] else [s[0]] + UpToNul(s[1..])
  }

  /** What a string comes back as. */
  function Kept(s: Bytes, n: nat): Bytes {
    UpToNul(Cut(s, n))
  }

  lemma {:induction false} UpToPadding(s: Bytes, n: nat)
    ensures UpToNul(s + Zeros(n)) == UpToNul(s)
  {
    if s == [] {
      assert s + Zeros(n) == Zeros(n);
    } else {
      UpToPadding(s[1..], n);
      assert (s + Zeros(n))[1..] == s[1..] + Zeros(n);
    }
  }

  lemma FixedRoundTrip(b: Bytes, at: nat, s: Bytes, n: nat)
    requires Holds(b, at, Fixed(s, n))
    ensures UpToNul(b[at..at + n]) == Kept(s, n)
  {
    assert b[at..at + n] == Fixed(s, n);
    UpToPadding(Cut(s, n), n - |Cut(s, n)|);
  }

  // ---------- encoding ----------

  function Words(ws: seq<U32>): (b: Bytes)
    ensures |b| == 4 * |ws|
  {
    if ws == [] then [] else Write32(ws[0]) + Words(ws[1..])
  }

  lemma {:induction false} WordsRead(b: Bytes, at: nat, ws: seq<U32>, i: nat)
    requires Holds(b, at, Words(ws)) && i < |ws|
    ensures at + 4 * i + 4 <= |b| && Read32(b, at + 4 * i) == ws[i]
    decreases |ws|
  {
    HoldsSplit(b, at, Words(ws), Write32(ws[0]), Words(ws[1..]), 4);
    if i == 0 {
      ReadWritten32(b, at, ws[0]);
    } else {
      WordsRead(b, at + 4, ws[1..], i - 1);
    }
  }

  function OldWords(h: Header): seq<U32> {
    [h.kernelSize, h.kernelAddr, h.ramdiskSize, h.ramdiskAddr, h.secondSize, h.secondAddr, h.tagsAddr, h.pageSize,
     h.version, h.osVersion]
  }

  /** What version 1 adds, and version 2 after it with its padding. */
  function Extension(h: Header): Bytes {
    if h.version == 0 then []
    else Write32(h.recoveryDtboSize) + (Write64(h.recoveryDtboOffset) + (Write32(h.bootHeaderSize) + DtbExtension(h)))
  }

  function DtbExtension(h: Header): Bytes {
    if h.version <= 1 then [] else Write32(h.dtbSize) + (Write64(h.dtbAddr) + Zeros(4))
  }

  function EncodeOld(h: Header): (b: Bytes)
    ensures h.version <= 2 ==> |b| == HeaderSize(h.version)
  {
    MAGIC + (Words(OldWords(h)) + (Fixed(h.name, NAME_SIZE) + (Fixed(h.cmdline, ARGS_SIZE) +
      (h.id + (Fixed(h.extraCmdline, EXTRA_ARGS_SIZE) + Extension(h))))))
  }

  function NewWords(h: Header): seq<U32> {
    [h.version, h.kernelSize, h.ramdiskSize, h.osVersion, V3_SIZE]
  }

  function EncodeNew(h: Header): (b: Bytes)
    ensures |b| == V3_SIZE
  {
    MAGIC + (Words(NewWords(h)) + Zeros(V3_SIZE - 28))
  }

  /** `BootImageHeader::encode`. */
  function Encode(h: Header): (b: Bytes)
    ensures |b| <= V3_SIZE && (h.version <= 4 ==> |b| == HeaderSize(h.version))
  {
    if h.version <= 2 then EncodeOld(h) else if h.version <= 4 then EncodeNew(h) else MAGIC
  }

  // ---------- decoding ----------

  /** Reading does not run past the end: version 0 to 2 is looked for at byte 40 before the length is. */
  predicate Readable(b: Bytes) {
    |b| < 12 || |b| >= 44 || b[..8] != MAGIC || Read32(b, 8) in {3, 4}
  }

  /** `BootImageHeader::decode`. */
  function Decode(b: Bytes): BootResult<Header> {
    if |b| < 8 then Err(BufferTooShort(8, |b|))
    else if b[..8] != MAGIC then Err(InvalidMagic(b[..8]))
    else if |b| < 12 then Err(BufferTooShort(12, |b|))
    else if Read32(b, 8) in {3, 4} then DecodeNew(b, Read32(b, 8))
    else if |b| < 44 then Err(SliceOutOfRange)
    else if Read32(b, 40) <= 2 then DecodeOld(b, Read32(b, 40))
    else Err(UnsupportedVersion(Read32(b, 40)))
  }

  /** The magic word, and what is reported when the bytes are too few, the word another, or the version unknown. */
  lemma DecodeRefusals(b: Bytes)
    ensures MAGIC == ['A' as int, 'N' as int, 'D' as int, 'R' as int, 'O' as int, 'I' as int, 'D' as int, '!' as int]
    ensures |b| < 8 ==> Decode(b) == Err(BufferTooShort(8, |b|))
    ensures |b| >= 8 && b[..8] != MAGIC ==> Decode(b) == Err(InvalidMagic(b[..8]))
    ensures 8 <= |b| < 12 && b[..8] == MAGIC ==> Decode(b) == Err(BufferTooShort(12, |b|))
    ensures |b| >= 44 && b[..8] == MAGIC && Read32(b, 8) !in {3, 4} && Read32(b, 40) > 2 ==>
              Decode(b) == Err(UnsupportedVersion(Read32(b, 40)))
    ensures |b| >= 44 && b[..8] == MAGIC && Read32(b, 8) !in {3, 4} && Read32(b, 40) <= 2 && Decode(b).Err? ==>
              var size := match Read32(b, 40) case 0 => 1632 case 1 => 1648 case _ => 1664;
              |b| < size && Decode(b) == Err(BufferTooShort(size, |b|))
    ensures |b| >= 12 && b[..8] == MAGIC && Read32(b, 8) in {3, 4} && Decode(b).Err? ==>
              |b| < 4096 && Decode(b) == Err(BufferTooShort(4096, |b|))
  {
    hide Read32, Read64, UpToNul;
  }

  function DecodeOld(b: Bytes, version: U32): BootResult<Header>
    requires version <= 2
  {
    if |b| < HeaderSize(version) then Err(BufferTooShort(HeaderSize(version), |b|))
    else Ok(Header(Read32(b, 40), Read32(b, 8), Read32(b, 12), Read32(b, 16), Read32(b, 20), Read32(b, 44),
                   Read32(b, 24), Read32(b, 28), Read32(b, 32), Read32(b, 36),
                   UpToNul(b[48..64]), UpToNul(b[64..576]), b[576..608], UpToNul(b[608..1632]),
                   if version >= 1 then Read32(b, 1632) else 0,
                   if version >= 1 then Read64(b, 1636) else 0,
                   if version >= 1 then Read32(b, 1644) else 0,
                   if version >= 2 then Read32(b, 1648) else 0,
                   if version >= 2 then Read64(b, 1652) else 0))
  }

  function DecodeNew(b: Bytes, version: U32): BootResult<Header> {
    if |b| < V3_SIZE then Err(BufferTooShort(V3_SIZE, |b|))
    else Ok(NewHeader(version, Read32(b, 12), Read32(b, 16), Read32(b, 20)))
  }

  function NewHeader(version: U32, kernelSize: U32, ramdiskSize: U32, osVersion: U32): Header {
    Header(version, kernelSize, 0, ramdiskSize, 0, osVersion, 0, 0, 0, V3_SIZE,
           [], [], Zeros(ID_SIZE), [], 0, 0, V3_SIZE, 0, 0)
  }

  // ---------- round trip ----------

  /** The fields a header of its version stores, strings as far as they are kept. */
  function Stored(h: Header): Header
    requires h.version <= 4
  {
    if h.version >= 3 then NewHeader(h.version, h.kernelSize, h.ramdiskSize, h.osVersion)
    else h.(name := Kept(h.name, NAME_SIZE), cmdline := Kept(h.cmdline, ARGS_SIZE),
            extraCmdline := Kept(h.extraCmdline, EXTRA_ARGS_SIZE),
            recoveryDtboSize := if h.version >= 1 then h.recoveryDtboSize else 0,
            recoveryDtboOffset := if h.version >= 1 then h.recoveryDtboOffset else 0,
            bootHeaderSize := if h.version >= 1 then h.bootHeaderSize else 0,
            dtbSize := if h.version >= 2 then h.dtbSize else 0,
            dtbAddr := if h.version >= 2 then h.dtbAddr else 0)
  }

  lemma MagicRead(b: Bytes)
    requires Holds(b, 0, MAGIC)
    ensures |b| >= 8 && b[..8] == MAGIC
  {
    assert forall i :: 0 <= i < 8 ==> b[..8][i] == b[0 + i];
  }

  lemma NewFields(h: Header, b: Bytes)
    requires Holds(b, 0, EncodeNew(h))
    ensures |b| >= V3_SIZE && Holds(b, 0, MAGIC)
    ensures Read32(b, 8) == h.version && Read32(b, 12) == h.kernelSize && Read32(b, 16) == h.ramdiskSize &&
            Read32(b, 20) == h.osVersion
  {
    hide Words, Read32, Write32;
    var ws := NewWords(h);
    HoldsSplit(b, 0, EncodeNew(h), MAGIC, Words(ws) + Zeros(V3_SIZE - 28), 8);
    HoldsParts(b, 8, Words(ws), Zeros(V3_SIZE - 28));
    WordsRead(b, 8, ws, 0);
    WordsRead(b, 8, ws, 1);
    WordsRead(b, 8, ws, 2);
    WordsRead(b, 8, ws, 3);
  }

  lemma OldParts(h: Header, b: Bytes)
    requires Holds(b, 0, EncodeOld(h))
    ensures Holds(b, 0, MAGIC) && Holds(b, 8, Words(OldWords(h)))
    ensures Holds(b, 48, Fixed(h.name, NAME_SIZE)) && Holds(b, 64, Fixed(h.cmdline, ARGS_SIZE))
    ensures Holds(b, 576, h.id) && Holds(b, 608, Fixed(h.extraCmdline, EXTRA_ARGS_SIZE)) && Holds(b, 1632, Extension(h))
  {
    hide Words, Fixed, Extension, Holds;
    var e := Extension(h);
    var extra := Fixed(h.extraCmdline, EXTRA_ARGS_SIZE) + e;
    var id := h.id + extra;
    var cmdline := Fixed(h.cmdline, ARGS_SIZE) + id;
    var name := Fixed(h.name, NAME_SIZE) + cmdline;
    HoldsSplit(b, 0, EncodeOld(h), MAGIC, Words(OldWords(h)) + name, 8);
    HoldsParts(b, 8, Words(OldWords(h)), name);
    HoldsParts(b, 48, Fixed(h.name, NAME_SIZE), cmdline);
    HoldsParts(b, 64, Fixed(h.cmdline, ARGS_SIZE), id);
    HoldsParts(b, 576, h.id, extra);
    HoldsParts(b, 608, Fixed(h.extraCmdline, EXTRA_ARGS_SIZE), e);
  }

  lemma ExtensionFields(h: Header, b: Bytes)
    requires 1 <= h.version <= 2 && Holds(b, 1632, Extension(h))
    ensures |b| >= V1_SIZE && Read32(b, 1632) == h.recoveryDtboSize && Read64(b, 1636) == h.recoveryDtboOffset &&
            Read32(b, 1644) == h.bootHeaderSize
    ensures h.version == 2 ==> |b| >= V2_SIZE && Read32(b, 1648) == h.dtbSize && Read64(b, 1652) == h.dtbAddr
  {
    hide Write32, Read32, Read64, Holds;
    var dtb := DtbExtension(h);
    HoldsParts(b, 1632, Write32(h.recoveryDtboSize), Write64(h.recoveryDtboOffset) + (Write32(h.bootHeaderSize) + dtb));
    HoldsParts(b, 1636, Write64(h.recoveryDtboOffset), Write32(h.bootHeaderSize) + dtb);
    HoldsParts(b, 1644, Write32(h.bootHeaderSize), dtb);
    ReadWritten32(b, 1632, h.recoveryDtboSize);
    ReadWritten64(b, 1636, h.recoveryDtboOffset);
    ReadWritten32(b, 1644, h.bootHeaderSize);
    if h.version == 2 {
      HoldsParts(b, 1648, Write32(h.dtbSize), Write64(h.dtbAddr) + Zeros(4));
      HoldsParts(b, 1652, Write64(h.dtbAddr), Zeros(4));
      ReadWritten32(b, 1648, h.dtbSize);
      ReadWritten64(b, 1652, h.dtbAddr);
    }
  }

  lemma OldWordsRead(h: Header, b: Bytes)
    requires Holds(b, 8, Words(OldWords(h)))
    ensures |b| >= 48
    ensures Read32(b, 8) == h.kernelSize && Read32(b, 12) == h.kernelAddr && Read32(b, 16) == h.ramdiskSize &&
            Read32(b, 20) == h.ramdiskAddr
    ensures Read32(b, 24) == h.secondSize && Read32(b, 28) == h.secondAddr && Read32(b, 32) == h.tagsAddr &&
            Read32(b, 36) == h.pageSize
    ensures Read32(b, 40) == h.version && Read32(b, 44) == h.osVersion
  {
    hide Words, Read32, Holds;
    var ws := OldWords(h);
    WordsRead(b, 8, ws, 0);
    WordsRead(b, 8, ws, 1);
    WordsRead(b, 8, ws, 2);
    WordsRead(b, 8, ws, 3);
    WordsRead(b, 8, ws, 4);
    WordsRead(b, 8, ws, 5);
    WordsRead(b, 8, ws, 6);
    WordsRead(b, 8, ws, 7);
    WordsRead(b, 8, ws, 8);
    WordsRead(b, 8, ws, 9);
  }

  lemma OldDecoded(h: Header, b: Bytes)
    requires h.version <= 2 && Holds(b, 0, EncodeOld(h))
    ensures DecodeOld(b, h.version) == Ok(Stored(h)) && Read32(b, 40) == h.version && Read32(b, 8) == h.kernelSize
  {
    hide Words, Fixed, Extension, Read32, Read64, UpToNul, Kept, EncodeOld;
    assert |b| >= HeaderSize(h.version);
    OldParts(h, b);
    OldWordsRead(h, b);
    FixedRoundTrip(b, 48, h.name, NAME_SIZE);
    FixedRoundTrip(b, 64, h.cmdline, ARGS_SIZE);
    FixedRoundTrip(b, 608, h.extraCmdline, EXTRA_ARGS_SIZE);
    assert b[576..608] == h.id;
    if h.version >= 1 {
      ExtensionFields(h, b);
    }
  }

  lemma EncodedHolds(h: Header, rest: Bytes)
    ensures Holds(Encode(h) + rest, 0, Encode(h))
  {
    hide Encode;
  }

  /** Reading a written header gives its stored fields, if and only if a version 0 to 2 header
      does not give 3 or 4 as the kernel's size: that is taken for the version. */
  lemma HeaderRoundTrip(h: Header, rest: Bytes)
    requires h.version <= 4
    ensures var b := Encode(h) + rest;
            Readable(b) && (Decode(b) == Ok(Stored(h)) <==> h.version >= 3 || h.kernelSize !in {3, 4})
  {
    hide EncodeOld, EncodeNew, DecodeOld, Words, Read32;
    var b := Encode(h) + rest;
    EncodedHolds(h, rest);
    if h.version >= 3 {
      NewFields(h, b);
    } else {
      OldDecoded(h, b);
      OldParts(h, b);
    }
    MagicRead(b);
  }

  // ---------- the buffer, written and read step by step ----------

  /** Pushing zeros until the buffer has `size` bytes. */
  method PadTo(b: Bytes, size: nat) returns (buf: Bytes)
    ensures buf == b + Zeros(if |b| < size then size - |b| else 0)
  {
    buf := b;
    assert b + Zeros(0) == b;
    while |buf| < size
      invariant |b| <= |buf| && (|buf| <= size || buf == b) && buf == b + Zeros(|buf| - |b|)
    {
      assert Zeros(|buf| - |b|) + [0] == Zeros(|buf| - |b| + 1);
      buf := buf + [0];
    }
  }

  method WriteWords(b: Bytes, ws: seq<U32>) returns (buf: Bytes)
    ensures buf == b + Words(ws)
  {
    buf := b;
    for i := 0 to |ws|
      invariant buf + Words(ws[i..]) == b + Words(ws)
    {
      var more := Words(ws[i + 1..]);
      assert ws[i..][1..] == ws[i + 1..] && buf + (Write32(ws[i]) + more) == buf + Write32(ws[i]) + more;
      buf := buf + Write32(ws[i]);
    }
    assert ws[|ws|..] == [] && buf + [] == buf;
  }

  method WriteFixed(b: Bytes, s: Bytes, n: nat) returns (buf: Bytes)
    ensures buf == b + Fixed(s, n)
  {
    var copied := if |s| < n then |s| else n;
    buf := b + s[..copied];
    assert s[..copied] == Cut(s, n);
    if copied < n {
      buf := buf + Zeros(n - copied);
    }
    assert b + (Cut(s, n) + Zeros(n - copied)) == b + Cut(s, n) + Zeros(n - copied);
  }

  method EncodeHeader(h: Header) returns (buf: Bytes)
    ensures buf == Encode(h)
  {
    hide Words, Fixed, Write32, Write64;
    buf := MAGIC;
    if h.version <= 2 {
      buf := WriteWords(buf, OldWords(h));
      buf := WriteFixed(buf, h.name, NAME_SIZE);
      buf := WriteFixed(buf, h.cmdline, ARGS_SIZE);
      buf := buf + h.id;
      buf := WriteFixed(buf, h.extraCmdline, EXTRA_ARGS_SIZE);
      buf := EncodeExtension(buf, h);
      OldRegrouped(h);
    } else if h.version <= 4 {
      buf := WriteWords(buf, NewWords(h));
      buf := WriteWords(buf, [0, 0, 0, 0]);
      buf := PadTo(buf, V3_SIZE);
      NewRegrouped(h);
    }
  }

  method EncodeExtension(b: Bytes, h: Header) returns (buf: Bytes)
    requires h.version <= 2 && |b| == V0_SIZE
    ensures buf == b + Extension(h)
  {
    hide Write32, Write64;
    buf := b;
    if h.version >= 1 {
      buf := buf + Write32(h.recoveryDtboSize);
      buf := buf + Write64(h.recoveryDtboOffset);
      buf := buf + Write32(h.bootHeaderSize);
    }
    if h.version >= 2 {
      buf := buf + Write32(h.dtbSize);
      buf := buf + Write64(h.dtbAddr);
    }
    buf := PadTo(buf, HeaderSize(h.version));
    ExtensionRegrouped(b, h);
  }

  lemma ExtensionRegrouped(b: Bytes, h: Header)
    requires h.version <= 2
    ensures h.version == 0 ==> b + Zeros(0) == b + Extension(h)
    ensures h.version == 1 ==>
            b + Write32(h.recoveryDtboSize) + Write64(h.recoveryDtboOffset) + Write32(h.bootHeaderSize) + Zeros(0) ==
            b + Extension(h)
    ensures h.version == 2 ==>
            b + Write32(h.recoveryDtboSize) + Write64(h.recoveryDtboOffset) + Write32(h.bootHeaderSize)
            + Write32(h.dtbSize) + Write64(h.dtbAddr) + Zeros(4) == b + Extension(h)
  {
    hide Write32, Write64, Zeros;
  }

  lemma OldRegrouped(h: Header)
    ensures EncodeOld(h) == MAGIC + Words(OldWords(h)) + Fixed(h.name, NAME_SIZE) + Fixed(h.cmdline, ARGS_SIZE)
                            + h.id + Fixed(h.extraCmdline, EXTRA_ARGS_SIZE) + Extension(h)
  {
    hide Words, Fixed, Extension;
  }

  lemma NewRegrouped(h: Header)
    ensures EncodeNew(h) == MAGIC + Words(NewWords(h)) + Words([0, 0, 0, 0]) + Zeros(V3_SIZE - 44)
  {
    assert Words([0, 0, 0, 0]) == Zeros(16) by {
      assert [0, 0, 0, 0][1..] == [0, 0, 0] && [0, 0, 0][1..] == [0, 0] && [0, 0][1..] == [0] && [0][1..] == [];
    }
    assert Zeros(16) + Zeros(V3_SIZE - 44) == Zeros(V3_SIZE - 28);
  }
}
