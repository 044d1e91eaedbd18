/** Where the bytes of an image stand, in numbers that do not come from the writer. */
module AppBinLayout {
  import opened Bytes
  import opened Crc32
  import opened AppBin
  import opened AppBinImage
  import opened AppBinReader

  /** The eight bytes at `o` are a segment header, and the section follows it with zero bytes. */
  predicate StandsAt(b: seq<byte>, o: nat, addr: nat, data: seq<byte>, unit: nat) {
    var n := |data|;
    && o + 8 + n <= |b|
    && Unpack32(b[o..o + 4]) == addr
    && b[o + 8..o + 8 + n] == data
    && var size := Unpack32(b[o + 4..o + 8]);
      && n <= size < n + unit && (unit != 0 ==> size % unit == 0)
      && o + 8 + size <= |b|
      && b[o + 8 + n..o + 8 + size] == Repeat(0, size - n)
  }

  lemma {:induction false} SegmentStands(pre: seq<byte>, part: Part, checked: bool, post: seq<byte>)
    requires Fits(part, checked) && part.data != []
    ensures StandsAt(pre + Segment(part.addr, part.data, checked) + post, |pre|, part.addr, part.data,
                     if checked then 4 else 16)
  {
    var n, size := |part.data|, Aligned(|part.data|, checked);
    var b := pre + Segment(part.addr, part.data, checked) + post;
    var o := |pre|;
    UnpackPack(part.addr);
    UnpackPack(size);
    AlignedIsNext(n, checked);
    hide Aligned, Pack32, Unpack32;
    assert b[o..o + 4] == Pack32(part.addr);
    assert b[o + 4..o + 8] == Pack32(size);
    assert b[o + 8..o + 8 + n] == part.data;
    assert b[o + 8..o + 8 + size] == Padded(part.data, checked);
    assert b[o + 8 + n..o + 8 + size] == Padded(part.data, checked)[n..];
  }

  /** The size of what precedes the flash header. */
  function PrefixLength(p: Params, irom: nat): nat {
    if p.bootMode != "2" then 0 else if irom == 0 then 8 else 16 + Aligned(irom, false)
  }

  lemma PrefixHasLength(p: Params, s: Sections)
    ensures |Prefix(p, s)| == PrefixLength(p, |s.irom|)
  {
  }

  lemma {:induction false} ImagePieces(p: Params, s: Sections) returns (rest: seq<byte>)
    ensures Image(p, s) == Prefix(p, s) + FlashHeader(p) + Segments(Parts(p, s)) + rest
  {
    hide Segments, Trailer, Checksum, FillSize, Prefix, FlashHeader, Parts;
    var u, c := Unfilled(p, s), CheckedPart(p, s);
    var fill := c[|u|..];
    assert c == u + fill;
    hide CheckedPart, Unfilled;
    var end := Image(p, s)[|c|..];
    assert Image(p, s) == c + end;
    hide Image;
    rest := fill + end;
    assert (u + fill) + end == u + rest;
    assert u == Prefix(p, s) + FlashHeader(p) + Segments(Parts(p, s)) by {
      UnfilledPieces(p, s);
    }
  }

  lemma UnfilledPieces(p: Params, s: Sections)
    ensures Unfilled(p, s) == Prefix(p, s) + FlashHeader(p) + Segments(Parts(p, s))
  {
  }

  /** Segments one behind the other, wherever they start. */
  lemma {:induction false} SegmentsStand(pre: seq<byte>, parts: seq<Part>, post: seq<byte>, k: nat)
    requires k < |parts| && Fitting(parts) && parts[k].data != []
    ensures StandsAt(pre + Segments(parts) + post, |pre| + |Segments(parts[..k])|, parts[k].addr, parts[k].data, 4)
    decreases k
  {
    hide StandsAt, Segment, Fits;
    var part, more := parts[0], parts[1..];
    var x := Segment(part.addr, part.data, true);
    assert parts[k] in parts;
    if k == 0 {
      assert pre + (x + Segments(more)) + post == pre + x + (Segments(more) + post);
      SegmentStands(pre, part, true, Segments(more) + post);
    } else {
      assert pre + (x + Segments(more)) + post == (pre + x) + Segments(more) + post;
      SegmentsStand(pre + x, more, post, k - 1);
      assert parts[..k][1..] == more[..k - 1];
    }
  }

  /** The size of the first `k` segments, from the sizes of the sections. */
  lemma {:induction false} SegmentsHaveLength(parts: seq<Part>)
    ensures |parts| == 1 ==> |Segments(parts)| == SegmentLength(|parts[0].data|)
    ensures |parts| == 2 ==>
      |Segments(parts)| == SegmentLength(|parts[0].data|) + SegmentLength(|parts[1].data|)
  {
    hide Segment, SegmentLength;
    if parts != [] {
      SegmentLengths(parts[0].addr, parts[0].data);
      SegmentsHaveLength(parts[1..]);
    }
  }

  /** Each section that is not empty stands in the file, at an offset that the sizes determine. */
  lemma {:induction false} SectionsStand(p: Params, s: Sections)
    requires Packable(p, s)
    ensures var b := Image(p, s);
      var o1 := PrefixLength(p, |s.irom|) + 8;
      var o2 := o1 + SegmentLength(|s.text|);
      var o3 := o2 + SegmentLength(|s.data|);
      && (s.text != [] ==> StandsAt(b, o1, 0x4010_0000, s.text, 4))
      && (s.data != [] ==> StandsAt(b, o2, p.dataStart, s.data, 4))
      && (s.rodata != [] ==> StandsAt(b, o3, p.rodataStart, s.rodata, 4))
  {
    var parts := Parts(p, s);
    PrefixHasLength(p, s);
    var rest := ImagePieces(p, s);
    var pre := Prefix(p, s) + FlashHeader(p);
    hide Image, Prefix, FlashHeader, StandsAt, Fits, SegmentLength, PrefixLength, Segments;
    assert parts[..1] == [parts[0]] && parts[..2] == [parts[0], parts[1]];
    SegmentsHaveLength([]);
    SegmentsHaveLength(parts[..1]);
    SegmentsHaveLength(parts[..2]);
    assert |Segments(parts[..0])| == 0 by {
      NoSegments(parts);
    }
    if s.text != [] {
      SegmentsStand(pre, parts, rest, 0);
    }
    if s.data != [] {
      SegmentsStand(pre, parts, rest, 1);
    }
    if s.rodata != [] {
      SegmentsStand(pre, parts, rest, 2);
    }
  }

  lemma NoSegments(parts: seq<Part>)
    ensures |Segments(parts[..0])| == 0
  {
  }

  /** In mode 2 the irom section stands behind the first header, at offset 16. */
  lemma {:induction false} IromStands(p: Params, s: Sections)
    requires Packable(p, s) && p.bootMode == "2" && s.irom != []
    ensures StandsAt(Image(p, s), 8, 0, s.irom, 16)
    ensures |Image(p, s)| >= 16 + |s.irom| && Image(p, s)[16..16 + |s.irom|] == s.irom
  {
    var rest := ImagePieces(p, s);
    var b, i := Image(p, s), IromHeader(p);
    hide Image, FlashHeader, Segment, Fits, IromHeader, Unpack32;
    assert b == Prefix(p, s) + b[|Prefix(p, s)|..];
    SegmentStands(i, Part(0, s.irom), false, b[|Prefix(p, s)|..]);
  }

  /** In mode 1 it stands at 0x10000, behind bytes FF, if the checked part leaves room for it. */
  lemma {:induction false} IromAtOffset(p: Params, s: Sections)
    requires p.bootMode == "1"
    ensures var b, n := Image(p, s), CheckedLength(|s.text|, |s.data|, |s.rodata|);
      var o := if n <= 0x1_0000 then 0x1_0000 else n;
      && |b| == o + |s.irom| + 4
      && b[o..o + |s.irom|] == s.irom
      && b[n..o] == Repeat(0xFF, o - n)
  {
    CheckedPartLength(p, s);
    hide CheckedPart, CheckedLength, Trailer;
  }

  // ----- headers, checksum and trailer ----------------------------------------------------------------

  /** Eight header bytes at `o`. */
  predicate HeaderAt(b: seq<byte>, o: nat, magic: int, count: int, b2: int, b3: int, entry: nat) {
    && o + 8 <= |b|
    && b[o] == magic && b[o + 1] == count && b[o + 2] == b2 && b[o + 3] == b3
    && Unpack32(b[o + 4..o + 8]) == entry
  }

  lemma {:induction false} HeaderStands(pre: seq<byte>, m: byte, n: byte, b2: byte, b3: byte, e: word, post: seq<byte>)
    ensures HeaderAt(pre + Header(m, n, b2, b3, e) + post, |pre|, m, n, b2, b3, e)
  {
    hide Pack32, Unpack32;
    UnpackPack(e);
    var b, o := pre + Header(m, n, b2, b3, e) + post, |pre|;
    assert b[o + 4..o + 8] == Pack32(e);
  }

  /** The headers of each mode. */
  lemma {:induction false} HeadersStand(p: Params, s: Sections)
    requires Packable(p, s)
    ensures var b, user := Image(p, s), p.userBin % 256;
      && (p.bootMode == "2" ==> HeaderAt(b, 0, 0xEA, 4, 0, user, p.entry))
      && (p.bootMode == "1" ==> HeaderAt(b, 0, 0xE9, 3, 0, user, p.entry))
      && (p.bootMode != "1" ==>
            HeaderAt(b, PrefixLength(p, |s.irom|), 0xE9, 3, p.flashMode % 256, Byte3(p), p.entry))
  {
    PrefixHasLength(p, s);
    var rest := ImagePieces(p, s);
    var b, a, h := Image(p, s), Prefix(p, s), FlashHeader(p);
    hide Image, Segment, HeaderAt, PrefixLength, Byte3, Header;
    var post := b[|a| + 8..];
    assert b == a + h + post;
    if p.bootMode == "1" {
      HeaderStands(a, BIN_MAGIC_FLASH, 3, 0, App(p), p.entry, post);
    } else {
      HeaderStands(a, BIN_MAGIC_FLASH, 3, Byte2(p), Byte3(p), p.entry, post);
    }
    if p.bootMode == "2" {
      assert b == [] + IromHeader(p) + b[8..];
      HeaderStands([], BIN_MAGIC_IROM, 4, 0, App(p), p.entry, b[8..]);
    }
  }

  /** In modes 1 and 2 the last four bytes are the folded CRC of all bytes before, lowest byte first. */
  lemma {:induction false} TrailerStands(p: Params, s: Sections)
    requires p.bootMode == "1" || p.bootMode == "2"
    ensures var b := Image(p, s);
      var n := |b| - 4;
      n >= 0 &&
      var v, crc := Unpack32(b[n..]), Signed(Crc(b[..n], 0));
      v == if crc < 0 then -crc - 1 else crc + 1
  {
    hide Pack32, Unpack32, Crc, Covered;
    var c := Covered(p, s);
    assert Image(p, s)[..|c|] == c && Image(p, s)[|c|..] == Trailer(c);
    TrailerPreimages(Crc(c, 0), 0);
  }

  lemma SameSection(b: seq<byte>, o: nat, addr: nat, data: seq<byte>, addr': nat, data': seq<byte>, unit: nat)
    requires |data| == |data'|
    requires data != [] ==> StandsAt(b, o, addr, data, unit) && StandsAt(b, o, addr', data', unit)
    ensures data == data' && (data != [] ==> addr == addr')
  {
  }

  lemma SameEntry(b: seq<byte>, o: nat, m: int, n: int, b2: int, b3: int, e: nat, b2': int, b3': int, e': nat)
    requires HeaderAt(b, o, m, n, b2, b3, e) && HeaderAt(b, o, m, n, b2', b3', e')
    ensures b2 == b2' && b3 == b3' && e == e'
  {
  }

  lemma {:induction false} ImageDeterminesIrom(p: Params, s: Sections, p': Params, s': Sections)
    requires Packable(p, s) && Packable(p', s') && p.bootMode == p'.bootMode
    requires |s.irom| == |s'.irom| && |s.text| == |s'.text| && |s.data| == |s'.data| && |s.rodata| == |s'.rodata|
    requires Image(p, s) == Image(p', s')
    ensures p.bootMode == "1" || p.bootMode == "2" ==> s.irom == s'.irom
  {
    hide Image, Packable, StandsAt, CheckedLength;
    if p.bootMode == "1" {
      IromAtOffset(p, s);
      IromAtOffset(p', s');
    } else if p.bootMode == "2" && s.irom != [] {
      IromStands(p, s);
      IromStands(p', s');
    }
  }

  /** Images of the same mode and the same section sizes are equal only when all they hold is. */
  lemma {:induction false} ImageDeterminesSections(p: Params, s: Sections, p': Params, s': Sections)
    requires Packable(p, s) && Packable(p', s') && p.bootMode == p'.bootMode
    requires |s.irom| == |s'.irom| && |s.text| == |s'.text| && |s.data| == |s'.data| && |s.rodata| == |s'.rodata|
    requires Image(p, s) == Image(p', s')
    ensures s.text == s'.text && s.data == s'.data && s.rodata == s'.rodata
    ensures p.bootMode == "1" || p.bootMode == "2" ==> s.irom == s'.irom
    ensures s.data != [] ==> p.dataStart == p'.dataStart
    ensures s.rodata != [] ==> p.rodataStart == p'.rodataStart
  {
    hide Image, Packable, StandsAt, SegmentLength, PrefixLength;
    SectionsStand(p, s);
    SectionsStand(p', s');
    ImageDeterminesIrom(p, s, p', s');
    var b, o1 := Image(p, s), PrefixLength(p, |s.irom|) + 8;
    assert o1 == PrefixLength(p', |s'.irom|) + 8 by {
      SamePrefix(p, p', |s.irom|);
    }
    var o2 := o1 + SegmentLength(|s.text|);
    var o3 := o2 + SegmentLength(|s.data|);
    SameSection(b, o1, 0x4010_0000, s.text, 0x4010_0000, s'.text, 4);
    SameSection(b, o2, p.dataStart, s.data, p'.dataStart, s'.data, 4);
    SameSection(b, o3, p.rodataStart, s.rodata, p'.rodataStart, s'.rodata, 4);
  }

  lemma SamePrefix(p: Params, p': Params, irom: nat)
    requires p.bootMode == p'.bootMode
    ensures PrefixLength(p, irom) == PrefixLength(p', irom)
  {
  }

  /** So are their header bytes. */
  lemma {:induction false} ImageDeterminesHeader(p: Params, s: Sections, p': Params, s': Sections)
    requires Packable(p, s) && Packable(p', s') && p.bootMode == p'.bootMode && |s.irom| == |s'.irom|
    requires Image(p, s) == Image(p', s')
    ensures p.entry == p'.entry
    ensures p.bootMode == "1" || p.bootMode == "2" ==> p.userBin % 256 == p'.userBin % 256
    ensures p.bootMode != "1" ==> p.flashMode % 256 == p'.flashMode % 256 && Byte3(p) == Byte3(p')
  {
    hide Image, Packable, HeaderAt, PrefixLength, Byte3;
    HeadersStand(p, s);
    HeadersStand(p', s');
    SamePrefix(p, p', |s.irom|);
    var b, o := Image(p, s), PrefixLength(p, |s.irom|);
    var user, user' := p.userBin % 256, p'.userBin % 256;
    if p.bootMode == "1" {
      SameEntry(b, 0, 0xE9, 3, 0, user, p.entry, 0, user', p'.entry);
    } else {
      SameEntry(b, o, 0xE9, 3, p.flashMode % 256, Byte3(p), p.entry, p'.flashMode % 256, Byte3(p'), p'.entry);
      if p.bootMode == "2" {
        SameEntry(b, 0, 0xEA, 4, 0, user, p.entry, 0, user', p'.entry);
      }
    }
  }

  // ----- instances --------------------------------------------------------------------------------------

  /** The payload byte 1 alone changes the checksum 0xEF into 0xEE. */
  lemma {:induction false} ChecksumOfOne()
    ensures Checksum(Sections([], [1], [], [])) == 0xEE
  {
    hide Xor, Fold;
    assert [1] + [] + [] == [1];
    FoldFromZero(0xEF, [1]);
    FoldIsXor(0, 0, [1]);
    assert Xor(0xEF, 1) == 0xEE by {
      XorHalf(0xEF, 1);
      XorZero(0x77);
    }
  }

  const SAMPLE := Params("0", 2, 15, 4, 1, 0x4010_0004, 0x3FFE_8000, 0x3FFE_8010)

  const SAMPLE_SECTIONS := Sections([9], [1], [2], [4])

  lemma {:induction false} SegmentOfOne(addr: word, x: byte)
    ensures Segment(addr, [x], true) == Pack32(addr) + [4, 0, 0, 0, x, 0, 0, 0]
  {
    assert Aligned(1, true) == 4;
    assert Pack32(4) == [4, 0, 0, 0];
    hide Pack32;
    assert Padded([x], true) == [x, 0, 0, 0];
  }

  lemma {:induction false} SampleChecksum()
    ensures Checksum(SAMPLE_SECTIONS) == 0xE8
  {
    hide Fold, Xor;
    assert [1] + [2] + [4] == [1, 2, 4];
    FoldAppend(0xEF, [1] + [2], [4]);
    FoldAppend(0xEF, [1], [2]);
    ChecksumOfOne();
    assert [1] + [] + [] == [1];
    FoldFromZero(0xEE, [2]);
    FoldIsXor(0, 0, [2]);
    FoldFromZero(0xEC, [4]);
    SampleXors();
  }

  lemma {:induction false} SampleXors()
    ensures Xor(0xEE, 2) == 0xEC && Xor(0xEC, 4) == 0xE8
  {
    hide Xor;
    XorHalf(0xEE, 2);
    XorHalf(0x77, 1);
    XorHalf(0xEC, 4);
    XorHalf(0x76, 2);
    XorHalf(0x3B, 1);
    XorZero(0x3B);
    XorZero(0x1D);
  }

  lemma SamplePacks()
    ensures Pack32(0x4010_0000) == [0, 0, 0x10, 0x40] && Pack32(0x4010_0004) == [4, 0, 0x10, 0x40]
    ensures Pack32(0x3FFE_8000) == [0, 0x80, 0xFE, 0x3F] && Pack32(0x3FFE_8010) == [0x10, 0x80, 0xFE, 0x3F]
  {
  }

  lemma {:induction false} SampleHeader()
    ensures Prefix(SAMPLE, SAMPLE_SECTIONS) == []
    ensures FlashHeader(SAMPLE) == [0xE9, 3, 2, 0x4F, 4, 0, 0x10, 0x40]
  {
    hide Or, Pack32;
    SamplePacks();
    OrDisjoint(4, 15);
    assert [0xE9, 3, 2, 0x4F] + [4, 0, 0x10, 0x40] == [0xE9, 3, 2, 0x4F, 4, 0, 0x10, 0x40];
  }

  lemma {:induction false} SampleBody()
    ensures Prefix(SAMPLE, SAMPLE_SECTIONS) + FlashHeader(SAMPLE) + Segments(Parts(SAMPLE, SAMPLE_SECTIONS)) ==
      [0xE9, 3, 2, 0x4F, 4, 0, 0x10, 0x40]
      + [0, 0, 0x10, 0x40, 4, 0, 0, 0, 1, 0, 0, 0]
      + [0, 0x80, 0xFE, 0x3F, 4, 0, 0, 0, 2, 0, 0, 0]
      + [0x10, 0x80, 0xFE, 0x3F, 4, 0, 0, 0, 4, 0, 0, 0]
  {
    hide Segment, Segments, Pack32, Prefix, FlashHeader;
    SampleHeader();
    SamplePacks();
    Segments3(Part(0x4010_0000, [1]), Part(0x3FFE_8000, [2]), Part(0x3FFE_8010, [4]));
    SegmentOfOne(0x4010_0000, 1);
    SegmentOfOne(0x3FFE_8000, 2);
    SegmentOfOne(0x3FFE_8010, 4);
  }

  /** A whole mode 0 image. */
  lemma {:induction false} SampleImage()
    ensures Image(SAMPLE, SAMPLE_SECTIONS) ==
      [0xE9, 3, 2, 0x4F, 4, 0, 0x10, 0x40]
      + [0, 0, 0x10, 0x40, 4, 0, 0, 0, 1, 0, 0, 0]
      + [0, 0x80, 0xFE, 0x3F, 4, 0, 0, 0, 2, 0, 0, 0]
      + [0x10, 0x80, 0xFE, 0x3F, 4, 0, 0, 0, 4, 0, 0, 0]
      + [0, 0, 0, 0xE8]
  {
    SampleBody();
    SampleChecksum();
    hide Prefix, FlashHeader, Segments, Parts, Checksum;
    assert Repeat(0, FillSize(44)) == [0, 0, 0];
  }
}
