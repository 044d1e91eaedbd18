/** A reader of firmware images, and the proof that it inverts the writer. */
module AppBinReader {
  import opened Bytes
  import opened Optional
  import opened AppBin
  import opened AppBinImage

  /** A segment as it is found in an image. */
  datatype Seg = Seg(addr: word, bytes: seq<byte>)

  /** The part that starts with the flash header. */
  datatype Flash = Flash(b2: byte, b3: byte, entry: word, segs: seq<Seg>)

  /** The header that precedes the irom segment in boot mode 2. */
  datatype IromHead = IromHead(app: byte, entry: word)

  datatype Contents = Contents(head: Option<IromHead>, irom: Option<seq<byte>>, flash: Flash)

  // ----- reading ---------------------------------------------------------------------------

  function ReadSegment(b: seq<byte>): (r: Option<(Seg, seq<byte>)>)
    ensures r.Some? ==> |b| >= 8 && |r.value.1| < |b|
  {
    if |b| < 8 then None else
      var addr, size := Unpack32(b[..4]), Unpack32(b[4..8]);
      if size == 0 || size > |b| - 8 then None
      else Some((Seg(addr, b[8..8 + size]), b[8 + size..]))
  }

  function ReadSegments(n: nat, b: seq<byte>): (r: Option<(seq<Seg>, seq<byte>)>)
    ensures r.Some? ==> |r.value.1| <= |b|
  {
    if n == 0 then Some(([], b)) else
      var (seg, rest) :- ReadSegment(b);
      var (segs, rest') :- ReadSegments(n - 1, rest);
      Some(([seg] + segs, rest'))
  }

  function FoldSegs(c: byte, segs: seq<Seg>): byte
    decreases |segs|
  {
    if segs == [] then c else FoldSegs(Fold(c, segs[0].bytes), segs[1..])
  }

  /** Reads a flash part that starts at offset `pos` of its file, up to and including the checksum. */
  function ReadFlash(b: seq<byte>, pos: nat): Option<(Flash, seq<byte>)> {
    if |b| < 8 || b[0] != BIN_MAGIC_FLASH then None else
      var (segs, rest) :- ReadSegments(b[1], b[8..]);
      var fill := 15 - (pos + |b| - |rest|) % 16;
      if |rest| <= fill || rest[..fill] != Repeat(0, fill) || rest[fill] != FoldSegs(CHECKSUM_INIT, segs)
      then None
      else Some((Flash(b[2], b[3], Unpack32(b[4..8]), segs), rest[fill + 1..]))
  }

  /** The file without its CRC bytes, if they are right. */
  function StripTrailer(file: seq<byte>): Option<seq<byte>> {
    if |file| < 4 || file[|file| - 4..] != Trailer(file[..|file| - 4]) then None
    else Some(file[..|file| - 4])
  }

  function ReadMode1(b: seq<byte>): Option<Contents> {
    if |b| < IROM_OFFSET then None else
      var (flash, rest) :- ReadFlash(b[..IROM_OFFSET], 0);
      if rest != Repeat(0xFF, |rest|) then None
      else Some(Contents(None, Some(b[IROM_OFFSET..]), flash))
  }

  function ReadMode2(b: seq<byte>): Option<Contents> {
    if |b| < 8 || b[0] != BIN_MAGIC_IROM || b[1] != 4 || b[2] != 0 then None else
      var (seg, rest) :- ReadSegment(b[8..]);
      var (flash, rest') :- ReadFlash(rest, |b| - |rest|);
      if seg.addr != 0 || rest' != [] then None
      else Some(Contents(Some(IromHead(b[3], Unpack32(b[4..8]))), Some(seg.bytes), flash))
  }

  function ReadImage(bootMode: string, file: seq<byte>): Option<Contents> {
    if bootMode == "1" then
      var b :- StripTrailer(file);
      ReadMode1(b)
    else if bootMode == "2" then
      var b :- StripTrailer(file);
      ReadMode2(b)
    else
      var (flash, rest) :- ReadFlash(file, 0);
      if rest != [] then None else Some(Contents(None, None, flash))
  }

  // ----- what should come back ----------------------------------------------------------------

  predicate Fitting(parts: seq<Part>) {
    forall part <- parts :: Fits(part, true)
  }

  function SegOf(part: Part): Seg
    requires Fits(part, true) && part.data != []
  {
    Seg(part.addr, Padded(part.data, true))
  }

  /** The segments of the sections that are not empty. */
  function SegsOf(parts: seq<Part>): seq<Seg>
    requires Fitting(parts)
  {
    if parts == [] then []
    else (if parts[0].data == [] then [] else [SegOf(parts[0])]) + SegsOf(parts[1..])
  }

  function Expected(p: Params, s: Sections): Contents
    requires Packable(p, s)
  {
    var flash := if p.bootMode == "1" then Flash(0, App(p), p.entry, SegsOf(Parts(p, s)))
                 else Flash(Byte2(p), Byte3(p), p.entry, SegsOf(Parts(p, s)));
    if p.bootMode == "1" then Contents(None, Some(s.irom), flash)
    else if p.bootMode == "2" then
      Contents(Some(IromHead(App(p), p.entry)), Some(Padded(s.irom, false)), flash)
    else Contents(None, None, flash)
  }

  /** The size of a checked segment with its header: nothing for an empty section. */
  function SegmentLength(n: nat): nat {
    if n == 0 then 0 else 8 + Aligned(n, true)
  }

  /** The size of the checked part of a mode 1 image, from the sizes of the sections alone. */
  function CheckedLength(text: nat, data: nat, rodata: nat): nat {
    var n := 8 + SegmentLength(text) + SegmentLength(data) + SegmentLength(rodata);
    n + FillSize(n) + 1
  }

  /** When an image can be read back: a condition on the sizes of the sections. */
  predicate Recoverable(p: Params, s: Sections) {
    && s.text != [] && s.data != [] && s.rodata != []
    && (p.bootMode == "2" ==> s.irom != [])
    && (p.bootMode == "1" ==> CheckedLength(|s.text|, |s.data|, |s.rodata|) <= IROM_OFFSET)
  }

  // ----- segments come back -------------------------------------------------------------------

  lemma {:induction false} ReadOneSegment(part: Part, checked: bool, tail: seq<byte>)
    requires Fits(part, checked) && part.data != []
    ensures ReadSegment(Segment(part.addr, part.data, checked) + tail)
         == Some((Seg(part.addr, Padded(part.data, checked)), tail))
  {
    var n := Aligned(|part.data|, checked);
    AlignedIsNext(|part.data|, checked);
    hide Aligned, Padded, Unpack32, Pack32;
    UnpackPack(part.addr);
    UnpackPack(n);
    var b := Segment(part.addr, part.data, checked) + tail;
    assert b[..4] == Pack32(part.addr);
    assert b[4..8] == Pack32(n);
    assert b[8..8 + n] == Padded(part.data, checked);
    assert b[8 + n..] == tail;
  }

  /**
   * Segments are read back one by one; asking for more than were written fails when what follows
   * them does not look like a segment.
   */
  lemma {:induction false} ReadAllSegments(n: nat, parts: seq<Part>, tail: seq<byte>)
    requires Fitting(parts)
    requires n == Count(parts) || (n > Count(parts) && ReadSegment(tail).None?)
    ensures ReadSegments(n, Segments(parts) + tail)
         == if n == Count(parts) then Some((SegsOf(parts), tail)) else None
    decreases |parts|
  {
    hide Segment, ReadSegment, Fits;
    if parts == [] {
      assert Segments(parts) + tail == tail;
    } else {
      var part, more := parts[0], parts[1..];
      assert Fits(part, true);
      if part.data == [] {
        EmptySegment(part);
        assert Segments(parts) + tail == Segments(more) + tail;
        assert SegsOf(parts) == SegsOf(more);
        ReadAllSegments(n, more, tail);
      } else {
        ReadOneSegment(part, true, Segments(more) + tail);
        assert Segments(parts) + tail == Segment(part.addr, part.data, true) + (Segments(more) + tail);
        ReadAllSegments(n - 1, more, tail);
      }
    }
  }

  lemma EmptySegment(part: Part)
    requires part.data == []
    ensures Segment(part.addr, part.data, true) == []
  {
  }

  /** The fill and the checksum are not mistaken for a further segment. */
  lemma {:induction false} FillIsNoSegment(fill: nat, chk: byte, tail: seq<byte>)
    requires fill in {3, 7, 11, 15}
    requires tail == Repeat(0xFF, |tail|) && |tail| <= IROM_OFFSET
    ensures ReadSegment(Repeat(0, fill) + [chk] + tail).None?
  {
    var b := Repeat(0, fill) + [chk] + tail;
    if |b| >= 8 {
      var w := b[4..8];
      if fill == 3 {
        assert w == [0xFF, 0xFF, 0xFF, 0xFF];
      } else if fill == 7 {
        assert w == [0, 0, 0, chk];
      } else {
        assert w == [0, 0, 0, 0];
      }
    }
  }

  // ----- the checksum agrees -----------------------------------------------------------------

  /** A reader that sums over the padded segments finds the checksum of the payload. */
  lemma {:induction false} PaddedChecksum(c: byte, parts: seq<Part>)
    requires Fitting(parts)
    ensures FoldSegs(c, SegsOf(parts)) == Fold(c, Payload(parts))
    decreases |parts|
  {
    hide Fold, Fits;
    FoldNothing(c);
    if parts != [] {
      var part, more := parts[0], parts[1..];
      assert Fits(part, true);
      var c' := Fold(c, part.data);
      PaddedChecksum(c', more);
      FoldAppend(c, part.data, Payload(more));
      if part.data == [] {
        assert SegsOf(parts) == SegsOf(more);
      } else {
        FoldPadded(c, part.data);
        assert SegsOf(parts)[1..] == SegsOf(more);
      }
    }
  }

  lemma FoldNothing(c: byte)
    ensures Fold(c, []) == c
  {
  }

  lemma {:induction false} FoldPadded(c: byte, data: seq<byte>)
    ensures Fold(c, Padded(data, true)) == Fold(c, data)
  {
    var n := Aligned(|data|, true) - |data|;
    FoldAppend(c, data, Repeat(0, n));
    FoldZeros(Fold(c, data), n);
  }

  // ----- the flash part ----------------------------------------------------------------------

  /** The flash part of an image, at offset `pos`, followed by `tail`. */
  function FlashPart(b2: byte, b3: byte, entry: word, parts: seq<Part>, pos: nat, tail: seq<byte>): seq<byte> {
    Header(BIN_MAGIC_FLASH, 3, b2, b3, entry) + Segments(parts)
      + (Repeat(0, FillSize(pos + 8 + |Segments(parts)|)) + [Fold(CHECKSUM_INIT, Payload(parts))] + tail)
  }

  lemma {:induction false} HeaderFields(magic: byte, count: byte, b2: byte, b3: byte, entry: word, rest: seq<byte>)
    ensures var b := Header(magic, count, b2, b3, entry) + rest;
      && b[0] == magic && b[1] == count && b[2] == b2 && b[3] == b3
      && Unpack32(b[4..8]) == entry
      && b[8..] == rest
  {
    hide Unpack32, Pack32;
    UnpackPack(entry);
    var b := Header(magic, count, b2, b3, entry) + rest;
    assert b[4..8] == Pack32(entry);
  }

  lemma {:induction false} ReadFlashPart(b2: byte, b3: byte, entry: word, parts: seq<Part>, pos: nat, tail: seq<byte>)
    requires |parts| == 3 && Fitting(parts) && pos % 4 == 0
    requires tail == Repeat(0xFF, |tail|) && |tail| <= IROM_OFFSET
    ensures ReadFlash(FlashPart(b2, b3, entry, parts, pos, tail), pos)
         == if Count(parts) == 3 then Some((Flash(b2, b3, entry, SegsOf(parts)), tail)) else None
  {
    hide Header, Segments, Fold, Unpack32, Fits, FillSize, ReadSegments, ReadSegment, Count, SegsOf, Payload, FoldSegs;
    var b := FlashPart(b2, b3, entry, parts, pos, tail);
    var size := pos + 8 + |Segments(parts)|;
    SegmentsSize(parts);
    FillOfWords(size);
    var fill := FillSize(size);
    var chk := Fold(CHECKSUM_INIT, Payload(parts));
    var end := Repeat(0, fill) + [chk] + tail;
    FillIsNoSegment(fill, chk, tail);
    ReadAllSegments(3, parts, end);
    var rest := Segments(parts) + end;
    assert b == Header(BIN_MAGIC_FLASH, 3, b2, b3, entry) + rest;
    HeaderFields(BIN_MAGIC_FLASH, 3, b2, b3, entry, rest);
    if Count(parts) == 3 {
      PaddedChecksum(CHECKSUM_INIT, parts);
      EndFields(fill, chk, tail);
    }
  }

  lemma {:induction false} EndFields(fill: nat, chk: byte, tail: seq<byte>)
    ensures var end := Repeat(0, fill) + [chk] + tail;
      && end[..fill] == Repeat(0, fill) && end[fill] == chk && end[fill + 1..] == tail
  {
    var end := Repeat(0, fill) + [chk] + tail;
    assert end[..fill] == Repeat(0, fill);
    assert end[fill + 1..] == tail;
  }

  lemma {:induction false} StripsTrailer(b: seq<byte>)
    ensures StripTrailer(b + Trailer(b)) == Some(b)
  {
    hide Trailer;
    var file := b + Trailer(b);
    assert file[..|file| - 4] == b;
    assert file[|file| - 4..] == Trailer(b);
  }

  // ----- the round trip ------------------------------------------------------------------------

  lemma {:induction false} CountsAll(p: Params, s: Sections)
    ensures Count(Parts(p, s)) == 3 <==> s.text != [] && s.data != [] && s.rodata != []
    ensures Payload(Parts(p, s)) == s.text + s.data + s.rodata
  {
    var ps := Parts(p, s);
    Count3(ps[0], ps[1], ps[2]);
    Segments3(ps[0], ps[1], ps[2]);
  }

  /** The checked part, cut where the reader starts reading. */
  lemma {:induction false} CheckedPartIsFlashPart(p: Params, s: Sections, tail: seq<byte>)
    requires p.entry < WORD_LIMIT
    ensures var b2 := if p.bootMode == "1" then 0 else Byte2(p);
      var b3 := if p.bootMode == "1" then App(p) else Byte3(p);
      CheckedPart(p, s) + tail
        == Prefix(p, s) + FlashPart(b2, b3, p.entry, Parts(p, s), |Prefix(p, s)|, tail)
  {
    hide Prefix, Header, Segments, Fold, Byte2, Byte3, App, Parts;
    CountsAll(p, s);
    var a, h, g := Prefix(p, s), FlashHeader(p), Segments(Parts(p, s));
    var f, c := Repeat(0, FillSize(|a| + 8 + |g|)), [Checksum(s)];
    assert CheckedPart(p, s) == a + h + g + f + c;
    assert a + h + g + f + c + tail == a + (h + g + (f + c + tail));
  }

  lemma {:induction false} RoundTripMode0(p: Params, s: Sections)
    requires Packable(p, s) && p.bootMode != "1" && p.bootMode != "2"
    ensures ReadImage(p.bootMode, Image(p, s)) == if Recoverable(p, s) then Some(Expected(p, s)) else None
  {
    hide ReadFlash, CheckedPart, Byte2, Byte3, Fits;
    CountsAll(p, s);
    CheckedPartIsFlashPart(p, s, []);
    assert Image(p, s) == CheckedPart(p, s) + [];
    var part := FlashPart(Byte2(p), Byte3(p), p.entry, Parts(p, s), 0, []);
    assert [] + part == part;
    ReadFlashPart(Byte2(p), Byte3(p), p.entry, Parts(p, s), 0, []);
  }

  lemma {:induction false} CheckedPartLength(p: Params, s: Sections)
    requires p.bootMode == "1"
    ensures |CheckedPart(p, s)| == CheckedLength(|s.text|, |s.data|, |s.rodata|)
  {
    hide Header, Checksum, Aligned, FillSize, Segments;
    var ps := Parts(p, s);
    Segments3(ps[0], ps[1], ps[2]);
    SegmentLengths(TEXT_ADDRESS, s.text);
    SegmentLengths(p.dataStart, s.data);
    SegmentLengths(p.rodataStart, s.rodata);
    hide Segment;
  }

  lemma SegmentLengths(addr: nat, data: seq<byte>)
    ensures |Segment(addr, data, true)| == SegmentLength(|data|)
  {
  }

  lemma {:induction false} RoundTripMode1(p: Params, s: Sections)
    requires Packable(p, s) && p.bootMode == "1"
    ensures Recoverable(p, s) ==> ReadImage("1", Image(p, s)) == Some(Expected(p, s))
    ensures !Recoverable(p, s) ==> ReadImage("1", Image(p, s)) != Some(Expected(p, s))
  {
    hide ReadFlash, CheckedPart, Trailer, App, Fits;
    var b, c := Covered(p, s), CheckedPart(p, s);
    CheckedPartLength(p, s);
    hide CheckedLength;
    StripsTrailer(b);
    if |c| <= IROM_OFFSET {
      var fill := Repeat(0xFF, IROM_OFFSET - |c|);
      assert b == (c + fill) + s.irom;
      assert b[..IROM_OFFSET] == c + fill;
      assert b[IROM_OFFSET..] == s.irom;
      CountsAll(p, s);
      CheckedPartIsFlashPart(p, s, fill);
      var part := FlashPart(0, App(p), p.entry, Parts(p, s), 0, fill);
      assert [] + part == part;
      ReadFlashPart(0, App(p), p.entry, Parts(p, s), 0, fill);
    } else {
      assert |b| == |c| + |s.irom|;
    }
  }

  lemma NoIromSegment(rest: seq<byte>)
    requires |rest| >= 8 && rest[0] != 0
    ensures ReadSegment(rest).Some? ==> ReadSegment(rest).value.0.addr != 0
  {
  }

  lemma {:induction false} RoundTripMode2(p: Params, s: Sections)
    requires Packable(p, s) && p.bootMode == "2"
    ensures ReadImage("2", Image(p, s)) == if Recoverable(p, s) then Some(Expected(p, s)) else None
  {
    hide ReadFlash, ReadSegment, CheckedPart, Trailer, Segment, Byte2, Byte3, App, Fits, Header, Segments, Fold;
    var b := Covered(p, s);
    StripsTrailer(b);
    CheckedPartIsFlashPart(p, s, []);
    assert b == b + [];
    var a := Prefix(p, s);
    PrefixSize(p, s);
    var part := FlashPart(Byte2(p), Byte3(p), p.entry, Parts(p, s), |a|, []);
    var seg := Segment(0, s.irom, false);
    assert a + part == IromHeader(p) + (seg + part);
    HeaderFields(BIN_MAGIC_IROM, 4, 0, App(p), p.entry, seg + part);
    if s.irom == [] {
      EmptyIrom();
      assert seg + part == part;
      HeaderFields(BIN_MAGIC_FLASH, 3, Byte2(p), Byte3(p), p.entry, part[8..]);
      assert part == Header(BIN_MAGIC_FLASH, 3, Byte2(p), Byte3(p), p.entry) + part[8..];
      NoIromSegment(part);
    } else {
      ReadOneSegment(Part(0, s.irom), false, part);
      CountsAll(p, s);
      ReadFlashPart(Byte2(p), Byte3(p), p.entry, Parts(p, s), |a|, []);
    }
  }

  lemma EmptyIrom()
    ensures Segment(0, [], false) == []
  {
  }

  /**
   * Reading inverts writing, in every boot mode: exactly when no section that should become a
   * segment is empty and, in mode 1, the checked part ends before the irom offset.
   */
  lemma {:induction false} RoundTrip(p: Params, s: Sections)
    requires Packable(p, s)
    ensures ReadImage(p.bootMode, Image(p, s)) == Some(Expected(p, s)) <==> Recoverable(p, s)
  {
    hide ReadImage, Image, Expected, Recoverable, Packable;
    if p.bootMode == "1" {
      RoundTripMode1(p, s);
    } else if p.bootMode == "2" {
      RoundTripMode2(p, s);
    } else {
      RoundTripMode0(p, s);
    }
  }

  /** Two recoverable images are equal only when their padded contents are. */
  lemma {:induction false} ImageDeterminesContents(p: Params, s: Sections, p': Params, s': Sections)
    requires Packable(p, s) && Packable(p', s') && p.bootMode == p'.bootMode
    requires Recoverable(p, s) && Recoverable(p', s')
    requires Image(p, s) == Image(p', s')
    ensures Expected(p, s) == Expected(p', s')
  {
    hide ReadImage, Image, Expected, Recoverable, Packable;
    RoundTrip(p, s);
    RoundTrip(p', s');
  }

  /**
   * The segment count in the first header is a constant, and `blocks` counts what was written: the
   * two agree exactly when no section that should become a segment is empty.
   */
  lemma {:induction false} HeaderCountIsBlocks(p: Params, s: Sections)
    requires Packable(p, s)
    ensures Image(p, s)[1] == Run(p, s).blocks <==>
      s.text != [] && s.data != [] && s.rodata != [] && (p.bootMode == "2" ==> s.irom != [])
  {
    hide Run, Segments, Trailer, Checksum, Byte2, Byte3, App, Segment, Packable;
    RunWritesImage(p, s);
    CountsAll(p, s);
    var h := if p.bootMode == "2" then IromHeader(p) else FlashHeader(p);
    assert Image(p, s)[..8] == h;
    assert Image(p, s)[1] == h[1];
  }

  /** With an empty data section the reader no longer gets back what was written. */
  lemma {:induction false} EmptyDataIsLost()
    ensures var p := Params("0", 0, 0, 0, 0, 0, 0, 0);
      var s := Sections([], [1], [], [2]);
      Packable(p, s) && ReadImage(p.bootMode, Image(p, s)) != Some(Expected(p, s))
  {
    hide ReadImage, Image, Expected;
    var p := Params("0", 0, 0, 0, 0, 0, 0, 0);
    var s := Sections([], [1], [], [2]);
    RoundTrip(p, s);
  }

  /** With an empty irom section a mode 2 image is not read back, and does not contain the mode 0 image. */
  lemma {:induction false} EmptyIromIsLost()
    ensures var p := Params("2", 0, 0, 0, 0, 0, 0, 0);
      var s := Sections([], [1], [2], [3]);
      && Packable(p, s)
      && ReadImage(p.bootMode, Image(p, s)) != Some(Expected(p, s))
      && Image(p, s) != Prefix(p, s) + Image(AsMode0(p), s) + Trailer(Covered(p, s))
  {
    hide ReadImage, Image, Expected, Prefix, Trailer;
    var p := Params("2", 0, 0, 0, 0, 0, 0, 0);
    var s := Sections([], [1], [2], [3]);
    RoundTrip(p, s);
    Mode2ContainsMode0(p, s);
  }

  /** With 0x10000 bytes of text the irom section of a mode 1 image is not found at its offset. */
  lemma {:induction false} LongTextDisplacesIrom()
    ensures var p := Params("1", 0, 0, 0, 0, 0, 0, 0);
      var s := Sections([9], Repeat(1, 0x1_0000), [2], [3]);
      Packable(p, s) && ReadImage(p.bootMode, Image(p, s)) != Some(Expected(p, s))
  {
    hide ReadImage, Image, Expected;
    var p := Params("1", 0, 0, 0, 0, 0, 0, 0);
    var s := Sections([9], Repeat(1, 0x1_0000), [2], [3]);
    RoundTrip(p, s);
  }
}
