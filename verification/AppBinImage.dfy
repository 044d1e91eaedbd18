/** What `gen_appbin` writes, as one expression for each boot mode, and how its rows line up. */
module AppBinImage {
  import opened Bytes
  import opened Crc32
  import opened AppBin

  /** A section and the address it is loaded at. */
  datatype Part = Part(addr: nat, data: seq<byte>)

  /** The checked sections in the order they are written. */
  function Parts(p: Params, s: Sections): seq<Part> {
    [Part(TEXT_ADDRESS, s.text), Part(p.dataStart, s.data), Part(p.rodataStart, s.rodata)]
  }

  function Segments(parts: seq<Part>): seq<byte> {
    if parts == [] then []
    else Segment(parts[0].addr, parts[0].data, true) + Segments(parts[1..])
  }

  /** All payload bytes, without headers and padding. */
  function Payload(parts: seq<Part>): seq<byte> {
    if parts == [] then [] else parts[0].data + Payload(parts[1..])
  }

  /** How many sections are not empty. */
  function Count(parts: seq<Part>): (n: nat)
    ensures n <= |parts|
  {
    if parts == [] then 0 else (if parts[0].data == [] then 0 else 1) + Count(parts[1..])
  }

  predicate Fits(part: Part, checked: bool) {
    part.data == [] || (part.addr < WORD_LIMIT && Aligned(|part.data|, checked) < WORD_LIMIT)
  }

  /** Every number that is packed fits in 32 bits. */
  predicate Packable(p: Params, s: Sections) {
    && p.entry < WORD_LIMIT
    && (p.bootMode == "2" ==> Fits(Part(0, s.irom), false))
    && (forall part <- Parts(p, s) :: Fits(part, true))
  }

  function FlashHeader(p: Params): (r: seq<byte>)
    ensures |r| == 8
  {
    if p.bootMode == "1" then Header(BIN_MAGIC_FLASH, 3, 0, App(p), p.entry)
    else Header(BIN_MAGIC_FLASH, 3, Byte2(p), Byte3(p), p.entry)
  }

  function IromHeader(p: Params): (r: seq<byte>)
    ensures |r| == 8
  {
    Header(BIN_MAGIC_IROM, 4, 0, App(p), p.entry)
  }

  /** What precedes the flash header. */
  function Prefix(p: Params, s: Sections): seq<byte> {
    if p.bootMode == "2" then IromHeader(p) + Segment(0, s.irom, false) else []
  }

  function Unfilled(p: Params, s: Sections): seq<byte> {
    Prefix(p, s) + FlashHeader(p) + Segments(Parts(p, s))
  }

  function Checksum(s: Sections): byte {
    Fold(CHECKSUM_INIT, s.text + s.data + s.rodata)
  }

  /** The file up to and including the checksum. */
  function CheckedPart(p: Params, s: Sections): seq<byte> {
    Unfilled(p, s) + Repeat(0, FillSize(|Unfilled(p, s)|)) + [Checksum(s)]
  }

  function IromFill(size: nat): nat {
    if size <= IROM_OFFSET then IROM_OFFSET - size else 0
  }

  /** Everything the CRC covers. */
  function Covered(p: Params, s: Sections): seq<byte> {
    if p.bootMode == "1" then CheckedPart(p, s) + Repeat(0xFF, IromFill(|CheckedPart(p, s)|)) + s.irom
    else CheckedPart(p, s)
  }

  predicate HasTrailer(p: Params) {
    p.bootMode == "1" || p.bootMode == "2"
  }

  function Image(p: Params, s: Sections): seq<byte> {
    Covered(p, s) + if HasTrailer(p) then Trailer(Covered(p, s)) else []
  }

  // ----- the script writes the image ------------------------------------------------------

  lemma {:induction false} Segments3(a: Part, b: Part, c: Part)
    ensures Segments([a, b, c])
         == Segment(a.addr, a.data, true) + Segment(b.addr, b.data, true) + Segment(c.addr, c.data, true)
    ensures Payload([a, b, c]) == a.data + b.data + c.data
  {
    hide Segment;
    var x, y, z := Segment(a.addr, a.data, true), Segment(b.addr, b.data, true), Segment(c.addr, c.data, true);
    assert [a, b, c][1..] == [b, c] && [b, c][1..] == [c] && [c][1..] == [];
    assert Segments([c]) == z + [];
    assert Segments([b, c]) == y + z;
    assert Payload([c]) == c.data + [];
    assert Payload([b, c]) == b.data + c.data;
    assert x + (y + z) == x + y + z;
  }

  lemma {:induction false} Count3(a: Part, b: Part, c: Part)
    ensures Count([a, b, c]) == (if a.data == [] then 0 else 1) + (if b.data == [] then 0 else 1)
                              + (if c.data == [] then 0 else 1)
  {
    assert [a, b, c][1..] == [b, c] && [b, c][1..] == [c] && [c][1..] == [];
    assert Count([c]) == if c.data == [] then 0 else 1;
  }

  /** `combine_bin` in the terms of the closed form. */
  lemma CombineEffect(o: Output, part: Part, checked: bool)
    requires o.running
    ensures var r := Combine(o, part.data, part.addr, checked);
      && (r.running <==> Fits(part, checked))
      && (r.running ==>
            && r.file == o.file + Segment(part.addr, part.data, checked)
            && r.chkSum == (if checked then Fold(o.chkSum, part.data) else o.chkSum)
            && r.blocks == o.blocks + if part.data == [] then 0 else 1)
  {
  }

  lemma {:induction false} BodyEffect(o: Output, p: Params, s: Sections)
    requires o.running && o.chkSum == CHECKSUM_INIT
    ensures var r := WriteBody(o, p, s);
      && (r.running <==> p.entry < WORD_LIMIT && forall part <- Parts(p, s) :: Fits(part, true))
      && (r.running ==>
            && r.file == o.file + FlashHeader(p) + Segments(Parts(p, s))
            && r.chkSum == Checksum(s)
            && r.blocks == o.blocks + Count(Parts(p, s)))
  {
    hide Combine, Fits, Segment, Header, Byte2, Byte3, App, Fold, Segments, Count, Payload;
    var ps := Parts(p, s);
    var a, b, c := ps[0], ps[1], ps[2];
    var o1 := if p.bootMode == "1" then WriteHeader(o, BIN_MAGIC_FLASH, 3, 0, App(p), p.entry)
              else WriteHeader(o, BIN_MAGIC_FLASH, 3, Byte2(p), Byte3(p), p.entry);
    var o2 := Combine(o1, s.text, TEXT_ADDRESS, true);
    var o3 := Combine(o2, s.data, p.dataStart, true);
    StoppedChain(o1, o2, o3, p, s);
    if o1.running {
      CombineEffect(o1, a, true);
      if o2.running {
        CombineEffect(o2, b, true);
        if o3.running {
          CombineEffect(o3, c, true);
          Segments3(a, b, c);
          Count3(a, b, c);
          FoldAppend(CHECKSUM_INIT, s.text, s.data);
          FoldAppend(CHECKSUM_INIT, s.text + s.data, s.rodata);
          SevenPieces(o.file, FlashHeader(p), Segment(a.addr, a.data, true), Segment(b.addr, b.data, true),
                      Segment(c.addr, c.data, true));
        }
      }
    }
  }

  lemma SevenPieces(f: seq<byte>, h: seq<byte>, x: seq<byte>, y: seq<byte>, z: seq<byte>)
    ensures f + h + x + y + z == f + h + (x + y + z)
  {
  }

  lemma StoppedChain(o1: Output, o2: Output, o3: Output, p: Params, s: Sections)
    ensures !o1.running ==> !Combine(o1, s.text, TEXT_ADDRESS, true).running
    ensures !o2.running ==> !Combine(o2, s.data, p.dataStart, true).running
    ensures !o3.running ==> !Combine(o3, s.rodata, p.rodataStart, true).running
  {
  }

  lemma {:induction false} IromEffect(p: Params, s: Sections)
    ensures var r := RunIromPart(p, s);
      && r.chkSum == CHECKSUM_INIT
      && (p.bootMode != "2" ==> r == START)
      && (r.running <==> (p.bootMode == "2" ==> p.entry < WORD_LIMIT && Fits(Part(0, s.irom), false)))
      && (r.running ==>
            && r.file == Prefix(p, s)
            && r.blocks == if p.bootMode == "2" && s.irom != [] then 1 else 0)
  {
    hide Fits, Segment, Header, App;
    if p.bootMode == "2" {
      var o := WriteHeader(START, BIN_MAGIC_IROM, 4, 0, App(p), p.entry);
      if o.running {
        assert o.file == IromHeader(p);
        CombineEffect(o, Part(0, s.irom), false);
      }
    }
  }

  /**
   * The script runs to its end exactly when every packed number fits in 32 bits, and then the file
   * is the image; `blocks` counts the segments that were really written.
   */
  lemma {:induction false} RunWritesImage(p: Params, s: Sections)
    ensures Run(p, s).running <==> Packable(p, s)
    ensures Packable(p, s) ==> Run(p, s).file == Image(p, s)
    ensures Packable(p, s) ==> Run(p, s).chkSum == Checksum(s)
    ensures Packable(p, s) ==>
      Run(p, s).blocks == Count(Parts(p, s)) + if p.bootMode == "2" && s.irom != [] then 1 else 0
  {
    hide RunIromPart, WriteBody, Fits, Prefix, FlashHeader, Parts, Segments, Count, Trailer, Checksum;
    IromEffect(p, s);
    var o1 := RunIromPart(p, s);
    if o1.running {
      BodyEffect(o1, p, s);
    } else {
      StoppedRun(p, s);
    }
  }

  /** A stop leaves the file as it was before the part whose number does not fit. */
  lemma StopKeepsFile(o: Output, part: Part, checked: bool)
    requires o.running && !Fits(part, checked)
    ensures Combine(o, part.data, part.addr, checked) == o.(running := false)
  {
  }

  /** What is in the file when the script stops in the flash part. */
  ghost predicate StopsIn(file: seq<byte>, start: seq<byte>, parts: seq<Part>) {
    exists k :: 0 <= k < |parts| && !Fits(parts[k], true) && (forall part <- parts[..k] :: Fits(part, true))
      && file == start + Segments(parts[..k])
  }

  lemma {:induction false} BodyStops(o: Output, p: Params, s: Sections)
    requires o.running && p.entry < WORD_LIMIT && exists part <- Parts(p, s) :: !Fits(part, true)
    ensures StopsIn(WriteBody(o, p, s).file, o.file + FlashHeader(p), Parts(p, s))
    ensures !WriteBody(o, p, s).running
  {
    hide Fits, Segment, Header, Byte2, Byte3, App, Fold;
    var ps := Parts(p, s);
    var a, b, c := ps[0], ps[1], ps[2];
    var start := o.file + FlashHeader(p);
    var o1 := o.(file := start);
    var o2 := Combine(o1, s.text, TEXT_ADDRESS, true);
    var o3 := Combine(o2, s.data, p.dataStart, true);
    Segments012(a, b, c);
    hide Segments;
    if !Fits(a, true) {
      StopKeepsFile(o1, a, true);
      assert start + Segments(ps[..0]) == start;
    } else if !Fits(b, true) {
      CombineEffect(o1, a, true);
      StopKeepsFile(o2, b, true);
      assert start + Segments(ps[..1]) == o2.file;
    } else {
      CombineEffect(o1, a, true);
      CombineEffect(o2, b, true);
      StopKeepsFile(o3, c, true);
      assert start + Segments(ps[..2]) == o3.file;
    }
  }

  lemma {:induction false} Segments012(a: Part, b: Part, c: Part)
    ensures var ps := [a, b, c];
      && ps[..0] == [] && ps[..1] == [a] && ps[..2] == [a, b]
      && Segments([]) == [] && Segments([a]) == Segment(a.addr, a.data, true)
      && Segments([a, b]) == Segment(a.addr, a.data, true) + Segment(b.addr, b.data, true)
  {
    hide Segment;
    assert [a, b, c][..1] == [a] && [a, b, c][..2] == [a, b];
    assert [a][1..] == [] && [a, b][1..] == [b] && [b][1..] == [];
    assert Segments([b]) == Segment(b.addr, b.data, true) + [];
    assert Segments([a]) == Segment(a.addr, a.data, true) + [];
  }

  /**
   * A script that stops has written nothing if the entry address does not fit; only the first header
   * if the irom segment of mode 2 does not; else everything up to the first section that does not.
   */
  lemma {:induction false} StoppedFile(p: Params, s: Sections)
    requires !Packable(p, s)
    ensures p.entry >= WORD_LIMIT ==> Run(p, s).file == []
    ensures p.entry < WORD_LIMIT && p.bootMode == "2" && !Fits(Part(0, s.irom), false) ==>
      Run(p, s).file == IromHeader(p)
    ensures p.entry < WORD_LIMIT && (p.bootMode == "2" ==> Fits(Part(0, s.irom), false)) ==>
      StopsIn(Run(p, s).file, Prefix(p, s) + FlashHeader(p), Parts(p, s))
  {
    hide Fits, Parts, StopsIn, Segment, Header, App, FlashHeader, WriteChecksum, WriteIrom, Trailer;
    StoppedRun(p, s);
    IromEffect(p, s);
    if p.entry >= WORD_LIMIT {
      HeaderStops(p, s);
    } else if p.bootMode == "2" && !Fits(Part(0, s.irom), false) {
      StopKeepsFile(START.(file := IromHeader(p)), Part(0, s.irom), false);
    } else {
      BodyStops(RunIromPart(p, s), p, s);
    }
  }

  lemma HeaderStops(p: Params, s: Sections)
    requires p.entry >= WORD_LIMIT
    ensures Run(p, s) == START.(running := false)
  {
  }

  // ----- rows -----------------------------------------------------------------------------------

  lemma {:induction false} SegmentSize(addr: nat, data: seq<byte>, checked: bool)
    ensures |Segment(addr, data, checked)| % 4 == 0
    ensures data != [] ==> |Segment(addr, data, checked)| == 8 + Aligned(|data|, checked)
  {
    hide Aligned;
    AlignedToWords(|data|, checked);
  }

  lemma AlignedToWords(n: nat, checked: bool)
    ensures (8 + Aligned(n, checked)) % 4 == 0
  {
  }

  lemma {:induction false} SegmentsSize(parts: seq<Part>)
    ensures |Segments(parts)| % 4 == 0
  {
    hide Segment;
    if parts != [] {
      SegmentSize(parts[0].addr, parts[0].data, true);
      SegmentsSize(parts[1..]);
    }
  }

  /** The mode 2 prefix keeps the row alignment exactly when there is an irom section. */
  lemma {:induction false} PrefixSize(p: Params, s: Sections)
    ensures |Prefix(p, s)| % 4 == 0
    ensures |Prefix(p, s)| % 16 == 0 <==> (p.bootMode == "2" ==> s.irom != [])
    ensures p.bootMode == "2" && s.irom == [] ==> |Prefix(p, s)| == 8
  {
    SegmentSize(0, s.irom, false);
    AlignedIsNext(|s.irom|, false);
  }

  /** Every run fills with 3, 7, 11 or 15 zero bytes, and the checksum ends a 16-byte row. */
  lemma {:induction false} ChecksumEndsRow(p: Params, s: Sections)
    ensures |Unfilled(p, s)| % 4 == 0
    ensures FillSize(|Unfilled(p, s)|) == 15 - |Unfilled(p, s)| % 16
    ensures FillSize(|Unfilled(p, s)|) in {3, 7, 11, 15}
    ensures |CheckedPart(p, s)| % 16 == 0
    ensures var c := CheckedPart(p, s); c[|c| - 1] == Checksum(s)
  {
    hide Prefix, Segments, Checksum;
    PrefixSize(p, s);
    SegmentsSize(Parts(p, s));
    FillOfWords(|Unfilled(p, s)|);
  }

  lemma FillOfWords(n: nat)
    requires n % 4 == 0
    ensures FillSize(n) == 15 - n % 16
    ensures FillSize(n) in {3, 7, 11, 15}
    ensures (n + FillSize(n) + 1) % 16 == 0
  {
  }

  lemma {:induction false} FillModuloRow(a: nat, n: nat)
    requires a % 4 == 0 && n % 4 == 0
    ensures FillSize(a + n) == FillSize(n) <==> a % 16 == 0
  {
    FillOfWords(a + n);
    FillOfWords(n);
    hide FillSize;
    SameRemainder(a, n);
  }

  lemma SameRemainder(a: nat, n: nat)
    ensures (a + n) % 16 == n % 16 <==> a % 16 == 0
  {
  }

  /** The same parameters and sections, written for boot mode 0. */
  function AsMode0(p: Params): Params {
    p.(bootMode := "0")
  }

  /**
   * A mode 2 file is its prefix, then byte for byte the mode 0 file, then the CRC bytes: exactly
   * when the irom section is not empty.
   */
  lemma {:induction false} Mode2ContainsMode0(p: Params, s: Sections)
    requires p.bootMode == "2"
    ensures Image(p, s) == Prefix(p, s) + Image(AsMode0(p), s) + Trailer(Covered(p, s)) <==> s.irom != []
    ensures s.irom != [] ==> |Prefix(p, s)| % 16 == 0
  {
    hide Segments, Checksum, Segment, Header, Trailer, FillSize;
    var a := Prefix(p, s);
    var h, g := FlashHeader(p), Segments(Parts(p, s));
    assert FlashHeader(AsMode0(p)) == h && Parts(AsMode0(p), s) == Parts(p, s);
    PrefixSize(p, s);
    SegmentsSize(Parts(p, s));
    var n := |h + g|;
    FillModuloRow(|a|, n);
    assert |a + h + g| == |a| + n;
    assert Unfilled(AsMode0(p), s) == h + g;
    var c, t := [Checksum(s)], Trailer(Covered(p, s));
    var f2, f0 := Repeat(0, FillSize(|a| + n)), Repeat(0, FillSize(n));
    assert Image(p, s) == a + h + g + f2 + c + t;
    assert Image(AsMode0(p), s) == h + g + f0 + c;
    if s.irom != [] {
      assert a + h + g + f0 + c + t == a + (h + g + f0 + c) + t;
    } else {
      assert |a + h + g + f2 + c + t| != |a + (h + g + f0 + c) + t|;
    }
  }

  // ----- the checksum ---------------------------------------------------------------------------

  /** Changing one payload byte always changes the checksum. */
  lemma {:induction false} ChecksumSeesByte(c: byte, pre: seq<byte>, x: byte, y: byte, post: seq<byte>)
    ensures Fold(c, pre + [x] + post) == Fold(c, pre + [y] + post) <==> x == y
  {
    var d := Fold(c, pre);
    FoldAppend(c, pre + [x], post);
    FoldAppend(c, pre + [y], post);
    FoldAppend(c, pre, [x]);
    FoldAppend(c, pre, [y]);
    ByteXor(d, x);
    ByteXor(d, y);
    assert Fold(d, [x]) == Xor(d, x) && Fold(d, [y]) == Xor(d, y);
    XorCancels(x, y, d);
    if Fold(c, pre + [x] + post) == Fold(c, pre + [y] + post) {
      FoldInjective(Xor(d, x), Xor(d, y), post);
    }
  }

  lemma {:induction false} FoldInjective(c: byte, d: byte, data: seq<byte>)
    requires Fold(c, data) == Fold(d, data)
    ensures c == d
    decreases |data|
  {
    if data != [] {
      ByteXor(c, data[0]);
      ByteXor(d, data[0]);
      FoldInjective(Xor(c, data[0]), Xor(d, data[0]), data[1..]);
      XorCancels(c, d, data[0]);
    }
  }

  // ----- the CRC trailer --------------------------------------------------------------------------

  /** The value that a CRC is folded to. */
  function TrailerValue(u: word): nat {
    FoldCrc(Signed(u))
  }

  /**
   * The folded CRC lies between 0 and 2^31, survives its four bytes, and comes from at most two
   * CRCs: v - 1 and 2^32 - 1 - v.
   */
  lemma {:induction false} TrailerPreimages(u: word, v: nat)
    ensures TrailerValue(u) <= 0x8000_0000
    ensures Unpack32(Pack32(TrailerValue(u))) == TrailerValue(u)
    ensures TrailerValue(u) == v <==>
      v <= 0x8000_0000 && ((v >= 1 && u == v - 1) || (v < 0x8000_0000 && u == WORD_LIMIT - 1 - v))
  {
    UnpackPack(TrailerValue(u));
  }

  /** The trailer of a file, read lowest byte first, is the folded CRC of that file. */
  lemma {:induction false} TrailerBytes(file: seq<byte>)
    ensures var t, crc := Trailer(file), Signed(Crc(file, 0));
      (t[0] as int) + 256 * (t[1] as int) + 65536 * (t[2] as int) + 16777216 * (t[3] as int)
        == if crc < 0 then -crc - 1 else crc + 1
  {
    hide Crc, Pack32;
    TrailerPreimages(Crc(file, 0), 0);
    UnpackPack(TrailerValue(Crc(file, 0)));
  }

  /** Two files have the same trailer exactly when their CRCs are equal or add up to 2^32 - 2. */
  lemma {:induction false} TrailerCollisions(a: seq<byte>, b: seq<byte>)
    ensures Trailer(a) == Trailer(b) <==>
      Crc(a, 0) == Crc(b, 0) || Crc(a, 0) + Crc(b, 0) == WORD_LIMIT - 2
  {
    hide Crc, Pack32;
    var u, w := Crc(a, 0), Crc(b, 0);
    TrailerPreimages(u, TrailerValue(w));
    TrailerPreimages(w, TrailerValue(u));
  }

  // ----- two contents with one trailer ------------------------------------------------------------

  lemma {:induction false} ClearStep(w: nat, b: byte)
    requires 0x100 * w < WORD_LIMIT - b
    ensures Step(0x100 * w + b, b) == w
  {
    hide Step, Shift8, Xor;
    StepIsShift8(0x100 * w + b, b);
    LowByteApart(b, w);
    XorCommutes(b, 0x100 * w);
    XorTwice(0x100 * w, b);
    Shift8High(w);
  }

  lemma {:induction false} XorAllOnes(k: nat, x: nat)
    requires x < Pow2(k)
    ensures Xor(x, Pow2(k) - 1) == Pow2(k) - 1 - x
  {
    hide Xor;
    if k == 0 {
      XorZero(0);
    } else {
      var p := Pow2(k - 1);
      hide Pow2;
      XorAllOnes(k - 1, x / 2);
      XorHalf(x, 2 * p - 1);
    }
  }

  /** The table entry of the byte 0x41. */
  lemma {:induction false} Entry41()
    ensures Shift8(0x41) == 0x1DB_7106
  {
    assert Xor(POLY, 0x20) == 0xEDB8_8300 by {
      assert Pow2(6) == 0x40;
      XorDisjoint(6, 0x20, 0x3B6_E20C);
      XorCommutes(0x20, 0xEDB8_8300);
      XorTwice(0xEDB8_8300, 0x20);
    }
    hide Xor;
    assert Shift(0x41) == 0xEDB8_8300;
    assert Shift(0xEDB8_8300) == 0x76DC_4180;
    assert Shift(0x76DC_4180) == 0x3B6E_20C0;
    assert Shift(0x3B6E_20C0) == 0x1DB7_1060;
    assert Shift(0x1DB7_1060) == 0xEDB_8830;
    assert Shift(0xEDB_8830) == 0x76D_C418;
    assert Shift(0x76D_C418) == 0x3B6_E20C;
    assert Shift(0x3B6_E20C) == 0x1DB_7106;
  }

  lemma {:induction false} FirstStep()
    ensures Step(ONES, 190) == 0x124_8EF9
  {
    hide Xor, Shift8, Pow2;
    Pow2Values();
    XorAllOnes(32, 190);
    XorCommutes(190, ONES);
    Entry41();
    XorAllOnes(24, 0xDB_7106);
    XorDisjoint(24, 0xDB_7106, 1);
    XorDisjoint(24, 0x24_8EF9, 1);
    XorCommutes(0xDB_7106, 0x100_0000);
    XorCommutes(0x24_8EF9, 0x100_0000);
    XorAssociates(0x100_0000, 0xDB_7106, 0xFF_FFFF);
  }

  /** The CRCs of these four bytes and of no bytes at all add up to 2^32 - 2. */
  lemma {:induction false} TrailersCollide()
    ensures var a := [190, 249, 142, 36];
      Crc(a, 0) == 0xFFFF_FFFE && Crc([], 0) == 0 && Trailer(a) == Trailer([])
  {
    hide Step, Xor, Trailer, Pow2;
    var a: seq<byte> := [190, 249, 142, 36];
    FirstStep();
    ClearStep(0x1_248E, 249);
    ClearStep(0x124, 142);
    ClearStep(1, 36);
    assert a[1..] == [249, 142, 36] && a[1..][1..] == [142, 36] && a[1..][1..][1..] == [36];
    Pow2Values();
    XorZero(ONES);
    XorSelf(ONES);
    XorAllOnes(32, 1);
    assert Update(ONES, a) == 1;
    TrailerCollisions(a, []);
  }
}
