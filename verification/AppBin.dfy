/** The firmware image that `tools/gen_appbin.py` writes. */
module AppBin {
  import opened Bytes
  import opened Crc32

  const CHECKSUM_INIT: byte := 0xEF
  const TEXT_ADDRESS: word := 0x4010_0000
  const BIN_MAGIC_FLASH: byte := 0xE9
  const BIN_MAGIC_IROM: byte := 0xEA
  const IROM_OFFSET: nat := 0x1_0000

  /** What the command line and the symbol file supply. */
  datatype Params = Params(
    bootMode: string,
    flashMode: int,
    flashClkDiv: int,
    flashSizeMap: int,
    userBin: int,
    entry: nat,
    dataStart: nat,
    rodataStart: nat)

  /** The four section files. */
  datatype Sections = Sections(irom: seq<byte>, text: seq<byte>, data: seq<byte>, rodata: seq<byte>)

  // ----- pieces of an image ------------------------------------------------------

  /** `(n + 3) & ~3` for a checked segment, `(n + 15) & ~15` for the irom segment. */
  function Aligned(n: nat, checked: bool): nat {
    if checked then (n + 3) / 4 * 4 else (n + 15) / 16 * 16
  }

  lemma AlignedIsNext(n: nat, checked: bool)
    ensures checked ==> Aligned(n, checked) % 4 == 0 && n <= Aligned(n, checked) < n + 4
    ensures !checked ==> Aligned(n, checked) % 16 == 0 && n <= Aligned(n, checked) < n + 16
  {
    if checked {
      NextOf4(n);
    } else {
      NextOf16(n);
    }
  }

  lemma NextOf4(n: nat)
    ensures var r := (n + 3) / 4 * 4; r % 4 == 0 && n <= r < n + 4
  {
  }

  lemma NextOf16(n: nat)
    ensures var r := (n + 15) / 16 * 16; r % 16 == 0 && n <= r < n + 16
  {
  }

  /** A section with the zero bytes that bring it to its alignment. */
  function Padded(data: seq<byte>, checked: bool): (r: seq<byte>)
    ensures |r| == Aligned(|data|, checked)
  {
    data + Repeat(0, Aligned(|data|, checked) - |data|)
  }

  lemma NoFill()
    ensures Repeat(0, 0) == []
  {
  }

  function SegmentHeader(addr: nat, size: nat): (r: seq<byte>)
    ensures |r| == 8
  {
    Pack32(addr) + Pack32(size)
  }

  /** What `combine_bin` appends: nothing at all for an empty section. */
  function Segment(addr: nat, data: seq<byte>, checked: bool): seq<byte> {
    if data == [] then [] else SegmentHeader(addr, Aligned(|data|, checked)) + Padded(data, checked)
  }

  function Header(magic: byte, count: byte, b2: byte, b3: byte, entry: nat): (r: seq<byte>)
    ensures |r| == 8
  {
    [magic, count, b2, b3] + Pack32(entry)
  }

  /** The running XOR checksum. */
  function Fold(c: byte, data: seq<byte>): byte
    decreases |data|
  {
    if data == [] then c else
      ByteXor(c, data[0]);
      Fold(Xor(c, data[0]), data[1..])
  }

  /** Python's `a | b` on non-negative integers. */
  function Or(a: nat, b: nat): nat {
    if a == 0 && b == 0 then 0
    else 2 * Or(a / 2, b / 2) + if a % 2 == 1 || b % 2 == 1 then 1 else 0
  }

  lemma {:induction false} OrBound(k: nat, a: nat, b: nat)
    requires a < Pow2(k) && b < Pow2(k)
    ensures Or(a, b) < Pow2(k)
  {
    if k != 0 && (a != 0 || b != 0) {
      OrBound(k - 1, a / 2, b / 2);
    }
  }

  function Byte2(p: Params): byte {
    p.flashMode % 0x100
  }

  /** `((flash_size_map << 4) | flash_clk_div) & 0xff`, taken on the low bytes of both operands. */
  function Byte3(p: Params): byte {
    Pow2Values();
    OrBound(8, 16 * p.flashSizeMap % 0x100, p.flashClkDiv % 0x100);
    Or(16 * p.flashSizeMap % 0x100, p.flashClkDiv % 0x100)
  }

  lemma {:induction false} OrZero(a: nat)
    ensures Or(a, 0) == a && Or(0, a) == a
  {
    if a != 0 {
      OrZero(a / 2);
    }
  }

  lemma OrDouble(a: nat, b: nat)
    ensures Or(2 * a, b) == 2 * Or(a, b / 2) + b % 2
  {
  }

  lemma {:induction false} OrDisjoint(a: nat, b: nat)
    requires b < 16
    ensures Or(16 * a, b) == 16 * a + b
  {
    hide Or;
    var b1 := b / 2;
    var b2 := b1 / 2;
    var b3 := b2 / 2;
    OrDouble(8 * a, b);
    OrDouble(4 * a, b1);
    OrDouble(2 * a, b2);
    OrDouble(a, b3);
    OrZero(a);
  }

  lemma Nibbles(v: nat, a: int, b: int)
    requires v < 0x100
    ensures v / 16 == a && v % 16 == b ==> 0 <= a < 16 && 0 <= b < 16
    ensures 0 <= a && 0 <= b < 16 && v == 16 * a + b ==> v / 16 == a && v % 16 == b
  {
  }

  /** Both parameters can be read from the third header byte exactly when each of them has four bits. */
  lemma {:induction false} Byte3Fields(p: Params)
    ensures Byte3(p) / 16 == p.flashSizeMap && Byte3(p) % 16 == p.flashClkDiv
      <==> 0 <= p.flashSizeMap < 16 && 0 <= p.flashClkDiv < 16
  {
    hide Or;
    Nibbles(Byte3(p), p.flashSizeMap, p.flashClkDiv);
    if 0 <= p.flashSizeMap < 16 && 0 <= p.flashClkDiv < 16 {
      OrDisjoint(p.flashSizeMap, p.flashClkDiv);
      assert 16 * p.flashSizeMap % 0x100 == 16 * p.flashSizeMap;
    }
  }

  /** Bit `k` of a two's complement number. */
  predicate Bit(n: int, k: nat)
    decreases k
  {
    if k == 0 then n % 2 == 1 else Bit(n / 2, k - 1)
  }

  lemma OrHalf(a: nat, b: nat)
    ensures Or(a, b) / 2 == Or(a / 2, b / 2)
    ensures Or(a, b) % 2 == 1 <==> a % 2 == 1 || b % 2 == 1
  {
  }

  lemma {:induction false} OrBits(a: nat, b: nat, k: nat)
    ensures Bit(Or(a, b), k) <==> Bit(a, k) || Bit(b, k)
    decreases k
  {
    hide Or;
    OrHalf(a, b);
    if k != 0 {
      OrBits(a / 2, b / 2, k - 1);
    }
  }

  /** Multiples of 2^m do not show in the lower bits. */
  lemma {:induction false} LowBits(x: int, y: int, m: nat, k: nat)
    requires k < m
    ensures Bit(x + Pow2(m) * y, k) == Bit(x, k)
    decreases k
  {
    var z := Pow2(m - 1) * y;
    assert Pow2(m) * y == 2 * z by {
      DoubleProduct(Pow2(m - 1), y);
    }
    hide Pow2;
    assert (x + 2 * z) / 2 == x / 2 + z && (x + 2 * z) % 2 == x % 2;
    if k != 0 {
      LowBits(x / 2, y, m - 1, k - 1);
    }
  }

  lemma {:induction false} ByteBits(n: int, k: nat)
    requires k < 8
    ensures Bit(n % 0x100, k) == Bit(n, k)
  {
    Pow2Values();
    hide Bit, Pow2;
    LowBits(n % 0x100, n / 0x100, 8, k);
  }

  /** For all values, negative ones included, each bit is set if one of the two operands has it. */
  lemma {:induction false} Byte3Bits(p: Params, k: nat)
    requires k < 8
    ensures Bit(Byte3(p), k) <==> Bit(16 * p.flashSizeMap, k) || Bit(p.flashClkDiv, k)
  {
    hide Bit, Or;
    OrBits(16 * p.flashSizeMap % 0x100, p.flashClkDiv % 0x100, k);
    ByteBits(16 * p.flashSizeMap, k);
    ByteBits(p.flashClkDiv, k);
  }

  function App(p: Params): byte {
    p.userBin % 0x100
  }

  /** The zero bytes before the checksum. */
  function FillSize(size: nat): nat {
    16 - (size + 1) % 16
  }

  /** The trailer value that is made of the signed CRC. */
  function FoldCrc(crc: int): nat {
    if crc < 0 then -crc - 1 else crc + 1
  }

  function Trailer(file: seq<byte>): (r: seq<byte>)
    ensures |r| == 4
  {
    Pack32(FoldCrc(Signed(Crc(file, 0))))
  }

  // ----- the run of the script -----------------------------------------------------

  /** The output file and the two globals, and whether the script is still running. */
  datatype Output = Output(file: seq<byte>, chkSum: byte, blocks: nat, running: bool)

  const START := Output([], CHECKSUM_INIT, 0, true)

  function Write(o: Output, data: seq<byte>): Output {
    if o.running then o.(file := o.file + data) else o
  }

  /** `struct.pack` raises when the entry address does not fit in 32 bits. */
  function WriteHeader(o: Output, magic: byte, count: byte, b2: byte, b3: byte, entry: nat): Output {
    if !o.running then o
    else if entry >= WORD_LIMIT then o.(running := false)
    else Write(o, Header(magic, count, b2, b3, entry))
  }

  function Combine(o: Output, data: seq<byte>, addr: nat, checked: bool): Output {
    if !o.running || data == [] then o
    else if addr >= WORD_LIMIT || Aligned(|data|, checked) >= WORD_LIMIT then o.(running := false)
    else Output(o.file + Segment(addr, data, checked), if checked then Fold(o.chkSum, data) else o.chkSum,
                o.blocks + 1, true)
  }

  function WriteBody(o: Output, p: Params, s: Sections): Output {
    var o1 := if p.bootMode == "1" then WriteHeader(o, BIN_MAGIC_FLASH, 3, 0, App(p), p.entry)
              else WriteHeader(o, BIN_MAGIC_FLASH, 3, Byte2(p), Byte3(p), p.entry);
    var o2 := Combine(o1, s.text, TEXT_ADDRESS, true);
    var o3 := Combine(o2, s.data, p.dataStart, true);
    Combine(o3, s.rodata, p.rodataStart, true)
  }

  function WriteChecksum(o: Output): Output {
    Write(Write(o, Repeat(0, FillSize(|o.file|))), [o.chkSum])
  }

  function WriteIrom(o: Output, irom: seq<byte>): Output {
    Write(Write(o, Repeat(0xFF, if |o.file| <= IROM_OFFSET then IROM_OFFSET - |o.file| else 0)), irom)
  }

  function RunIromPart(p: Params, s: Sections): Output {
    if p.bootMode == "2"
    then Combine(WriteHeader(START, BIN_MAGIC_IROM, 4, 0, App(p), p.entry), s.irom, 0, false)
    else START
  }

  /** Lines 214 to 271 of `gen_appbin`. */
  function Run(p: Params, s: Sections): Output {
    var o2 := WriteChecksum(WriteBody(RunIromPart(p, s), p, s));
    var o3 := if p.bootMode == "1" then WriteIrom(o2, s.irom) else o2;
    if p.bootMode == "1" || p.bootMode == "2" then Write(o3, Trailer(o3.file)) else o3
  }

  class Builder {
    var file: seq<byte>
    var chkSum: byte
    var blocks: nat

    constructor ()
      ensures State(true) == START
    {
      file, chkSum, blocks := [], CHECKSUM_INIT, 0;
    }

    ghost function State(running: bool): Output
      reads this
    {
      Output(file, chkSum, blocks, running)
    }

    /** `write_file` */
    method WriteFile(data: seq<byte>)
      modifies `file
      ensures file == old(file) + data
    {
      file := file + data;
    }

    method XorInto(data: seq<byte>)
      modifies `chkSum
      ensures chkSum == Fold(old(chkSum), data)
    {
      assert data[..|data|] == data;
      for i := 0 to |data|
        invariant chkSum == Fold(old(chkSum), data[..i])
      {
        FoldAppend(old(chkSum), data[..i], [data[i]]);
        assert data[..i + 1] == data[..i] + [data[i]];
        ByteXor(chkSum, data[i]);
        chkSum := Xor(chkSum, data[i]);
      }
    }

    /** `struct.pack('<BBBBI', ...)` and its `write_file` */
    method WriteHead(magic: byte, count: byte, b2: byte, b3: byte, entry: nat) returns (ok: bool)
      modifies `file
      ensures State(ok) == WriteHeader(old(State(true)), magic, count, b2, b3, entry)
    {
      ok := entry < WORD_LIMIT;
      if ok {
        WriteFile(Header(magic, count, b2, b3, entry));
      }
    }

    /** The end of `combine_bin`: the zero bytes after the content leave the checksum as it is. */
    method WritePadding(tmpLen: nat, needChk: bool)
      modifies `file, `chkSum
      ensures file == old(file) + Repeat(0, tmpLen) && chkSum == old(chkSum)
    {
      NoFill();
      if tmpLen != 0 {
        var dataBin := Repeat(0, tmpLen);
        WriteFile(dataBin);
        if needChk {
          XorInto(dataBin);
          FoldZeros(old(chkSum), tmpLen);
        }
      }
    }

    /** `combine_bin` */
    method CombineBin(content: seq<byte>, startOffsetAddr: nat, needChk: bool) returns (ok: bool)
      modifies this
      ensures State(ok) == Combine(old(State(true)), content, startOffsetAddr, needChk)
    {
      ok := true;
      var dataLen := |content|;
      if dataLen != 0 {
        var tmpLen := if needChk then (dataLen + 3) / 4 * 4 else (dataLen + 15) / 16 * 16;
        AlignedIsNext(dataLen, needChk);
        assert tmpLen == Aligned(dataLen, needChk);
        hide Aligned, Fold, Pack32;
        if startOffsetAddr >= WORD_LIMIT || tmpLen >= WORD_LIMIT {
          ok := false;
          return;
        }
        WriteFile(Pack32(startOffsetAddr) + Pack32(tmpLen));
        var dataBin := content;
        WriteFile(dataBin);
        if needChk {
          XorInto(dataBin);
        }
        WritePadding(tmpLen - dataLen, needChk);
        blocks := blocks + 1;
        assert file == old(file) + Segment(startOffsetAddr, content, needChk);
      }
    }

    /** Lines 223 to 238: the flash header and the three checked sections. */
    method WriteFlashPart(p: Params, s: Sections) returns (ok: bool)
      modifies this
      ensures State(ok) == WriteBody(old(State(true)), p, s)
    {
      if p.bootMode == "1" {
        ok := WriteHead(BIN_MAGIC_FLASH, 3, 0, App(p), p.entry);
      } else {
        ok := WriteHead(BIN_MAGIC_FLASH, 3, Byte2(p), Byte3(p), p.entry);
      }
      if !ok { return; }
      ok := CombineBin(s.text, TEXT_ADDRESS, true);
      if !ok { return; }
      ok := CombineBin(s.data, p.dataStart, true);
      if !ok { return; }
      ok := CombineBin(s.rodata, p.rodataStart, true);
    }

    /** Lines 214 to 222: in boot mode 2 the image starts with an irom header and segment. */
    method WriteIromPart(p: Params, s: Sections) returns (ok: bool)
      requires State(true) == START
      modifies this
      ensures State(ok) == RunIromPart(p, s)
    {
      ok := true;
      if p.bootMode == "2" {
        ok := WriteHead(BIN_MAGIC_IROM, 4, 0, App(p), p.entry);
        if !ok { return; }
        ok := CombineBin(s.irom, 0, false);
      }
    }

    /** Lines 241 to 247: zero bytes up to the end of a 16-byte row, then the checksum. */
    method WriteChecksumRow()
      modifies `file
      ensures State(true) == WriteChecksum(old(State(true)))
    {
      var sumSize := |file| + 1;
      sumSize := 16 - sumSize % 16;
      if sumSize != 0 {
        WriteFile(Repeat(0, sumSize));
      }
      WriteFile([chkSum]);
    }

    /** Lines 250 to 262: bytes FF up to the irom offset, then the irom section as it is. */
    method WriteIromFile(irom: seq<byte>)
      modifies `file
      ensures State(true) == WriteIrom(old(State(true)), irom)
    {
      var sumSize := |file|;
      WriteFile(Repeat(0xFF, if sumSize <= IROM_OFFSET then IROM_OFFSET - sumSize else 0));
      WriteFile(irom);
    }

    /** Lines 264 to 271 */
    method WriteTrailer()
      modifies `file
      ensures file == old(file) + Trailer(old(file))
    {
      var crc := GetFileCRC(file, 1024 * 64);
      if crc < 0 {
        crc := -crc - 1;
      } else {
        crc := crc + 1;
      }
      WriteFile([crc % 0x100, crc / 0x100 % 0x100, crc / 0x1_0000 % 0x100, crc / 0x100_0000 % 0x100]);
    }

    /** Lines 214 to 271, on a new output file. */
    method GenAppbin(p: Params, s: Sections) returns (ok: bool)
      requires State(true) == START
      modifies this
      ensures State(ok) == Run(p, s)
    {
      hide RunIromPart, WriteBody, WriteChecksum, WriteIrom, Trailer;
      ok := WriteIromPart(p, s);
      StoppedRun(p, s);
      if !ok { return; }
      ok := WriteFlashPart(p, s);
      if !ok { return; }
      WriteChecksumRow();
      ghost var o2 := State(true);
      if p.bootMode == "1" {
        WriteIromFile(s.irom);
      }
      if p.bootMode == "1" || p.bootMode == "2" {
        WriteTrailer();
      }
    }
  }

  lemma StoppedRun(p: Params, s: Sections)
    ensures !RunIromPart(p, s).running ==> Run(p, s) == RunIromPart(p, s)
    ensures var o := WriteBody(RunIromPart(p, s), p, s); !o.running ==> Run(p, s) == o
  {
  }

  // ----- the checksum -------------------------------------------------------------------

  lemma {:induction false} FoldAppend(c: byte, a: seq<byte>, b: seq<byte>)
    ensures Fold(c, a + b) == Fold(Fold(c, a), b)
    decreases |a|
  {
    if a == [] {
      assert a + b == b;
    } else {
      ByteXor(c, a[0]);
      assert (a + b)[1..] == a[1..] + b;
      FoldAppend(Xor(c, a[0]), a[1..], b);
    }
  }

  lemma {:induction false} FoldZeros(c: byte, n: nat)
    ensures Fold(c, Repeat(0, n)) == c
  {
    if n != 0 {
      XorZero(c);
      assert Repeat(0, n)[1..] == Repeat(0, n - 1);
      FoldZeros(c, n - 1);
    }
  }

  /**
   * The checksum is an exclusive or: it starts from the first byte, and what the start value has in
   * addition is in the result in addition.
   */
  lemma {:induction false} FoldIsXor(c: byte, d: byte, data: seq<byte>)
    ensures Xor(c, d) < 0x100
    ensures Fold(Xor(c, d), data) == Xor(Fold(c, data), d)
    ensures forall x: byte :: Fold(0, [x]) == x
    decreases |data|
  {
    hide Xor;
    ByteXor(c, d);
    forall x: byte ensures Fold(0, [x]) == x {
      XorZero(x);
      assert Fold(Xor(0, x), []) == Xor(0, x);
    }
    if data != [] {
      var x := data[0];
      ByteXor(c, x);
      FoldIsXor(Xor(c, x), d, data[1..]);
      XorAssociates(c, d, x);
      XorCommutes(d, x);
      XorAssociates(c, x, d);
    }
  }

  /** The order of the bytes does not matter. */
  lemma {:induction false} FoldCommutes(c: byte, a: seq<byte>, b: seq<byte>)
    ensures Fold(c, a + b) == Fold(c, b + a)
    ensures Fold(c, a + a) == c
  {
    var x, y := Fold(0, a), Fold(0, b);
    FoldFromZero(c, a);
    FoldFromZero(c, b);
    ByteXor(c, x);
    ByteXor(c, y);
    FoldFromZero(Xor(c, x), b);
    FoldFromZero(Xor(c, y), a);
    FoldFromZero(Xor(c, x), a);
    FoldAppend(c, a, b);
    FoldAppend(c, b, a);
    FoldAppend(c, a, a);
    hide Fold, Xor;
    XorAssociates(c, x, y);
    XorAssociates(c, y, x);
    XorCommutes(x, y);
    XorTwice(c, x);
  }

  lemma {:induction false} FoldFromZero(c: byte, data: seq<byte>)
    ensures Fold(c, data) == Xor(c, Fold(0, data))
  {
    XorZero(c);
    FoldIsXor(0, c, data);
    XorCommutes(c, Fold(0, data));
  }
}
