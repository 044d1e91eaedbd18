/** CRC-32 as `binascii.crc32` computes it: section 8 of RFC 1952. */
module Crc32 {
  import opened Bytes

  const ONES: word := 0xFFFF_FFFF

  const POLY: word := 0xEDB8_8320

  /** One bit of the division by the CRC polynomial. */
  function Shift(c: word): (r: word) {
    WordXor(POLY, c / 2);
    if c % 2 == 1 then Xor(POLY, c / 2) else c / 2
  }

  function Shift8(c: word): word {
    Shift(Shift(Shift(Shift(Shift(Shift(Shift(Shift(c))))))))
  }

  /** One table-driven step of `update_crc`: the table holds eight shifts of each byte value. */
  function Step(c: word, b: byte): word {
    WordXor(c, b);
    var entry := Shift8(Xor(c, b) % 0x100);
    WordXor(entry, c / 0x100);
    Xor(entry, c / 0x100)
  }

  function Update(c: word, data: seq<byte>): word
    decreases |data|
  {
    if data == [] then c else Update(Step(c, data[0]), data[1..])
  }

  /** The CRC of `data` continued from `crc`. */
  function Crc(data: seq<byte>, crc: word): word {
    WordXor(crc, ONES);
    var c := Update(Xor(crc, ONES), data);
    WordXor(c, ONES);
    Xor(c, ONES)
  }

  // ----- continuation ---------------------------------------------------------------

  lemma {:induction false} UpdateAppend(c: word, a: seq<byte>, b: seq<byte>)
    ensures Update(c, a + b) == Update(Update(c, a), b)
    decreases |a|
  {
    if a == [] {
      assert a + b == b;
    } else {
      assert (a + b)[1..] == a[1..] + b;
      UpdateAppend(Step(c, a[0]), a[1..], b);
    }
  }

  lemma {:induction false} XorTwice(x: nat, y: nat)
    ensures Xor(Xor(x, y), y) == x
  {
    XorAssociates(x, y, y);
    XorSelf(y);
    XorZero(x);
  }

  /** The CRC of a concatenation is the CRC of the second part continued from that of the first. */
  lemma {:induction false} CrcAppend(a: seq<byte>, b: seq<byte>, crc: word)
    ensures Crc(a + b, crc) == Crc(b, Crc(a, crc))
  {
    WordXor(crc, ONES);
    var c := Xor(crc, ONES);
    UpdateAppend(c, a, b);
    XorTwice(Update(c, a), ONES);
  }

  // ----- the table step is eight bit-serial shifts ----------------------------------

  lemma {:induction false} XorPull(p: nat, q: nat, k: nat)
    ensures Xor(Xor(k, p), Xor(k, q)) == Xor(p, q)
    ensures Xor(Xor(k, p), q) == Xor(k, Xor(p, q))
    ensures Xor(p, Xor(k, q)) == Xor(k, Xor(p, q))
  {
    XorAssociates(k, p, q);
    XorAssociates(p, k, q);
    XorAssociates(k, p, q);
    XorCommutes(p, k);
    XorAssociates(Xor(p, k), k, q);
    XorTwice(p, k);
  }

  lemma OddSum(x: nat, y: nat)
    ensures (x + y) % 2 == 1 <==> ((x % 2 == 1) != (y % 2 == 1))
  {
  }

  lemma {:induction false} ShiftXor(x: word, y: word)
    ensures Xor(x, y) < WORD_LIMIT
    ensures Shift(Xor(x, y)) == Xor(Shift(x), Shift(y))
  {
    hide Xor;
    WordXor(x, y);
    XorHalf(x, y);
    var p, q := x / 2, y / 2;
    XorPull(p, q, POLY);
    OddSum(x, y);
  }

  lemma {:induction false} Shift8Xor(x: word, y: word)
    ensures Xor(x, y) < WORD_LIMIT
    ensures Shift8(Xor(x, y)) == Xor(Shift8(x), Shift8(y))
  {
    hide Shift;
    var x1, y1 := Shift(x), Shift(y);
    var x2, y2 := Shift(x1), Shift(y1);
    var x3, y3 := Shift(x2), Shift(y2);
    var x4, y4 := Shift(x3), Shift(y3);
    var x5, y5 := Shift(x4), Shift(y4);
    var x6, y6 := Shift(x5), Shift(y5);
    var x7, y7 := Shift(x6), Shift(y6);
    ShiftXor(x, y);
    ShiftXor(x1, y1);
    ShiftXor(x2, y2);
    ShiftXor(x3, y3);
    ShiftXor(x4, y4);
    ShiftXor(x5, y5);
    ShiftXor(x6, y6);
    ShiftXor(x7, y7);
  }

  /** Eight shifts move a value whose low byte is clear straight down. */
  lemma {:induction false} Shift8High(w: nat)
    requires 0x100 * w < WORD_LIMIT
    ensures Shift8(0x100 * w) == w
  {
    assert Shift(0x100 * w) == 0x80 * w;
    assert Shift(0x80 * w) == 0x40 * w;
    assert Shift(0x40 * w) == 0x20 * w;
    assert Shift(0x20 * w) == 0x10 * w;
    assert Shift(0x10 * w) == 0x8 * w;
    assert Shift(0x8 * w) == 0x4 * w;
    assert Shift(0x4 * w) == 0x2 * w;
  }

  lemma {:induction false} LowByteApart(low: byte, w: nat)
    ensures Xor(low, 0x100 * w) == low + 0x100 * w
  {
    Pow2Values();
    XorDisjoint(8, low, w);
  }

  /** XORing in a byte leaves the bytes above it alone. */
  lemma {:induction false} HighPart(c: nat, b: byte)
    ensures Xor(c, b) / 0x100 == c / 0x100
  {
    var low, w := c % 0x100, c / 0x100;
    LowByteApart(low, w);
    XorCommutes(low, 0x100 * w);
    XorAssociates(0x100 * w, low, b);
    ByteXor(low, b);
    XorCommutes(0x100 * w, Xor(low, b));
    LowByteApart(Xor(low, b), w);
  }

  /** The table-driven step computes the bit-serial one. */
  lemma {:induction false} StepIsShift8(c: word, b: byte)
    ensures Xor(c, b) < WORD_LIMIT
    ensures Step(c, b) == Shift8(Xor(c, b))
  {
    hide Shift8;
    WordXor(c, b);
    var x := Xor(c, b);
    var low, w := x % 0x100, x / 0x100;
    HighPart(c, b);
    LowByteApart(low, w);
    Shift8Xor(low, 0x100 * w);
    Shift8High(w);
  }

  // ----- error detection -------------------------------------------------------------

  lemma {:induction false} ShiftInjective(x: word, y: word)
    requires Shift(x) == Shift(y)
    ensures x == y
  {
    Pow2Values();
    XorTopBit(31, POLY, x / 2);
    XorTopBit(31, POLY, y / 2);
    XorCancels(x / 2, y / 2, POLY);
  }

  lemma {:induction false} Shift8Injective(x: word, y: word)
    requires Shift8(x) == Shift8(y)
    ensures x == y
  {
    hide Shift;
    var x1, y1 := Shift(x), Shift(y);
    var x2, y2 := Shift(x1), Shift(y1);
    var x3, y3 := Shift(x2), Shift(y2);
    var x4, y4 := Shift(x3), Shift(y3);
    var x5, y5 := Shift(x4), Shift(y4);
    var x6, y6 := Shift(x5), Shift(y5);
    var x7, y7 := Shift(x6), Shift(y6);
    ShiftInjective(x7, y7);
    ShiftInjective(x6, y6);
    ShiftInjective(x5, y5);
    ShiftInjective(x4, y4);
    ShiftInjective(x3, y3);
    ShiftInjective(x2, y2);
    ShiftInjective(x1, y1);
    ShiftInjective(x, y);
  }

  lemma {:induction false} UpdateInjective(c: word, d: word, data: seq<byte>)
    requires Update(c, data) == Update(d, data)
    ensures c == d
    decreases |data|
  {
    hide Step, Shift8;
    if data != [] {
      var b := data[0];
      UpdateInjective(Step(c, b), Step(d, b), data[1..]);
      StepIsShift8(c, b);
      StepIsShift8(d, b);
      Shift8Injective(Xor(c, b), Xor(d, b));
      XorCancels(c, d, b);
    }
  }

  /** Bytes as one little-endian number. */
  function Number(x: seq<byte>): nat
    decreases |x|
  {
    if x == [] then 0 else x[0] + 0x100 * Number(x[1..])
  }

  lemma {:induction false} NumberBound(x: seq<byte>)
    requires |x| <= 4
    ensures Number(x) < Pow2(8 * |x|)
    ensures Number(x) < WORD_LIMIT
    ensures x != [] ==> 0x100 * Number(x[1..]) < WORD_LIMIT
    decreases |x|
  {
    Pow2Values();
    if x != [] {
      NumberBound(x[1..]);
    }
  }

  lemma {:induction false} NumberInjective(x: seq<byte>, y: seq<byte>)
    requires |x| == |y| && Number(x) == Number(y)
    ensures x == y
    decreases |x|
  {
    if x != [] {
      NumberInjective(x[1..], y[1..]);
      assert x == [x[0]] + x[1..] && y == [y[0]] + y[1..];
    }
  }

  /** Eight shifts for each of `n` bytes. */
  function Shifts(n: nat, c: word): word {
    if n == 0 then c else Shifts(n - 1, Shift8(c))
  }

  lemma {:induction false} ShiftsInjective(n: nat, c: word, d: word)
    requires Shifts(n, c) == Shifts(n, d)
    ensures c == d
  {
    hide Shift8;
    if n != 0 {
      ShiftsInjective(n - 1, Shift8(c), Shift8(d));
      Shift8Injective(c, d);
    }
  }

  /** A number XORed in after a step could have been XORed in, one byte higher, before it. */
  lemma {:induction false} StepThenNumber(c: word, b: byte, w: nat)
    requires 0x100 * w < WORD_LIMIT
    ensures Xor(c, b + 0x100 * w) < WORD_LIMIT
    ensures Xor(Step(c, b), w) == Shift8(Xor(c, b + 0x100 * w))
  {
    hide Step, Shift8, Xor;
    StepIsShift8(c, b);
    Shift8High(w);
    Shift8Xor(Xor(c, b), 0x100 * w);
    XorAssociates(c, b, 0x100 * w);
    LowByteApart(b, w);
  }

  /** Consuming up to four bytes is XORing them in as one number and shifting. */
  lemma {:induction false} UpdateIsShifts(c: word, x: seq<byte>)
    requires |x| <= 4
    ensures Xor(c, Number(x)) < WORD_LIMIT
    ensures Update(c, x) == Shifts(|x|, Xor(c, Number(x)))
    decreases |x|
  {
    hide Step, Shift8;
    if x == [] {
      XorZero(c);
    } else {
      NumberBound(x);
      UpdateIsShifts(Step(c, x[0]), x[1..]);
      StepThenNumber(c, x[0], Number(x[1..]));
    }
  }

  /** Burst detection: a change confined to four consecutive bytes always changes the CRC. */
  lemma {:induction false} BurstDetected(pre: seq<byte>, x: seq<byte>, y: seq<byte>, post: seq<byte>, crc: word)
    requires |x| == |y| <= 4
    ensures Crc(pre + x + post, crc) == Crc(pre + y + post, crc) <==> x == y
  {
    hide Update, Number, Shifts, Xor;
    if Crc(pre + x + post, crc) == Crc(pre + y + post, crc) {
      WordXor(crc, ONES);
      var c0 := Xor(crc, ONES);
      var c := Update(c0, pre);
      XorCancels(Update(c0, pre + x + post), Update(c0, pre + y + post), ONES);
      UpdateAppend(c0, pre, x);
      UpdateAppend(c0, pre, y);
      UpdateAppend(c0, pre + x, post);
      UpdateAppend(c0, pre + y, post);
      UpdateInjective(Update(c, x), Update(c, y), post);
      UpdateIsShifts(c, x);
      UpdateIsShifts(c, y);
      ShiftsInjective(|x|, Xor(c, Number(x)), Xor(c, Number(y)));
      XorCancels(Number(x), Number(y), c);
      NumberInjective(x, y);
    }
  }

  // ----- Python 2's signed result ------------------------------------------------------

  /** `binascii.crc32` in Python 2 returns the CRC as a signed 32-bit integer ... */
  function Signed(u: word): (i: int)
    ensures -0x8000_0000 <= i < 0x8000_0000
    ensures Unsigned(i) == u
  {
    if u < 0x8000_0000 then u else u - WORD_LIMIT
  }

  /** ... and takes the running value modulo 2^32. */
  function Unsigned(i: int): word {
    i % WORD_LIMIT
  }

  /** `binascii.crc32(data, crc)` */
  function PythonCrc32(data: seq<byte>, crc: int): int {
    Signed(Crc(data, Unsigned(crc)))
  }

  lemma {:induction false} CrcOfNothing()
    ensures Crc([], 0) == 0
  {
    XorTwice(0, ONES);
  }

  /**
   * `getFileCRC`: the file is read block by block, the CRC of each block continuing that of the
   * blocks before.  The block size does not matter.
   */
  method GetFileCRC(content: seq<byte>, blockSize: nat) returns (crc: int)
    requires blockSize >= 1
    ensures crc == Signed(Crc(content, 0))
  {
    hide Crc;
    var pos := if |content| < blockSize then |content| else blockSize;
    var str := content[..pos];
    crc := 0;
    CrcOfNothing();
    assert content[..0] == [];
    while |str| != 0
      invariant |str| <= pos <= |content|
      invariant str == content[pos - |str|..pos]
      invariant |str| == 0 ==> pos == |content|
      invariant crc == Signed(Crc(content[..pos - |str|], 0))
      decreases |content| - pos, |str|
    {
      ghost var before := content[..pos - |str|];
      assert before + str == content[..pos];
      CrcAppend(before, str, 0);
      crc := PythonCrc32(str, crc);
      var next := if |content| - pos < blockSize then |content| else pos + blockSize;
      str := content[pos..next];
      pos := next;
    }
    assert content[..pos] == content;
  }
}
