/** Bytes and 32-bit words as Python sees them: plain integers, with `^` as a function on integers. */
module Bytes {

  const WORD_LIMIT: nat := 0x1_0000_0000

  type byte = n: int | 0 <= n < 0x100

  type word = n: int | 0 <= n < WORD_LIMIT

  function Pow2(k: nat): (p: nat)
    ensures p >= 1
  {
    if k == 0 then 1 else 2 * Pow2(k - 1)
  }

  // ----- exclusive or -----------------------------------------------------------

  /** Python's `a ^ b` on non-negative integers. */
  function Xor(a: nat, b: nat): nat {
    if a == 0 && b == 0 then 0
    else 2 * Xor(a / 2, b / 2) + (a + b) % 2
  }

  lemma {:induction false} XorCommutes(a: nat, b: nat)
    ensures Xor(a, b) == Xor(b, a)
  {
    if a != 0 || b != 0 {
      XorCommutes(a / 2, b / 2);
    }
  }

  lemma {:induction false} XorZero(a: nat)
    ensures Xor(a, 0) == a && Xor(0, a) == a
  {
    if a != 0 {
      XorZero(a / 2);
    }
  }

  lemma {:induction false} XorSelf(a: nat)
    ensures Xor(a, a) == 0
  {
    if a != 0 {
      XorSelf(a / 2);
    }
  }

  /** The lowest bit and the other bits of an exclusive or. */
  lemma XorHalf(a: nat, b: nat)
    ensures Xor(a, b) / 2 == Xor(a / 2, b / 2)
    ensures Xor(a, b) % 2 == (a + b) % 2
  {
  }

  lemma SameHalves(a: nat, b: nat)
    requires a / 2 == b / 2 && a % 2 == b % 2
    ensures a == b
  {
  }

  lemma {:induction false} XorAssociates(a: nat, b: nat, c: nat)
    ensures Xor(Xor(a, b), c) == Xor(a, Xor(b, c))
    decreases a + b + c
  {
    hide Xor;
    var l, r := Xor(Xor(a, b), c), Xor(a, Xor(b, c));
    if a == 0 {
      XorZero(b);
      XorZero(Xor(b, c));
    } else {
      XorAssociates(a / 2, b / 2, c / 2);
      XorHalf(a, b);
      XorHalf(b, c);
      XorHalf(Xor(a, b), c);
      XorHalf(a, Xor(b, c));
      Parities(a, b, c, Xor(a, b), Xor(b, c));
      SameHalves(l, r);
    }
  }

  lemma Parities(a: nat, b: nat, c: nat, ab: nat, bc: nat)
    requires ab % 2 == (a + b) % 2 && bc % 2 == (b + c) % 2
    ensures (ab + c) % 2 == (a + bc) % 2
  {
  }

  lemma {:induction false} XorCancels(a: nat, b: nat, c: nat)
    ensures Xor(c, a) == Xor(c, b) <==> a == b
    ensures Xor(a, c) == Xor(b, c) <==> a == b
  {
    XorAssociates(c, c, a);
    XorAssociates(c, c, b);
    XorSelf(c);
    XorZero(a);
    XorZero(b);
    XorCommutes(a, c);
    XorCommutes(b, c);
  }

  lemma {:induction false} XorBound(k: nat, a: nat, b: nat)
    requires a < Pow2(k) && b < Pow2(k)
    ensures Xor(a, b) < Pow2(k)
  {
    if k != 0 && (a != 0 || b != 0) {
      XorBound(k - 1, a / 2, b / 2);
    }
  }

  /** The highest bit of the larger operand survives. */
  lemma {:induction false} XorTopBit(k: nat, a: nat, b: nat)
    requires Pow2(k) <= a < Pow2(k + 1) && b < Pow2(k)
    ensures Pow2(k) <= Xor(a, b)
  {
    if k != 0 {
      XorTopBit(k - 1, a / 2, b / 2);
    } else {
      XorZero(a);
    }
  }

  lemma {:induction false} Pow2Values()
    ensures Pow2(8) == 0x100 && Pow2(16) == 0x1_0000 && Pow2(24) == 0x100_0000
    ensures Pow2(31) == 0x8000_0000 && Pow2(32) == WORD_LIMIT
  {
    assert Pow2(8) == 0x100;
    assert Pow2(16) == 0x1_0000;
    assert Pow2(24) == 0x100_0000;
    assert Pow2(28) == 0x1000_0000;
    assert Pow2(31) == 0x8000_0000;
  }

  /** Operands without a common bit position add up. */
  lemma {:induction false} XorDisjoint(k: nat, a: nat, b: nat)
    requires a < Pow2(k)
    ensures Xor(a, Pow2(k) * b) == a + Pow2(k) * b
  {
    if k == 0 {
      XorZero(b);
    } else {
      var p := Pow2(k - 1);
      XorDisjoint(k - 1, a / 2, b);
      DoubleProduct(p, b);
      assert Pow2(k) == 2 * p;
      hide Xor, Pow2;
      var q := p * b;
      XorHalf(a, 2 * q);
      assert Xor(a, 2 * q) / 2 == (a + 2 * q) / 2;
      SameHalves(Xor(a, 2 * q), a + 2 * q);
    }
  }

  lemma DoubleProduct(p: int, b: int)
    ensures (2 * p) * b == 2 * (p * b)
  {
  }

  lemma {:induction false} ByteXor(a: byte, b: byte)
    ensures Xor(a, b) < 0x100
  {
    Pow2Values();
    XorBound(8, a, b);
  }

  lemma {:induction false} WordXor(a: word, b: word)
    ensures Xor(a, b) < WORD_LIMIT
  {
    Pow2Values();
    XorBound(32, a, b);
  }

  // ----- little-endian words --------------------------------------------------------

  /** `struct.pack('<I', n)`; also the four `chr` of an image trailer. */
  function Pack32(n: nat): (s: seq<byte>)
    ensures |s| == 4
  {
    [n % 0x100, n / 0x100 % 0x100, n / 0x1_0000 % 0x100, n / 0x100_0000 % 0x100]
  }

  function Unpack32(s: seq<byte>): (n: word)
    requires |s| == 4
  {
    (s[0] as int) + 0x100 * (s[1] as int) + 0x1_0000 * (s[2] as int) + 0x100_0000 * (s[3] as int)
  }

  /** Every 32-bit number survives packing, with its lowest byte first. */
  lemma {:induction false} UnpackPack(n: word)
    ensures Unpack32(Pack32(n)) == n
    ensures var s := Pack32(n);
      n == (s[0] as int) + 256 * (s[1] as int) + 65536 * (s[2] as int) + 16777216 * (s[3] as int)
  {
    var a := n / 0x100;
    var b := a / 0x100;
    assert n / 0x1_0000 == b;
    assert n / 0x100_0000 == b / 0x100;
  }

  // ----- filling ----------------------------------------------------------------------

  /** `binascii.a2b_hex` of `n` copies of one byte. */
  function Repeat(b: byte, n: nat): (s: seq<byte>)
    ensures |s| == n
    ensures forall i :: 0 <= i < n ==> s[i] == b
  {
    seq(n, i => b)
  }
}
