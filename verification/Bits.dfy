/** Machine integers, their bits (most significant bit first) and exclusive or, which is addition over GF(2). */
module Bits {

  type u8 = x: int | 0 <= x < 0x100
  type u16 = x: int | 0 <= x < 0x1_0000
  type u32 = x: int | 0 <= x < 0x1_0000_0000

  type Bits = seq<bool>

  function Pow2(n: nat): (p: nat)
    ensures p > 0
  {
    if n == 0 then 1 else 2 * Pow2(n - 1)
  }

  /** The `^` operator on unsigned integers. */
  function XorInt(a: nat, b: nat): nat
    decreases a + b
  {
    if a == 0 && b == 0 then 0
    else 2 * XorInt(a / 2, b / 2) + (if a % 2 != b % 2 then 1 else 0)
  }

  function Zeros(n: nat): (z: Bits)
    ensures |z| == n && forall i :: 0 <= i < n ==> !z[i]
  {
    seq(n, _ => false)
  }

  function Xor(x: Bits, y: Bits): (z: Bits)
    requires |x| == |y|
    ensures |z| == |x| && forall i :: 0 <= i < |x| ==> z[i] == (x[i] != y[i])
  {
    seq(|x|, i requires 0 <= i < |x| => x[i] != y[i])
  }

  /** How many bits are set. */
  function Weight(x: Bits): nat {
    if x == [] then 0 else (if x[0] then 1 else 0) + Weight(x[1..])
  }

  /** The low n bits of v. */
  function BitsOfInt(v: nat, n: nat): (r: Bits)
    ensures |r| == n
  {
    if n == 0 then [] else BitsOfInt(v / 2, n - 1) + [v % 2 == 1]
  }

  function BitsOf(s: seq<u8>): (r: Bits)
    ensures |r| == 8 * |s|
  {
    if s == [] then [] else BitsOfInt(s[0], 8) + BitsOf(s[1..])
  }

  lemma {:induction false} XorIntBound(a: nat, b: nat, n: nat)
    requires a < Pow2(n) && b < Pow2(n)
    ensures XorInt(a, b) < Pow2(n)
  {
    if a != 0 || b != 0 {
      XorIntBound(a / 2, b / 2, n - 1);
    }
  }

  function XorByte(a: u8, b: u8): (r: u8) {
    Pow2Values();
    XorIntBound(a, b, 8);
    XorInt(a, b)
  }

  function XorWord(a: u16, b: u16): (r: u16) {
    Pow2Values();
    XorIntBound(a, b, 16);
    XorInt(a, b)
  }

  function XorBytes(x: seq<u8>, y: seq<u8>): (z: seq<u8>)
    requires |x| == |y|
    ensures |z| == |x| && forall i :: 0 <= i < |x| ==> z[i] == XorByte(x[i], y[i])
  {
    seq(|x|, i requires 0 <= i < |x| => XorByte(x[i], y[i]))
  }

  lemma {:induction false} BitsOfIntXor(a: nat, b: nat, n: nat)
    ensures BitsOfInt(XorInt(a, b), n) == Xor(BitsOfInt(a, n), BitsOfInt(b, n))
  {
    if n > 0 {
      BitsOfIntXor(a / 2, b / 2, n - 1);
      assert XorInt(a, b) / 2 == XorInt(a / 2, b / 2);
    }
  }

  lemma {:induction false} BitsOfIntInjective(a: nat, b: nat, n: nat)
    requires a < Pow2(n) && b < Pow2(n)
    requires BitsOfInt(a, n) == BitsOfInt(b, n)
    ensures a == b
  {
    if n > 0 {
      var x, y := BitsOfInt(a, n), BitsOfInt(b, n);
      assert x[n - 1] == y[n - 1];
      assert x[..n - 1] == BitsOfInt(a / 2, n - 1) && y[..n - 1] == BitsOfInt(b / 2, n - 1);
      BitsOfIntInjective(a / 2, b / 2, n - 1);
    }
  }

  lemma {:induction false} BitsOfIntJoin(hi: nat, lo: nat, m: nat, n: nat)
    requires lo < Pow2(n)
    ensures BitsOfInt(hi * Pow2(n) + lo, m + n) == BitsOfInt(hi, m) + BitsOfInt(lo, n)
  {
    if n == 0 {
      assert BitsOfInt(hi, m) + [] == BitsOfInt(hi, m);
    } else {
      var x := hi * Pow2(n - 1);
      assert hi * Pow2(n) == 2 * x;
      BitsOfIntJoin(hi, lo / 2, m, n - 1);
      assert (2 * x + lo) / 2 == x + lo / 2 && (2 * x + lo) % 2 == lo % 2;
    }
  }

  lemma Pow2Values()
    ensures Pow2(1) == 2 && Pow2(4) == 16 && Pow2(8) == 0x100 && Pow2(15) == 0x8000 && Pow2(16) == 0x1_0000
  {}

  lemma {:induction false} BitsOfConcat(a: seq<u8>, b: seq<u8>)
    ensures BitsOf(a + b) == BitsOf(a) + BitsOf(b)
  {
    if a == [] {
      assert a + b == b;
    } else {
      BitsOfConcat(a[1..], b);
      assert (a + b)[1..] == a[1..] + b;
    }
  }

  lemma {:induction false} BitsOfXor(a: seq<u8>, b: seq<u8>)
    requires |a| == |b|
    ensures BitsOf(XorBytes(a, b)) == Xor(BitsOf(a), BitsOf(b))
  {
    if a != [] {
      BitsOfIntXor(a[0], b[0], 8);
      BitsOfXor(a[1..], b[1..]);
      assert XorBytes(a, b)[1..] == XorBytes(a[1..], b[1..]);
    }
  }

  lemma BitsOfTwoBytes(w: u16)
    ensures BitsOf([w / 256, w % 256]) == BitsOfInt(w, 16)
  {
    Pow2Values();
    BitsOfIntJoin(w / 256, w % 256, 8, 8);
    hide BitsOfInt;
    var s: seq<u8> := [w / 256, w % 256];
    assert s[1..] == [w % 256] && s[1..][1..] == [];
  }

  /** `w << 1`, truncated to 16 bits. */
  lemma BitsOfShift(w: u16)
    ensures BitsOfInt(w, 16)[0] == (w / 0x8000 % 2 == 1)
    ensures BitsOfInt(w * 2 % 0x1_0000, 16) == BitsOfInt(w, 16)[1..] + [false]
  {
    Pow2Values();
    BitsOfIntJoin(w / 0x8000, w % 0x8000, 1, 15);
    BitsOfIntOne(w / 0x8000);
    BitsOfIntDouble(w % 0x8000, 15);
    ShiftDropsTopBit(w);
    hide BitsOfInt, Pow2;
  }

  lemma ShiftDropsTopBit(w: u16)
    ensures w * 2 % 0x1_0000 == 2 * (w % 0x8000)
  {}

  lemma BitsOfIntOne(v: nat)
    ensures BitsOfInt(v, 1) == [v % 2 == 1]
  {}

  lemma BitsOfIntDouble(v: nat, n: nat)
    ensures BitsOfInt(2 * v, n + 1) == BitsOfInt(v, n) + [false]
  {}

  /** `b << 8` on a byte promoted to 16 bits. */
  lemma BitsOfShiftedByte(b: u8)
    ensures BitsOfInt(b * 256, 16) == BitsOfInt(b, 8) + Zeros(8)
  {
    Pow2Values();
    BitsOfIntJoin(b, 0, 8, 8);
    BitsOfZero(8);
  }

  lemma {:induction false} BitsOfZero(n: nat)
    ensures BitsOfInt(0, n) == Zeros(n)
  {
    if n > 0 {
      BitsOfZero(n - 1);
    }
  }
}
