/** What the CRC is (a polynomial remainder over GF(2)) and which errors it cannot miss. */
module CrcAlgebra {
  import opened Bits
  import opened Crc16

  // ----- Polynomials: coefficients, highest power first -----

  /** x^16 + x^12 + x^5 + 1 */
  const GENERATOR: Bits := [true] + GENERATOR_TAIL

  /** The product of two polynomials. */
  function Times(q: Bits, g: Bits): (p: Bits)
    requires |g| > 0
    ensures |p| == |q| + |g| - 1
  {
    if q == [] then Zeros(|g| - 1) else Xor(TopTerm(q, g), [false] + Times(q[1..], g))
  }

  ghost predicate DividesWith(dividend: Bits, q: Bits, r: Bits, g: Bits) {
    && |g| > 0 && |r| == |g| - 1 && |dividend| == |q| + |r|
    && dividend == Xor(Times(q, g), Zeros(|q|) + r)
  }

  /** r has lower degree than g, and some multiple of g plus r is the dividend. */
  ghost predicate IsRemainder(dividend: Bits, g: Bits, r: Bits) {
    exists q: Bits :: DividesWith(dividend, q, r, g)
  }

  lemma {:induction false} RemainderIsUnique(dividend: Bits, g: Bits, q: Bits, r: Bits, q': Bits, r': Bits)
    requires |g| > 0 && g[0]
    requires DividesWith(dividend, q, r, g) && DividesWith(dividend, q', r', g)
    ensures q == q' && r == r'
    decreases |q|
  {
    if q == [] {
      forall i | 0 <= i < |r|
        ensures r[i] == r'[i]
      {
        assert dividend[i] == (Times(q, g)[i] != (Zeros(|q|) + r)[i]);
        assert dividend[i] == (Times(q', g)[i] != (Zeros(|q'|) + r')[i]);
      }
    } else {
      assert dividend[0] == q[0] == q'[0];
      SubtractTop(dividend, g, q, r);
      SubtractTop(dividend, g, q', r');
      var rest := Xor(dividend, TopTerm(q, g))[1..];
      RemainderIsUnique(rest, g, q[1..], r, q'[1..], r');
      assert q == [q[0]] + q[1..] && q' == [q'[0]] + q'[1..];
    }
  }

  /** q's leading term times g. */
  function TopTerm(q: Bits, g: Bits): (t: Bits)
    requires q != []
    ensures |t| == |q| + |g| - 1
  {
    (if q[0] then g else Zeros(|g|)) + Zeros(|q| - 1)
  }

  /** Subtracting it leaves a shorter division by the same divisor. */
  lemma SubtractTop(dividend: Bits, g: Bits, q: Bits, r: Bits)
    requires DividesWith(dividend, q, r, g) && q != []
    ensures DividesWith(Xor(dividend, TopTerm(q, g))[1..], q[1..], r, g)
  {
    var left := Xor(dividend, TopTerm(q, g))[1..];
    var right := Xor(Times(q[1..], g), Zeros(|q| - 1) + r);
    forall i | 0 <= i < |left|
      ensures left[i] == right[i]
    {
      SubtractTopAt(dividend, g, q, r, i);
    }
    hide Times, Zeros, Xor, TopTerm;
    assert left == right;
  }

  lemma SubtractTopAt(dividend: Bits, g: Bits, q: Bits, r: Bits, i: nat)
    requires DividesWith(dividend, q, r, g) && q != [] && i + 1 < |dividend|
    ensures Xor(dividend, TopTerm(q, g))[1..][i] == Xor(Times(q[1..], g), Zeros(|q| - 1) + r)[i]
  {
    var top := TopTerm(q, g);
    var below := Times(q[1..], g);
    assert Times(q, g) == Xor(top, [false] + below);
    hide Times, Zeros, Xor, TopTerm;
    assert dividend[i + 1] == (Times(q, g)[i + 1] != (Zeros(|q|) + r)[i + 1]);
    assert Times(q, g)[i + 1] == (top[i + 1] != ([false] + below)[i + 1]);
    assert (Zeros(|q|) + r)[i + 1] == (Zeros(|q| - 1) + r)[i];
    assert ([false] + below)[i + 1] == below[i];
  }

  // ----- The register divides by the generator -----

  /** message * x^16 + register * x^|message| */
  function Dividend(r: Bits, message: Bits): (d: Bits)
    requires |r| == 16
    ensures |d| == |message| + 16
  {
    Xor(message + Zeros(16), r + Zeros(|message|))
  }

  /** What the register's top bit and the message decided, turn by turn. */
  function Quotient(r: Bits, message: Bits): (q: Bits)
    requires |r| == 16
    ensures |q| == |message|
    decreases |message|
  {
    if message == [] then []
    else [r[0] != message[0]] + Quotient(Feed(r, message[0]), message[1..])
  }

  lemma {:induction false} DivideIsDivision(r: Bits, message: Bits)
    requires |r| == 16
    ensures DividesWith(Dividend(r, message), Quotient(r, message), Divide(r, message), GENERATOR)
    decreases |message|
  {
    var q, rem := Quotient(r, message), Divide(r, message);
    if message == [] {
      assert Dividend(r, message) == r;
      assert Xor(Times(q, GENERATOR), Zeros(0) + rem) == r;
    } else {
      var fed, rest := Feed(r, message[0]), message[1..];
      DivideIsDivision(fed, rest);
      var below := Times(q[1..], GENERATOR);
      assert q[1..] == Quotient(fed, rest);
      hide Divide, Quotient, Zeros, Xor, TopTerm;
      forall i | 0 <= i < |message| + 16
        ensures Dividend(r, message)[i] == Xor(Times(q, GENERATOR), Zeros(|q|) + rem)[i]
      {
        if i > 0 {
          assert Dividend(fed, rest)[i - 1] == (below[i - 1] != (Zeros(|rest|) + rem)[i - 1]);
          assert (message + Zeros(16))[i] == (rest + Zeros(16))[i - 1];
        }
      }
    }
  }

  /** The preset added to the message's first sixteen coefficients. */
  function CrcDividend(data: seq<u8>): Bits {
    Dividend(Ones(16), BitsOf(data))
  }

  /** The CRC is the remainder of message * x^16, with preset, modulo the generator; and nothing else is. */
  lemma CrcIsTheRemainder(data: seq<u8>, r: u16)
    ensures r == Crc(data) <==> IsRemainder(CrcDividend(data), GENERATOR, BitsOfInt(r, 16))
  {
    CrcDivides(data);
    var q := Quotient(Ones(16), BitsOf(data));
    DivideIsDivision(Ones(16), BitsOf(data));
    assert DividesWith(CrcDividend(data), q, BitsOfInt(Crc(data), 16), GENERATOR);
    if IsRemainder(CrcDividend(data), GENERATOR, BitsOfInt(r, 16)) {
      var q' :| DividesWith(CrcDividend(data), q', BitsOfInt(r, 16), GENERATOR);
      RemainderIsUnique(CrcDividend(data), GENERATOR, q, BitsOfInt(Crc(data), 16), q', BitsOfInt(r, 16));
      Pow2Values();
      BitsOfIntInjective(r, Crc(data), 16);
    }
  }

  // ----- Consequences -----

  lemma CrcOfThree(a: seq<u8>, b: seq<u8>, c: seq<u8>)
    requires |a| == |b| == |c|
    ensures Crc(XorBytes(XorBytes(a, b), c)) == XorWord(XorWord(Crc(a), Crc(b)), Crc(c))
  {
    var ones := Ones(16);
    CrcDivides(a);
    CrcDivides(b);
    CrcDivides(c);
    CrcDivides(XorBytes(XorBytes(a, b), c));
    BitsOfXor(a, b);
    BitsOfXor(XorBytes(a, b), c);
    DivideLinear(ones, ones, BitsOf(a), BitsOf(b));
    DivideLinear(Xor(ones, ones), ones, Xor(BitsOf(a), BitsOf(b)), BitsOf(c));
    assert Xor(Xor(ones, ones), ones) == ones;
    BitsOfIntXor(Crc(a), Crc(b), 16);
    BitsOfIntXor(XorWord(Crc(a), Crc(b)), Crc(c), 16);
    Pow2Values();
    hide Crc, XorInt, BitsOfInt, Divide, Pow2;
    BitsOfIntInjective(Crc(XorBytes(XorBytes(a, b), c)), XorWord(XorWord(Crc(a), Crc(b)), Crc(c)), 16);
  }

  /** Sixteen more bits empty the register exactly when they repeat it. */
  lemma DivideToZero(r: Bits, tail: Bits)
    requires |r| == |tail| == 16
    ensures Divide(r, tail) == Zeros(16) <==> r == tail
  {
    DivideAbsorbs(r, tail);
    DivideZeroByZeros(16);
    assert tail + Zeros(0) == tail;
    assert r == tail ==> Xor(r, tail) == Zeros(16);
    if Divide(r, tail) == Zeros(16) {
      DivideZerosInjective(Xor(r, tail), Zeros(16), 16);
      forall i | 0 <= i < 16
        ensures r[i] == tail[i]
      {
        assert !Xor(r, tail)[i];
      }
    }
  }

  lemma BitsOfZeroWord(w: u16)
    ensures w == 0 <==> BitsOfInt(w, 16) == Zeros(16)
  {
    BitsOfZero(16);
    Pow2Values();
    if BitsOfInt(w, 16) == Zeros(16) {
      BitsOfIntInjective(w, 0, 16);
    }
  }

  /** A message followed by its CRC leaves a zero residue, and by anything else does not. */
  lemma ZeroResidue(d: seq<u8>, w: u16)
    ensures Crc(d + [w / 256, w % 256]) == 0 <==> w == Crc(d)
  {
    var tail: seq<u8> := [w / 256, w % 256];
    CrcDivides(d);
    CrcDivides(d + tail);
    BitsOfConcat(d, tail);
    BitsOfTwoBytes(w);
    DivideConcat(Ones(16), BitsOf(d), BitsOfInt(w, 16));
    DivideToZero(BitsOfInt(Crc(d), 16), BitsOfInt(w, 16));
    BitsOfZeroWord(Crc(d + tail));
    Pow2Values();
    if BitsOfInt(Crc(d), 16) == BitsOfInt(w, 16) {
      BitsOfIntInjective(w, Crc(d), 16);
    }
  }

  // ----- Error detection -----

  /** What an error pattern alone leaves in a register that started empty. */
  function Syndrome(e: Bits): (r: Bits)
    ensures |r| == 16
  {
    Divide(Zeros(16), e)
  }

  /** A corrupted message passes its corrupted checksum exactly when the error is a multiple of the generator. */
  lemma CheckPassesIff(d: seq<u8>, error: seq<u8>, checkError: u16)
    requires |error| == |d|
    ensures Crc(XorBytes(d, error)) == XorWord(Crc(d), checkError)
            <==> Syndrome(BitsOf(error) + BitsOfInt(checkError, 16)) == Zeros(16)
  {
    var ones := Ones(16);
    CrcDivides(d);
    CrcDivides(XorBytes(d, error));
    BitsOfXor(d, error);
    DivideLinear(ones, Zeros(16), BitsOf(d), BitsOf(error));
    assert Xor(ones, Zeros(16)) == ones;
    BitsOfIntXor(Crc(d), checkError, 16);
    DivideConcat(Zeros(16), BitsOf(error), BitsOfInt(checkError, 16));
    DivideToZero(Syndrome(BitsOf(error)), BitsOfInt(checkError, 16));
    Pow2Values();
    hide Crc, XorInt, BitsOfInt, Divide, Pow2;
    var x, y := BitsOfInt(Crc(d), 16), BitsOfInt(checkError, 16);
    XorCancels(x, Syndrome(BitsOf(error)), y);
    if Syndrome(BitsOf(error)) == y {
      BitsOfIntInjective(Crc(XorBytes(d, error)), XorWord(Crc(d), checkError), 16);
    }
  }

  lemma XorCancels(x: Bits, y: Bits, z: Bits)
    requires |x| == |y| == |z|
    ensures Xor(x, y) == Xor(x, z) <==> y == z
  {
    if Xor(x, y) == Xor(x, z) {
      forall i | 0 <= i < |x|
        ensures y[i] == z[i]
      {
        assert Xor(x, y)[i] == Xor(x, z)[i];
      }
    }
  }

  function Parity(x: Bits): bool {
    x != [] && x[0] != Parity(x[1..])
  }

  lemma {:induction false} ParityIsWeight(x: Bits)
    ensures Parity(x) <==> Weight(x) % 2 == 1
  {
    if x != [] {
      ParityIsWeight(x[1..]);
    }
  }

  lemma {:induction false} ParityXor(x: Bits, y: Bits)
    requires |x| == |y|
    ensures Parity(Xor(x, y)) == (Parity(x) != Parity(y))
  {
    if x != [] {
      ParityXor(x[1..], y[1..]);
      assert Xor(x, y)[1..] == Xor(x[1..], y[1..]);
    }
  }

  lemma {:induction false} ParityConcat(a: Bits, b: Bits)
    ensures Parity(a + b) == (Parity(a) != Parity(b))
  {
    if a == [] {
      assert a + b == b;
    } else {
      ParityConcat(a[1..], b);
      assert (a + b)[1..] == a[1..] + b;
    }
  }

  lemma {:induction false} ParityOfZeros(n: nat)
    ensures !Parity(Zeros(n))
  {
    if n > 0 {
      ParityOfZeros(n - 1);
      assert Zeros(n)[1..] == Zeros(n - 1);
    }
  }

  lemma ParityOfOne(b: bool)
    ensures Parity([b]) == b
  {
    assert [b][1..] == [];
  }

  lemma GeneratorTailParity()
    ensures Parity(GENERATOR_TAIL)
  {
    ParityOfOne(true);
    ParityOfZeros(3);
    ParityOfZeros(6);
    ParityOfZeros(4);
    hide Parity;
    var a, b, c := Zeros(3) + [true], Zeros(6) + [true], Zeros(4) + [true];
    ParityConcat(Zeros(3), [true]);
    ParityConcat(Zeros(6), [true]);
    ParityConcat(Zeros(4), [true]);
    ParityConcat(a, b);
    ParityConcat(a + b, c);
    assert GENERATOR_TAIL == a + b + c;
  }

  lemma FeedParity(r: Bits, b: bool)
    requires |r| == 16
    ensures Parity(Feed(r, b)) == (Parity(r) != b)
  {
    assert Parity(r) == (r[0] != Parity(r[1..]));
    hide Parity, Xor;
    ParityOfOne(false);
    ParityConcat(r[1..], [false]);
    GeneratorTailParity();
    ParityXor(r[1..] + [false], GENERATOR_TAIL);
  }

  /** The generator has an even number of terms, so the register carries the parity of everything fed. */
  lemma {:induction false} DivideKeepsParity(r: Bits, message: Bits)
    requires |r| == 16
    ensures Parity(Divide(r, message)) == (Parity(r) != Parity(message))
    decreases |message|
  {
    if message != [] {
      FeedParity(r, message[0]);
      DivideKeepsParity(Feed(r, message[0]), message[1..]);
    }
  }

  lemma OddErrorIsCaught(e: Bits)
    requires Weight(e) % 2 == 1
    ensures Syndrome(e) != Zeros(16)
  {
    ParityIsWeight(e);
    DivideKeepsParity(Zeros(16), e);
    ParityOfZeros(16);
  }

  /** Some bit is set, and all set bits lie within `width` consecutive positions. */
  ghost predicate IsBurst(e: Bits, width: nat) {
    exists lo: nat, hi: nat :: IsBurstBetween(e, lo, hi) && hi - lo <= width
  }

  ghost predicate IsBurstBetween(e: Bits, lo: nat, hi: nat) {
    && lo < hi <= |e|
    && (forall i :: 0 <= i < |e| && e[i] ==> lo <= i < hi)
    && exists i :: lo <= i < hi && e[i]
  }

  lemma BurstIsCaught(e: Bits)
    requires IsBurst(e, 16)
    ensures Syndrome(e) != Zeros(16)
  {
    var lo: nat, hi: nat :| IsBurstBetween(e, lo, hi) && hi - lo <= 16;
    var k :| lo <= k < hi && e[k];
    var body := e[lo..hi];
    BurstParts(e, lo, hi);
    assert body[k - lo];
    hide Divide, Zeros, IsBurst, IsBurstBetween;
    ShortBurstIsCaught(body, k - lo);
    DivideConcat(Zeros(16), Zeros(lo), body + Zeros(|e| - hi));
    DivideConcat(Zeros(16), body, Zeros(|e| - hi));
    DivideZeroByZeros(lo);
    DivideZeroByZeros(|e| - hi);
    if Syndrome(e) == Zeros(16) {
      DivideZerosInjective(Divide(Zeros(16), body), Zeros(16), |e| - hi);
    }
  }

  lemma BurstParts(e: Bits, lo: nat, hi: nat)
    requires IsBurstBetween(e, lo, hi)
    ensures e == Zeros(lo) + (e[lo..hi] + Zeros(|e| - hi))
  {
    assert e[..lo] == Zeros(lo) && e[hi..] == Zeros(|e| - hi);
    assert e == e[..lo] + (e[lo..hi] + e[hi..]);
  }

  lemma ShortBurstIsCaught(body: Bits, k: nat)
    requires k < |body| <= 16 && body[k]
    ensures Divide(Zeros(16), body) != Zeros(16)
  {
    var padded := body + Zeros(16 - |body|);
    assert Xor(Zeros(16), padded)[k];
    DivideAbsorbs(Zeros(16), body);
    hide *;
    DivideZeroByZeros(|body|);
    if Divide(Zeros(16), body) == Zeros(16) {
      DivideZerosInjective(Xor(Zeros(16), padded), Zeros(16), |body|);
    }
  }
}
