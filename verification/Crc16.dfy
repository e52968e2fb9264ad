/** CRC-16/CCITT-FALSE: the register loop, and the same register on single bits. */
module Crc16 {
  import opened Bits

  const POLYNOMIAL: u16 := 0x1021
  const PRESET: u16 := 0xFFFF

  // ----- The loop -----

  /** A byte promoted to 16 bits and shifted to the top. */
  function ByteTop(b: u8): u16 {
    var w: int := b;
    w * 256
  }

  /** One turn of the inner loop. */
  function BitStep(crc: u16): u16 {
    if crc / 0x8000 % 2 == 1 then XorWord(crc * 2 % 0x1_0000, POLYNOMIAL) else crc * 2 % 0x1_0000
  }

  function BitSteps(crc: u16, n: nat): u16 {
    if n == 0 then crc else BitStep(BitSteps(crc, n - 1))
  }

  function CrcFrom(crc: u16, data: seq<u8>): u16 {
    if data == [] then crc
    else BitSteps(XorWord(CrcFrom(crc, data[..|data| - 1]), ByteTop(data[|data| - 1])), 8)
  }

  function Crc(data: seq<u8>): u16 {
    CrcFrom(PRESET, data)
  }

  lemma CrcFromOneMore(crc: u16, data: seq<u8>, b: u8)
    ensures CrcFrom(crc, data + [b]) == BitSteps(XorWord(CrcFrom(crc, data), ByteTop(b)), 8)
  {
    assert (data + [b])[..|data|] == data;
  }

  method Crc16CcittFalse(data: array<u8>, offset: nat, length: nat) returns (crc: u16)
    requires offset + length <= data.Length
    ensures crc == Crc(data[offset..offset + length])
    ensures BitsOfInt(crc, 16) == Divide(Ones(16), BitsOf(data[offset..offset + length]))
  {
    crc := PRESET;
    hide XorInt;
    for i := 0 to length
      invariant crc == CrcFrom(PRESET, data[offset..offset + i])
    {
      ghost var before := crc;
      crc := XorWord(crc, ByteTop(data[offset + i]));
      for bit := 0 to 8
        invariant crc == BitSteps(XorWord(before, ByteTop(data[offset + i])), bit)
      {
        if crc / 0x8000 % 2 == 1 {
          crc := XorWord(crc * 2 % 0x1_0000, POLYNOMIAL);
        } else {
          crc := crc * 2 % 0x1_0000;
        }
      }
      CrcFromOneMore(PRESET, data[offset..offset + i], data[offset + i]);
      assert data[offset..offset + i + 1] == data[offset..offset + i] + [data[offset + i]];
    }
    CrcDivides(data[offset..offset + length]);
  }

  // ----- The register as a divider fed one message bit at a time -----

  function Ones(n: nat): (r: Bits)
    ensures |r| == n
  {
    seq(n, _ => true)
  }

  /** x^12 + x^5 + 1: the generator without its leading x^16. */
  const GENERATOR_TAIL: Bits := [false, false, false, true, false, false, false, false,
                                 false, false, true, false, false, false, false, true]

  function Feed(r: Bits, b: bool): (r': Bits)
    requires |r| == 16
    ensures |r'| == 16
  {
    if r[0] != b then Xor(r[1..] + [false], GENERATOR_TAIL) else r[1..] + [false]
  }

  function Divide(r: Bits, message: Bits): (r': Bits)
    requires |r| == 16
    ensures |r'| == 16
    decreases |message|
  {
    if message == [] then r else Divide(Feed(r, message[0]), message[1..])
  }

  lemma {:induction false} DivideConcat(r: Bits, a: Bits, b: Bits)
    requires |r| == 16
    ensures Divide(r, a + b) == Divide(Divide(r, a), b)
    decreases |a|
  {
    hide Feed;
    if a == [] {
      assert a + b == b;
    } else {
      DivideConcat(Feed(r, a[0]), a[1..], b);
      assert (a + b)[1..] == a[1..] + b;
    }
  }

  /** The register is linear: errors travel through it on their own. */
  lemma {:induction false} DivideLinear(r: Bits, s: Bits, a: Bits, b: Bits)
    requires |r| == |s| == 16 && |a| == |b|
    ensures Divide(Xor(r, s), Xor(a, b)) == Xor(Divide(r, a), Divide(s, b))
    decreases |a|
  {
    if a != [] {
      assert Feed(Xor(r, s), Xor(a, b)[0]) == Xor(Feed(r, a[0]), Feed(s, b[0]));
      DivideLinear(Feed(r, a[0]), Feed(s, b[0]), a[1..], b[1..]);
      assert Xor(a, b)[1..] == Xor(a[1..], b[1..]);
    }
  }

  /** Message bits may as well be added to the register in advance. */
  lemma {:induction false} DivideAbsorbs(r: Bits, message: Bits)
    requires |r| == 16 && |message| <= 16
    ensures Divide(r, message) == Divide(Xor(r, message + Zeros(16 - |message|)), Zeros(|message|))
    decreases |message|
  {
    var padded := message + Zeros(16 - |message|);
    if message == [] {
      assert Xor(r, padded) == r;
    } else {
      var rest := message[1..];
      var fed := Feed(r, message[0]);
      assert Feed(Xor(r, padded), false) == Xor(fed, rest + Zeros(16 - |rest|));
      DivideAbsorbs(fed, rest);
      assert Zeros(|message|)[1..] == Zeros(|rest|);
    }
  }

  /** A register fed zeros never forgets: the step can be undone. */
  lemma {:induction false} DivideZerosInjective(r: Bits, s: Bits, n: nat)
    requires |r| == |s| == 16
    requires Divide(r, Zeros(n)) == Divide(s, Zeros(n))
    ensures r == s
    decreases n
  {
    if n > 0 {
      assert Zeros(n)[1..] == Zeros(n - 1);
      DivideZerosInjective(Feed(r, false), Feed(s, false), n - 1);
      FeedInjective(r, s);
    }
  }

  lemma FeedInjective(r: Bits, s: Bits)
    requires |r| == |s| == 16
    requires Feed(r, false) == Feed(s, false)
    ensures r == s
  {
    var x, y := Feed(r, false), Feed(s, false);
    assert x[15] == r[0] && y[15] == s[0];
    forall i | 1 <= i < 16
      ensures r[i] == s[i]
    {
      assert x[i - 1] == (r[i] != (r[0] && GENERATOR_TAIL[i - 1]));
      assert y[i - 1] == (s[i] != (s[0] && GENERATOR_TAIL[i - 1]));
    }
  }

  lemma {:induction false} DivideZeroByZeros(n: nat)
    ensures Divide(Zeros(16), Zeros(n)) == Zeros(16)
  {
    if n > 0 {
      assert Zeros(16)[1..] + [false] == Zeros(16);
      assert Zeros(n)[1..] == Zeros(n - 1);
      DivideZeroByZeros(n - 1);
    }
  }

  // ----- The two registers agree -----

  lemma NibbleBits()
    ensures BitsOfInt(0x0, 4) == [false, false, false, false]
    ensures BitsOfInt(0x1, 4) == [false, false, false, true]
    ensures BitsOfInt(0x2, 4) == [false, false, true, false]
    ensures BitsOfInt(0xF, 4) == [true, true, true, true]
  {}

  lemma PolynomialBits()
    ensures BitsOfInt(POLYNOMIAL, 16) == GENERATOR_TAIL
  {
    NibbleBits();
    Pow2Values();
    hide BitsOfInt;
    BitsOfIntJoin(0x1, 0x0, 4, 4);
    BitsOfIntJoin(0x2, 0x1, 4, 4);
    BitsOfIntJoin(0x10, 0x21, 8, 8);
  }

  lemma PresetBits()
    ensures BitsOfInt(PRESET, 16) == Ones(16)
  {
    NibbleBits();
    Pow2Values();
    hide BitsOfInt;
    BitsOfIntJoin(0xF, 0xF, 4, 4);
    BitsOfIntJoin(0xFF, 0xFF, 8, 8);
  }

  lemma BitStepIsFeed(crc: u16)
    ensures BitsOfInt(BitStep(crc), 16) == Feed(BitsOfInt(crc, 16), false)
  {
    PolynomialBits();
    BitsOfShift(crc);
    BitsOfIntXor(crc * 2 % 0x1_0000, POLYNOMIAL, 16);
    hide BitsOfInt, XorInt;
  }

  lemma {:induction false} BitStepsAreFeeds(crc: u16, n: nat)
    ensures BitsOfInt(BitSteps(crc, n), 16) == Divide(BitsOfInt(crc, 16), Zeros(n))
  {
    hide BitsOfInt;
    if n > 0 {
      BitStepsAreFeeds(crc, n - 1);
      BitStepIsFeed(BitSteps(crc, n - 1));
      DivideConcat(BitsOfInt(crc, 16), Zeros(n - 1), [false]);
      assert Zeros(n) == Zeros(n - 1) + [false];
    }
  }

  lemma ByteStepDivides(crc: u16, b: u8)
    ensures BitsOfInt(BitSteps(XorWord(crc, ByteTop(b)), 8), 16) == Divide(BitsOfInt(crc, 16), BitsOfInt(b, 8))
  {
    hide BitsOfInt, XorInt, Divide, BitSteps;
    BitsOfShiftedByte(b);
    BitsOfIntXor(crc, ByteTop(b), 16);
    BitStepsAreFeeds(XorWord(crc, ByteTop(b)), 8);
    DivideAbsorbs(BitsOfInt(crc, 16), BitsOfInt(b, 8));
  }

  lemma {:induction false} CrcFromDivides(crc: u16, data: seq<u8>)
    ensures BitsOfInt(CrcFrom(crc, data), 16) == Divide(BitsOfInt(crc, 16), BitsOf(data))
  {
    hide BitsOfInt, BitSteps;
    if data != [] {
      var front, last := data[..|data| - 1], data[|data| - 1];
      CrcFromDivides(crc, front);
      ByteStepDivides(CrcFrom(crc, front), last);
      assert data == front + [last];
      BitsOfConcat(front, [last]);
      assert BitsOf([last]) == BitsOfInt(last, 8) by {
        assert [last][1..] == [] && BitsOfInt(last, 8) + [] == BitsOfInt(last, 8);
      }
      DivideConcat(BitsOfInt(crc, 16), BitsOf(front), BitsOfInt(last, 8));
    }
  }

  /** The loop's result is the register divided by the message's bits, from a register of ones. */
  lemma CrcDivides(data: seq<u8>)
    ensures BitsOfInt(Crc(data), 16) == Divide(Ones(16), BitsOf(data))
  {
    CrcFromDivides(PRESET, data);
    PresetBits();
  }
}
