/** From flipped bits on the wire to the events of the parser. */
module ErrorDetection {
  import opened Bits
  import opened Crc16
  import opened CrcAlgebra
  import opened Protocol
  import opened StreamParsing
  import opened ParserRuns
  import opened ParserSpec
  import opened ParserTheorems

  /** An error pattern for a frame of that length which leaves MAGIC, VERSION and LENGTH alone. */
  predicate SparesFraming(error: seq<u8>, length: nat) {
    && |error| == length >= MIN_FRAME_SIZE
    && error[0] == error[1] == error[2] == error[6] == error[7] == 0
  }

  lemma {:induction false} XorIntZero(a: nat)
    ensures XorInt(a, 0) == a
  {
    if a > 0 {
      XorIntZero(a / 2);
    }
  }

  /** a * 2^n */
  function Shifted(a: nat, n: nat): nat {
    if n == 0 then a else 2 * Shifted(a, n - 1)
  }

  lemma {:induction false} XorIntJoin(a: nat, b: nat, c: nat, d: nat, n: nat)
    requires b < Pow2(n) && d < Pow2(n)
    ensures XorInt(Shifted(a, n) + b, Shifted(c, n) + d) == Shifted(XorInt(a, c), n) + XorInt(b, d)
    decreases n
  {
    if n == 0 {
      assert XorInt(0, 0) == 0;
    } else {
      XorIntJoin(a, b / 2, c, d / 2, n - 1);
      XorIntDouble(Shifted(a, n - 1), Shifted(c, n - 1), Shifted(XorInt(a, c), n - 1), b, d);
      hide XorInt;
    }
  }

  lemma ShiftedByEight(a: nat)
    ensures Shifted(a, 8) == 256 * a
  {
    assert Shifted(a, 1) == 2 * a;
    assert Shifted(a, 2) == 4 * a;
    assert Shifted(a, 3) == 8 * a;
    assert Shifted(a, 4) == 16 * a;
    assert Shifted(a, 5) == 32 * a;
    assert Shifted(a, 6) == 64 * a;
    assert Shifted(a, 7) == 128 * a;
  }

  lemma XorIntDouble(x: nat, y: nat, z: nat, b: nat, d: nat)
    requires XorInt(x + b / 2, y + d / 2) == z + XorInt(b / 2, d / 2)
    ensures XorInt(2 * x + b, 2 * y + d) == 2 * z + XorInt(b, d)
  {
    XorIntHalves(2 * x + b, 2 * y + d);
    XorIntHalves(b, d);
    hide XorInt;
    assert (2 * x + b) / 2 == x + b / 2 && (2 * x + b) % 2 == b % 2;
    assert (2 * y + d) / 2 == y + d / 2 && (2 * y + d) % 2 == d % 2;
  }

  lemma XorIntHalves(a: nat, b: nat)
    ensures XorInt(a, b) == 2 * XorInt(a / 2, b / 2) + (if a % 2 != b % 2 then 1 else 0)
  {}

  lemma ReadXoredWord(f: seq<u8>, error: seq<u8>, at: nat)
    requires |f| == |error| && at + 2 <= |f|
    ensures ReadU16(XorBytes(f, error), at) == XorWord(ReadU16(f, at), ReadU16(error, at))
  {
    Pow2Values();
    XorIntJoin(f[at], f[at + 1], error[at], error[at + 1], 8);
    ShiftedByEight(f[at]);
    ShiftedByEight(error[at]);
    ShiftedByEight(XorInt(f[at], error[at]));
    hide XorInt, Shifted, Pow2;
  }

  lemma XorWithZeroByte(b: u8)
    ensures XorByte(b, 0) == b
  {
    XorIntZero(b);
  }

  /** A frame hit by an error that spares its framing still frames; its CRC check sees the error alone. */
  lemma CorruptedFrame(p: Packet, error: seq<u8>)
    requires Sendable(p) && SparesFraming(error, |Encoded(p)|)
    ensures var f := XorBytes(Encoded(p), error);
            && Hunted(f) && HeaderError(f) == ProtoOk && |f| == MIN_FRAME_SIZE + PayloadLength(f)
            && DecodeResult(f) == (if Syndrome(BitsOf(error)) == Zeros(16) then ProtoOk else ErrCrc)
  {
    var g := Encoded(p);
    var f := XorBytes(g, error);
    EncodedLayout(p);
    XorWithZeroByte(g[0]);
    XorWithZeroByte(g[1]);
    XorWithZeroByte(g[2]);
    XorWithZeroByte(g[6]);
    XorWithZeroByte(g[7]);
    assert f[0] == g[0] && f[1] == g[1] && f[2] == g[2] && f[6] == g[6] && f[7] == g[7];
    assert g[0] == g[..2][0] && g[1] == g[..2][1];
    CheckSeesErrorOnly(p, error);
    hide Encoded, Crc, Syndrome, BitsOf, XorBytes, Body;
    assert f[..2] == MAGIC;
    assert PayloadLength(f) == PayloadLength(g);
    HuntedByHead(f);
  }

  lemma CheckSeesErrorOnly(p: Packet, error: seq<u8>)
    requires Sendable(p) && SparesFraming(error, |Encoded(p)|)
    ensures var f := XorBytes(Encoded(p), error);
            Crc(f[2..|f| - 2]) == ReadU16(f, |f| - 2) <==> Syndrome(BitsOf(error)) == Zeros(16)
  {
    var g, n := Encoded(p), |error|;
    var f := XorBytes(g, error);
    EncodedLayout(p);
    hide Encoded, Crc, Syndrome, ReadU16, XorByte, XorInt, Body, BitsOf, BitsOfInt;
    var covered, check := error[2..n - 2], ReadU16(error, n - 2);
    XorBytesSlice(g, error, 2, n - 2);
    ReadXoredWord(g, error, n - 2);
    CheckPassesIff(Body(p), covered, check);
    SyndromeOfWhole(error);
  }

  lemma XorBytesSlice(x: seq<u8>, y: seq<u8>, lo: nat, hi: nat)
    requires |x| == |y| && lo <= hi <= |x|
    ensures XorBytes(x, y)[lo..hi] == XorBytes(x[lo..hi], y[lo..hi])
  {
    hide XorByte;
  }

  /** The two spared bytes of MAGIC, outside the CRC, leave an empty register empty. */
  lemma SyndromeOfWhole(error: seq<u8>)
    requires |error| >= MIN_FRAME_SIZE && error[0] == error[1] == 0
    ensures Syndrome(BitsOf(error)) == Syndrome(BitsOf(error[2..|error| - 2]) + BitsOfInt(ReadU16(error, |error| - 2), 16))
  {
    var n := |error|;
    var covered, check := error[2..n - 2], ReadU16(error, n - 2);
    BytesOfWord(error, n - 2);
    hide BitsOf, BitsOfInt, Divide, ReadU16;
    BitsOfTwoBytes(check);
    BitsOfConcat(covered, error[n - 2..]);
    assert error[2..] == covered + error[n - 2..];
    SyndromeSkipsTwoZeroBytes(error);
  }

  lemma BytesOfWord(s: seq<u8>, at: nat)
    requires |s| == at + 2
    ensures s[at..] == [ReadU16(s, at) / 256, ReadU16(s, at) % 256]
  {}

  lemma SyndromeSkipsTwoZeroBytes(error: seq<u8>)
    requires |error| >= 2 && error[0] == error[1] == 0
    ensures Syndrome(BitsOf(error)) == Syndrome(BitsOf(error[2..]))
  {
    assert error == error[..2] + error[2..];
    TwoZeroBytes(error[..2]);
    hide BitsOf, Divide;
    BitsOfConcat(error[..2], error[2..]);
    DivideConcat(Zeros(16), Zeros(16), BitsOf(error[2..]));
    DivideZeroByZeros(16);
  }

  lemma TwoZeroBytes(s: seq<u8>)
    requires |s| == 2 && s[0] == s[1] == 0
    ensures BitsOf(s) == Zeros(16)
  {
    BitsOfZero(8);
    assert s[1..][1..] == [];
  }

  /** A parser at a frame boundary judges a well-framed candidate, and then whatever follows it. */
  lemma JudgesThenContinues(p: Parser, f: seq<u8>, next: Packet)
    requires Inv(p) && p.phase.WaitMagic1? && Sendable(next)
    requires Hunted(f) && |f| >= HEADER_SIZE && HeaderError(f) == ProtoOk && |f| == MIN_FRAME_SIZE + PayloadLength(f)
    ensures Outcomes(Run(p, f).1) == [Verdict(f)]
    ensures var (q, es) := Run(p, f + Encoded(next));
            Outcomes(es) == [Verdict(f), FrameEvent(next)] && q.pending == [] && q.phase.WaitMagic1?
  {
    BackAtBoundary(p, f);
    var q := Run(p, f).0;
    hide Encoded, Run, Read, Inv, Outcomes, HeaderError, PayloadLength, Verdict;
    RunKeepsInv(p, f);
    DeliversOne(q, next);
    RunConcat(p, f, Encoded(next));
    OutcomesConcat(Run(p, f).1, Run(q, Encoded(next)).1);
  }

  lemma BackAtBoundary(p: Parser, f: seq<u8>)
    requires Inv(p) && p.phase.WaitMagic1?
    requires Hunted(f) && |f| >= HEADER_SIZE && HeaderError(f) == ProtoOk && |f| == MIN_FRAME_SIZE + PayloadLength(f)
    ensures var (q, es) := Run(p, f);
            Outcomes(es) == [Verdict(f)] && q.phase.WaitMagic1?
  {
    assert p.pending + f == f;
    RunKeepsInv(p, f);
    assert Run(p, f).0.pending == [] ==> Run(p, f).0.phase.WaitMagic1?;
    hide Run, Read, Inv, HeaderError, PayloadLength, Verdict;
    ParserReads(p, f);
    ReadOneCandidate(f);
  }

  lemma {:induction false} OutcomesConcat(es: seq<Event>, fs: seq<Event>)
    ensures Outcomes(es + fs) == Outcomes(es) + Outcomes(fs)
  {
    if fs == [] {
      assert es + fs == es;
    } else {
      OutcomesConcat(es, fs[..|fs| - 1]);
      assert (es + fs)[..|es + fs| - 1] == es + fs[..|fs| - 1];
    }
  }

  /**
   * Flip any odd number of bits, or any burst of at most 16, outside MAGIC, VERSION and LENGTH: a parser at a
   * frame boundary reports one CRC error and no frame, and then decodes the next clean frame.
   */
  lemma CorruptionIsReportedAndSurvived(p: Parser, sent: Packet, error: seq<u8>, next: Packet)
    requires Inv(p) && p.phase.WaitMagic1? && Sendable(sent) && Sendable(next)
    requires SparesFraming(error, |Encoded(sent)|)
    requires Weight(BitsOf(error)) % 2 == 1 || IsBurst(BitsOf(error), 16)
    ensures var (q, es) := Run(p, XorBytes(Encoded(sent), error) + Encoded(next));
            && Outcomes(es) == [ErrorEvent(ErrCrc), FrameEvent(next)]
            && q.pending == [] && q.phase.WaitMagic1?
  {
    hide Encoded, BitsOf, Weight, IsBurst, Syndrome, Run, Outcomes, Inv, XorBytes, Hunted, PayloadLength;
    if Weight(BitsOf(error)) % 2 == 1 {
      OddErrorIsCaught(BitsOf(error));
    } else {
      BurstIsCaught(BitsOf(error));
    }
    CorruptedFrame(sent, error);
    VerdictOnCorrupted(sent, error);
    JudgesThenContinues(p, XorBytes(Encoded(sent), error), next);
  }

  lemma VerdictOnCorrupted(sent: Packet, error: seq<u8>)
    requires Sendable(sent) && SparesFraming(error, |Encoded(sent)|)
    ensures var f := XorBytes(Encoded(sent), error);
            Verdict(f) == if Syndrome(BitsOf(error)) == Zeros(16) then FrameEvent(Decoded(f)) else ErrorEvent(ErrCrc)
  {
    CorruptedFrame(sent, error);
    hide Encoded, XorBytes, DecodeResult, Syndrome, BitsOf, Decoded;
  }

  /** The general case: such an error goes unseen exactly when it is a multiple of the generator. */
  lemma CorruptionIsSeenUnlessMultiple(p: Parser, sent: Packet, error: seq<u8>)
    requires Inv(p) && p.phase.WaitMagic1? && Sendable(sent) && SparesFraming(error, |Encoded(sent)|)
    ensures var f := XorBytes(Encoded(sent), error);
            Outcomes(Run(p, f).1)
            == [if IsRemainder(BitsOf(error), GENERATOR, Zeros(16)) then FrameEvent(Decoded(f)) else ErrorEvent(ErrCrc)]
  {
    SyndromeIsRemainder(BitsOf(error));
    hide Encoded, BitsOf, Syndrome, IsRemainder, Run, Outcomes, Inv, XorBytes, Hunted, PayloadLength;
    CorruptedFrame(sent, error);
    VerdictOnCorrupted(sent, error);
    BackAtBoundary(p, XorBytes(Encoded(sent), error));
  }

  /** The syndrome is empty exactly for the multiples of the generator. */
  lemma SyndromeIsRemainder(e: Bits)
    requires |e| >= 16
    ensures Syndrome(e) == Zeros(16) <==> IsRemainder(e, GENERATOR, Zeros(16))
  {
    // Feeding e to an empty register divides e * x^16; feeding all but the last 16 bits, and adding those, divides e.
    var front, back := e[..|e| - 16], e[|e| - 16..];
    assert e == front + back;
    hide Divide, Times, Xor, Zeros, Quotient, Dividend;
    DivideConcat(Zeros(16), front, back);
    var r := Divide(Zeros(16), front);
    DivideToZero(r, back);
    XorIsZero(r, back);
    DivideIsDivision(Zeros(16), front);
    var q := Quotient(Zeros(16), front);
    DividendOfEmpty(front);
    assert DividesWith(front + Zeros(16), q, r, GENERATOR);
    AddLow(front, Zeros(16), q, r, back);
    if IsRemainder(e, GENERATOR, Zeros(16)) {
      var q' :| DividesWith(e, q', Zeros(16), GENERATOR);
      RemainderIsUnique(e, GENERATOR, q, Xor(r, back), q', Zeros(16));
    }
  }

  lemma XorIsZero(x: Bits, y: Bits)
    requires |x| == |y|
    ensures Xor(x, y) == Zeros(|x|) <==> x == y
  {
    if Xor(x, y) == Zeros(|x|) {
      forall i | 0 <= i < |x|
        ensures x[i] == y[i]
      {
        assert !Xor(x, y)[i];
      }
    }
  }

  lemma DividendOfEmpty(message: Bits)
    ensures Dividend(Zeros(16), message) == message + Zeros(16)
  {}

  /** Changing the low coefficients of a dividend changes the remainder alike. */
  lemma AddLow(high: Bits, low: Bits, q: Bits, r: Bits, added: Bits)
    requires |low| == |added| == 16 && low == Zeros(16)
    requires DividesWith(high + low, q, r, GENERATOR)
    ensures DividesWith(high + added, q, Xor(r, added), GENERATOR)
  {
    var t := Times(q, GENERATOR);
    forall i | 0 <= i < |high| + 16
      ensures (high + added)[i] == Xor(t, Zeros(|q|) + Xor(r, added))[i]
    {
      assert (high + low)[i] == Xor(t, Zeros(|q|) + r)[i];
    }
  }
}
