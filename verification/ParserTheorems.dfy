/** What the frame format and the parser promise together: delivery, resynchronisation and error detection. */
module ParserTheorems {
  import opened Bits
  import opened Crc16
  import opened CrcAlgebra
  import opened Protocol
  import opened StreamParsing
  import opened ParserRuns
  import opened ParserSpec

  // ----- Delivery through noise, however the stream is chunked -----

  predicate MagicAt(s: seq<u8>, k: nat)
    requires k + 1 < |s|
  {
    s[k] == MAGIC_HI && s[k + 1] == MAGIC_LO
  }

  /** No adjacent AA 55 (a trailing AA is allowed). */
  predicate NoMagic(s: seq<u8>) {
    forall k :: 0 <= k < |s| - 1 ==> !MagicAt(s, k)
  }

  lemma {:induction false} HuntSkipsNoise(noise: seq<u8>, rest: seq<u8>)
    requires NoMagic(noise) && MAGIC <= rest
    ensures Hunt(noise + rest) == rest
  {
    var s := noise + rest;
    if noise == [] {
      assert s == rest;
    } else {
      HuntedByHead(s);
      assert |noise| >= 2 ==> !MagicAt(noise, 0);
      assert NoMagic(noise[1..]) by {
        assert forall k :: 0 <= k < |noise[1..]| - 1 ==> MagicAt(noise[1..], k) == MagicAt(noise, k + 1);
      }
      HuntSkipsNoise(noise[1..], rest);
      assert s[1..] == noise[1..] + rest;
    }
  }

  lemma {:induction false} HuntInNoise(noise: seq<u8>)
    requires NoMagic(noise)
    ensures Hunt(noise) == if noise != [] && noise[|noise| - 1] == MAGIC_HI then [MAGIC_HI] else []
  {
    HuntedByHead(noise);
    if |noise| >= 2 {
      assert !MagicAt(noise, 0);
      assert NoMagic(noise[1..]) by {
        assert forall k :: 0 <= k < |noise[1..]| - 1 ==> MagicAt(noise[1..], k) == MagicAt(noise, k + 1);
      }
      HuntInNoise(noise[1..]);
    } else if |noise| == 1 {
      assert noise[1..] == [];
    }
  }

  lemma ReadFrame(p: Packet, rest: seq<u8>)
    requires Sendable(p)
    ensures Hunted(Encoded(p) + rest)
    ensures Read(Encoded(p) + rest) == Prepend(FrameEvent(p), Read(rest))
  {
    var f := Encoded(p);
    var s := f + rest;
    EncodedLayout(p);
    RoundTrip(p);
    assert MIN_FRAME_SIZE == 10;
    assert f == f[..2] + f[2..];
    hide Encoded, DecodeResult, Decoded;
    PrefixKeepsHeader(f, s);
    assert s[..|f|] == f && s[|f|..] == rest;
    ReadCandidate(s);
  }

  lemma ReadNoiseThenFrame(noise: seq<u8>, p: Packet, rest: seq<u8>)
    requires NoMagic(noise) && Sendable(p)
    ensures Read(noise + (Encoded(p) + rest)) == Prepend(FrameEvent(p), Read(rest))
  {
    var s := Encoded(p) + rest;
    assert MAGIC <= s by {
      EncodedLayout(p);
      assert s[..2] == Encoded(p)[..2];
    }
    hide Encoded, Read;
    HuntSkipsNoise(noise, s);
    ReadHunted(noise + s);
    ReadFrame(p, rest);
  }

  /** g0 f1 g1 ... fk gk */
  function Interleaved(gaps: seq<seq<u8>>, packets: seq<Packet>): seq<u8>
    requires |gaps| == |packets| + 1 && forall p :: p in packets ==> Sendable(p)
  {
    if packets == [] then gaps[0]
    else gaps[0] + (Encoded(packets[0]) + Interleaved(gaps[1..], packets[1..]))
  }

  function FrameEvents(packets: seq<Packet>): (es: seq<Event>)
    ensures |es| == |packets| && forall i :: 0 <= i < |es| ==> es[i] == FrameEvent(packets[i])
  {
    seq(|packets|, i requires 0 <= i < |packets| => FrameEvent(packets[i]))
  }

  lemma {:induction false} NoiseIsReadThrough(gaps: seq<seq<u8>>, packets: seq<Packet>)
    requires |gaps| == |packets| + 1 && forall p :: p in packets ==> Sendable(p)
    requires forall g :: g in gaps ==> NoMagic(g)
    ensures var r := Read(Interleaved(gaps, packets));
            r.outcomes == FrameEvents(packets) && (r.open == [] || r.open == [MAGIC_HI])
    decreases |packets|
  {
    assert gaps[0] in gaps;
    if packets == [] {
      HuntInNoise(gaps[0]);
      hide NoMagic;
    } else {
      NoiseIsReadThrough(gaps[1..], packets[1..]);
      ReadNoiseThenFrame(gaps[0], packets[0], Interleaved(gaps[1..], packets[1..]));
      hide Read, Encoded, NoMagic;
      assert FrameEvents(packets) == [FrameEvent(packets[0])] + FrameEvents(packets[1..]);
    }
  }

  function Flatten(chunks: seq<seq<u8>>): seq<u8> {
    if chunks == [] then [] else chunks[0] + Flatten(chunks[1..])
  }

  function RunChunks(p: Parser, chunks: seq<seq<u8>>): (Parser, seq<Event>)
    decreases |chunks|
  {
    if chunks == [] then (p, [])
    else
      var (q, es) := Run(p, chunks[0]);
      var (r, fs) := RunChunks(q, chunks[1..]);
      (r, es + fs)
  }

  lemma {:induction false} ChunkingIsInvisible(p: Parser, chunks: seq<seq<u8>>)
    ensures RunChunks(p, chunks) == Run(p, Flatten(chunks))
    decreases |chunks|
  {
    if chunks != [] {
      hide Run;
      RunConcat(p, chunks[0], Flatten(chunks[1..]));
      ChunkingIsInvisible(Run(p, chunks[0]).0, chunks[1..]);
    }
  }

  /** Frames separated by noise without AA 55 are all delivered, in order, with no error, in whatever chunks they arrive. */
  lemma DeliveryThroughNoise(p: Parser, gaps: seq<seq<u8>>, packets: seq<Packet>, chunks: seq<seq<u8>>)
    requires Inv(p) && p.phase.WaitMagic1?
    requires |gaps| == |packets| + 1 && (forall q :: q in packets ==> Sendable(q)) && (forall g :: g in gaps ==> NoMagic(g))
    requires Flatten(chunks) == Interleaved(gaps, packets)
    ensures Outcomes(RunChunks(p, chunks).1) == FrameEvents(packets)
  {
    var s := Interleaved(gaps, packets);
    assert p.pending + s == s;
    hide Inv, Run, Read, Interleaved, Flatten, RunChunks, NoMagic;
    ChunkingIsInvisible(p, chunks);
    ParserReads(p, s);
    NoiseIsReadThrough(gaps, packets);
  }

  // ----- Self-stabilisation -----

  const STABILISATION_BOUND: nat := 265

  /** How many bytes other than AA may pass before the parser is certain to hunt again. */
  function Distance(p: Parser): nat {
    match p.phase
    case WaitMagic1 => 0
    case WaitMagic2 => STABILISATION_BOUND
    case ReadHeader =>
      if |p.pending| == 7 && p.pending[6] == MAGIC_HI then STABILISATION_BOUND
      else if |p.pending| < HEADER_SIZE then HEADER_SIZE - |p.pending| + MAX_PAYLOAD + CRC_SIZE
      else 0
    case ReadRest => if |p.pending| < p.expected then p.expected - |p.pending| else 0
  }

  lemma DistanceFalls(p: Parser, b: u8)
    requires Inv(p) && b != MAGIC_HI
    ensures Distance(p) <= STABILISATION_BOUND
    ensures Distance(FeedByte(p, b).0) <= if Distance(p) == 0 then 0 else Distance(p) - 1
  {
    match p.phase
    case WaitMagic1 =>
    case WaitMagic2 =>
    case ReadHeader => DistanceFallsInHeader(p, b);
    case ReadRest => DistanceFallsInRest(p, b);
  }

  lemma DistanceFallsInHeader(p: Parser, b: u8)
    requires Inv(p) && p.phase.ReadHeader? && b != MAGIC_HI
    ensures Distance(FeedHeader(p, b).0) < Distance(p) <= STABILISATION_BOUND
  {
    var s := p.pending + [b];
    if |s| == HEADER_SIZE {
      assert s[7] == b && s[6] == p.pending[6];
      assert KeptTail(s) == if s[6] == MAGIC_HI && b == MAGIC_LO then MAGIC else [];
      hide KeptTail, PayloadLength;
      assert HeaderError(s) != ProtoOk ==> FeedHeader(p, b).0.pending == KeptTail(s);
    }
  }

  lemma DistanceFallsInRest(p: Parser, b: u8)
    requires Inv(p) && p.phase.ReadRest?
    ensures Distance(FeedRest(p, b).0) < Distance(p) <= STABILISATION_BOUND
  {
    hide DecodeResult, PayloadLength;
  }

  lemma {:induction false} DistanceAfter(p: Parser, s: seq<u8>)
    requires Inv(p) && forall i :: 0 <= i < |s| ==> s[i] != MAGIC_HI
    ensures Distance(Run(p, s).0) <= if |s| >= Distance(p) then 0 else Distance(p) - |s|
  {
    hide FeedByte, Distance, Inv;
    if s != [] {
      var front := s[..|s| - 1];
      DistanceAfter(p, front);
      RunKeepsInv(p, front);
      DistanceFalls(Run(p, front).0, s[|s| - 1]);
    }
  }

  /** From any state a run can reach, 265 bytes other than AA bring the parser back to hunting, and the next frame through. */
  lemma Stabilises(p: Parser, s: seq<u8>, packet: Packet)
    requires Inv(p) && |s| >= STABILISATION_BOUND && (forall i :: 0 <= i < |s| ==> s[i] != MAGIC_HI)
    requires Sendable(packet)
    ensures var q := Run(p, s).0;
            && q.phase.WaitMagic1?
            && Outcomes(Run(q, Encoded(packet)).1) == [FrameEvent(packet)] && Run(q, Encoded(packet)).0.phase.WaitMagic1?
  {
    var q, f := Run(p, s).0, Encoded(packet);
    DistanceBound(p);
    DistanceAfter(p, s);
    RunKeepsInv(p, s);
    assert q.phase.WaitMagic1?;
    DeliversOne(q, packet);
  }

  lemma DistanceBound(p: Parser)
    requires Inv(p)
    ensures Distance(p) <= STABILISATION_BOUND
  {
    DistanceFalls(p, 0);
  }

  lemma DeliversOne(p: Parser, packet: Packet)
    requires Inv(p) && p.phase.WaitMagic1? && Sendable(packet)
    ensures var (q, es) := Run(p, Encoded(packet));
            Outcomes(es) == [FrameEvent(packet)] && q.pending == [] && q.phase.WaitMagic1?
  {
    var f := Encoded(packet);
    assert p.pending + f == f && f + [] == f;
    assert IsOpen([]);
    RunKeepsInv(p, f);
    assert Run(p, f).0.pending == [] ==> Run(p, f).0.phase.WaitMagic1?;
    hide Encoded, Run, Read, Inv, IsOpen;
    ParserReads(p, f);
    ReadFrame(packet, []);
    ReadOpen([]);
  }

  /** AA and then the start of the longest candidate: VERSION 1, LENGTH 256, no further AA. */
  function LongestCandidate(n: nat): (s: seq<u8>)
    requires n < STABILISATION_BOUND
    ensures |s| == n
  {
    ([MAGIC_LO, VERSION, 0, 0, 0, 1, 0] + seq(MAX_PAYLOAD + 1, _ => 0))[..n]
  }

  /** No smaller bound will do: for each, as many bytes other than AA that leave a parser, fed AA before, in the middle of a candidate. */
  lemma NoSmallerBoundStabilises(n: nat)
    requires n < STABILISATION_BOUND
    ensures var s := LongestCandidate(n);
            && (forall i :: 0 <= i < |s| ==> s[i] != MAGIC_HI)
            && Inv(Run(Fresh, [MAGIC_HI]).0) && !Run(Run(Fresh, [MAGIC_HI]).0, s).0.phase.WaitMagic1?
  {
    var s := LongestCandidate(n);
    var c := [MAGIC_HI] + s;
    CandidateIsOpen(n);
    assert Inv(Fresh) && Fresh.pending + c == c;
    RunConcat(Fresh, [MAGIC_HI], s);
    RunKeepsInv(Fresh, [MAGIC_HI]);
    RunKeepsInv(Fresh, c);
    ParserReads(Fresh, c);
    ReadOpen(c);
    hide Run, Read, IsOpen, LongestCandidate;
  }

  lemma CandidateIsOpen(n: nat)
    requires n < STABILISATION_BOUND
    ensures var s := LongestCandidate(n);
            IsOpen([MAGIC_HI] + s) && forall i :: 0 <= i < |s| ==> s[i] != MAGIC_HI
  {
    var c := [MAGIC_HI] + LongestCandidate(n);
    HuntedByHead(c);
    if n >= 7 {
      assert c[..8] == [MAGIC_HI, MAGIC_LO, VERSION, 0, 0, 0, 1, 0];
    }
  }

  predicate FitsIn(e: Event, n: nat) {
    e.FrameEvent? ==> MIN_FRAME_SIZE + |e.packet.payload| <= n
  }

  /** No frame read from s is longer than s. */
  lemma {:induction false} FramesReadFit(s: seq<u8>)
    ensures forall e :: e in Read(s).outcomes ==> FitsIn(e, |s|)
    decreases |s|
  {
    var c := Hunt(s);
    HuntFindsTheFirst(s);
    hide Hunt, HeaderError, PayloadLength, DecodeResult, KeptTail;
    ReadHunted(s);
    if IsOpen(c) {
      ReadOpen(c);
    } else if HeaderError(c) != ProtoOk {
      var rest := RestOf(c);
      KeptTailIsLongest(c[..HEADER_SIZE]);
      ReadBadHeader(c);
      FramesReadFit(rest);
      hide Read, IsOpen;
    } else {
      var n := MIN_FRAME_SIZE + PayloadLength(c);
      ReadCandidate(c);
      FramesReadFit(c[n..]);
      hide Read, IsOpen;
    }
  }

  /** What reading goes on with after a rejected header. */
  function RestOf(s: seq<u8>): seq<u8>
    requires |s| >= HEADER_SIZE
  {
    KeptTail(s[..HEADER_SIZE]) + s[HEADER_SIZE..]
  }

  /**
   * A frame that begins inside the eight bytes of a header that is rejected, for its VERSION or its LENGTH, is found
   * if and only if it begins in the last two of them.
   */
  lemma FrameInRejectedHeader(head: seq<u8>, p: Packet)
    requires MAGIC <= head && |head| < HEADER_SIZE && Sendable(p)
    requires HeaderError(head + Encoded(p)) != ProtoOk
    ensures FrameEvent(p) in Outcomes(Run(Fresh, head + Encoded(p)).1) <==> |head| >= 6
  {
    var s := head + Encoded(p);
    assert Inv(Fresh) && Fresh.pending + s == s;
    ParserReads(Fresh, s);
    if |head| >= 6 {
      FrameIsFound(head, p);
    } else {
      FrameIsLost(head, p);
    }
    hide Run, Read, Encoded, Outcomes, Inv;
  }

  lemma HeadIsRejected(head: seq<u8>, f: seq<u8>)
    requires MAGIC <= head && |head + f| >= HEADER_SIZE && HeaderError(head + f) != ProtoOk
    ensures Read(head + f) == Prepend(ErrorEvent(HeaderError(head + f)), Read(RestOf(head + f)))
    ensures |RestOf(head + f)| <= |head + f| - 6
  {
    var s := head + f;
    HuntedByHead(s);
    assert s[0] == head[0] && s[1] == head[1];
    ReadBadHeader(s);
    hide Read, HeaderError;
  }

  lemma FrameIsFound(head: seq<u8>, p: Packet)
    requires MAGIC <= head && 6 <= |head| < HEADER_SIZE && Sendable(p) && HeaderError(head + Encoded(p)) != ProtoOk
    ensures FrameEvent(p) in Read(head + Encoded(p)).outcomes
  {
    var f := Encoded(p);
    EncodedLayout(p);
    HeadIsRejected(head, f);
    TailIsFrame(head, f);
    ReadFrame(p, []);
    hide Read, Encoded, Body, RestOf, IsOpen, HeaderError;
    assert f + [] == f;
    assert Prepend(FrameEvent(p), Read([])).outcomes[0] == FrameEvent(p);
    assert Prepend(ErrorEvent(HeaderError(head + f)), Read(f)).outcomes[1] == FrameEvent(p);
  }

  lemma FrameIsLost(head: seq<u8>, p: Packet)
    requires MAGIC <= head && |head| < 6 && Sendable(p) && HeaderError(head + Encoded(p)) != ProtoOk
    ensures FrameEvent(p) !in Read(head + Encoded(p)).outcomes
  {
    var s := head + Encoded(p);
    HeadIsRejected(head, Encoded(p));
    FramesReadFit(RestOf(s));
    assert !FitsIn(FrameEvent(p), |RestOf(s)|);
    hide Read, Encoded, RestOf, HeaderError, FitsIn;
  }

  lemma TailIsFrame(head: seq<u8>, f: seq<u8>)
    requires 6 <= |head| < HEADER_SIZE && |f| >= 2 && f[..2] == MAGIC
    ensures RestOf(head + f) == f
  {
    var s := head + f;
    assert f[0] == MAGIC_HI && f[1] == MAGIC_LO;
    if |head| == 6 {
      assert s[6..8] == MAGIC;
      assert s[..8][6..] == MAGIC && s[8..] == f[2..];
      assert f == f[..2] + f[2..];
    } else {
      assert s[7] == MAGIC_HI && s[8..] == f[1..];
      assert s[..8][6..][1] == MAGIC_HI;
      assert f == [f[0]] + f[1..];
    }
  }
}
