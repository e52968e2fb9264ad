/** Whole runs of the parser: what every run keeps, and the recursive reading of a byte string it computes. */
module ParserRuns {
  import opened Bits
  import opened Protocol
  import opened StreamParsing

  // ----- The inductive invariant -----

  predicate Inv(p: Parser) {
    match p.phase
    case WaitMagic1 => p.pending == [] && p.expected == 0
    case WaitMagic2 => p.pending == [MAGIC_HI] && p.expected == 0
    case ReadHeader => 2 <= |p.pending| < HEADER_SIZE && p.pending[..2] == MAGIC && p.expected == 0
    case ReadRest =>
      && HEADER_SIZE <= |p.pending| < p.expected && p.pending[..2] == MAGIC && HeaderError(p.pending) == ProtoOk
      && p.expected == MIN_FRAME_SIZE + PayloadLength(p.pending)
  }

  /** Why a complete header is rejected, or ProtoOk. */
  function HeaderError(s: seq<u8>): ProtocolResult
    requires |s| >= HEADER_SIZE
  {
    if s[2] != VERSION then ErrVersion
    else if PayloadLength(s) > MAX_PAYLOAD then ErrLength
    else ProtoOk
  }

  lemma PrefixKeepsHeader(s: seq<u8>, t: seq<u8>)
    requires HEADER_SIZE <= |s| && s <= t
    ensures HeaderError(t) == HeaderError(s) && PayloadLength(t) == PayloadLength(s)
  {
    assert forall i :: 0 <= i < HEADER_SIZE ==> s[i] == t[i];
  }

  /** The bytes from k on could begin a frame. */
  predicate CouldBeginAt(s: seq<u8>, k: nat)
    requires k <= |s|
  {
    s[k..] <= MAGIC
  }

  lemma KeptTailIsLongest(s: seq<u8>)
    ensures var kept := KeptTail(s);
            && kept <= MAGIC && |kept| <= |s| && kept == s[|s| - |kept|..]
            && forall k :: 0 <= k < |s| - |kept| ==> !CouldBeginAt(s, k)
  {
    forall k | 0 <= k < |s| - |KeptTail(s)|
      ensures !CouldBeginAt(s, k)
    {
      var t := s[k..];
      assert t[|t| - 1] == s[|s| - 1];
      assert |t| >= 2 ==> t[|t| - 2] == s[|s| - 2];
    }
  }

  /**
   * How one byte moves a parser that a run can reach: no defensive check fires, decoding fails only for its CRC,
   * and the bytes let go of are exactly those that the event or the discard counter accounts for.
   */
  predicate IsStep(p: Parser, b: u8, q: Parser, e: Event) {
    var fed := p.pending + [b];
    match e
    case NoEvent =>
      && |q.pending| <= |fed| && q.pending == fed[|fed| - |q.pending|..]
      && q == p.(phase := q.phase, pending := q.pending, expected := q.expected,
                 discarded := Add32(p.discarded, |fed| - |q.pending|))
    case FrameEvent(packet) =>
      && Sendable(packet) && fed == Encoded(packet)
      && q == p.(phase := WaitMagic1, pending := [], expected := 0, lastError := ProtoOk, framesOk := Add32(p.framesOk, 1))
    case ErrorEvent(reason) =>
      if reason == ErrCrc then
        && |fed| == p.expected && DecodeResult(fed) == ErrCrc
        && q == p.(phase := WaitMagic1, pending := [], expected := 0, lastError := ErrCrc, crcErrors := Add32(p.crcErrors, 1))
      else
        && |fed| == HEADER_SIZE && reason == HeaderError(fed) && reason != ProtoOk
        && q.pending == KeptTail(fed)
        && q == p.(phase := q.phase, pending := q.pending, expected := 0,
                   lastError := reason, formatErrors := Add32(p.formatErrors, 1))
  }

  lemma StepFromInv(p: Parser, b: u8)
    requires Inv(p)
    ensures var (q, e) := FeedByte(p, b);
            Inv(q) && IsStep(p, b, q, e)
  {
    hide FeedHeader, FeedRest;
    match p.phase
    case WaitMagic1 => MagicStep(p, b);
    case WaitMagic2 => MagicStep(p, b);
    case ReadHeader =>
      hide Inv, IsStep;
      HeaderStep(p, b);
    case ReadRest =>
      hide Inv, IsStep;
      RestStep(p, b);
  }

  lemma MagicStep(p: Parser, b: u8)
    requires Inv(p) && (p.phase.WaitMagic1? || p.phase.WaitMagic2?)
    ensures Inv(FeedByte(p, b).0) && IsStep(p, b, FeedByte(p, b).0, FeedByte(p, b).1)
  {
    assert Add32(p.discarded, 0) == p.discarded;
    hide Encoded, DecodeResult, HeaderError, PayloadLength, KeptTail, Add32, FeedRest, FeedHeader;
    var fed := p.pending + [b];
    if p.phase.WaitMagic1? {
      assert fed == [b] && fed[0..] == fed && fed[1..] == [];
    } else {
      assert fed == [MAGIC_HI, b] && fed[0..] == fed && fed[..2] == fed && fed[1..] == [b] && fed[2..] == [];
    }
  }

  lemma HeaderStep(p: Parser, b: u8)
    requires Inv(p) && p.phase.ReadHeader?
    ensures var (q, e) := FeedHeader(p, b);
            Inv(q) && IsStep(p, b, q, e)
  {
    var s := p.pending + [b];
    assert s[..2] == p.pending[..2];
    assert s[|s| - |s|..] == s;
    hide DecodeResult, Encoded, PayloadLength;
    if |s| == HEADER_SIZE && HeaderError(s) != ProtoOk {
      ResyncKeepsInv(FormatError(p.(pending := s), HeaderError(s)));
      hide ResyncFromTail;
    } else {
      hide KeptTail;
    }
  }

  lemma ResyncKeepsInv(p: Parser)
    ensures Inv(ResyncFromTail(p))
    ensures var q := ResyncFromTail(p);
            q == p.(phase := q.phase, pending := KeptTail(p.pending), expected := 0)
  {
    assert MAGIC[..2] == MAGIC;
  }

  lemma RestStep(p: Parser, b: u8)
    requires Inv(p) && p.phase.ReadRest?
    ensures var (q, e) := FeedRest(p, b);
            Inv(q) && IsStep(p, b, q, e)
  {
    var s := p.pending + [b];
    assert s[..2] == p.pending[..2];
    PrefixKeepsHeader(p.pending, s);
    assert s[|s| - |s|..] == s;
    if |s| == p.expected {
      WholeCandidate(s);
    }
    hide DecodeResult, Decoded, Encoded, PayloadLength, HeaderError, Add32;
  }

  /** A candidate with a good header and the length it announces can only fail its CRC. */
  lemma WholeCandidate(s: seq<u8>)
    requires |s| >= HEADER_SIZE && s[..2] == MAGIC && HeaderError(s) == ProtoOk && |s| == MIN_FRAME_SIZE + PayloadLength(s)
    ensures DecodeResult(s) == ProtoOk || DecodeResult(s) == ErrCrc
    ensures DecodeResult(s) == ProtoOk ==> Sendable(Decoded(s)) && Encoded(Decoded(s)) == s
  {
    hide Encoded;
    DecodeAcceptsExactlyEncoded(s, Decoded(s));
  }

  // ----- Runs -----

  /** Feed the bytes in order; one event per byte. */
  function Run(p: Parser, s: seq<u8>): (r: (Parser, seq<Event>))
    ensures |r.1| == |s|
  {
    if s == [] then (p, [])
    else
      var before := Run(p, s[..|s| - 1]);
      var next := FeedByte(before.0, s[|s| - 1]);
      (next.0, before.1 + [next.1])
  }

  lemma RunEmpty(p: Parser)
    ensures Run(p, []) == (p, [])
  {}

  lemma RunOneMore(p: Parser, s: seq<u8>, b: u8)
    ensures var before := Run(p, s);
            var next := FeedByte(before.0, b);
            Run(p, s + [b]) == (next.0, before.1 + [next.1])
  {
    hide FeedByte;
    assert (s + [b])[..|s|] == s;
  }

  /** However a stream is cut into chunks, the same events come out. */
  lemma {:induction false} RunConcat(p: Parser, a: seq<u8>, b: seq<u8>)
    ensures var (q, es) := Run(p, a);
            var (r, fs) := Run(q, b);
            Run(p, a + b) == (r, es + fs)
  {
    hide FeedByte;
    if b == [] {
      assert a + b == a;
      var (q, es) := Run(p, a);
      assert es + [] == es;
    } else {
      var front, last := b[..|b| - 1], b[|b| - 1];
      RunConcat(p, a, front);
      assert (a + b)[..|a + b| - 1] == a + front && (a + b)[|a + b| - 1] == last;
      var (q, es) := Run(p, a);
      var (r, fs) := Run(q, front);
      var (r', e) := FeedByte(r, last);
      assert es + (fs + [e]) == (es + fs) + [e];
    }
  }

  lemma {:induction false} RunKeepsInv(p: Parser, s: seq<u8>)
    requires Inv(p)
    ensures Inv(Run(p, s).0)
  {
    if s != [] {
      RunKeepsInv(p, s[..|s| - 1]);
      StepFromInv(Run(p, s[..|s| - 1]).0, s[|s| - 1]);
    }
  }

  // ----- Byte conservation -----

  /** Where the bytes of a run went; unbounded, where the parser's counters wrap. */
  datatype Ledger = Ledger(discarded: nat, accepted: nat, crcRejected: nat, headerRejected: nat,
                           frames: nat, crcErrors: nat, headerErrors: nat)

  const EmptyLedger: Ledger := Ledger(0, 0, 0, 0, 0, 0, 0)

  function Booked(l: Ledger, p: Parser, q: Parser, e: Event): Ledger {
    match e
    case NoEvent =>
      l.(discarded := l.discarded + (if |p.pending| + 1 >= |q.pending| then |p.pending| + 1 - |q.pending| else 0))
    case FrameEvent(packet) =>
      l.(accepted := l.accepted + MIN_FRAME_SIZE + |packet.payload|, frames := l.frames + 1)
    case ErrorEvent(ErrCrc) =>
      l.(crcRejected := l.crcRejected + p.expected, crcErrors := l.crcErrors + 1)
    case ErrorEvent(_) =>
      l.(headerRejected := l.headerRejected + HEADER_SIZE - (if |q.pending| <= 2 then |q.pending| else 0),
         headerErrors := l.headerErrors + 1)
  }

  function LedgerOf(s: seq<u8>): Ledger {
    if s == [] then EmptyLedger
    else
      var p := Run(Fresh, s[..|s| - 1]).0;
      var (q, e) := FeedByte(p, s[|s| - 1]);
      Booked(LedgerOf(s[..|s| - 1]), p, q, e)
  }

  predicate IsCount32(counter: u32, n: nat) {
    counter == n % 0x1_0000_0000
  }

  lemma CountStep(counter: u32, n: nat, k: nat)
    requires IsCount32(counter, n)
    ensures IsCount32(Add32(counter, k), n + k)
  {}

  /** After n bytes: each is pending or in exactly one account, and each counter is its account modulo 2^32. */
  predicate Balanced(n: nat, p: Parser, l: Ledger) {
    && n == l.discarded + l.accepted + l.crcRejected + l.headerRejected + |p.pending|
    && IsCount32(p.discarded, l.discarded) && IsCount32(p.framesOk, l.frames)
    && IsCount32(p.crcErrors, l.crcErrors) && IsCount32(p.formatErrors, l.headerErrors)
  }

  lemma StepKeepsBalance(n: nat, p: Parser, b: u8, q: Parser, e: Event, l: Ledger)
    requires IsStep(p, b, q, e) && Balanced(n, p, l)
    ensures Balanced(n + 1, q, Booked(l, p, q, e))
  {
    KeptTailIsLongest(p.pending + [b]);
    hide Encoded, DecodeResult, HeaderError, KeptTail;
    if e.NoEvent? {
      CountStep(p.discarded, l.discarded, |p.pending| + 1 - |q.pending|);
    }
    CountStep(p.framesOk, l.frames, 1);
    CountStep(p.crcErrors, l.crcErrors, 1);
    CountStep(p.formatErrors, l.headerErrors, 1);
    hide IsCount32, Add32;
  }

  lemma {:induction false} BytesAreConserved(s: seq<u8>)
    ensures Balanced(|s|, Run(Fresh, s).0, LedgerOf(s))
  {
    assert Inv(Fresh);
    hide FeedByte, IsStep, Inv, Booked;
    if s != [] {
      var front, last := s[..|s| - 1], s[|s| - 1];
      BytesAreConserved(front);
      RunKeepsInv(Fresh, front);
      var p := Run(Fresh, front).0;
      var (q, e) := FeedByte(p, last);
      StepFromInv(p, last);
      StepKeepsBalance(|front|, p, last, q, e, LedgerOf(front));
    }
  }

  function ErrorCount(es: seq<Event>): nat {
    if es == [] then 0 else ErrorCount(es[..|es| - 1]) + (if es[|es| - 1].ErrorEvent? then 1 else 0)
  }

  lemma {:induction false} ErrorsAreBooked(s: seq<u8>)
    ensures ErrorCount(Run(Fresh, s).1) == LedgerOf(s).crcErrors + LedgerOf(s).headerErrors
  {
    if s != [] {
      var front := s[..|s| - 1];
      ErrorsAreBooked(front);
      var (q, es) := Run(Fresh, s);
      assert es[..|es| - 1] == Run(Fresh, front).1;
      hide FeedByte;
    }
  }

  /** The parser's two error counters together count the ERROR events reported, modulo 2^32. */
  lemma ErrorsAreCounted(s: seq<u8>)
    ensures var (q, es) := Run(Fresh, s);
            IsCount32(Add32(q.crcErrors, q.formatErrors), ErrorCount(es))
  {
    hide Run, LedgerOf, IsCount32, Add32, ErrorCount;
    BytesAreConserved(s);
    ErrorsAreBooked(s);
    CountsAdd(Run(Fresh, s).0.crcErrors, LedgerOf(s).crcErrors, Run(Fresh, s).0.formatErrors, LedgerOf(s).headerErrors);
  }

  lemma CountsAdd(x: u32, n: nat, y: u32, k: nat)
    requires IsCount32(x, n) && IsCount32(y, k)
    ensures IsCount32(Add32(x, y), n + k)
  {}

  // ----- Frames are the bytes fed -----

  /** The event after byte i is a frame whose encoding is the last bytes fed. */
  predicate FrameEndsAt(s: seq<u8>, es: seq<Event>, i: nat)
    requires i < |es| == |s|
  {
    es[i].FrameEvent? ==>
      var packet := es[i].packet;
      && Sendable(packet)
      && |Encoded(packet)| <= i + 1
      && s[i + 1 - |Encoded(packet)|..i + 1] == Encoded(packet)
  }

  /** Where the frame reported after byte i begins. */
  function FrameStart(es: seq<Event>, i: nat): int
    requires i < |es| && es[i].FrameEvent?
  {
    i + 1 - (MIN_FRAME_SIZE + |es[i].packet.payload|)
  }

  /** Every frame reported is the encoding of the last bytes fed, and no byte belongs to two frames or to one still pending. */
  predicate FramesAreImages(s: seq<u8>, p: Parser, es: seq<Event>) {
    && |es| == |s| && |p.pending| <= |s| && p.pending == s[|s| - |p.pending|..]
    && (forall i :: 0 <= i < |es| ==> FrameEndsAt(s, es, i))
    && (forall i :: 0 <= i < |es| && es[i].FrameEvent? ==> i < |s| - |p.pending|)
    && (forall i, j :: 0 <= i < j < |es| && es[i].FrameEvent? && es[j].FrameEvent? ==> i < FrameStart(es, j))
  }

  lemma {:induction false} FramesAreDisjointImages(s: seq<u8>)
    ensures FramesAreImages(s, Run(Fresh, s).0, Run(Fresh, s).1)
  {
    hide FeedByte, FramesAreImages, Inv, Run;
    if s == [] {
      FreshHoldsNoImages();
    } else {
      FramesAreDisjointImages(s[..|s| - 1]);
      OneMoreImage(s[..|s| - 1], s[|s| - 1]);
      LastIsLast(s);
    }
  }

  lemma LastIsLast(s: seq<u8>)
    requires s != []
    ensures s == s[..|s| - 1] + [s[|s| - 1]]
  {}

  lemma FreshHoldsNoImages()
    ensures FramesAreImages([], Run(Fresh, []).0, Run(Fresh, []).1)
  {}

  lemma OneMoreImage(s: seq<u8>, b: u8)
    ensures FramesAreImages(s, Run(Fresh, s).0, Run(Fresh, s).1)
            ==> FramesAreImages(s + [b], Run(Fresh, s + [b]).0, Run(Fresh, s + [b]).1)
  {
    assert Inv(Fresh);
    hide FeedByte, FramesAreImages, Inv, IsStep, KeepsATail, Run;
    var r := Run(Fresh, s);
    var next := FeedByte(r.0, b);
    RunOneMore(Fresh, s, b);
    RunKeepsInv(Fresh, s);
    StepFromInv(r.0, b);
    StepKeepsATail(r.0, b, next.0, next.1);
    StepKeepsImages(s, b, r.0, r.1, next.0, next.1);
  }

  lemma StepKeepsImages(s: seq<u8>, b: u8, p: Parser, es: seq<Event>, q: Parser, e: Event)
    requires KeepsATail(p, b, q, e)
    ensures FramesAreImages(s, p, es) ==> FramesAreImages(s + [b], q, es + [e])
  {
    if !FramesAreImages(s, p, es) {
      return;
    }
    hide Encoded, Add32;
    var fed, t, fs := p.pending + [b], s + [b], es + [e];
    assert fed == t[|t| - |fed|..];
    assert q.pending == t[|t| - |q.pending|..];
    forall i | 0 <= i < |fs|
      ensures FrameEndsAt(t, fs, i)
    {
      if i < |es| {
        assert FrameEndsAt(s, es, i);
        FrameStillEndsAt(s, b, es, e, i);
      } else {
        hide Sendable;
      }
    }
    hide FrameEndsAt, Sendable;
  }

  lemma FrameStillEndsAt(s: seq<u8>, b: u8, es: seq<Event>, e: Event, i: nat)
    requires i < |es| == |s| && FrameEndsAt(s, es, i)
    ensures FrameEndsAt(s + [b], es + [e], i)
  {
    hide Encoded;
    if es[i].FrameEvent? {
      var n := |Encoded(es[i].packet)|;
      assert (s + [b])[i + 1 - n..i + 1] == s[i + 1 - n..i + 1];
    }
  }

  /** What stays buffered is a tail of what was buffered plus the new byte, and nothing of a finished frame. */
  predicate KeepsATail(p: Parser, b: u8, q: Parser, e: Event) {
    var fed := p.pending + [b];
    && |q.pending| <= |fed| && q.pending == fed[|fed| - |q.pending|..]
    && (e.FrameEvent? ==> Sendable(e.packet) && fed == Encoded(e.packet) && q.pending == [])
  }

  lemma StepKeepsATail(p: Parser, b: u8, q: Parser, e: Event)
    requires IsStep(p, b, q, e)
    ensures KeepsATail(p, b, q, e)
  {
    KeptTailIsLongest(p.pending + [b]);
    hide Encoded, DecodeResult, HeaderError, KeptTail;
  }
}
