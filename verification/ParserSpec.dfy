/** Reading a whole byte string at once, and the proof that the byte-at-a-time parser does exactly that. */
module ParserSpec {
  import opened Bits
  import opened Protocol
  import opened StreamParsing
  import opened ParserRuns

  /** Outcomes in order (frames and rejections), and the bytes of the candidate still open at the end. */
  datatype Reading = Reading(outcomes: seq<Event>, open: seq<u8>)

  /** Skip to the first position that could begin a frame. */
  function Hunt(s: seq<u8>): (r: seq<u8>)
    ensures |r| <= |s|
  {
    if s <= MAGIC || MAGIC <= s then s else Hunt(s[1..])
  }

  function Prepend(e: Event, r: Reading): Reading {
    Reading([e] + r.outcomes, r.open)
  }

  /** The candidate at the front of s, which begins with MAGIC, has a good header and is complete. */
  function Verdict(candidate: seq<u8>): Event
    requires |candidate| >= MIN_FRAME_SIZE
  {
    if DecodeResult(candidate) == ProtoOk then FrameEvent(Decoded(candidate)) else ErrorEvent(DecodeResult(candidate))
  }

  /**
   * Hunt for MAGIC; a bad header resumes from the longest tail of its eight bytes that could begin a frame;
   * a good header takes exactly 10 + LENGTH bytes.
   */
  function Read(s: seq<u8>): Reading
    decreases |s|
  {
    var c := Hunt(s);
    if |c| < HEADER_SIZE then Reading([], c)
    else if HeaderError(c) != ProtoOk then
      Prepend(ErrorEvent(HeaderError(c)), Read(KeptTail(c[..HEADER_SIZE]) + c[HEADER_SIZE..]))
    else
      var n := MIN_FRAME_SIZE + PayloadLength(c);
      if |c| < n then Reading([], c) else Prepend(Verdict(c[..n]), Read(c[n..]))
  }

  /** The hunt stops at a place where a frame could begin or begins, and passes over no such place. */
  lemma {:induction false} HuntFindsTheFirst(s: seq<u8>)
    ensures Hunt(s) == s[|s| - |Hunt(s)|..] && Hunted(Hunt(s))
    ensures forall k :: 0 <= k < |s| - |Hunt(s)| ==> !HuntedAt(s, k)
  {
    if !Hunted(s) {
      var t := s[1..];
      HuntFindsTheFirst(t);
      forall k | 0 <= k < |s| - |Hunt(s)|
        ensures !HuntedAt(s, k)
      {
        if k > 0 {
          assert !HuntedAt(t, k - 1);
          TailOfTail(s, k);
        }
      }
    }
  }

  predicate HuntedAt(s: seq<u8>, k: nat)
    requires k <= |s|
  {
    Hunted(s[k..])
  }

  lemma TailOfTail(s: seq<u8>, k: nat)
    requires 0 < k <= |s|
    ensures s[1..][k - 1..] == s[k..]
  {}

  /** s begins where the hunt ends. */
  predicate Hunted(s: seq<u8>) {
    s <= MAGIC || MAGIC <= s
  }

  lemma HuntedByHead(s: seq<u8>)
    ensures Hunted(s) <==> s == [] || (s[0] == MAGIC_HI && (|s| >= 2 ==> s[1] == MAGIC_LO))
  {
    assert s == [] || s == [s[0]] || s == [s[0], s[1]] + s[2..];
  }

  lemma HuntSkipsOne(s: seq<u8>, t: seq<u8>)
    requires !Hunted(s)
    ensures Hunt(s + t) == Hunt(s[1..] + t)
  {
    HuntedByHead(s);
    HuntedByHead(s + t);
    assert (s + t)[1..] == s[1..] + t;
  }

  lemma {:induction false} HuntResumes(s: seq<u8>, t: seq<u8>)
    ensures Hunt(s + t) == Hunt(Hunt(s) + t)
  {
    if !Hunted(s) {
      HuntSkipsOne(s, t);
      HuntResumes(s[1..], t);
    }
  }

  lemma HuntIsDone(s: seq<u8>)
    ensures Hunt(Hunt(s)) == Hunt(s)
  {
    HuntFindsTheFirst(s);
  }

  lemma ReadHunted(s: seq<u8>)
    ensures Read(s) == Read(Hunt(s))
  {
    HuntIsDone(s);
    hide Hunt, HeaderError, PayloadLength, KeptTail, Verdict;
    assert Read(Hunt(s)) == Read(s);
  }

  /** The candidate c is still short of its header, or of the length its good header announces. */
  predicate IsOpen(c: seq<u8>) {
    Hunted(c) && (|c| < HEADER_SIZE || (HeaderError(c) == ProtoOk && |c| < MIN_FRAME_SIZE + PayloadLength(c)))
  }

  lemma ReadOpen(c: seq<u8>)
    requires IsOpen(c)
    ensures Read(c) == Reading([], c)
  {}

  lemma ReadBadHeader(c: seq<u8>)
    requires Hunted(c) && |c| >= HEADER_SIZE && HeaderError(c) != ProtoOk
    ensures Read(c) == Prepend(ErrorEvent(HeaderError(c)), Read(KeptTail(c[..HEADER_SIZE]) + c[HEADER_SIZE..]))
  {
    hide HeaderError, PayloadLength, KeptTail, Verdict;
  }

  lemma ReadCandidate(c: seq<u8>)
    requires Hunted(c) && |c| >= HEADER_SIZE && HeaderError(c) == ProtoOk && |c| >= MIN_FRAME_SIZE + PayloadLength(c)
    ensures var n := MIN_FRAME_SIZE + PayloadLength(c);
            Read(c) == Prepend(Verdict(c[..n]), Read(c[n..]))
  {
    hide HeaderError, PayloadLength, KeptTail, Verdict;
  }

  /** Reading can stop anywhere and be resumed from the open candidate. */
  lemma {:induction false} ReadResumes(s: seq<u8>, t: seq<u8>)
    ensures var r := Read(s);
            var r' := Read(r.open + t);
            Read(s + t) == Reading(r.outcomes + r'.outcomes, r'.open)
    decreases |s|
  {
    var c := Hunt(s);
    HuntResumes(s, t);
    ReadHunted(s);
    ReadHunted(s + t);
    ReadHunted(c + t);
    HuntFindsTheFirst(s);
    hide Read, HeaderError, PayloadLength, KeptTail, Verdict, Hunt;
    if IsOpen(c) {
      ReadOpen(c);
    } else {
      PrefixKeepsHeader(c, c + t);
      assert Hunted(c + t);
      if HeaderError(c) != ProtoOk {
        var rest := KeptTail(c[..HEADER_SIZE]) + c[HEADER_SIZE..];
        KeptTailIsLongest(c[..HEADER_SIZE]);
        ReadBadHeader(c);
        ReadBadHeader(c + t);
        assert (c + t)[..HEADER_SIZE] == c[..HEADER_SIZE];
        assert KeptTail(c[..HEADER_SIZE]) + (c + t)[HEADER_SIZE..] == rest + t;
        ReadResumes(rest, t);
      } else {
        var n := MIN_FRAME_SIZE + PayloadLength(c);
        ReadCandidate(c);
        ReadCandidate(c + t);
        assert (c + t)[..n] == c[..n] && (c + t)[n..] == c[n..] + t;
        ReadResumes(c[n..], t);
      }
    }
  }

  // ----- Refinement -----

  function Outcomes(es: seq<Event>): seq<Event> {
    if es == [] then []
    else Outcomes(es[..|es| - 1]) + (if es[|es| - 1].NoEvent? then [] else [es[|es| - 1]])
  }

  lemma InvIsOpen(p: Parser)
    requires Inv(p)
    ensures IsOpen(p.pending)
  {
    assert p.phase.ReadHeader? || p.phase.ReadRest? ==> p.pending == MAGIC + p.pending[2..];
  }

  lemma ReadNothingYet(s: seq<u8>)
    requires IsOpen(Hunt(s))
    ensures Read(s) == Reading([], Hunt(s))
  {
    hide Read, Hunt, IsOpen;
    ReadHunted(s);
    ReadOpen(Hunt(s));
  }

  lemma ReadOneBadHeader(s: seq<u8>)
    requires Hunted(s) && |s| == HEADER_SIZE && HeaderError(s) != ProtoOk
    ensures Read(s) == Reading([ErrorEvent(HeaderError(s))], KeptTail(s))
  {
    assert s[..HEADER_SIZE] == s && s[HEADER_SIZE..] == [] && KeptTail(s) + [] == KeptTail(s);
    assert IsOpen(KeptTail(s));
    hide Read, IsOpen, KeptTail, HeaderError;
    ReadBadHeader(s);
    ReadOpen(KeptTail(s));
  }

  lemma WholeSlices(s: seq<u8>)
    ensures s[..|s|] == s && s[|s|..] == []
  {}

  lemma NothingIsOpen()
    ensures IsOpen([])
  {}

  lemma ReadOneCandidate(s: seq<u8>)
    requires Hunted(s) && |s| >= HEADER_SIZE && HeaderError(s) == ProtoOk && |s| == MIN_FRAME_SIZE + PayloadLength(s)
    ensures Read(s) == Reading([Verdict(s)], [])
  {
    hide Read, IsOpen, HeaderError, Verdict;
    WholeSlices(s);
    ReadCandidate(s);
    NothingIsOpen();
    ReadOpen([]);
  }

  /** From a state a run can reach, the next byte does what reading the open candidate with it does. */
  lemma StepReads(p: Parser, b: u8)
    requires Inv(p)
    ensures var (q, e) := FeedByte(p, b);
            Read(p.pending + [b]) == Reading(if e.NoEvent? then [] else [e], q.pending)
  {
    var s := p.pending + [b];
    if FeedByte(p, b).1.NoEvent? {
      StepFromInv(p, b);
      InvIsOpen(FeedByte(p, b).0);
      StepHunts(p, b);
      hide *;
      ReadNothingYet(s);
    } else {
      StepFinishes(p, b);
    }
  }

  lemma StepFinishes(p: Parser, b: u8)
    requires Inv(p) && !FeedByte(p, b).1.NoEvent?
    ensures var (q, e) := FeedByte(p, b);
            Read(p.pending + [b]) == Reading([e], q.pending)
  {
    var s := p.pending + [b];
    hide Read, DecodeResult, KeptTail, PayloadLength;
    assert p.phase.ReadHeader? || p.phase.ReadRest?;
    assert s[..2] == p.pending[..2] == MAGIC;
    assert Hunted(s);
    if p.phase.ReadHeader? {
      ReadOneBadHeader(s);
    } else {
      PrefixKeepsHeader(p.pending, s);
      ReadOneCandidate(s);
      RestVerdict(p, b);
    }
  }

  lemma StepHunts(p: Parser, b: u8)
    requires Inv(p) && FeedByte(p, b).1.NoEvent?
    ensures Hunt(p.pending + [b]) == FeedByte(p, b).0.pending
  {
    var s := p.pending + [b];
    hide DecodeResult, HeaderError, PayloadLength, KeptTail;
    if p.phase.ReadHeader? || p.phase.ReadRest? {
      assert s[..2] == p.pending[..2] == MAGIC;
    } else if p.phase.WaitMagic2? {
      assert s[1..] == [b] && s[1..][1..] == [];
      HuntedByHead(s);
      HuntedByHead(s[1..]);
    } else {
      assert s[1..] == [];
      HuntedByHead(s);
    }
  }

  lemma RestVerdict(p: Parser, b: u8)
    requires Inv(p) && p.phase.ReadRest? && |p.pending| + 1 == p.expected
    ensures FeedByte(p, b).1 == Verdict(p.pending + [b]) && FeedByte(p, b).0.pending == []
  {
    StepFromInv(p, b);
    hide DecodeResult, HeaderError, PayloadLength, KeptTail;
  }

  /** The parser computes the reading of its open candidate and the bytes fed, for every byte string. */
  lemma {:induction false} ParserReads(p: Parser, s: seq<u8>)
    requires Inv(p)
    ensures var (q, es) := Run(p, s);
            Read(p.pending + s) == Reading(Outcomes(es), q.pending)
  {
    hide FeedByte, Read, Inv, IsOpen;
    if s == [] {
      InvIsOpen(p);
      ReadOpen(p.pending);
      assert p.pending + [] == p.pending;
    } else {
      ParserReads(p, s[..|s| - 1]);
      OneMoreRead(p, s[..|s| - 1], s[|s| - 1]);
      assert p.pending + s == p.pending + s[..|s| - 1] + [s[|s| - 1]];
    }
  }

  lemma OneMoreRead(p: Parser, s: seq<u8>, b: u8)
    requires Inv(p)
    ensures var (q, es) := Run(p, s);
            var (r, e) := FeedByte(q, b);
            Read(p.pending + s) == Reading(Outcomes(es), q.pending)
            ==> Read(p.pending + s + [b]) == Reading(Outcomes(es + [e]), r.pending)
  {
    hide FeedByte, Inv, Read, Run, Outcomes;
    RunKeepsInv(p, s);
    var (q, es) := Run(p, s);
    StepReads(q, b);
    ReadResumes(p.pending + s, [b]);
    OutcomesAppend(es, FeedByte(q, b).1);
  }

  lemma OutcomesAppend(es: seq<Event>, e: Event)
    ensures Outcomes(es + [e]) == Outcomes(es) + if e.NoEvent? then [] else [e]
  {
    assert (es + [e])[..|es|] == es;
  }
}
