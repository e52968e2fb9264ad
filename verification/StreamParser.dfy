/** The byte-at-a-time frame parser. */
module StreamParsing {
  import opened Bits
  import opened Protocol

  datatype Phase = WaitMagic1 | WaitMagic2 | ReadHeader | ReadRest

  /** What one byte led to. An error carries the result that last_error then holds for the caller. */
  datatype Event = NoEvent | FrameEvent(packet: Packet) | ErrorEvent(reason: ProtocolResult)

  /** The parser's value: `pending` is frame_buffer[0..frame_index]. */
  datatype Parser = Parser(
    phase: Phase,
    pending: seq<u8>,
    expected: nat,
    lastError: ProtocolResult,
    framesOk: u32,
    crcErrors: u32,
    formatErrors: u32,
    discarded: u32)

  const Fresh: Parser := Parser(WaitMagic1, [], 0, ProtoOk, 0, 0, 0, 0)

  function Add32(counter: u32, n: nat): u32 {
    (counter + n) % 0x1_0000_0000
  }

  function ResetFrame(p: Parser): Parser {
    p.(phase := WaitMagic1, pending := [], expected := 0, lastError := ProtoOk)
  }

  /** The longest tail of a rejected header that could begin a frame. */
  function KeptTail(s: seq<u8>): seq<u8> {
    if |s| >= 2 && s[|s| - 2..] == MAGIC then MAGIC
    else if |s| >= 1 && s[|s| - 1] == MAGIC_HI then [MAGIC_HI]
    else []
  }

  function ResyncFromTail(p: Parser): Parser {
    var kept := KeptTail(p.pending);
    p.(phase := if |kept| == 2 then ReadHeader else if |kept| == 1 then WaitMagic2 else WaitMagic1,
       pending := kept,
       expected := 0)
  }

  function FormatError(p: Parser, reason: ProtocolResult): Parser {
    p.(lastError := reason, formatErrors := Add32(p.formatErrors, 1))
  }

  function FeedByte(p: Parser, b: u8): (Parser, Event) {
    match p.phase
    case WaitMagic1 =>
      if b == MAGIC_HI then (p.(phase := WaitMagic2, pending := [b]), NoEvent)
      else (p.(discarded := Add32(p.discarded, 1)), NoEvent)
    case WaitMagic2 =>
      if b == MAGIC_LO then (p.(phase := ReadHeader, pending := [MAGIC_HI, b]), NoEvent)
      else if b == MAGIC_HI then (p.(pending := [MAGIC_HI], discarded := Add32(p.discarded, 1)), NoEvent)
      else (p.(phase := WaitMagic1, pending := [], discarded := Add32(p.discarded, 2)), NoEvent)
    case ReadHeader => FeedHeader(p, b)
    case ReadRest => FeedRest(p, b)
  }

  function FeedHeader(p: Parser, b: u8): (Parser, Event) {
    if |p.pending| >= HEADER_SIZE then (ResetFrame(FormatError(p, ErrBuffer)), ErrorEvent(ProtoOk))
    else
      var q := p.(pending := p.pending + [b]);
      if |q.pending| < HEADER_SIZE then (q, NoEvent)
      else if q.pending[2] != VERSION then (ResyncFromTail(FormatError(q, ErrVersion)), ErrorEvent(ErrVersion))
      else if PayloadLength(q.pending) > MAX_PAYLOAD then (ResyncFromTail(FormatError(q, ErrLength)), ErrorEvent(ErrLength))
      else (q.(phase := ReadRest, expected := HEADER_SIZE + PayloadLength(q.pending) + CRC_SIZE), NoEvent)
  }

  function FeedRest(p: Parser, b: u8): (Parser, Event) {
    if |p.pending| >= MAX_FRAME_SIZE then (ResetFrame(FormatError(p, ErrBuffer)), ErrorEvent(ProtoOk))
    else
      var q := p.(pending := p.pending + [b]);
      if |q.pending| < q.expected then (q, NoEvent)
      else if |q.pending| > q.expected then (ResetFrame(FormatError(q, ErrFrameSize)), ErrorEvent(ProtoOk))
      else FinishFrame(q)
  }

  /** A whole candidate is buffered: decode it and start over. */
  function FinishFrame(q: Parser): (Parser, Event) {
    var result := DecodeResult(q.pending);
    if result == ProtoOk then
      (ResetFrame(q.(framesOk := Add32(q.framesOk, 1))), FrameEvent(Decoded(q.pending)))
    else if result == ErrCrc then
      (ResetFrame(q.(crcErrors := Add32(q.crcErrors, 1))).(lastError := result), ErrorEvent(result))
    else
      (ResetFrame(FormatError(q, result)).(lastError := result), ErrorEvent(result))
  }

  // ----- The parser structure, updated in place -----

  datatype EventKind = EventNone | EventFrame | EventError

  function KindOf(e: Event): EventKind {
    match e
    case NoEvent => EventNone
    case FrameEvent(_) => EventFrame
    case ErrorEvent(_) => EventError
  }

  class StreamParser {
    var state: Phase
    const frameBuffer: array<u8>
    var frameIndex: nat
    var expectedFrameLength: nat
    var lastError: ProtocolResult
    var framesOk: u32
    var crcErrors: u32
    var formatErrors: u32
    var discardedBytes: u32

    /** Memory safety, and the index that the two MAGIC states rely on. The defensive checks stay live under it. */
    ghost predicate Valid()
      reads this, frameBuffer
    {
      && frameBuffer.Length == MAX_FRAME_SIZE && frameIndex <= MAX_FRAME_SIZE
      && (state.WaitMagic1? ==> frameIndex == 0)
      && (state.WaitMagic2? ==> frameIndex == 1 && frameBuffer[0] == MAGIC_HI)
    }

    ghost function View(): Parser
      reads this, frameBuffer
      requires frameIndex <= frameBuffer.Length
    {
      Parser(state, frameBuffer[..frameIndex], expectedFrameLength, lastError,
             framesOk, crcErrors, formatErrors, discardedBytes)
    }

    constructor ()
      ensures Valid() && View() == Fresh && fresh(frameBuffer)
    {
      state, frameIndex, expectedFrameLength, lastError := WaitMagic1, 0, 0, ProtoOk;
      framesOk, crcErrors, formatErrors, discardedBytes := 0, 0, 0, 0;
      frameBuffer := new u8[MAX_FRAME_SIZE](_ => 0);
    }

    /** stream_parser_init on a parser already in use. */
    method Reinitialize()
      requires Valid()
      modifies this, frameBuffer
      ensures Valid() && View() == Fresh
    {
      forall i | 0 <= i < frameBuffer.Length {
        frameBuffer[i] := 0;
      }
      state, frameIndex, expectedFrameLength, lastError := WaitMagic1, 0, 0, ProtoOk;
      framesOk, crcErrors, formatErrors, discardedBytes := 0, 0, 0, 0;
    }

    method Reset()
      requires frameBuffer.Length == MAX_FRAME_SIZE && frameIndex <= MAX_FRAME_SIZE
      modifies this
      ensures Valid() && View() == ResetFrame(old(View()))
    {
      state, frameIndex, expectedFrameLength, lastError := WaitMagic1, 0, 0, ProtoOk;
    }

    method Resync()
      requires frameBuffer.Length == MAX_FRAME_SIZE && frameIndex <= MAX_FRAME_SIZE
      modifies this, frameBuffer
      ensures Valid() && View() == ResyncFromTail(old(View()))
    {
      var n := frameIndex;
      if n >= 2 && frameBuffer[n - 2] == MAGIC_HI && frameBuffer[n - 1] == MAGIC_LO {
        assert View().pending[n - 2..] == MAGIC;
        frameBuffer[0] := MAGIC_HI;
        frameBuffer[1] := MAGIC_LO;
        frameIndex, expectedFrameLength, state := 2, 0, ReadHeader;
        return;
      }
      if n >= 1 && frameBuffer[n - 1] == MAGIC_HI {
        frameBuffer[0] := MAGIC_HI;
        frameIndex, expectedFrameLength, state := 1, 0, WaitMagic2;
        return;
      }
      frameIndex, expectedFrameLength, state := 0, 0, WaitMagic1;
    }

    method Feed(byte: u8, out: PacketBuffer) returns (event: EventKind)
      requires Valid() && out.Valid() && out.payload != frameBuffer
      modifies this, frameBuffer, out, out.payload
      ensures Valid() && View() == FeedByte(old(View()), byte).0
      ensures event == KindOf(FeedByte(old(View()), byte).1)
      ensures match FeedByte(old(View()), byte).1
              case FrameEvent(packet) => out.length <= MAX_PAYLOAD && out.View() == packet
              case ErrorEvent(reason) => lastError == reason
              case NoEvent => true
      ensures event != EventFrame ==> unchanged(out) && unchanged(out.payload)
    {
      match state
      case WaitMagic1 =>
        if byte == MAGIC_HI {
          frameBuffer[0] := byte;
          frameIndex, state := 1, WaitMagic2;
        } else {
          discardedBytes := Add32(discardedBytes, 1);
        }
        return EventNone;
      case WaitMagic2 =>
        if byte == MAGIC_LO {
          frameBuffer[1] := byte;
          frameIndex, state := 2, ReadHeader;
        } else if byte == MAGIC_HI {
          frameBuffer[0] := MAGIC_HI;
          frameIndex := 1;
          discardedBytes := Add32(discardedBytes, 1);
        } else {
          frameIndex, state := 0, WaitMagic1;
          discardedBytes := Add32(discardedBytes, 2);
        }
        return EventNone;
      case ReadHeader =>
        event := FeedHeaderByte(byte);
      case ReadRest =>
        event := FeedRestByte(byte, out);
    }

    method FeedHeaderByte(byte: u8) returns (event: EventKind)
      requires Valid() && state == ReadHeader
      modifies this, frameBuffer
      ensures Valid() && View() == FeedHeader(old(View()), byte).0
      ensures event == KindOf(FeedHeader(old(View()), byte).1)
      ensures forall r :: FeedHeader(old(View()), byte).1 == ErrorEvent(r) ==> lastError == r
    {
      if frameIndex >= HEADER_SIZE {
        lastError := ErrBuffer;
        formatErrors := Add32(formatErrors, 1);
        Reset();
        return EventError;
      }
      frameBuffer[frameIndex] := byte;
      frameIndex := frameIndex + 1;
      assert frameBuffer[..frameIndex] == old(frameBuffer[..frameIndex]) + [byte];
      if frameIndex < HEADER_SIZE {
        return EventNone;
      }
      if frameBuffer[2] != VERSION {
        lastError := ErrVersion;
        formatErrors := Add32(formatErrors, 1);
        Resync();
        return EventError;
      }
      var payloadLength := ReadU16Be(frameBuffer, 6, frameIndex);
      hide PayloadLength, Add32;
      if payloadLength > MAX_PAYLOAD {
        lastError := ErrLength;
        formatErrors := Add32(formatErrors, 1);
        Resync();
        return EventError;
      }
      // With the length in bounds the frame fits MAX_FRAME_SIZE, so there is nothing further to test.
      expectedFrameLength := HEADER_SIZE + payloadLength + CRC_SIZE;
      state := ReadRest;
      return EventNone;
    }

    method FeedRestByte(byte: u8, out: PacketBuffer) returns (event: EventKind)
      requires Valid() && state == ReadRest && out.Valid() && out.payload != frameBuffer
      modifies this, frameBuffer, out, out.payload
      ensures Valid() && View() == FeedRest(old(View()), byte).0
      ensures event == KindOf(FeedRest(old(View()), byte).1)
      ensures forall r :: FeedRest(old(View()), byte).1 == ErrorEvent(r) ==> lastError == r
      ensures event == EventFrame ==> out.length <= MAX_PAYLOAD && FeedRest(old(View()), byte).1 == FrameEvent(out.View())
      ensures event != EventFrame ==> unchanged(out) && unchanged(out.payload)
    {
      if frameIndex >= MAX_FRAME_SIZE {
        lastError := ErrBuffer;
        formatErrors := Add32(formatErrors, 1);
        Reset();
        return EventError;
      }
      frameBuffer[frameIndex] := byte;
      frameIndex := frameIndex + 1;
      assert frameBuffer[..frameIndex] == old(frameBuffer[..frameIndex]) + [byte];
      if frameIndex < expectedFrameLength {
        return EventNone;
      }
      if frameIndex > expectedFrameLength {
        lastError := ErrFrameSize;
        formatErrors := Add32(formatErrors, 1);
        Reset();
        return EventError;
      }
      hide FinishFrame;
      event := Finish(out);
    }

    method Finish(out: PacketBuffer) returns (event: EventKind)
      requires Valid() && state == ReadRest && out.Valid() && out.payload != frameBuffer
      modifies this, out, out.payload
      ensures Valid() && View() == FinishFrame(old(View())).0
      ensures event == KindOf(FinishFrame(old(View())).1)
      ensures forall r :: FinishFrame(old(View())).1 == ErrorEvent(r) ==> lastError == r
      ensures event == EventFrame ==> out.length <= MAX_PAYLOAD && FinishFrame(old(View())).1 == FrameEvent(out.View())
      ensures event != EventFrame ==> unchanged(out) && unchanged(out.payload)
    {
      hide DecodeResult, Decoded;
      var result := Decode(frameBuffer, frameIndex, out);
      lastError := result;
      if result == ProtoOk {
        framesOk := Add32(framesOk, 1);
        Reset();
        return EventFrame;
      }
      if result == ErrCrc {
        crcErrors := Add32(crcErrors, 1);
      } else {
        formatErrors := Add32(formatErrors, 1);
      }
      Reset();
      lastError := result;
      return EventError;
    }
  }
}
