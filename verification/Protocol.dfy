/** Protocol V1 frames: MAGIC(2) VERSION(1) MSG_ID(1) SEQ(2) LENGTH(2) PAYLOAD(n) CRC16(2), big endian. */
module Protocol {
  import opened Bits
  import opened Crc16

  const MAGIC_HI: u8 := 0xAA
  const MAGIC_LO: u8 := 0x55
  const MAGIC: seq<u8> := [MAGIC_HI, MAGIC_LO]
  const VERSION: u8 := 0x01

  const MAX_PAYLOAD: nat := 256
  const HEADER_SIZE: nat := 8
  const CRC_SIZE: nat := 2
  const MIN_FRAME_SIZE: nat := HEADER_SIZE + CRC_SIZE
  const MAX_FRAME_SIZE: nat := HEADER_SIZE + MAX_PAYLOAD + CRC_SIZE

  const MSG_PING: u8 := 0x01
  const MSG_PONG: u8 := 0x81
  const MSG_READ_STATUS: u8 := 0x10
  const MSG_STATUS_RESP: u8 := 0x90
  const MSG_HEARTBEAT: u8 := 0x20
  const MSG_TELEMETRY: u8 := 0x40
  const MSG_ERROR: u8 := 0xE0

  datatype ProtocolResult =
    | ProtoOk | ErrBuffer | ErrMagic | ErrVersion | ErrLength | ErrFrameSize | ErrCrc

  /** The value of a packet: the header fields and as many payload bytes as its LENGTH says. */
  datatype Packet = Packet(version: u8, msgId: u8, seqNo: u16, payload: seq<u8>)

  /** What a frame can carry. */
  predicate Sendable(p: Packet) {
    p.version == VERSION && |p.payload| <= MAX_PAYLOAD
  }

  function Be16(w: u16): (r: seq<u8>)
    ensures |r| == 2
  {
    [w / 256, w % 256]
  }

  function Be32(w: u32): (r: seq<u8>)
    ensures |r| == 4
  {
    [w / 0x100_0000, w / 0x1_0000 % 256, w / 0x100 % 256, w % 256]
  }

  function ReadU16(s: seq<u8>, at: nat): u16
    requires at + 2 <= |s|
  {
    var hi: int := s[at];
    hi * 256 + s[at + 1]
  }

  function ReadU32(s: seq<u8>, at: nat): u32
    requires at + 4 <= |s|
  {
    var b0: int, b1: int, b2: int := s[at], s[at + 1], s[at + 2];
    b0 * 0x100_0000 + b1 * 0x1_0000 + b2 * 0x100 + s[at + 3]
  }

  lemma Be16IsBigEndian(w: u16)
    ensures var hi: int := Be16(w)[0]; hi * 0x100 + Be16(w)[1] == w
    ensures ReadU16(Be16(w), 0) == w
  {}

  lemma Be16OfRead(s: seq<u8>, at: nat)
    requires at + 2 <= |s|
    ensures Be16(ReadU16(s, at)) == [s[at], s[at + 1]] == s[at..at + 2]
  {
    var hi: int, lo: int := s[at], s[at + 1];
    assert (hi * 256 + lo) / 256 == hi && (hi * 256 + lo) % 256 == lo;
  }

  lemma Be32IsBigEndian(w: u32)
    ensures var b0: int, b1: int, b2: int := Be32(w)[0], Be32(w)[1], Be32(w)[2];
            b0 * 0x100_0000 + b1 * 0x1_0000 + b2 * 0x100 + Be32(w)[3] == w
    ensures ReadU32(Be32(w), 0) == w
  {
    var a, b := w / 0x100_0000, w % 0x100_0000;
    assert w / 0x1_0000 % 256 == b / 0x1_0000;
    assert w / 0x100 % 256 == b % 0x1_0000 / 0x100;
  }

  /** High byte first: a word reads back as itself, wherever its bytes stand. */
  lemma WordsAreBigEndian(w: u16, d: u32, before: seq<u8>, after: seq<u8>)
    ensures ReadU16(before + Be16(w) + after, |before|) == w
    ensures ReadU32(before + Be32(d) + after, |before|) == d
  {
    Be16IsBigEndian(w);
    Be32IsBigEndian(d);
    hide Be16, Be32;
    var s, t := before + Be16(w) + after, before + Be32(d) + after;
    assert s[|before|] == Be16(w)[0] && s[|before| + 1] == Be16(w)[1];
    assert t[|before|] == Be32(d)[0] && t[|before| + 1] == Be32(d)[1];
    assert t[|before| + 2] == Be32(d)[2] && t[|before| + 3] == Be32(d)[3];
  }

  /** The part of a frame the CRC covers. */
  function Body(p: Packet): (b: seq<u8>)
    requires Sendable(p)
    ensures |b| == 6 + |p.payload|
  {
    [p.version, p.msgId] + Be16(p.seqNo) + Be16(|p.payload|) + p.payload
  }

  function Encoded(p: Packet): (f: seq<u8>)
    requires Sendable(p)
    ensures |f| == MIN_FRAME_SIZE + |p.payload|
  {
    MAGIC + Body(p) + Be16(Crc(Body(p)))
  }

  function PayloadLength(s: seq<u8>): u16
    requires |s| >= HEADER_SIZE
  {
    ReadU16(s, 6)
  }

  function DecodeResult(s: seq<u8>): ProtocolResult {
    if |s| < MIN_FRAME_SIZE then ErrBuffer
    else if s[..2] != MAGIC then ErrMagic
    else if s[2] != VERSION then ErrVersion
    else if PayloadLength(s) > MAX_PAYLOAD then ErrLength
    else if |s| != MIN_FRAME_SIZE + PayloadLength(s) then ErrFrameSize
    else if Crc(s[2..|s| - 2]) != ReadU16(s, |s| - 2) then ErrCrc
    else ProtoOk
  }

  function Decoded(s: seq<u8>): (p: Packet)
    requires |s| >= MIN_FRAME_SIZE
  {
    Packet(s[2], s[3], ReadU16(s, 4), s[HEADER_SIZE..|s| - 2])
  }

  /** Each error is reported exactly when its own check fails and those before it pass. */
  lemma DecodeErrorsExactly(s: seq<u8>)
    ensures DecodeResult(s) == ErrBuffer <==> |s| < 10
    ensures DecodeResult(s) == ErrMagic <==> |s| >= 10 && !(s[0] == 0xAA && s[1] == 0x55)
    ensures |s| >= 10 && s[0] == 0xAA && s[1] == 0x55 ==>
              var hi: int, top: int := s[6], s[|s| - 2];
              var length := hi * 256 + s[7];
              && (DecodeResult(s) == ErrVersion <==> s[2] != 1)
              && (DecodeResult(s) == ErrLength <==> s[2] == 1 && length > 256)
              && (DecodeResult(s) == ErrFrameSize <==> s[2] == 1 && length <= 256 && |s| != 10 + length)
              && (DecodeResult(s) == ErrCrc <==> s[2] == 1 && length <= 256 && |s| == 10 + length
                                                 && Crc(s[2..|s| - 2]) != top * 256 + s[|s| - 1])
  {
    hide Crc;
    if |s| >= 10 {
      assert s[..2] == [s[0], s[1]];
    }
  }

  lemma EncodedLayout(p: Packet)
    requires Sendable(p)
    ensures var f := Encoded(p);
            && |f| == 10 + |p.payload| && f[0] == 0xAA && f[1] == 0x55 && f[2] == p.version && f[3] == p.msgId
            && ReadU16(f, 4) == p.seqNo && PayloadLength(f) == |p.payload|
            && f[8..|f| - 2] == p.payload
            && f[2..|f| - 2] == Body(p) && ReadU16(f, |f| - 2) == Crc(Body(p))
  {
    hide Crc;
  }

  /** Decoding accepts exactly the frames that encoding makes, and gives back the packet encoded. */
  lemma DecodeAcceptsExactlyEncoded(s: seq<u8>, p: Packet)
    ensures Sendable(p) && s == Encoded(p) <==> DecodeResult(s) == ProtoOk && p == Decoded(s)
  {
    hide Crc;
    if Sendable(p) && s == Encoded(p) {
      EncodedLayout(p);
    }
    if DecodeResult(s) == ProtoOk && p == Decoded(s) {
      Be16OfRead(s, 4);
      Be16OfRead(s, 6);
      Be16OfRead(s, |s| - 2);
      hide Be16, ReadU16;
      assert s[2..|s| - 2] == [s[2], s[3]] + s[4..6] + s[6..8] + s[8..|s| - 2];
      assert s == s[..2] + s[2..|s| - 2] + s[|s| - 2..];
    }
  }

  lemma RoundTrip(p: Packet)
    requires Sendable(p)
    ensures DecodeResult(Encoded(p)) == ProtoOk && Decoded(Encoded(p)) == p
  {
    DecodeAcceptsExactlyEncoded(Encoded(p), p);
  }

  lemma EncodedInjective(p: Packet, q: Packet)
    requires Sendable(p) && Sendable(q) && Encoded(p) == Encoded(q)
    ensures p == q
  {
    RoundTrip(p);
    RoundTrip(q);
  }

  // ----- The caller-owned packet structure and the two routines -----

  class PacketBuffer {
    var version: u8
    var msgId: u8
    var seqNo: u16
    var length: u16
    const payload: array<u8>

    ghost predicate Valid() {
      payload.Length == MAX_PAYLOAD
    }

    ghost function View(): Packet
      reads this, payload
      requires Valid() && length <= MAX_PAYLOAD
    {
      Packet(version, msgId, seqNo, payload[..length])
    }

    constructor (version: u8, msgId: u8, seqNo: u16)
      ensures Valid() && fresh(payload)
      ensures this.version == version && this.msgId == msgId && this.seqNo == seqNo && length == 0
      ensures View() == Packet(version, msgId, seqNo, [])
    {
      this.version, this.msgId, this.seqNo, length := version, msgId, seqNo, 0;
      payload := new u8[MAX_PAYLOAD](_ => 0);
    }
  }

  /** s with t written over it from position `at`. */
  function Overwrite(s: seq<u8>, at: nat, t: seq<u8>): (r: seq<u8>)
    requires at + |t| <= |s|
    ensures |r| == |s|
    ensures forall k :: 0 <= k < |s| ==> r[k] == if at <= k < at + |t| then t[k - at] else s[k]
  {
    s[..at] + t + s[at + |t|..]
  }

  method WriteU16Be(dst: array<u8>, offset: nat, value: u16)
    requires offset + 2 <= dst.Length
    modifies dst
    ensures dst[..] == Overwrite(old(dst[..]), offset, Be16(value))
  {
    dst[offset] := value / 256;
    dst[offset + 1] := value % 256;
  }

  method CopyBytes(dst: array<u8>, offset: nat, src: array<u8>, from: nat, n: nat)
    requires dst != src && offset + n <= dst.Length && from + n <= src.Length
    modifies dst
    ensures dst[..] == Overwrite(old(dst[..]), offset, src[from..from + n])
  {
    for i := 0 to n
      invariant dst[..] == Overwrite(old(dst[..]), offset, src[from..from + i])
    {
      dst[offset + i] := src[from + i];
    }
  }

  /** The header and payload writes, in order, over whatever the buffer held. */
  function FieldsWritten(s: seq<u8>, p: Packet): (r: seq<u8>)
    requires Sendable(p) && HEADER_SIZE + |p.payload| <= |s|
    ensures |r| == |s|
  {
    var magic := Overwrite(s, 0, Be16(0xAA55));
    var header := Overwrite(Overwrite(magic[2 := p.version][3 := p.msgId], 4, Be16(p.seqNo)), 6, Be16(|p.payload|));
    Overwrite(header, HEADER_SIZE, p.payload)
  }

  lemma FieldsWrittenAre(s: seq<u8>, p: Packet)
    requires Sendable(p) && HEADER_SIZE + |p.payload| <= |s|
    ensures FieldsWritten(s, p) == MAGIC + Body(p) + s[HEADER_SIZE + |p.payload|..]
  {
    var r, n := FieldsWritten(s, p), HEADER_SIZE + |p.payload|;
    assert r[..2] == MAGIC;
    assert r[2..4] == [p.version, p.msgId] && r[4..6] == Be16(p.seqNo) && r[6..8] == Be16(|p.payload|);
    assert r[8..n] == p.payload && r[n..] == s[n..];
    hide FieldsWritten, Be16;
    assert r == r[..2] + (r[2..4] + r[4..6] + r[6..8] + r[8..n]) + r[n..];
  }

  /** Everything but the CRC. */
  method WriteFields(packet: PacketBuffer, buffer: array<u8>)
    requires packet.Valid() && packet.payload != buffer
    requires packet.version == VERSION && packet.length <= MAX_PAYLOAD && HEADER_SIZE + packet.length <= buffer.Length
    modifies buffer
    ensures buffer[..] == MAGIC + Body(packet.View()) + old(buffer[HEADER_SIZE + packet.length..])
  {
    ghost var before := buffer[..];
    hide Body, Be16, Overwrite;
    WriteU16Be(buffer, 0, 0xAA55);
    ghost var magic: seq<u8> := buffer[..];
    buffer[2] := packet.version;
    buffer[3] := packet.msgId;
    assert buffer[..] == magic[2 := packet.version][3 := packet.msgId];
    WriteU16Be(buffer, 4, packet.seqNo);
    WriteU16Be(buffer, 6, packet.length);
    CopyBytes(buffer, HEADER_SIZE, packet.payload, 0, packet.length);
    assert packet.payload[0..0 + packet.length] == packet.View().payload;
    assert buffer[..] == FieldsWritten(before, packet.View());
    FieldsWrittenAre(before, packet.View());
  }

  method Encode(packet: PacketBuffer, buffer: array<u8>) returns (result: ProtocolResult, encodedLength: nat)
    requires packet.Valid() && packet.payload != buffer
    modifies buffer
    ensures result == if packet.version != VERSION then ErrVersion
                      else if packet.length > MAX_PAYLOAD then ErrLength
                      else if buffer.Length < MIN_FRAME_SIZE + packet.length then ErrBuffer
                      else ProtoOk
    ensures result == ProtoOk ==>
              && encodedLength == MIN_FRAME_SIZE + packet.length
              && buffer[..] == Overwrite(old(buffer[..]), 0, Encoded(packet.View()))
    ensures result != ProtoOk ==> encodedLength == 0 && unchanged(buffer)
  {
    if packet.version != VERSION {
      return ErrVersion, 0;
    }
    if packet.length > MAX_PAYLOAD {
      return ErrLength, 0;
    }
    var frameLength: nat := HEADER_SIZE + packet.length + CRC_SIZE;
    if buffer.Length < frameLength {
      return ErrBuffer, 0;
    }
    hide Crc, Body, Be16, Overwrite;
    WriteFields(packet, buffer);
    ghost var p := packet.View();
    var crc := Crc16CcittFalse(buffer, 2, 6 + packet.length);
    assert buffer[2..2 + (6 + packet.length)] == Body(p);
    WriteU16Be(buffer, HEADER_SIZE + packet.length, crc);
    return ProtoOk, frameLength;
  }

  method ReadU16Be(src: array<u8>, offset: nat, ghost length: nat) returns (value: u16)
    requires offset + 2 <= length <= src.Length
    ensures value == ReadU16(src[..length], offset)
  {
    var hi: int := src[offset];
    value := hi * 256 + src[offset + 1];
  }

  lemma SliceFrom(t: seq<u8>, from: nat, n: nat)
    requires from + 2 <= n <= |t|
    ensures t[..n][from..|t[..n]| - 2] == t[from..n - 2]
  {}

  lemma SliceOfPrefix(t: seq<u8>, n: nat)
    requires 4 <= n <= |t|
    ensures t[..n][2..n - 2] == t[2..n - 2]
  {}

  /** All the checks of protocol_decode. */
  method CheckFrame(buffer: array<u8>, bufferLength: nat) returns (result: ProtocolResult, payloadLength: u16)
    requires bufferLength <= buffer.Length
    ensures result == DecodeResult(buffer[..bufferLength])
    ensures result == ProtoOk ==> bufferLength == MIN_FRAME_SIZE + payloadLength <= MAX_FRAME_SIZE
  {
    hide Crc, ReadU16;
    ghost var s := buffer[..bufferLength];
    if bufferLength < MIN_FRAME_SIZE {
      return ErrBuffer, 0;
    }
    var magic := ReadU16Be(buffer, 0, bufferLength);
    MagicWord(s);
    if magic != 0xAA55 {
      return ErrMagic, 0;
    }
    if buffer[2] != VERSION {
      return ErrVersion, 0;
    }
    payloadLength := ReadU16Be(buffer, 6, bufferLength);
    if payloadLength > MAX_PAYLOAD {
      return ErrLength, 0;
    }
    if bufferLength != HEADER_SIZE + payloadLength + CRC_SIZE {
      return ErrFrameSize, 0;
    }
    var calculatedCrc := Crc16CcittFalse(buffer, 2, 6 + payloadLength);
    assert 2 + (6 + payloadLength) == bufferLength - 2;
    SliceOfPrefix(buffer[..], bufferLength);
    var receivedCrc := ReadU16Be(buffer, HEADER_SIZE + payloadLength, bufferLength);
    if calculatedCrc != receivedCrc {
      return ErrCrc, 0;
    }
    return ProtoOk, payloadLength;
  }

  lemma MagicWord(s: seq<u8>)
    requires |s| >= 2
    ensures ReadU16(s, 0) == 0xAA55 <==> s[..2] == MAGIC
  {
    assert s[..2] == [s[0], s[1]];
  }

  method Decode(buffer: array<u8>, bufferLength: nat, packet: PacketBuffer) returns (result: ProtocolResult)
    requires packet.Valid() && packet.payload != buffer && bufferLength <= buffer.Length
    modifies packet, packet.payload
    ensures result == DecodeResult(buffer[..bufferLength])
    ensures result == ProtoOk ==>
              && packet.length <= MAX_PAYLOAD && packet.View() == Decoded(buffer[..bufferLength])
              && forall k :: packet.length <= k < MAX_PAYLOAD ==> packet.payload[k] == old(packet.payload[k])
    ensures result != ProtoOk ==> unchanged(packet) && unchanged(packet.payload)
  {
    hide DecodeResult, ReadU16;
    var payloadLength: u16;
    result, payloadLength := CheckFrame(buffer, bufferLength);
    if result != ProtoOk {
      return;
    }
    var seqNo := ReadU16Be(buffer, 4, bufferLength);
    packet.version, packet.msgId, packet.seqNo := buffer[2], buffer[3], seqNo;
    packet.length := payloadLength;
    CopyBytes(packet.payload, 0, buffer, HEADER_SIZE, payloadLength);
    SliceFrom(buffer[..], HEADER_SIZE, bufferLength);
    assert packet.payload[..payloadLength] == buffer[HEADER_SIZE..bufferLength - 2];
  }
}
