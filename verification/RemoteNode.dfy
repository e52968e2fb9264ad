/** The remote node: parsed packets in, replies and statistics out. */
module RemoteNodes {
  import opened Bits
  import opened Protocol
  import opened StreamParsing
  import opened ParserRuns

  const HEARTBEAT_PERIOD_MS: nat := 500
  const TELEMETRY_PERIOD_MS: nat := 100

  datatype CommStatus = CommInit | CommOk | CommError

  function StatusCode(c: CommStatus): u8 {
    match c
    case CommInit => 0
    case CommOk => 1
    case CommError => 2
  }

  const UNKNOWN_MSG: u8 := 1
  const BAD_LENGTH: u8 := 2
  const UNSUPPORTED: u8 := 3

  datatype Stats = Stats(
    validFrames: u32, parserErrors: u32, crcErrors: u32, unknownMsgs: u32, duplicateSeqs: u32,
    rxOverflows: u32, uartErrors: u32, txErrors: u32,
    lastRxSeq: u16, commStatus: CommStatus)

  datatype Node = Node(
    parser: Parser, stats: Stats,
    lastHeartbeat: u32, lastTelemetry: u32, heartbeatSeq: u16, telemetrySeq: u16, statusFlags: u16,
    lastRequestMsgId: u8, lastRequestSeq: u16, lastRequestValid: bool)

  /** What the platform answers: the clock's reading, and whether the transmit function succeeds. */
  datatype Env = Env(now: u32, txOk: bool)

  function Booted(now: u32): Node {
    Node(Fresh, Stats(0, 0, 0, 0, 0, 0, 0, 0, 0, CommInit), now, now, 0, 0, 0, 0, 0, false)
  }

  function TxFailed(s: Stats): Stats {
    s.(txErrors := Add32(s.txErrors, 1), commStatus := CommError)
  }

  /** The node afterwards, and the frames handed to the transmit function. */
  function SendPacket(n: Node, p: Packet, txOk: bool): (Node, seq<seq<u8>>) {
    if !Sendable(p) then (n.(stats := TxFailed(n.stats)), [])
    else (if txOk then n else n.(stats := TxFailed(n.stats)), [Encoded(p)])
  }

  function ErrorPacket(seqNo: u16, code: u8, offending: u8): Packet {
    Packet(VERSION, MSG_ERROR, seqNo, [code, offending])
  }

  function Pong(seqNo: u16): Packet {
    Packet(VERSION, MSG_PONG, seqNo, [])
  }

  function StatusResponse(seqNo: u16, now: u32, s: Stats): Packet {
    Packet(VERSION, MSG_STATUS_RESP, seqNo, StatusPayload(now, s))
  }

  function StatusPayload(now: u32, s: Stats): (r: seq<u8>)
    ensures |r| == 20
  {
    Be32(now) + Be32(s.validFrames) + Be32(s.parserErrors) + Be32(s.crcErrors)
    + Be16(s.lastRxSeq) + [StatusCode(s.commStatus), 0]
  }

  function RememberRequest(n: Node, request: Packet): Node {
    var duplicate := n.lastRequestValid && n.lastRequestMsgId == request.msgId && n.lastRequestSeq == request.seqNo;
    n.(stats := if duplicate then n.stats.(duplicateSeqs := Add32(n.stats.duplicateSeqs, 1)) else n.stats,
       lastRequestMsgId := request.msgId, lastRequestSeq := request.seqNo, lastRequestValid := true)
  }

  function NoteValidFrame(s: Stats, seqNo: u16): Stats {
    s.(validFrames := Add32(s.validFrames, 1), lastRxSeq := seqNo,
       commStatus := if s.commStatus == CommInit then CommOk else s.commStatus)
  }

  function HandlePacket(n: Node, p: Packet, env: Env): (Node, seq<seq<u8>>) {
    var m := n.(stats := NoteValidFrame(n.stats, p.seqNo));
    if p.msgId == MSG_PING then
      if |p.payload| != 0 then SendPacket(m, ErrorPacket(p.seqNo, BAD_LENGTH, p.msgId), env.txOk)
      else SendPacket(RememberRequest(m, p), Pong(p.seqNo), env.txOk)
    else if p.msgId == MSG_READ_STATUS then
      if |p.payload| != 0 then SendPacket(m, ErrorPacket(p.seqNo, BAD_LENGTH, p.msgId), env.txOk)
      else
        var r := RememberRequest(m, p);
        SendPacket(r, StatusResponse(p.seqNo, env.now, r.stats), env.txOk)
    else if p.msgId in {MSG_PONG, MSG_STATUS_RESP, MSG_HEARTBEAT, MSG_TELEMETRY} then
      SendPacket(m, ErrorPacket(p.seqNo, UNSUPPORTED, p.msgId), env.txOk)
    else if p.msgId == MSG_ERROR then (m, [])
    else
      SendPacket(m.(stats := m.stats.(unknownMsgs := Add32(m.stats.unknownMsgs, 1))),
                 ErrorPacket(p.seqNo, UNKNOWN_MSG, p.msgId), env.txOk)
  }

  function CountRejection(s: Stats, reason: ProtocolResult): Stats {
    if reason == ErrCrc then s.(crcErrors := Add32(s.crcErrors, 1))
    else s.(parserErrors := Add32(s.parserErrors, 1))
  }

  function ProcessByte(n: Node, b: u8, env: Env): (Node, seq<seq<u8>>) {
    var fed := FeedByte(n.parser, b);
    var m := n.(parser := fed.0);
    match fed.1
    case NoEvent => (m, [])
    case FrameEvent(p) => HandlePacket(m, p, env)
    case ErrorEvent(_) => (m.(stats := CountRejection(m.stats, m.parser.lastError)), [])
  }

  function ProcessBytes(n: Node, s: seq<u8>, envs: seq<Env>): (Node, seq<seq<u8>>)
    requires |envs| == |s|
  {
    if s == [] then (n, [])
    else
      var before := ProcessBytes(n, s[..|s| - 1], envs[..|s| - 1]);
      var next := ProcessByte(before.0, s[|s| - 1], envs[|s| - 1]);
      (next.0, before.1 + next.1)
  }

  // ----- Periodic traffic -----

  /** Unsigned 32-bit subtraction. */
  function Elapsed(now: u32, since: u32): u32 {
    (now - since) % 0x1_0000_0000
  }

  function TelemetryStep(n: Node, now: u32, txOk: bool): (Node, seq<seq<u8>>) {
    if Elapsed(now, n.lastTelemetry) >= TELEMETRY_PERIOD_MS then
      var m := n.(lastTelemetry := now, telemetrySeq := (n.telemetrySeq + 1) % 0x1_0000);
      SendPacket(m, Packet(VERSION, MSG_TELEMETRY, m.telemetrySeq, Be32(now) + Be16(n.statusFlags)), txOk)
    else (n, [])
  }

  function HeartbeatStep(n: Node, now: u32, txOk: bool): (Node, seq<seq<u8>>) {
    if Elapsed(now, n.lastHeartbeat) >= HEARTBEAT_PERIOD_MS then
      var m := n.(lastHeartbeat := now, heartbeatSeq := (n.heartbeatSeq + 1) % 0x1_0000);
      SendPacket(m, Packet(VERSION, MSG_HEARTBEAT, m.heartbeatSeq, Be32(now)), txOk)
    else (n, [])
  }

  function ProcessPeriodic(n: Node, now: u32, telemetryOk: bool, heartbeatOk: bool): (Node, seq<seq<u8>>) {
    var t := TelemetryStep(n, now, telemetryOk);
    var h := HeartbeatStep(t.0, now, heartbeatOk);
    (h.0, t.1 + h.1)
  }

  function NoteRxOverflow(n: Node): Node {
    n.(stats := n.stats.(rxOverflows := Add32(n.stats.rxOverflows, 1), commStatus := CommError))
  }

  function NoteUartError(n: Node): Node {
    n.(stats := n.stats.(uartErrors := Add32(n.stats.uartErrors, 1), commStatus := CommError))
  }

  // ----- The node structure, updated in place -----

  method WriteU32Be(dst: array<u8>, offset: nat, value: u32)
    requires offset + 4 <= dst.Length
    modifies dst
    ensures dst[..] == Overwrite(old(dst[..]), offset, Be32(value))
  {
    dst[offset] := value / 0x100_0000;
    dst[offset + 1] := value / 0x1_0000 % 256;
    dst[offset + 2] := value / 0x100 % 256;
    dst[offset + 3] := value % 256;
  }

  /** The writes of a status payload, in order, over whatever the array held. */
  function StatusWritten(d: seq<u8>, now: u32, s: Stats): (r: seq<u8>)
    requires |d| >= 20
    ensures |r| == |d|
  {
    var words := Overwrite(Overwrite(Overwrite(Overwrite(d, 0, Be32(now)), 4, Be32(s.validFrames)),
                                     8, Be32(s.parserErrors)), 12, Be32(s.crcErrors));
    Overwrite(words, 16, Be16(s.lastRxSeq))[18 := StatusCode(s.commStatus)][19 := 0]
  }

  lemma StatusWrittenIs(d: seq<u8>, now: u32, s: Stats)
    requires |d| >= 20
    ensures StatusWritten(d, now, s)[..20] == StatusPayload(now, s)
  {
    var r := StatusWritten(d, now, s);
    hide Overwrite, Be32, Be16;
    assert r[0..4] == Be32(now) && r[4..8] == Be32(s.validFrames) && r[8..12] == Be32(s.parserErrors);
    assert r[12..16] == Be32(s.crcErrors) && r[16..18] == Be16(s.lastRxSeq);
    assert r[18..20] == [StatusCode(s.commStatus), 0];
    hide StatusWritten;
    assert r[..20] == r[0..4] + r[4..8] + r[8..12] + r[12..16] + r[16..18] + r[18..20];
  }

  method WriteStatus(dst: array<u8>, now: u32, s: Stats)
    requires dst.Length >= 20
    modifies dst
    ensures dst[..20] == StatusPayload(now, s)
  {
    ghost var before := dst[..];
    hide Overwrite, Be32, Be16, StatusPayload;
    WriteU32Be(dst, 0, now);
    WriteU32Be(dst, 4, s.validFrames);
    WriteU32Be(dst, 8, s.parserErrors);
    WriteU32Be(dst, 12, s.crcErrors);
    WriteU16Be(dst, 16, s.lastRxSeq);
    dst[18] := StatusCode(s.commStatus);
    dst[19] := 0;
    assert dst[..] == StatusWritten(before, now, s);
    StatusWrittenIs(before, now, s);
  }

  class RemoteNode {
    const parser: StreamParser
    var stats: Stats
    var lastHeartbeat: u32
    var lastTelemetry: u32
    var heartbeatSeq: u16
    var telemetrySeq: u16
    var statusFlags: u16
    var lastRequestMsgId: u8
    var lastRequestSeq: u16
    var lastRequestValid: bool

    ghost predicate Valid()
      reads this, parser, parser.frameBuffer
    {
      parser.Valid()
    }

    ghost function View(): Node
      reads this, parser, parser.frameBuffer
      requires Valid()
    {
      Node(parser.View(), stats, lastHeartbeat, lastTelemetry, heartbeatSeq, telemetrySeq, statusFlags,
           lastRequestMsgId, lastRequestSeq, lastRequestValid)
    }

    constructor (now: u32)
      ensures Valid() && View() == Booted(now) && fresh(parser) && fresh(parser.frameBuffer)
    {
      parser := new StreamParser();
      stats := Stats(0, 0, 0, 0, 0, 0, 0, 0, 0, CommInit);
      lastHeartbeat, lastTelemetry, heartbeatSeq, telemetrySeq, statusFlags := now, now, 0, 0, 0;
      lastRequestMsgId, lastRequestSeq, lastRequestValid := 0, 0, false;
    }

    method Send(packet: PacketBuffer, txOk: bool) returns (handed: seq<seq<u8>>)
      requires Valid() && packet.Valid() && packet.length <= MAX_PAYLOAD
      modifies `stats
      ensures Valid() && (View(), handed) == SendPacket(old(View()), packet.View(), txOk)
    {
      var frame := new u8[MAX_FRAME_SIZE];
      var result, frameLength := Encode(packet, frame);
      if result != ProtoOk {
        stats := TxFailed(stats);
        return [];
      }
      handed := [frame[..frameLength]];
      hide Encoded;
      assert frame[..frameLength] == Encoded(packet.View());
      if !txOk {
        stats := TxFailed(stats);
      }
    }

    method SendError(seqNo: u16, code: u8, offending: u8, txOk: bool) returns (handed: seq<seq<u8>>)
      requires Valid()
      modifies `stats
      ensures Valid() && (View(), handed) == SendPacket(old(View()), ErrorPacket(seqNo, code, offending), txOk)
    {
      var response := new PacketBuffer(VERSION, MSG_ERROR, seqNo);
      response.payload[0] := code;
      response.payload[1] := offending;
      response.length := 2;
      assert response.View().payload == [code, offending];
      handed := Send(response, txOk);
    }

    method Remember(msgId: u8, seqNo: u16, ghost request: Packet)
      requires Valid() && request.msgId == msgId && request.seqNo == seqNo
      modifies `stats, `lastRequestMsgId, `lastRequestSeq, `lastRequestValid
      ensures Valid() && View() == RememberRequest(old(View()), request)
    {
      if lastRequestValid && lastRequestMsgId == msgId && lastRequestSeq == seqNo {
        stats := stats.(duplicateSeqs := Add32(stats.duplicateSeqs, 1));
      }
      lastRequestMsgId, lastRequestSeq, lastRequestValid := msgId, seqNo, true;
    }

    method SendStatus(seqNo: u16, env: Env) returns (handed: seq<seq<u8>>)
      requires Valid()
      modifies `stats
      ensures Valid() && (View(), handed) == SendPacket(old(View()), StatusResponse(seqNo, env.now, old(stats)), env.txOk)
    {
      var response := new PacketBuffer(VERSION, MSG_STATUS_RESP, seqNo);
      WriteStatus(response.payload, env.now, stats);
      response.length := 20;
      hide StatusPayload, SendPacket;
      handed := Send(response, env.txOk);
    }

    method Handle(packet: PacketBuffer, env: Env) returns (handed: seq<seq<u8>>)
      requires Valid() && packet.Valid() && packet.length <= MAX_PAYLOAD
      modifies `stats, `lastRequestMsgId, `lastRequestSeq, `lastRequestValid
      ensures Valid() && (View(), handed) == HandlePacket(old(View()), packet.View(), env)
    {
      ghost var p := packet.View();
      hide SendPacket, StatusResponse, ErrorPacket, Pong;
      stats := NoteValidFrame(stats, packet.seqNo);
      if packet.msgId == MSG_PING {
        if packet.length != 0 {
          handed := SendError(packet.seqNo, BAD_LENGTH, packet.msgId, env.txOk);
        } else {
          Remember(packet.msgId, packet.seqNo, p);
          handed := SendPong(packet.seqNo, env.txOk);
        }
      } else if packet.msgId == MSG_READ_STATUS {
        if packet.length != 0 {
          handed := SendError(packet.seqNo, BAD_LENGTH, packet.msgId, env.txOk);
        } else {
          Remember(packet.msgId, packet.seqNo, p);
          handed := SendStatus(packet.seqNo, env);
        }
      } else if packet.msgId in {MSG_PONG, MSG_STATUS_RESP, MSG_HEARTBEAT, MSG_TELEMETRY} {
        handed := SendError(packet.seqNo, UNSUPPORTED, packet.msgId, env.txOk);
      } else if packet.msgId == MSG_ERROR {
        handed := [];
      } else {
        stats := stats.(unknownMsgs := Add32(stats.unknownMsgs, 1));
        handed := SendError(packet.seqNo, UNKNOWN_MSG, packet.msgId, env.txOk);
      }
    }

    method SendPong(seqNo: u16, txOk: bool) returns (handed: seq<seq<u8>>)
      requires Valid()
      modifies `stats
      ensures Valid() && (View(), handed) == SendPacket(old(View()), Pong(seqNo), txOk)
    {
      var response := new PacketBuffer(VERSION, MSG_PONG, seqNo);
      handed := Send(response, txOk);
    }

    method Process(byte: u8, env: Env) returns (handed: seq<seq<u8>>)
      requires Valid()
      modifies this, parser, parser.frameBuffer
      ensures Valid() && (View(), handed) == ProcessByte(old(View()), byte, env)
    {
      handed := [];
      hide FeedByte, HandlePacket;
      var packet := new PacketBuffer(0, 0, 0);
      var event := parser.Feed(byte, packet);
      if event == EventFrame {
        handed := Handle(packet, env);
      } else if event == EventError {
        stats := CountRejection(stats, parser.lastError);
      }
    }

    method ProcessAll(bytes: array<u8>, envs: seq<Env>) returns (handed: seq<seq<u8>>)
      requires Valid() && |envs| == bytes.Length && bytes != parser.frameBuffer
      modifies this, parser, parser.frameBuffer
      ensures Valid() && (View(), handed) == ProcessBytes(old(View()), bytes[..], envs)
    {
      handed := [];
      hide ProcessByte;
      for i := 0 to bytes.Length
        invariant Valid() && (View(), handed) == ProcessBytes(old(View()), bytes[..i], envs[..i])
      {
        var more := Process(bytes[i], envs[i]);
        handed := handed + more;
        assert bytes[..i + 1][..i] == bytes[..i] && envs[..i + 1][..i] == envs[..i];
      }
      assert bytes[..bytes.Length] == bytes[..] && envs[..|envs|] == envs;
    }

    method Periodic(now: u32, telemetryOk: bool, heartbeatOk: bool) returns (handed: seq<seq<u8>>)
      requires Valid()
      modifies this
      ensures Valid() && (View(), handed) == ProcessPeriodic(old(View()), now, telemetryOk, heartbeatOk)
    {
      var telemetry := SendTelemetryIfDue(now, telemetryOk);
      var heartbeat := SendHeartbeatIfDue(now, heartbeatOk);
      handed := telemetry + heartbeat;
    }

    method SendTelemetryIfDue(now: u32, txOk: bool) returns (handed: seq<seq<u8>>)
      requires Valid()
      modifies this
      ensures Valid() && (View(), handed) == TelemetryStep(old(View()), now, txOk)
    {
      if Elapsed(now, lastTelemetry) < TELEMETRY_PERIOD_MS {
        return [];
      }
      lastTelemetry := now;
      telemetrySeq := (telemetrySeq + 1) % 0x1_0000;
      var packet := new PacketBuffer(VERSION, MSG_TELEMETRY, telemetrySeq);
      hide Be32, Be16, SendPacket;
      WriteU32Be(packet.payload, 0, now);
      WriteU16Be(packet.payload, 4, statusFlags);
      packet.length := 6;
      assert packet.View().payload == Be32(now) + Be16(statusFlags);
      handed := Send(packet, txOk);
    }

    method SendHeartbeatIfDue(now: u32, txOk: bool) returns (handed: seq<seq<u8>>)
      requires Valid()
      modifies this
      ensures Valid() && (View(), handed) == HeartbeatStep(old(View()), now, txOk)
    {
      if Elapsed(now, lastHeartbeat) < HEARTBEAT_PERIOD_MS {
        return [];
      }
      lastHeartbeat := now;
      heartbeatSeq := (heartbeatSeq + 1) % 0x1_0000;
      var packet := new PacketBuffer(VERSION, MSG_HEARTBEAT, heartbeatSeq);
      hide Be32, SendPacket;
      WriteU32Be(packet.payload, 0, now);
      packet.length := 4;
      assert packet.View().payload == Be32(now);
      handed := Send(packet, txOk);
    }

    method NoteOverflow()
      requires Valid()
      modifies `stats
      ensures Valid() && View() == NoteRxOverflow(old(View()))
    {
      stats := stats.(rxOverflows := Add32(stats.rxOverflows, 1), commStatus := CommError);
    }

    method NoteError()
      requires Valid()
      modifies `stats
      ensures Valid() && View() == NoteUartError(old(View()))
    {
      stats := stats.(uartErrors := Add32(stats.uartErrors, 1), commStatus := CommError);
    }

    method SetStatusFlags(flags: u16)
      requires Valid()
      modifies `statusFlags
      ensures Valid() && View() == old(View()).(statusFlags := flags)
    {
      statusFlags := flags;
    }
  }
}
