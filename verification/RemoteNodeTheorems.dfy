/** What a remote node does over whole runs. */
module RemoteNodeTheorems {
  import opened Bits
  import opened Protocol
  import opened StreamParsing
  import opened ParserRuns
  import opened RemoteNodes

  // ----- Replies, told from the events of the byte stream alone -----

  function CountFrames(es: seq<Event>): nat {
    if es == [] then 0 else CountFrames(es[..|es| - 1]) + if es[|es| - 1].FrameEvent? then 1 else 0
  }

  predicate IsCrcError(e: Event) { e == ErrorEvent(ErrCrc) }

  predicate IsFormatError(e: Event) { e.ErrorEvent? && e.reason != ErrCrc }

  function CountCrcErrors(es: seq<Event>): nat {
    if es == [] then 0 else CountCrcErrors(es[..|es| - 1]) + if IsCrcError(es[|es| - 1]) then 1 else 0
  }

  function CountFormatErrors(es: seq<Event>): nat {
    if es == [] then 0 else CountFormatErrors(es[..|es| - 1]) + if IsFormatError(es[|es| - 1]) then 1 else 0
  }

  function Mod32(n: nat): u32 { n % 0x1_0000_0000 }

  /** An answerable request: PING or READ_STATUS without payload. */
  predicate IsRequest(p: Packet) {
    p.msgId in {0x01, 0x10} && p.payload == []
  }

  function ErrorCode(p: Packet): u8 {
    if p.msgId in {0x01, 0x10} then 2
    else if p.msgId in {0x81, 0x90, 0x20, 0x40} then 3
    else 1
  }

  /** The packets that answer `p` when it is the valid-th valid frame, after that many rejections. */
  function ReplyTo(p: Packet, now: u32, valid: nat, format: nat, crc: nat, healthy: bool): (r: seq<Packet>)
    ensures |r| == (if p.msgId == MSG_ERROR then 0 else 1)
    ensures forall q :: q in r ==> Sendable(q) && q.seqNo == p.seqNo && q.msgId == ReplyId(p)
  {
    if p.msgId == MSG_ERROR then []
    else if p.msgId == MSG_PING && p.payload == [] then [Packet(VERSION, MSG_PONG, p.seqNo, [])]
    else if p.msgId == MSG_READ_STATUS && p.payload == [] then
      [Packet(VERSION, MSG_STATUS_RESP, p.seqNo,
              Be32(now) + Be32(Mod32(valid)) + Be32(Mod32(format)) + Be32(Mod32(crc))
              + Be16(p.seqNo) + [if healthy then 1 else 2, 0])]
    else [Packet(VERSION, MSG_ERROR, p.seqNo, [ErrorCode(p), p.msgId])]
  }

  function ReplyId(p: Packet): u8 {
    if p.payload == [] && p.msgId == 0x01 then 0x81
    else if p.payload == [] && p.msgId == 0x10 then 0x90
    else 0xE0
  }

  /** The fields of a status response, read back from its frame. */
  lemma StatusFrameFields(p: Packet, now: u32, valid: nat, format: nat, crc: nat, healthy: bool)
    requires p.msgId == MSG_READ_STATUS && p.payload == []
    ensures var r := ReplyTo(p, now, valid, format, crc, healthy);
            |r| == 1 &&
            var f := Encoded(r[0]);
            && |f| == 30 && f[3] == 0x90 && ReadU16(f, 4) == p.seqNo
            && ReadU32(f, 8) == now && ReadU32(f, 12) == Mod32(valid)
            && ReadU32(f, 16) == Mod32(format) && ReadU32(f, 20) == Mod32(crc)
            && ReadU16(f, 24) == p.seqNo && f[26] == (if healthy then 1 else 2) && f[27] == 0
  {
    var r := ReplyTo(p, now, valid, format, crc, healthy)[0];
    EncodedLayout(r);
    SixFields(r, now, Mod32(valid), Mod32(format), Mod32(crc), p.seqNo, if healthy then 1 else 2, 0);
    hide Encoded, Be32, Be16, Mod32, Body, ReadU32, ReadU16;
  }

  lemma SixFields(r: Packet, a: u32, b: u32, c: u32, d: u32, e: u16, x: u8, y: u8)
    requires Sendable(r) && r.payload == Be32(a) + Be32(b) + Be32(c) + Be32(d) + Be16(e) + [x, y]
    ensures var f := Encoded(r);
            && |f| == 30 && ReadU32(f, 8) == a && ReadU32(f, 12) == b && ReadU32(f, 16) == c && ReadU32(f, 20) == d
            && ReadU16(f, 24) == e && f[26] == x && f[27] == y
  {
    var w0, w1, w2, w3, last := Be32(a), Be32(b), Be32(c), Be32(d), [x, y];
    hide Encoded, Be32, Be16, Body, ReadU32, ReadU16, Sendable;
    Regroup(w0, w1, w2, w3, Be16(e), last);
    FieldInPayload(r, 0, 0, a, [], w1 + w2 + w3 + Be16(e) + last);
    FieldInPayload(r, 4, 0, b, w0, w2 + w3 + Be16(e) + last);
    FieldInPayload(r, 8, 0, c, w0 + w1, w3 + Be16(e) + last);
    FieldInPayload(r, 12, 0, d, w0 + w1 + w2, Be16(e) + last);
    FieldInPayload(r, 16, e, 0, w0 + w1 + w2 + w3, last);
    EncodedLayout(r);
    LastBytes(Encoded(r), w0 + w1 + w2 + w3 + Be16(e), last);
  }

  lemma Regroup(a: seq<u8>, b: seq<u8>, c: seq<u8>, d: seq<u8>, e: seq<u8>, f: seq<u8>)
    ensures var all := a + b + c + d + e + f;
            && all == [] + a + (b + c + d + e + f) && all == a + b + (c + d + e + f)
            && all == (a + b) + c + (d + e + f) && all == (a + b + c) + d + (e + f)
            && all == (a + b + c + d) + e + f
  {}

  lemma LastBytes(f: seq<u8>, front: seq<u8>, last: seq<u8>)
    requires |f| == 30 && |front| == 18 && |last| == 2 && f[8..28] == front + last
    ensures f[26] == last[0] && f[27] == last[1]
  {
    assert f[8..28][18] == f[26] && f[8..28][19] == f[27];
  }

  /** A big-endian word that stands in a packet's payload reads back from the packet's frame. */
  lemma FieldInPayload(p: Packet, at: nat, w: u16, d: u32, before: seq<u8>, after: seq<u8>)
    requires Sendable(p) && |before| == at
    ensures p.payload == before + Be16(w) + after ==> ReadU16(Encoded(p), 8 + at) == w
    ensures p.payload == before + Be32(d) + after ==> ReadU32(Encoded(p), 8 + at) == d
  {
    var f := Encoded(p);
    EncodedLayout(p);
    WordsAreBigEndian(w, d, before, after);
    hide Encoded, Be32, Be16, Body;
    forall i | 0 <= i < |p.payload|
      ensures f[8 + i] == p.payload[i]
    {
      assert f[8..|f| - 2][i] == f[8 + i];
    }
  }

  function EncodedAll(ps: seq<Packet>): (r: seq<seq<u8>>)
    requires forall p :: p in ps ==> Sendable(p)
    ensures |r| == |ps| && forall i :: 0 <= i < |ps| ==> r[i] == Encoded(ps[i])
  {
    seq(|ps|, i requires 0 <= i < |ps| => Encoded(ps[i]))
  }

  /** The frames a healthy link would see, and whether every transmission so far succeeded. */
  datatype Answered = Answered(frames: seq<seq<u8>>, healthy: bool)

  function AnswerOne(a: Answered, es: seq<Event>, env: Env): Answered
    requires es != []
  {
    match es[|es| - 1]
    case FrameEvent(p) =>
      var reply := ReplyTo(p, env.now, CountFrames(es), CountFormatErrors(es), CountCrcErrors(es), a.healthy);
      Answered(a.frames + EncodedAll(reply), a.healthy && (reply == [] || env.txOk))
    case _ => a
  }

  function Answers(es: seq<Event>, envs: seq<Env>): Answered
    requires |es| == |envs|
  {
    if es == [] then Answered([], true)
    else AnswerOne(Answers(es[..|es| - 1], envs[..|es| - 1]), es, envs[|es| - 1])
  }

  /** The node's state is the parser's, counted. */
  predicate Tallied(n: Node, p: Parser, es: seq<Event>, healthy: bool) {
    && n.parser == p
    && n.stats.validFrames == Mod32(CountFrames(es)) && n.stats.crcErrors == Mod32(CountCrcErrors(es))
    && n.stats.parserErrors == Mod32(CountFormatErrors(es))
    && n.stats.commStatus == if !healthy then CommError else if CountFrames(es) > 0 then CommOk else CommInit
  }

  lemma Mod32Inc(n: nat)
    ensures Add32(Mod32(n), 1) == Mod32(n + 1)
  {}

  lemma CountOneMore(es: seq<Event>, e: Event)
    ensures var fs := es + [e];
            && CountFrames(fs) == CountFrames(es) + (if e.FrameEvent? then 1 else 0)
            && CountCrcErrors(fs) == CountCrcErrors(es) + (if IsCrcError(e) then 1 else 0)
            && CountFormatErrors(fs) == CountFormatErrors(es) + (if IsFormatError(e) then 1 else 0)
  {
    assert (es + [e])[..|es|] == es;
  }

  lemma SendAnswers(m: Node, p: Parser, es: seq<Event>, reply: Packet, txOk: bool, healthy: bool)
    requires Sendable(reply)
    ensures var after := SendPacket(m, reply, txOk);
            && after.1 == [Encoded(reply)]
            && (Tallied(m, p, es, healthy) ==> Tallied(after.0, p, es, healthy && txOk))
  {
    hide Encoded, CountFrames, CountCrcErrors, CountFormatErrors, Mod32, Add32;
  }

  lemma ValidFrameTallied(n: Node, p: Parser, es: seq<Event>, request: Packet, healthy: bool)
    ensures Tallied(n, p, es, healthy)
            ==> Tallied(n.(stats := NoteValidFrame(n.stats, request.seqNo)), p, es + [FrameEvent(request)], healthy)
  {
    CountOneMore(es, FrameEvent(request));
    Mod32Inc(CountFrames(es));
    hide CountFrames, CountCrcErrors, CountFormatErrors, Mod32, Add32;
  }

  /** The packet the node sends is the one that the events call for. */
  lemma HandleReplies(n: Node, p: Parser, es: seq<Event>, request: Packet, env: Env, healthy: bool)
    requires var m := n.(stats := NoteValidFrame(n.stats, request.seqNo));
             Tallied(m, p, es, healthy) && CountFrames(es) > 0
    ensures var reply := ReplyTo(request, env.now, CountFrames(es), CountFormatErrors(es), CountCrcErrors(es), healthy);
            var after := HandlePacket(n, request, env);
            && (reply == [] ==> Tallied(after.0, p, es, healthy) && after.1 == [])
            && (reply != [] ==> exists m :: Tallied(m, p, es, healthy) && after == SendPacket(m, reply[0], env.txOk))
  {
    var m := n.(stats := NoteValidFrame(n.stats, request.seqNo));
    var r := RememberRequest(m, request);
    var u := m.(stats := m.stats.(unknownMsgs := Add32(m.stats.unknownMsgs, 1)));
    var reply := ReplyTo(request, env.now, CountFrames(es), CountFormatErrors(es), CountCrcErrors(es), healthy);
    hide CountFrames, CountCrcErrors, CountFormatErrors, Mod32, Add32, SendPacket, Encoded, Be32, Be16;
    assert Tallied(r, p, es, healthy) && Tallied(u, p, es, healthy);
    if reply != [] {
      if IsRequest(request) {
        assert HandlePacket(n, request, env) == SendPacket(r, reply[0], env.txOk);
      } else if ErrorCode(request) == UNKNOWN_MSG {
        assert HandlePacket(n, request, env) == SendPacket(u, reply[0], env.txOk);
      } else {
        assert HandlePacket(n, request, env) == SendPacket(m, reply[0], env.txOk);
      }
    }
  }

  lemma HandleAnswers(n: Node, p: Parser, es: seq<Event>, request: Packet, env: Env, a: Answered)
    ensures var fs := es + [FrameEvent(request)];
            var b := AnswerOne(a, fs, env);
            var after := HandlePacket(n, request, env);
            Tallied(n, p, es, a.healthy) ==> Tallied(after.0, p, fs, b.healthy) && a.frames + after.1 == b.frames
  {
    if Tallied(n, p, es, a.healthy) {
      var fs := es + [FrameEvent(request)];
      ValidFrameTallied(n, p, es, request, a.healthy);
      CountOneMore(es, FrameEvent(request));
      var reply := ReplyTo(request, env.now, CountFrames(fs), CountFormatErrors(fs), CountCrcErrors(fs), a.healthy);
      HandleReplies(n, p, fs, request, env, a.healthy);
      hide Tallied, SendPacket, HandlePacket, Encoded, ReplyTo, CountFrames, CountCrcErrors, CountFormatErrors;
      if reply == [] {
        assert a.frames + [] == a.frames;
      } else {
        assert reply[0] in reply;
        var m :| Tallied(m, p, fs, a.healthy) && HandlePacket(n, request, env) == SendPacket(m, reply[0], env.txOk);
        SendAnswers(m, p, fs, reply[0], env.txOk, a.healthy);
        assert EncodedAll(reply) == [Encoded(reply[0])];
      }
    }
  }

  lemma StepAnswers(n: Node, es: seq<Event>, b: u8, env: Env, a: Answered)
    requires Inv(n.parser)
    ensures var fs := es + [FeedByte(n.parser, b).1];
            var after := ProcessByte(n, b, env);
            var c := AnswerOne(a, fs, env);
            Tallied(n, n.parser, es, a.healthy)
            ==> Tallied(after.0, FeedByte(n.parser, b).0, fs, c.healthy) && a.frames + after.1 == c.frames
  {
    if Tallied(n, n.parser, es, a.healthy) {
      var fed := FeedByte(n.parser, b);
      ErrorIsLastError(n.parser, b);
      CountOneMore(es, fed.1);
      hide FeedByte, HandlePacket, CountFrames, CountCrcErrors, CountFormatErrors, Inv;
      match fed.1
      case FrameEvent(p) =>
        HandleAnswers(n.(parser := fed.0), fed.0, es, p, env, a);
      case ErrorEvent(reason) =>
        Mod32Inc(CountCrcErrors(es));
        Mod32Inc(CountFormatErrors(es));
        assert a.frames + [] == a.frames;
      case NoEvent =>
        assert a.frames + [] == a.frames;
    }
  }

  lemma ErrorIsLastError(p: Parser, b: u8)
    requires Inv(p)
    ensures var fed := FeedByte(p, b);
            fed.1.ErrorEvent? ==> fed.1.reason == fed.0.lastError
  {
    StepFromInv(p, b);
    hide FeedByte, Inv, DecodeResult, HeaderError, KeptTail;
  }

  /** For any bytes, the frames handed to the transmitter are the answers to the packets parsed, in order. */
  lemma {:induction false} NodeAnswersStream(start: u32, s: seq<u8>, envs: seq<Env>)
    requires |envs| == |s|
    ensures var es := Run(Fresh, s).1;
            var (n, frames) := ProcessBytes(Booted(start), s, envs);
            frames == Answers(es, envs).frames && Tallied(n, Run(Fresh, s).0, es, Answers(es, envs).healthy)
  {
    if s == [] {
      RunEmpty(Fresh);
    } else {
      hide Tallied, Run, Answers, ProcessBytes;
      var front, last, before := s[..|s| - 1], s[|s| - 1], envs[..|s| - 1];
      NodeAnswersStream(start, front, before);
      OneMoreAnswer(start, front, last, before, envs[|s| - 1]);
      LastIsLast(s);
      LastEnvIsLast(envs);
    }
  }

  lemma OneMoreAnswer(start: u32, s: seq<u8>, b: u8, envs: seq<Env>, env: Env)
    requires |envs| == |s|
    ensures var (es, n) := (Run(Fresh, s).1, ProcessBytes(Booted(start), s, envs));
            var (fs, m) := (Run(Fresh, s + [b]).1, ProcessBytes(Booted(start), s + [b], envs + [env]));
            n.1 == Answers(es, envs).frames && Tallied(n.0, Run(Fresh, s).0, es, Answers(es, envs).healthy)
            ==> m.1 == Answers(fs, envs + [env]).frames
                && Tallied(m.0, Run(Fresh, s + [b]).0, fs, Answers(fs, envs + [env]).healthy)
  {
    var es, n := Run(Fresh, s).1, ProcessBytes(Booted(start), s, envs);
    var a := Answers(es, envs);
    FreshIsInv();
    RunOneMore(Fresh, s, b);
    RunKeepsInv(Fresh, s);
    var fs := es + [FeedByte(Run(Fresh, s).0, b).1];
    assert (s + [b])[..|s|] == s && (envs + [env])[..|s|] == envs && fs[..|s|] == es;
    assert Answers(fs, envs + [env]) == AnswerOne(a, fs, env);
    assert ProcessBytes(Booted(start), s + [b], envs + [env])
           == (ProcessByte(n.0, b, env).0, n.1 + ProcessByte(n.0, b, env).1);
    hide FeedByte, Run, Answers, AnswerOne, ProcessBytes, ProcessByte;
    if Tallied(n.0, Run(Fresh, s).0, es, a.healthy) {
      assert n.0.parser == Run(Fresh, s).0;
      hide Tallied;
      StepAnswers(n.0, es, b, env, a);
    }
  }

  lemma LastEnvIsLast(envs: seq<Env>)
    requires envs != []
    ensures envs == envs[..|envs| - 1] + [envs[|envs| - 1]]
  {}

  lemma FreshIsInv()
    ensures Inv(Fresh)
  {}

  // ----- One frame per packet that is not an ERROR, with that packet's SEQ -----

  /** The packets that must be answered. */
  function Answerable(es: seq<Event>): seq<Packet> {
    if es == [] then []
    else
      var e := es[|es| - 1];
      Answerable(es[..|es| - 1]) + if e.FrameEvent? && e.packet.msgId != MSG_ERROR then [e.packet] else []
  }

  /** The frame answers the request. */
  predicate IsAnswer(frame: seq<u8>, request: Packet) {
    DecodeResult(frame) == ProtoOk && Decoded(frame).seqNo == request.seqNo && Decoded(frame).msgId == ReplyId(request)
  }

  lemma {:induction false} EachPacketIsAnsweredOnce(es: seq<Event>, envs: seq<Env>)
    requires |es| == |envs|
    ensures var frames := Answers(es, envs).frames;
            |frames| == |Answerable(es)| && forall i :: 0 <= i < |frames| ==> IsAnswer(frames[i], Answerable(es)[i])
  {
    if es != [] {
      var front, before, env := es[..|es| - 1], envs[..|es| - 1], envs[|es| - 1];
      EachPacketIsAnsweredOnce(front, before);
      var a := Answers(front, before);
      hide Encoded, IsAnswer, CountFrames, CountCrcErrors, CountFormatErrors, ReplyTo;
      if es[|es| - 1].FrameEvent? {
        var p := es[|es| - 1].packet;
        var reply := ReplyTo(p, env.now, CountFrames(es), CountFormatErrors(es), CountCrcErrors(es), a.healthy);
        ReplyIsAnswer(p, env.now, CountFrames(es), CountFormatErrors(es), CountCrcErrors(es), a.healthy);
        assert reply == [] || EncodedAll(reply) == [Encoded(reply[0])];
      }
    }
  }

  lemma ReplyIsAnswer(p: Packet, now: u32, valid: nat, format: nat, crc: nat, healthy: bool)
    ensures var reply := ReplyTo(p, now, valid, format, crc, healthy);
            if p.msgId == MSG_ERROR then reply == [] else |reply| == 1 && IsAnswer(Encoded(reply[0]), p)
  {
    var reply := ReplyTo(p, now, valid, format, crc, healthy);
    if reply != [] {
      assert reply[0] in reply;
      RoundTrip(reply[0]);
    }
    hide Encoded, DecodeResult, Decoded, ReplyTo, ReplyId, Sendable;
  }

  // ----- Statistics over every run -----

  datatype Input =
    | ByteIn(b: u8, env: Env)
    | PeriodicIn(now: u32, telemetryOk: bool, heartbeatOk: bool)
    | OverflowIn
    | UartErrorIn
    | FlagsIn(flags: u16)

  function StepNode(n: Node, input: Input): Node {
    match input
    case ByteIn(b, env) => ProcessByte(n, b, env).0
    case PeriodicIn(now, t, h) => ProcessPeriodic(n, now, t, h).0
    case OverflowIn => NoteRxOverflow(n)
    case UartErrorIn => NoteUartError(n)
    case FlagsIn(flags) => n.(statusFlags := flags)
  }

  function RunNode(start: u32, inputs: seq<Input>): Node {
    if inputs == [] then Booted(start)
    else StepNode(RunNode(start, inputs[..|inputs| - 1]), inputs[|inputs| - 1])
  }

  /** Faults counted without wrap. */
  datatype Faults = Faults(tx: nat, overflows: nat, uart: nat)

  function FaultsIn(n: Node, input: Input): Faults {
    match input
    case ByteIn(b, env) => Faults(if env.txOk then 0 else |ProcessByte(n, b, env).1|, 0, 0)
    case PeriodicIn(now, t, h) =>
      var first := TelemetryStep(n, now, t);
      Faults((if t then 0 else |first.1|) + (if h then 0 else |HeartbeatStep(first.0, now, h).1|), 0, 0)
    case OverflowIn => Faults(0, 1, 0)
    case UartErrorIn => Faults(0, 0, 1)
    case FlagsIn(_) => Faults(0, 0, 0)
  }

  function AllFaults(start: u32, inputs: seq<Input>): Faults {
    if inputs == [] then Faults(0, 0, 0)
    else
      Plus(AllFaults(start, inputs[..|inputs| - 1]),
           FaultsIn(RunNode(start, inputs[..|inputs| - 1]), inputs[|inputs| - 1]))
  }

  function Plus(f: Faults, g: Faults): Faults {
    Faults(f.tx + g.tx, f.overflows + g.overflows, f.uart + g.uart)
  }

  /** The node's statistics agree with its parser's, and its status and error counters with the faults so far. */
  predicate Agrees(n: Node, f: Faults) {
    && Inv(n.parser)
    && n.stats.validFrames == n.parser.framesOk && n.stats.crcErrors == n.parser.crcErrors
    && n.stats.parserErrors == n.parser.formatErrors
    && IsCount32(n.stats.txErrors, f.tx) && IsCount32(n.stats.rxOverflows, f.overflows) && IsCount32(n.stats.uartErrors, f.uart)
    && (n.stats.commStatus == CommError <==> f.tx + f.overflows + f.uart > 0)
  }

  lemma SendAgrees(n: Node, p: Packet, txOk: bool, f: Faults)
    requires Sendable(p)
    ensures var after := SendPacket(n, p, txOk);
            && |after.1| == 1 && after.0.parser == n.parser
            && (Agrees(n, f) ==> Agrees(after.0, f.(tx := f.tx + if txOk then 0 else 1)))
  {
    hide Encoded, Inv;
    if Agrees(n, f) {
      CountStep(n.stats.txErrors, f.tx, 1);
    }
  }

  /** x is m, but for counters that no fault touches. */
  predicate SameHealth(x: Node, m: Node) {
    && x.parser == m.parser
    && x.stats == m.stats.(duplicateSeqs := x.stats.duplicateSeqs, unknownMsgs := x.stats.unknownMsgs)
  }

  lemma HandleSendsOneOrNone(n: Node, p: Packet, env: Env)
    ensures var m := n.(stats := NoteValidFrame(n.stats, p.seqNo));
            var after := HandlePacket(n, p, env);
            after == (m, []) || exists x, reply :: SameHealth(x, m) && Sendable(reply) && after == SendPacket(x, reply, env.txOk)
  {
    var m := n.(stats := NoteValidFrame(n.stats, p.seqNo));
    var r := RememberRequest(m, p);
    var u := m.(stats := m.stats.(unknownMsgs := Add32(m.stats.unknownMsgs, 1)));
    hide SendPacket, NoteValidFrame, Add32, Be32, Be16;
    assert SameHealth(m, m) && SameHealth(r, m) && SameHealth(u, m);
    hide SameHealth, RememberRequest;
  }

  lemma HandleAgrees(n: Node, p: Packet, env: Env, f: Faults)
    ensures var m := n.(stats := NoteValidFrame(n.stats, p.seqNo));
            var after := HandlePacket(n, p, env);
            Agrees(m, f) ==> Agrees(after.0, f.(tx := f.tx + if env.txOk then 0 else |after.1|))
  {
    var m := n.(stats := NoteValidFrame(n.stats, p.seqNo));
    HandleSendsOneOrNone(n, p, env);
    hide HandlePacket, SendPacket, Inv, IsCount32;
    if HandlePacket(n, p, env) != (m, []) {
      var x, reply :| SameHealth(x, m) && Sendable(reply) && HandlePacket(n, p, env) == SendPacket(x, reply, env.txOk);
      SendAgrees(x, reply, env.txOk, f);
    }
  }

  lemma ByteAgrees(n: Node, b: u8, env: Env, f: Faults)
    requires Inv(n.parser)
    ensures var after := ProcessByte(n, b, env);
            Agrees(n, f) ==> Agrees(after.0, f.(tx := f.tx + if env.txOk then 0 else |after.1|))
  {
    hide FeedByte, HandlePacket, Agrees, NoteValidFrame, CountRejection, Inv;
    var fed := FeedByte(n.parser, b);
    EventAgrees(n, b, f);
    if fed.1.FrameEvent? {
      HandleAgrees(n.(parser := fed.0), fed.1.packet, env, f);
    } else {
      assert f.(tx := f.tx + 0) == f;
    }
  }

  /** The parser moves one of its counters and the node the matching one of its own. */
  lemma EventAgrees(n: Node, b: u8, f: Faults)
    requires Inv(n.parser)
    ensures var fed := FeedByte(n.parser, b);
            var m := n.(parser := fed.0);
            Agrees(n, f) ==>
              match fed.1
              case NoEvent => Agrees(m, f)
              case FrameEvent(p) => Agrees(m.(stats := NoteValidFrame(m.stats, p.seqNo)), f)
              case ErrorEvent(_) => Agrees(m.(stats := CountRejection(m.stats, m.parser.lastError)), f)
  {
    StepFromInv(n.parser, b);
    CountersOfStep(n.parser, b);
    hide FeedByte, IsStep, Inv, IsCount32, Add32;
  }

  /** Each event moves one counter of the parser. */
  lemma CountersOfStep(p: Parser, b: u8)
    requires Inv(p)
    ensures var (q, e) := FeedByte(p, b);
            && q.framesOk == (if e.FrameEvent? then Add32(p.framesOk, 1) else p.framesOk)
            && q.crcErrors == (if e.ErrorEvent? && q.lastError == ErrCrc then Add32(p.crcErrors, 1) else p.crcErrors)
            && q.formatErrors == (if e.ErrorEvent? && q.lastError != ErrCrc then Add32(p.formatErrors, 1) else p.formatErrors)
  {
    StepFromInv(p, b);
    hide FeedByte, Inv, DecodeResult, HeaderError, KeptTail, Encoded, Add32;
  }

  lemma PeriodicAgrees(n: Node, now: u32, t: bool, h: bool, f: Faults)
    ensures Agrees(n, f) ==> Agrees(ProcessPeriodic(n, now, t, h).0, f.(tx := f.tx + FaultsIn(n, PeriodicIn(now, t, h)).tx))
  {
    hide Inv, Encoded, Be32, Be16, SendPacket, IsCount32;
    var first := TelemetryStep(n, now, t);
    var g := f.(tx := f.tx + if t then 0 else |first.1|);
    if Elapsed(now, n.lastTelemetry) >= TELEMETRY_PERIOD_MS {
      var m := n.(lastTelemetry := now, telemetrySeq := (n.telemetrySeq + 1) % 0x1_0000);
      SendAgrees(m, Packet(VERSION, MSG_TELEMETRY, m.telemetrySeq, Be32(now) + Be16(n.statusFlags)), t, f);
    }
    assert Agrees(n, f) ==> Agrees(first.0, g);
    if Elapsed(now, first.0.lastHeartbeat) >= HEARTBEAT_PERIOD_MS {
      var m := first.0.(lastHeartbeat := now, heartbeatSeq := (first.0.heartbeatSeq + 1) % 0x1_0000);
      SendAgrees(m, Packet(VERSION, MSG_HEARTBEAT, m.heartbeatSeq, Be32(now)), h, g);
    }
  }

  lemma NoteAgrees(n: Node, f: Faults)
    ensures Agrees(n, f) ==> Agrees(NoteRxOverflow(n), f.(overflows := f.overflows + 1))
    ensures Agrees(n, f) ==> Agrees(NoteUartError(n), f.(uart := f.uart + 1))
    ensures forall flags :: Agrees(n, f) ==> Agrees(n.(statusFlags := flags), f)
  {
    hide Inv;
    if Agrees(n, f) {
      CountStep(n.stats.rxOverflows, f.overflows, 1);
      CountStep(n.stats.uartErrors, f.uart, 1);
    }
  }

  lemma NodeStepAgrees(n: Node, input: Input, f: Faults)
    requires Inv(n.parser)
    ensures Agrees(n, f) ==> Agrees(StepNode(n, input), Plus(f, FaultsIn(n, input)))
  {
    hide Agrees, Inv, ProcessByte, ProcessPeriodic, TelemetryStep, HeartbeatStep, NoteRxOverflow, NoteUartError;
    match input
    case ByteIn(b, env) => ByteAgrees(n, b, env, f);
    case PeriodicIn(now, t, h) => PeriodicAgrees(n, now, t, h, f);
    case OverflowIn => NoteAgrees(n, f);
    case UartErrorIn => NoteAgrees(n, f);
    case FlagsIn(_) => NoteAgrees(n, f);
  }

  lemma BootAgrees(start: u32)
    ensures Agrees(Booted(start), Faults(0, 0, 0))
  {}

  lemma {:induction false} StatisticsAgree(start: u32, inputs: seq<Input>)
    ensures Agrees(RunNode(start, inputs), AllFaults(start, inputs))
  {
    if inputs == [] {
      BootAgrees(start);
      hide Agrees;
    } else {
      StatisticsAgree(start, inputs[..|inputs| - 1]);
      var n, f := RunNode(start, inputs[..|inputs| - 1]), AllFaults(start, inputs[..|inputs| - 1]);
      assert Inv(n.parser);
      hide Agrees, Inv, StepNode, FaultsIn;
      NodeStepAgrees(n, inputs[|inputs| - 1], f);
    }
  }

  /** Until a fault counter wraps, the status is COMM_ERROR exactly when one of them is not zero. */
  lemma ErrorStatusIsVisible(start: u32, inputs: seq<Input>)
    ensures var s, f := RunNode(start, inputs).stats, AllFaults(start, inputs);
            f.tx < 0x1_0000_0000 && f.overflows < 0x1_0000_0000 && f.uart < 0x1_0000_0000 ==>
              (s.commStatus == CommError <==> s.txErrors != 0 || s.rxOverflows != 0 || s.uartErrors != 0)
  {
    hide RunNode, AllFaults, Inv;
    StatisticsAgree(start, inputs);
  }
}
