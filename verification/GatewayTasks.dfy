/** The loops of the gateway's tasks on the structures themselves, and that the step system runs the same loops. */
module GatewayTasks {
  import opened Bits
  import opened Protocol
  import opened StreamParsing
  import opened GatewayParts
  import opened Gateway
  import RxRings

  /** What draining the receive ring changes. */
  datatype Receiver = Receiver(parser: Parser, session: Session, telemetry: Telemetry)

  function ReceiveByte(r: Receiver, b: u8): Receiver {
    var fed := FeedByte(r.parser, b);
    match fed.1
    case FrameEvent(p) =>
      Receiver(fed.0, OfferPong(r.session, p), OfferTelemetry(r.telemetry, p, r.parser.pending + [b]))
    case _ => r.(parser := fed.0)
  }

  function ReceiveAll(r: Receiver, bytes: seq<u8>): Receiver {
    if bytes == [] then r else ReceiveByte(ReceiveAll(r, bytes[..|bytes| - 1]), bytes[|bytes| - 1])
  }

  function Packets(s: seq<Tagged<Packet>>): (r: seq<Packet>)
    ensures |r| == |s| && forall i :: 0 <= i < |s| ==> r[i] == s[i].item
  {
    seq(|s|, i requires 0 <= i < |s| => s[i].item)
  }

  /** The first |sendOk| responses given to TCP, or dropped where it would not take them. */
  function Served(s: Session, sendOk: seq<bool>): (t: Session)
    requires |sendOk| <= |s.responses|
    ensures t.responses == s.responses[|sendOk|..]
  {
    if sendOk == [] then s
    else
      var before := Served(s, sendOk[..|sendOk| - 1]);
      if sendOk[|sendOk| - 1] then SendResponse(before) else DropResponse(before)
  }

  /** The packets of those that TCP took. */
  function Taken(queue: seq<Packet>, sendOk: seq<bool>): seq<Packet>
    requires |sendOk| <= |queue|
  {
    if sendOk == [] then []
    else
      Taken(queue, sendOk[..|sendOk| - 1])
      + if sendOk[|sendOk| - 1] then [queue[|sendOk| - 1]] else []
  }

  function Min(a: nat, b: nat): nat { if a < b then a else b }

  // ----- The step system drains the same way -----

  function Receiving(g: G): Receiver { Receiver(g.parser, g.session, g.telemetry) }

  function WithReceiver(g: G, r: Receiver, rx: seq<u8>): G {
    g.(parser := r.parser, session := r.session, telemetry := r.telemetry, rx := rx)
  }

  function Turns(c: Choice, k: nat): (acts: seq<Act>)
    ensures |acts| == k && forall i :: 0 <= i < k ==> acts[i] == RsStep(c)
  {
    seq(k, _ => RsStep(c))
  }

  lemma DrainTurn(g: G, next: Next, c: Choice)
    requires g.rs == Drain(next) && g.rx != []
    ensures Step(g, RsStep(c)) == WithReceiver(g, ReceiveByte(Receiving(g), g.rx[0]), g.rx[1..])
  {
    hide FeedByte, OfferPong, OfferTelemetry;
  }

  lemma {:induction false} DrainTurnsReceive(g: G, next: Next, c: Choice, k: nat)
    requires g.rs == Drain(next) && k <= |g.rx|
    ensures Run(g, Turns(c, k)) == WithReceiver(g, ReceiveAll(Receiving(g), g.rx[..k]), g.rx[k..])
  {
    if k == 0 {
      assert g.rx[..0] == [] && g.rx[0..] == g.rx;
    } else {
      DrainTurnsReceive(g, next, c, k - 1);
      assert Turns(c, k)[..k - 1] == Turns(c, k - 1);
      var h := Run(g, Turns(c, k - 1));
      FirstOf(g.rx, k - 1);
      DrainTurn(h, next, c);
      hide Step, ReceiveByte;
    }
  }

  lemma FirstOf(s: seq<u8>, k: nat)
    requires k < |s|
    ensures s[k..][0] == s[k] && s[k..][1..] == s[k + 1..] && s[..k + 1][..k] == s[..k]
  {}

  /** Left alone by interrupts, the RS-422 task empties the ring in order and then goes on. */
  lemma DrainEmptiesRing(g: G, next: Next, c: Choice)
    requires g.rs == Drain(next)
    ensures Run(g, Turns(c, |g.rx| + 1)) == WithReceiver(g, ReceiveAll(Receiving(g), g.rx), []).(rs := Resume(next))
  {
    var n := |g.rx|;
    DrainTurnsReceive(g, next, c, n);
    assert Turns(c, n + 1)[..n] == Turns(c, n);
    assert g.rx[..n] == g.rx && g.rx[n..] == [];
    DrainEnd(Run(g, Turns(c, n)), next, c);
    hide ReceiveAll, Step, Resume;
  }

  lemma DrainEnd(g: G, next: Next, c: Choice)
    requires g.rs == Drain(next) && g.rx == []
    ensures Step(g, RsStep(c)) == g.(rs := Resume(next))
  {
    hide Resume;
  }

  // ----- Forwarding a command, up to the wait -----

  datatype Forwarding = Forwarding(tx: Tx, session: Session, started: bool)

  /** What becomes of a command: refused while busy, refused if it has no frame, or handed to the UART, which accepts it or not. */
  function Forward(t: Tx, s: Session, p: Packet, clearFails: bool, accepted: bool): Forwarding {
    if t.busy || !Sendable(p) then Forwarding(t, s, false)
    else
      var filled := FillBuffer(t, p);
      if clearFails then Forwarding(filled, s, false)
      else if accepted then Forwarding(StartSending(filled, p), NoteForwarded(s, p), true)
      else Forwarding(filled, if p.msgId == MSG_PING then DropPending(s) else s, false)
  }

  /** How many steps of the RS-422 task that takes. */
  function ForwardSteps(g: G, p: Packet, c: Choice): nat {
    if g.tx.busy then 1 else if !Sendable(p) then 2 else if c.osError then 3 else 4
  }

  /** Left alone by interrupts, the step system forwards a command with that effect, and then waits or goes on. */
  lemma CommandIsForwarded(g: G, p: Packet, c: Choice)
    requires g.rs == TestBusy(p, Command)
    ensures var h := Run(g, Turns(c, ForwardSteps(g, p, c)));
            var f := Forward(g.tx, g.session, p, c.osError, c.hal == HalOk && g.tx.uart == UartIdle);
            && h.tx == f.tx && h.session == f.session && h.commands == g.commands && h.telemetry == g.telemetry
            && h.rs == if f.started then WaitTop(p, Command) else Drain(ToGetCommand)
  {
    var turn := RsStep(c);
    FourTurns(g, c);
    hide Run, Turns, Encoded, NoteForwarded, DropPending, StartSending, FeedByte, BringUpPing, Sendable;
    if !g.tx.busy && Sendable(p) {
      var filled := Step(Step(g, turn), turn);
      assert filled == g.(rs := ClearDone(p, Command), tx := FillBuffer(g.tx, p));
      HandedOver(filled, p, c);
    }
  }

  lemma HandedOver(g: G, p: Packet, c: Choice)
    requires g.rs == ClearDone(p, Command)
    ensures var h := if c.osError then Step(g, RsStep(c)) else Step(Step(g, RsStep(c)), RsStep(c));
            var accepted := c.hal == HalOk && g.tx.uart == UartIdle;
            && h.commands == g.commands && h.telemetry == g.telemetry
            && h.tx == (if !c.osError && accepted then StartSending(g.tx, p) else g.tx)
            && h.session == (if c.osError then g.session else if accepted then NoteForwarded(g.session, p)
                             else if p.msgId == MSG_PING then DropPending(g.session) else g.session)
            && h.rs == if !c.osError && accepted then WaitTop(p, Command) else Drain(ToGetCommand)
  {
    hide Encoded, NoteForwarded, DropPending, StartSending, FeedByte, BringUpPing;
  }

  lemma FourTurns(g: G, c: Choice)
    ensures Run(g, Turns(c, 1)) == Step(g, RsStep(c))
    ensures Run(g, Turns(c, 2)) == Step(Step(g, RsStep(c)), RsStep(c))
    ensures Run(g, Turns(c, 3)) == Step(Step(Step(g, RsStep(c)), RsStep(c)), RsStep(c))
    ensures Run(g, Turns(c, 4)) == Step(Step(Step(Step(g, RsStep(c)), RsStep(c)), RsStep(c)), RsStep(c))
  {
    hide Step;
    assert Turns(c, 1)[..0] == Turns(c, 0) && Turns(c, 2)[..1] == Turns(c, 1);
    assert Turns(c, 3)[..2] == Turns(c, 2) && Turns(c, 4)[..3] == Turns(c, 3);
    assert Run(g, Turns(c, 0)) == g;
  }

  // ----- The variables the tasks share, updated in place -----

  class SharedState {
    const ring: RxRings.GatewayRxRing
    const parser: StreamParser
    const received: PacketBuffer
    var sessionActive: bool
    var pingPending: bool
    var pingPendingSeq: u16
    var responseQueue: seq<Packet>
    var forwardingEnabled: bool
    var telemetryQueue: seq<Packet>
    const txFrame: array<u8>
    var txBusy: bool
    var txCompleted: nat
    var txErrors: nat
    // The same with history.
    ghost var session: Session
    ghost var telemetry: Telemetry
    ghost var tx: Tx

    ghost predicate Valid()
      reads this, ring, ring.storage, parser, parser.frameBuffer, received, received.payload, txFrame
    {
      && ring.Valid() && parser.Valid() && received.Valid()
      && ring.storage != parser.frameBuffer && ring.storage != received.payload && received.payload != parser.frameBuffer
      && session.active == sessionActive && session.pending == pingPending && session.pendingSeq == pingPendingSeq
      && Packets(session.responses) == responseQueue
      && telemetry.forwarding == forwardingEnabled && Packets(telemetry.queue) == telemetryQueue
      && txFrame.Length == MAX_FRAME_SIZE && txFrame !in {ring.storage, parser.frameBuffer, received.payload}
      && |tx.buffer| <= MAX_FRAME_SIZE && tx.buffer == txFrame[..|tx.buffer|]
      && tx.busy == txBusy && tx.completed == txCompleted && tx.spurious == txErrors
    }

    /** The bytes received and not yet taken. */
    ghost function Waiting(): seq<u8>
      reads this, ring, ring.storage
      requires ring.Valid()
    {
      RxRings.Contents(ring.View())
    }

    ghost function View(): Receiver
      reads this, parser, parser.frameBuffer
      requires parser.frameIndex <= parser.frameBuffer.Length
    {
      Receiver(parser.View(), session, telemetry)
    }

    constructor ()
      ensures Valid() && View() == Receiver(Fresh, SessionInitial, TelemetryInitial) && tx == TxInitial
      ensures Waiting() == []
    {
      ring := new RxRings.GatewayRxRing();
      parser := new StreamParser();
      received := new PacketBuffer(VERSION, 0, 0);
      txFrame := new u8[MAX_FRAME_SIZE](_ => 0);
      sessionActive, pingPending, pingPendingSeq, responseQueue := false, false, 0, [];
      forwardingEnabled, telemetryQueue, txBusy, txCompleted, txErrors := false, [], false, 0, 0;
      session, telemetry, tx := SessionInitial, TelemetryInitial, TxInitial;
    }

    /** What the RS-422 task does with the flags a wait returned. */
    method HandleFlags(flags: Flags)
      requires Valid()
      modifies this
      ensures Valid() && telemetry == old(telemetry)
      ensures session == (if flags.contextReset then DropPending(old(session)) else old(session))
      ensures tx == if flags.txDone then NoticeDone(old(tx)) else old(tx)
    {
      if flags.contextReset {
        pingPending, pingPendingSeq := false, 0;
        session := DropPending(session);
      }
      if flags.txDone {
        if txBusy {
          txBusy, txCompleted := false, txCompleted + 1;
        } else {
          txErrors := txErrors + 1;
        }
        tx := NoticeDone(tx);
      }
    }

    /** w5500_tcp_discard_stale_responses: with no producer in between, a queue of at most eight is emptied. */
    method DiscardStaleResponses()
      requires Valid()
      modifies `responseQueue, `session
      ensures Valid() && responseQueue == old(responseQueue)[Min(RESPONSE_DEPTH, |old(responseQueue)|)..]
      ensures session == old(session).(responses := session.responses)
      ensures |old(responseQueue)| <= RESPONSE_DEPTH ==> responseQueue == []
    {
      hide Packets, SendResponse;
      var index := 0;
      while index < RESPONSE_DEPTH && responseQueue != []
        invariant Valid() && index <= Min(RESPONSE_DEPTH, |old(responseQueue)|)
        invariant responseQueue == old(responseQueue)[index..]
        invariant session == old(session).(responses := session.responses)
      {
        TakeResponse(false);
        index := index + 1;
      }
    }

    /** w5500_tcp_drain_response_queue; `sendOk` says of each response whether TCP takes it. */
    method ServeResponses(sendOk: seq<bool>) returns (sent: seq<Packet>)
      requires Valid() && |sendOk| == Min(RESPONSE_DEPTH, |responseQueue|)
      modifies `responseQueue, `session
      ensures Valid() && session == Served(old(session), sendOk)
      ensures sent == Taken(old(responseQueue), sendOk)
      ensures responseQueue == old(responseQueue)[|sendOk|..]
    {
      sent := [];
      var index := 0;
      hide Served, Taken, SendResponse, DropResponse;
      ServedNone(session, responseQueue);
      while index < RESPONSE_DEPTH && responseQueue != []
        invariant Valid() && index <= |sendOk| && responseQueue == old(responseQueue)[index..]
        invariant session == Served(old(session), sendOk[..index]) && sent == Taken(old(responseQueue), sendOk[..index])
      {
        ServedOneMore(old(session), old(responseQueue), sendOk, index);
        if sendOk[index] {
          sent := sent + [responseQueue[0]];
        }
        TakeResponse(sendOk[index]);
        index := index + 1;
      }
      assert sendOk[..index] == sendOk;
    }

    method TakeResponse(ghost sendOk: bool)
      requires Valid() && responseQueue != []
      modifies `responseQueue, `session
      ensures Valid() && responseQueue == old(responseQueue)[1..]
      ensures session == if sendOk then SendResponse(old(session)) else DropResponse(old(session))
    {
      responseQueue := responseQueue[1..];
      session := if sendOk then SendResponse(session) else DropResponse(session);
    }

    /** rs422_forward_packet up to its wait; `accepted` is whether HAL_UART_Transmit_IT returns HAL_OK. */
    method ForwardPacket(packet: PacketBuffer, clearFails: bool, accepted: bool) returns (started: bool)
      requires Valid() && packet.Valid() && packet.payload != txFrame
      modifies this, txFrame
      ensures Valid() && telemetry == old(telemetry)
      ensures packet.length > MAX_PAYLOAD ==> !started && tx == old(tx) && session == old(session)
      ensures packet.length <= MAX_PAYLOAD ==>
                Forwarding(tx, session, started) == Forward(old(tx), old(session), packet.View(), clearFails, accepted)
    {
      hide Encoded, FillBuffer, StartSending, NoteForwarded, DropPending, Packets, Sendable;
      if txBusy {
        return false;
      }
      var result := FillFrame(packet);
      if result != ProtoOk || clearFails {
        return false;
      }
      HandToUart(packet.msgId, packet.seqNo, accepted, packet.View());
      return accepted;
    }

    method HandToUart(msgId: u8, seqNo: u16, accepted: bool, ghost p: Packet)
      requires Valid() && !txBusy && p.msgId == msgId && p.seqNo == seqNo
      modifies this
      ensures Valid() && telemetry == old(telemetry)
      ensures tx == if accepted then StartSending(old(tx), p) else old(tx)
      ensures session == if accepted then NoteForwarded(old(session), p)
                         else if msgId == MSG_PING then DropPending(old(session)) else old(session)
    {
      hide Packets;
      if msgId == MSG_PING && sessionActive {
        pingPendingSeq, pingPending := seqNo, true;
      }
      txBusy := accepted;
      if accepted {
        tx, session := StartSending(tx, p), NoteForwarded(session, p);
      } else if msgId == MSG_PING {
        pingPending, pingPendingSeq := false, 0;
        session := DropPending(session);
      }
    }

    method FillFrame(packet: PacketBuffer) returns (result: ProtocolResult)
      requires Valid() && !txBusy && packet.Valid() && packet.payload != txFrame
      modifies `tx, txFrame
      ensures Valid() && (result == ProtoOk <==> packet.length <= MAX_PAYLOAD && Sendable(packet.View()))
      ensures tx == if result == ProtoOk then FillBuffer(old(tx), packet.View()) else old(tx)
      ensures !txBusy
    {
      hide Encoded, Packets;
      var length;
      result, length := Encode(packet, txFrame);
      if result == ProtoOk {
        tx := FillBuffer(tx, packet.View());
        assert txFrame[..|tx.buffer|] == tx.buffer;
      }
    }

    /** A valid frame, in `received`; `raw` are its bytes. */
    method HandleValidFrame(ghost raw: seq<u8>)
      requires Valid() && received.length <= MAX_PAYLOAD
      modifies this
      ensures Valid() && tx == old(tx)
      ensures session == OfferPong(old(session), received.View())
      ensures telemetry == OfferTelemetry(old(telemetry), received.View(), raw)
    {
      hide Sendable;
      var p := Packet(received.version, received.msgId, received.seqNo, received.payload[..received.length]);
      if received.msgId == MSG_TELEMETRY && forwardingEnabled {
        if |telemetryQueue| < TELEMETRY_DEPTH {
          telemetryQueue := telemetryQueue + [p];
        }
      }
      if received.msgId == MSG_PONG && sessionActive && pingPending && received.seqNo == pingPendingSeq {
        pingPending := false;
        if |responseQueue| < RESPONSE_DEPTH {
          responseQueue := responseQueue + [p];
        }
      }
      session, telemetry := OfferPong(session, p), OfferTelemetry(telemetry, p, raw);
    }

    /** rs422_process_rx_buffer. */
    method ProcessRxBuffer()
      requires Valid()
      modifies this, ring, parser, parser.frameBuffer, received, received.payload
      ensures Valid() && Waiting() == [] && tx == old(tx)
      ensures View() == ReceiveAll(old(View()), old(Waiting()))
    {
      ghost var all, start := Waiting(), View();
      hide *;
      ReceiveNothing(start);
      ghost var i := 0;
      var more := true;
      while more
        invariant Valid() && 0 <= i <= |all| && tx == old(tx)
        invariant Waiting() == all[i..] && (!more ==> i == |all|)
        invariant View() == ReceiveAll(start, all[..i])
        decreases |all| - i, more
      {
        more := ReceiveNext();
        if more {
          ReceiveOneMore(start, all, i);
          i := i + 1;
        }
      }
      assert all[..|all|] == all;
    }

    /** Takes a byte, if there is one, and feeds it. */
    method ReceiveNext() returns (some: bool)
      requires Valid()
      modifies this, ring, parser, parser.frameBuffer, received, received.payload
      ensures Valid() && tx == old(tx) && (some <==> old(Waiting()) != [])
      ensures some ==> View() == ReceiveByte(old(View()), old(Waiting())[0]) && Waiting() == old(Waiting())[1..]
      ensures !some ==> View() == old(View()) && Waiting() == old(Waiting())
    {
      hide RxRings.Contents, Packets, FeedByte, OfferPong, OfferTelemetry, ReceiveByte;
      ghost var all := Waiting();
      var byte;
      some, byte := ring.Pop();
      if some {
        assert all[0] == byte && all[1..] == Waiting();
        ReceiveOneByte(byte);
      }
    }

    method ReceiveOneByte(byte: u8)
      requires Valid()
      modifies this, parser, parser.frameBuffer, received, received.payload
      ensures Valid() && View() == ReceiveByte(old(View()), byte) && tx == old(tx) && Waiting() == old(Waiting())
    {
      ghost var raw := parser.View().pending + [byte];
      hide FeedByte, OfferPong, OfferTelemetry;
      var event := parser.Feed(byte, received);
      if event == EventFrame {
        HandleValidFrame(raw);
      }
    }
  }

  lemma ServedNone(s: Session, queue: seq<Packet>)
    ensures Served(s, []) == s && Taken(queue, []) == []
  {}

  lemma ServedOneMore(s: Session, queue: seq<Packet>, sendOk: seq<bool>, i: nat)
    requires i < |sendOk| <= |s.responses| && |queue| == |s.responses|
    ensures var before := Served(s, sendOk[..i]);
            && before.responses != []
            && Served(s, sendOk[..i + 1]) == (if sendOk[i] then SendResponse(before) else DropResponse(before))
    ensures Taken(queue, sendOk[..i + 1]) == Taken(queue, sendOk[..i]) + if sendOk[i] then [queue[i]] else []
  {
    assert sendOk[..i + 1][..i] == sendOk[..i];
    hide SendResponse, DropResponse;
  }

  lemma ReceiveNothing(r: Receiver)
    ensures ReceiveAll(r, []) == r
  {}

  lemma ReceiveOneMore(r: Receiver, s: seq<u8>, i: nat)
    requires i < |s|
    ensures ReceiveAll(r, s[..i + 1]) == ReceiveByte(ReceiveAll(r, s[..i]), s[i])
  {
    assert s[..i + 1][..i] == s[..i];
    hide ReceiveByte;
  }
}
