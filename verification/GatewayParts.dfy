/** Three parts of the gateway's shared state, each with what keeps it consistent: transmitter, TCP session, telemetry. */
module GatewayParts {
  import opened Bits
  import opened Protocol

  predicate Increasing(s: seq<nat>) {
    forall i, j :: 0 <= i < j < |s| ==> s[i] < s[j]
  }

  predicate AllBelow(s: seq<nat>, bound: nat) {
    forall i :: 0 <= i < |s| ==> s[i] < bound
  }

  lemma IncreasingAppend(s: seq<nat>, x: nat)
    requires Increasing(s) && AllBelow(s, x)
    ensures Increasing(s + [x]) && AllBelow(s + [x], x + 1)
  {}

  lemma IncreasingSkip(a: seq<nat>, b: seq<nat>, bound: nat)
    requires b != [] && Increasing(a + b) && AllBelow(a + b, bound)
    ensures Increasing(a + b[1..]) && AllBelow(a + b[1..], bound)
  {
    var s, t := a + b, a + b[1..];
    forall i | 0 <= i < |t|
      ensures t[i] == s[Later(i, |a|)]
    {}
  }

  /** Where the i-th element was before the one at position n was taken out. */
  function Later(i: nat, n: nat): nat {
    if i < n then i else i + 1
  }

  lemma IncreasingMove(a: seq<nat>, b: seq<nat>)
    requires b != []
    ensures (a + [b[0]]) + b[1..] == a + b
  {}

  /** Something passed on, and which earlier event it stems from (history). */
  datatype Tagged<T> = Tagged(item: T, tag: nat)

  function Tags<T>(s: seq<Tagged<T>>): (r: seq<nat>)
    ensures |r| == |s| && forall i :: 0 <= i < |s| ==> r[i] == s[i].tag
  {
    seq(|s|, i requires 0 <= i < |s| => s[i].tag)
  }

  // ----- RS-422 transmitter -----

  datatype Uart = UartIdle | Sending(length: nat, sent: nat)

  /**
   * The transmit buffer, the busy flag, the peripheral, and history: the bytes put on the line, the packets
   * whose transmission was started and how many completions were noticed.
   */
  datatype Tx = Tx(busy: bool, buffer: seq<u8>, uart: Uart, line: seq<u8>, started: seq<Packet>, completed: nat, spurious: nat)

  const TxInitial: Tx := Tx(false, [], UartIdle, [], [], 0, 0)

  function FillBuffer(t: Tx, p: Packet): Tx
    requires Sendable(p)
  {
    t.(buffer := Encoded(p))
  }

  /** HAL_UART_Transmit_IT accepted: the peripheral reads the buffer byte by byte from now on. */
  function StartSending(t: Tx, p: Packet): Tx {
    t.(busy := true, uart := Sending(|t.buffer|, 0), started := t.started + [p])
  }

  /** The peripheral takes the next byte from the buffer, whatever the buffer then holds. */
  function ShiftByte(t: Tx): Tx {
    if t.uart.Sending? && t.uart.sent < t.uart.length && t.uart.sent < |t.buffer| then
      t.(line := t.line + [t.buffer[t.uart.sent]], uart := Sending(t.uart.length, t.uart.sent + 1))
    else t
  }

  predicate LastByteGone(t: Tx) {
    t.uart.Sending? && t.uart.sent >= t.uart.length
  }

  /** rs422_handle_tx_done_event. */
  function NoticeDone(t: Tx): Tx {
    if t.busy then t.(busy := false, completed := t.completed + 1) else t.(spurious := t.spurious + 1)
  }

  function WholeFrames(ps: seq<Packet>): seq<u8>
    requires forall p :: p in ps ==> Sendable(p)
  {
    if ps == [] then [] else WholeFrames(ps[..|ps| - 1]) + Encoded(ps[|ps| - 1])
  }

  /** The line carries whole frames, and at most one prefix of the frame now in the buffer. */
  predicate LineIsFrames(t: Tx) {
    && (forall p :: p in t.started ==> Sendable(p))
    && match t.uart
       case UartIdle => t.line == WholeFrames(t.started)
       case Sending(length, sent) =>
         && t.started != [] && t.buffer == Encoded(t.started[|t.started| - 1])
         && length == |t.buffer| && sent <= length
         && t.line == WholeFrames(t.started[..|t.started| - 1]) + t.buffer[..sent]
  }

  /** `done` is the latched completion flag of the task. */
  predicate TxConsistent(t: Tx, done: bool) {
    && LineIsFrames(t)
    && (t.busy <==> t.uart.Sending? || done) && !(t.uart.Sending? && done)
    && |t.started| == t.completed + (if t.busy then 1 else 0)
    && t.spurious == 0
  }

  lemma StartKeeps(t: Tx, p: Packet)
    requires Sendable(p) && t.buffer == Encoded(p) && !t.busy
    ensures TxConsistent(t, false) ==> TxConsistent(StartSending(t, p), false)
  {
    hide Encoded;
    var s := t.started + [p];
    assert s[..|s| - 1] == t.started;
    assert t.line + t.buffer[..0] == t.line;
  }

  lemma ShiftKeeps(t: Tx, done: bool)
    ensures TxConsistent(t, done) ==> TxConsistent(ShiftByte(t), done)
  {
    hide Encoded;
    if ShiftByte(t) != t {
      var n := t.uart.sent;
      assert t.buffer[..n + 1] == t.buffer[..n] + [t.buffer[n]];
    }
  }

  lemma CompleteKeeps(t: Tx)
    requires LastByteGone(t)
    ensures TxConsistent(t, false) ==> TxConsistent(t.(uart := UartIdle), true)
  {
    hide Encoded;
    if LineIsFrames(t) {
      assert t.buffer[..|t.buffer|] == t.buffer;
    }
  }

  lemma NoticeKeeps(t: Tx)
    ensures TxConsistent(t, true) ==> TxConsistent(NoticeDone(t), false)
  {
    hide Encoded;
  }

  // ----- TCP session and the PING outstanding on RS-422 -----

  const RESPONSE_DEPTH: nat := 8

  /** History: a PING whose RS-422 transmission was started for a session. */
  datatype Forwarded = Forwarded(session: nat, seqNo: u16)

  /** A packet given to TCP, and in which session. */
  datatype Response = Response(session: nat, packet: Packet)

  datatype Session = Session(
    active: bool, pending: bool, pendingSeq: u16, responses: seq<Tagged<Packet>>,
    number: nat, forwarded: seq<Forwarded>, sent: seq<Tagged<Response>>)

  const SessionInitial: Session := Session(false, false, 0, [], 0, [], [])

  /** rs422_forward_packet, as far as the session is concerned, once its transmission is started. */
  function NoteForwarded(s: Session, p: Packet): Session {
    if p.msgId == MSG_PING && s.active then
      s.(pending := true, pendingSeq := p.seqNo, forwarded := s.forwarded + [Forwarded(s.number, p.seqNo)])
    else s
  }

  function DropPending(s: Session): Session {
    s.(pending := false, pendingSeq := 0)
  }

  predicate Matches(s: Session, p: Packet) {
    p.msgId == MSG_PONG && s.active && s.pending && p.seqNo == s.pendingSeq
  }

  /** A valid frame from RS-422: a matching PONG ends the wait and is queued if there is room. */
  function OfferPong(s: Session, p: Packet): Session {
    if !Matches(s, p) then s
    else if |s.responses| < RESPONSE_DEPTH then
      s.(pending := false, responses := s.responses + [Tagged(p, if |s.forwarded| > 0 then |s.forwarded| - 1 else 0)])
    else s.(pending := false)
  }

  function DropResponse(s: Session): Session
    requires s.responses != []
  {
    s.(responses := s.responses[1..])
  }

  function SendResponse(s: Session): Session
    requires s.responses != []
  {
    s.(responses := s.responses[1..], sent := s.sent + [Tagged(Response(s.number, s.responses[0].item), s.responses[0].tag)])
  }

  /** The response answers a PING forwarded in that session. */
  predicate Answers(s: Session, session: nat, p: Packet, tag: nat) {
    p.msgId == MSG_PONG && tag < |s.forwarded| && s.forwarded[tag] == Forwarded(session, p.seqNo)
  }

  /** How many forwarded PINGs a response may answer: all but the pending one. */
  function Used(s: Session): nat {
    if s.pending && |s.forwarded| > 0 then |s.forwarded| - 1 else |s.forwarded|
  }

  /** Everything sent or queued answers a PING of its own session, no PING twice, and the pending one not yet. */
  predicate Traceable(s: Session) {
    && |s.responses| <= 8
    && (forall i :: 0 <= i < |s.sent| ==> Answers(s, s.sent[i].item.session, s.sent[i].item.packet, s.sent[i].tag))
    && (forall i :: 0 <= i < |s.responses| ==> Answers(s, s.number, s.responses[i].item, s.responses[i].tag))
    && Increasing(Tags(s.sent) + Tags(s.responses))
    && AllBelow(Tags(s.sent) + Tags(s.responses), Used(s))
    && (s.pending ==> |s.forwarded| > 0 && s.forwarded[|s.forwarded| - 1] == Forwarded(s.number, s.pendingSeq))
  }

  lemma ForwardKeepsTraceable(s: Session, p: Packet)
    requires Traceable(s)
    ensures Traceable(NoteForwarded(s, p))
  {}

  lemma DropPendingKeepsTraceable(s: Session)
    requires Traceable(s)
    ensures Traceable(DropPending(s))
  {}

  lemma OfferKeepsTraceable(s: Session, p: Packet)
    requires Traceable(s)
    ensures Traceable(OfferPong(s, p))
  {
    var t := OfferPong(s, p);
    if |t.responses| > |s.responses| {
      var all := Tags(s.sent) + Tags(s.responses);
      IncreasingAppend(all, |s.forwarded| - 1);
      assert Tags(t.sent) + Tags(t.responses) == all + [|s.forwarded| - 1];
    }
  }

  lemma DropResponseKeepsTraceable(s: Session)
    requires Traceable(s) && s.responses != []
    ensures Traceable(DropResponse(s))
  {
    IncreasingSkip(Tags(s.sent), Tags(s.responses), Used(s));
    assert Tags(s.responses[1..]) == Tags(s.responses)[1..];
  }

  lemma SendResponseKeepsTraceable(s: Session)
    requires Traceable(s) && s.responses != []
    ensures Traceable(SendResponse(s))
  {
    var t := SendResponse(s);
    IncreasingMove(Tags(s.sent), Tags(s.responses));
    assert Tags(t.sent) == Tags(s.sent) + [Tags(s.responses)[0]];
    assert Tags(t.responses) == Tags(s.responses)[1..];
  }

  /** A new session may begin only when nothing of the old one is left. */
  lemma NewSessionKeepsTraceable(s: Session)
    requires Traceable(s) && s.responses == [] && !s.pending
    ensures Traceable(s.(active := true, number := s.number + 1))
  {}

  // ----- Telemetry from RS-422 to UDP -----

  const TELEMETRY_DEPTH: nat := 4

  /** History: the bytes of each valid TELEMETRY frame received, and of each datagram sent with the frame it came from. */
  datatype Telemetry = Telemetry(
    forwarding: bool, queue: seq<Tagged<Packet>>, received: seq<seq<u8>>, datagrams: seq<Tagged<seq<u8>>>,
    enqueued: nat, dequeued: nat, encodeFailures: nat)

  const TelemetryInitial: Telemetry := Telemetry(false, [], [], [], 0, 0, 0)

  /** A valid frame whose bytes were `raw` decoded to p. */
  function OfferTelemetry(t: Telemetry, p: Packet, raw: seq<u8>): Telemetry {
    if p.msgId != MSG_TELEMETRY then t
    else
      var u := t.(received := t.received + [raw]);
      if t.forwarding && |t.queue| < TELEMETRY_DEPTH then
        u.(queue := t.queue + [Tagged(p, |t.received|)], enqueued := t.enqueued + 1)
      else u
  }

  /** Dequeue one packet, encode it and hand it to the UDP socket, which accepts it or not. */
  function ForwardTelemetry(t: Telemetry, accepted: bool): Telemetry
    requires t.queue != []
  {
    var head := t.queue[0];
    var u := t.(queue := t.queue[1..], dequeued := t.dequeued + 1);
    if head.item.msgId != MSG_TELEMETRY || !Sendable(head.item) then u.(encodeFailures := u.encodeFailures + 1)
    else if accepted then u.(datagrams := t.datagrams + [Tagged(Encoded(head.item), head.tag)])
    else u
  }

  /** The queued packet is the telemetry frame received as number `tag`. */
  predicate IsReceived(t: Telemetry, q: Tagged<Packet>) {
    && q.item.msgId == MSG_TELEMETRY && Sendable(q.item)
    && q.tag < |t.received| && t.received[q.tag] == Encoded(q.item)
  }

  predicate IsCopy(t: Telemetry, d: Tagged<seq<u8>>) {
    d.tag < |t.received| && d.item == t.received[d.tag]
  }

  /** Datagrams are received frames, byte for byte, in order and without repetition; nothing in between is unaccounted for. */
  predicate Transparent(t: Telemetry) {
    && |t.queue| <= 4 && t.enqueued == t.dequeued + |t.queue| && t.encodeFailures == 0
    && (forall i :: 0 <= i < |t.queue| ==> IsReceived(t, t.queue[i]))
    && (forall i :: 0 <= i < |t.datagrams| ==> IsCopy(t, t.datagrams[i]))
    && Increasing(Tags(t.datagrams) + Tags(t.queue))
    && AllBelow(Tags(t.datagrams) + Tags(t.queue), |t.received|)
  }

  lemma OfferKeepsTransparent(t: Telemetry, p: Packet, raw: seq<u8>)
    requires Transparent(t) && Sendable(p) && raw == Encoded(p)
    ensures Transparent(OfferTelemetry(t, p, raw))
  {
    hide Encoded;
    var u := OfferTelemetry(t, p, raw);
    var all := Tags(t.datagrams) + Tags(t.queue);
    if |u.queue| > |t.queue| {
      IncreasingAppend(all, |t.received|);
      assert Tags(u.datagrams) + Tags(u.queue) == all + [|t.received|];
    }
    if u != t {
      forall i | 0 <= i < |u.queue|
        ensures IsReceived(u, u.queue[i])
      {
        if i < |t.queue| {
          assert IsReceived(t, t.queue[i]);
        }
      }
      forall i | 0 <= i < |u.datagrams|
        ensures IsCopy(u, u.datagrams[i])
      {
        assert IsCopy(t, t.datagrams[i]);
      }
    }
  }

  lemma ForwardKeepsTransparent(t: Telemetry, accepted: bool)
    requires Transparent(t) && t.queue != []
    ensures Transparent(ForwardTelemetry(t, accepted))
  {
    hide Encoded;
    var u := ForwardTelemetry(t, accepted);
    assert IsReceived(t, t.queue[0]);
    assert Tags(u.queue) == Tags(t.queue)[1..];
    if accepted {
      IncreasingMove(Tags(t.datagrams), Tags(t.queue));
      assert Tags(u.datagrams) == Tags(t.datagrams) + [Tags(t.queue)[0]];
    } else {
      IncreasingSkip(Tags(t.datagrams), Tags(t.queue), |t.received|);
    }
    forall i | 0 <= i < |u.queue|
      ensures IsReceived(u, u.queue[i])
    {
      assert IsReceived(t, t.queue[i + 1]);
    }
    forall i | 0 <= i < |u.datagrams|
      ensures IsCopy(u, u.datagrams[i])
    {
      if i < |t.datagrams| {
        assert IsCopy(t, t.datagrams[i]);
      }
    }
  }
}
