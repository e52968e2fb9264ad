/** Which TELEMETRY frames are queued and become datagrams, exactly and in order; and what becomes of responses. */
module GatewayForwarding {
  import opened Bits
  import opened Protocol
  import opened StreamParsing
  import opened GatewayParts
  import opened Gateway
  import opened GatewayRuns
  import opened GatewayWire
  import PR = ParserRuns

  // ----- Telemetry is forwarded once the bring-up has ended -----

  predicate ForBringUp(next: Next) {
    match next
    case ToGetCommand => false
    case ToPoll(_, o) => o.BringUp?
    case ToSent(o) => o.BringUp?
    case ToPongCheck(_) => true
  }

  predicate InBringUp(rs: Rs) {
    match rs
    case Drain(next) => ForBringUp(next)
    case GetCommand => false
    case MainBlocked => false
    case PongTop(_) => true
    case PongCheck(_) => true
    case PongBlocked(_) => true
    case _ => rs.o.BringUp?
  }

  lemma RsStaysOutOfBringUp(g: G, c: Choice)
    ensures InBringUp(RunRs(g, c).rs) ==> InBringUp(g.rs)
  {
    hide FeedByte, Encoded, BringUpPing, OfferPong, OfferTelemetry, NoticeDone, DropPending, NoteForwarded;
    hide FillBuffer, StartSending, Sendable;
  }

  lemma RsStartsForwarding(g: G, c: Choice)
    ensures var h := RunRs(g, c);
            h.telemetry.forwarding == (g.telemetry.forwarding || (InBringUp(g.rs) && !InBringUp(h.rs)))
  {
    hide FeedByte, Encoded, BringUpPing, OfferPong, NoticeDone, DropPending, NoteForwarded;
    hide FillBuffer, StartSending, Sendable;
    if !g.rs.Drain? {
      hide DrainStep;
    }
  }

  lemma EthSparesForwarding(g: G, work: EthWork)
    ensures var h := RunEth(g, work); h.rs == g.rs && h.telemetry.forwarding == g.telemetry.forwarding
  {
    hide Encoded;
  }

  /** In every run, telemetry is forwarded if and only if the bring-up test is over (or was never begun). */
  lemma {:induction false} ForwardingFollowsBringUp(armed: bool, acts: seq<Act>)
    ensures var g := Run(Boot(armed), acts); g.telemetry.forwarding <==> !InBringUp(g.rs)
  {
    if acts != [] {
      var front, last := acts[..|acts| - 1], acts[|acts| - 1];
      ForwardingFollowsBringUp(armed, front);
      var g := Run(Boot(armed), front);
      hide RunRs, RunEth, Boot, InBringUp;
      match last
      case RsStep(c) =>
        RsStaysOutOfBringUp(g, c);
        RsStartsForwarding(g, c);
      case EthStep(work) => EthSparesForwarding(g, work);
      case _ =>
    }
  }

  // ----- Exactly which frames are queued, and which become datagrams -----

  /** The step completes a TELEMETRY frame. */
  predicate Completes(g: G, act: Act) {
    Fed(g, act) != [] && IsTelemetry(FeedByte(g.parser, g.rx[0]).1)
  }

  /** Numbers of the TELEMETRY frames completed after the bring-up while fewer than four were queued. */
  function Admitted(armed: bool, acts: seq<Act>): seq<nat> {
    if acts == [] then []
    else
      var g := Run(Boot(armed), acts[..|acts| - 1]);
      Admitted(armed, acts[..|acts| - 1])
      + if Completes(g, acts[|acts| - 1]) && !InBringUp(g.rs) && |g.telemetry.queue| < 4 then [|g.telemetry.received|] else []
  }

  /** The Ethernet task is at one of its turns, at most two in a row, with a packet queued for UDP. */
  predicate Dequeues(g: G, act: Act) {
    act.EthStep? && EthMayRun(g) && g.eth.SendingTelemetry? && g.eth.done < 2 && g.telemetry.queue != []
  }

  /** Numbers of the frames taken from the queue, and of those among them that the socket accepted. */
  function Dequeued(armed: bool, acts: seq<Act>, acceptedOnly: bool): seq<nat> {
    if acts == [] then []
    else
      var g, act := Run(Boot(armed), acts[..|acts| - 1]), acts[|acts| - 1];
      Dequeued(armed, acts[..|acts| - 1], acceptedOnly)
      + if Dequeues(g, act) && (acceptedOnly ==> act.work == Continue(true)) then [g.telemetry.queue[0].tag] else []
  }

  lemma RsMovesTelemetry(g: G, c: Choice)
    requires PR.Inv(g.parser)
    ensures var t, u := g.telemetry, RunRs(g, c).telemetry;
            && u.datagrams == t.datagrams
            && Tags(u.queue) == Tags(t.queue)
                                + (if Completes(g, RsStep(c)) && t.forwarding && |t.queue| < 4 then [|t.received|] else [])
  {
    assert Tags(g.telemetry.queue) + [] == Tags(g.telemetry.queue);
    if g.rs.Drain? {
      if g.rx != [] {
        PR.StepFromInv(g.parser, g.rx[0]);
        var fed := FeedByte(g.parser, g.rx[0]);
        PR.StepKeepsATail(g.parser, g.rx[0], fed.0, fed.1);
        if fed.1.FrameEvent? {
          OfferMovesQueue(g.telemetry, fed.1.packet, g.parser.pending + [g.rx[0]]);
        }
      }
      hide FeedByte, Encoded, OfferPong, OfferTelemetry, PR.Inv, Tags;
    } else {
      RsSparesTelemetry(g, c);
      hide RunRs, Tags;
    }
  }

  lemma OfferMovesQueue(t: Telemetry, p: Packet, raw: seq<u8>)
    ensures var u := OfferTelemetry(t, p, raw);
            && u.datagrams == t.datagrams
            && Tags(u.queue) == Tags(t.queue)
                                + (if p.msgId == MSG_TELEMETRY && t.forwarding && |t.queue| < 4 then [|t.received|] else [])
  {}

  lemma EthMovesTelemetry(g: G, work: EthWork)
    requires Transparent(g.telemetry) && EthMayRun(g)
    ensures var t, u, out := g.telemetry, RunEth(g, work).telemetry, Dequeues(g, EthStep(work));
            && u.queue == (if out then t.queue[1..] else t.queue)
            && Tags(u.datagrams) == Tags(t.datagrams) + (if out && work == Continue(true) then [t.queue[0].tag] else [])
  {
    if g.telemetry.queue != [] {
      assert IsReceived(g.telemetry, g.telemetry.queue[0]);
    }
    hide Transparent, Encoded, SendResponse, DropResponse, Sendable;
    if !g.eth.SendingTelemetry? {
      hide ForwardTelemetry, Tags;
    }
  }

  /**
   * In every run: the frames taken from the queue followed by those in it are exactly those completed after the
   * bring-up while fewer than four were queued, in order; and the datagrams are exactly those of the frames taken
   * that the socket accepted, in order.
   */
  lemma {:induction false} TelemetryIsForwarded(armed: bool, acts: seq<Act>)
    ensures var t := Run(Boot(armed), acts).telemetry;
            && Dequeued(armed, acts, false) + Tags(t.queue) == Admitted(armed, acts)
            && Tags(t.datagrams) == Dequeued(armed, acts, true)
  {
    if acts == [] {
      assert Tags(Boot(armed).telemetry.queue) == [];
    } else {
      var front, last := acts[..|acts| - 1], acts[|acts| - 1];
      TelemetryIsForwarded(armed, front);
      ForwardingFollowsBringUp(armed, front);
      TelemetryAlwaysSound(armed, front);
      var g := Run(Boot(armed), front);
      AppendNoTags(Dequeued(armed, front, false));
      AppendNoTags(Dequeued(armed, front, true));
      AppendNoTags(Admitted(armed, front));
      hide Boot, Transparent, InBringUp, Completes, RunRs, RunEth, PR.Inv, Tags;
      match last
      case RsStep(c) =>
        RsMovesTelemetry(g, c);
        MoveTags(Dequeued(armed, front, false), Tags(g.telemetry.queue), [|g.telemetry.received|]);
        AppendNoTags(Tags(g.telemetry.queue));
      case EthStep(work) =>
        if EthMayRun(g) {
          EthMovesTelemetry(g, work);
          if g.telemetry.queue != [] {
            TakeTag(Dequeued(armed, front, false), g.telemetry.queue);
          }
          AppendNoTags(Tags(g.telemetry.datagrams));
        }
      case _ =>
    }
  }

  lemma AppendNoTags(s: seq<nat>)
    ensures s + [] == s
  {}

  lemma MoveTags(a: seq<nat>, b: seq<nat>, c: seq<nat>)
    ensures a + (b + c) == (a + b) + c
  {}

  lemma TakeTag(taken: seq<nat>, queue: seq<Tagged<Packet>>)
    requires queue != []
    ensures (taken + [queue[0].tag]) + Tags(queue[1..]) == taken + Tags(queue)
  {
    assert Tags(queue) == [queue[0].tag] + Tags(queue[1..]);
  }

  // ----- Responses -----

  /** Each turn of the response drain takes the oldest response, and gives it to TCP if and only if TCP accepts it. */
  lemma ResponseServed(g: G, work: EthWork)
    requires g.eth.Responding? && g.eth.done < 8 && g.session.responses != []
    ensures var s, t := g.session, RunEth(g, work).session;
            && t.responses == s.responses[1..]
            && t.sent == s.sent + (if work == Continue(true) then [Tagged(Response(s.number, s.responses[0].item), s.responses[0].tag)] else [])
            && t.active == s.active && t.pending == s.pending && t.forwarded == s.forwarded && t.number == s.number
  {}
}
