/** Turns of the two gateway tasks from any state: what the Ethernet task serves in one turn, and how long the RS-422 task waits. */
module GatewayTurns {
  import opened Bits
  import opened Protocol
  import opened StreamParsing
  import opened GatewayParts
  import opened Gateway
  import GT = GatewayTasks
  import GF = GatewayForwarding

  // ----- Turns of the Ethernet task -----

  /** The Ethernet task turns to some work and goes on, the k-th operation answering ok[k]. */
  function Turn(work: EthWork, ok: seq<bool>): (acts: seq<Act>)
    ensures |acts| == |ok| + 1
  {
    if ok == [] then [EthStep(work)] else Turn(work, ok[..|ok| - 1]) + [EthStep(Continue(ok[|ok| - 1]))]
  }

  lemma TurnGoesOn(g: G, work: EthWork, ok: seq<bool>)
    requires ok != []
    ensures Run(g, Turn(work, ok)) == Step(Run(g, Turn(work, ok[..|ok| - 1])), EthStep(Continue(ok[|ok| - 1])))
  {
    var acts := Turn(work, ok);
    assert acts[..|acts| - 1] == Turn(work, ok[..|ok| - 1]);
    hide Step, Turn;
  }

  lemma TurnBegins(g: G, work: EthWork)
    ensures Run(g, Turn(work, [])) == Step(g, EthStep(work))
  {
    assert Turn(work, [])[..0] == [];
    hide Step;
  }

  lemma SendingStep(g: G, done: nat, ok: bool)
    requires EthMayRun(g) && g.eth == SendingTelemetry(done)
    ensures var h, takes := Step(g, EthStep(Continue(ok))), done < 2 && g.telemetry.queue != [];
            && h == g.(telemetry := h.telemetry, eth := h.eth)
            && h.eth == (if takes && ok then SendingTelemetry(done + 1) else EthElsewhere)
            && h.telemetry.queue == g.telemetry.queue[if takes then 1 else 0..]
  {
    hide Encoded, Sendable;
  }

  lemma IdleStep(g: G, ok: bool)
    requires EthMayRun(g) && g.eth == EthElsewhere
    ensures Step(g, EthStep(Continue(ok))) == g
  {}

  /** A telemetry turn takes up to two frames from the queue, and stops at the first the socket refuses. */
  lemma TelemetryTurn(g: G, ok: seq<bool>)
    requires EthMayRun(g) && g.eth == EthElsewhere && |ok| == 3
    ensures var h, n := Run(g, Turn(DrainTelemetry, ok)), |g.telemetry.queue|;
            && h == g.(telemetry := h.telemetry)
            && h.telemetry.queue == g.telemetry.queue[if n < 2 then n else if ok[0] then 2 else 1..]
  {
    var a := g.(eth := SendingTelemetry(0));
    TurnOfThree(g, DrainTelemetry, ok);
    assert Step(g, EthStep(DrainTelemetry)) == a;
    hide Run, Turn, Step, EthMayRun;
    SendingStep(a, 0, ok[0]);
    Sent(Step(a, EthStep(Continue(ok[0]))), ok[1], ok[2]);
  }

  lemma TurnOfThree(g: G, work: EthWork, ok: seq<bool>)
    requires |ok| == 3
    ensures Run(g, Turn(work, ok))
            == Step(Step(Step(Step(g, EthStep(work)), EthStep(Continue(ok[0]))), EthStep(Continue(ok[1]))), EthStep(Continue(ok[2])))
  {
    var first, second := ok[..1], ok[..2];
    assert first[..0] == [] && second[..1] == first;
    TurnBegins(g, work);
    TurnGoesOn(g, work, first);
    TurnGoesOn(g, work, second);
    TurnGoesOn(g, work, ok);
    hide Run, Turn, Step;
  }

  /** The rest of the turn, after the first frame. */
  lemma Sent(g: G, second: bool, third: bool)
    requires EthMayRun(g) && (g.eth == EthElsewhere || g.eth == SendingTelemetry(1))
    ensures var h := Step(Step(g, EthStep(Continue(second))), EthStep(Continue(third)));
            && h == g.(telemetry := h.telemetry, eth := EthElsewhere)
            && h.telemetry.queue == g.telemetry.queue[if g.eth != EthElsewhere && g.telemetry.queue != [] then 1 else 0..]
  {
    if g.eth == EthElsewhere {
      IdleStep(g, second);
      IdleStep(g, third);
    } else {
      SendingStep(g, 1, second);
      var h := Step(g, EthStep(Continue(second)));
      if h.eth == EthElsewhere {
        IdleStep(h, third);
      } else {
        SendingStep(h, 2, third);
      }
    }
    hide Step;
  }

  lemma {:induction false} ResponsesServed(g: G, ok: seq<bool>)
    requires EthMayRun(g) && g.eth == EthElsewhere && g.session.active && |ok| <= |g.session.responses| <= 8
    ensures Run(g, Turn(DrainResponses, ok)) == g.(eth := Responding(|ok|), session := GT.Served(g.session, ok))
  {
    if ok == [] {
      TurnBegins(g, DrainResponses);
    } else {
      ResponsesServed(g, ok[..|ok| - 1]);
      TurnGoesOn(g, DrainResponses, ok);
      hide Run, Turn, SendResponse, DropResponse;
    }
  }

  /** A response turn serves every response queued: each is given to TCP or, if TCP will not take it, dropped. */
  lemma ResponseTurn(g: G, ok: seq<bool>)
    requires EthMayRun(g) && g.eth == EthElsewhere && g.session.active && |ok| == |g.session.responses| + 1 <= 9
    ensures var h, s := Run(g, Turn(DrainResponses, ok)), GT.Served(g.session, ok[..|ok| - 1]);
            h == g.(session := s) && s.responses == []
  {
    ResponsesServed(g, ok[..|ok| - 1]);
    TurnGoesOn(g, DrainResponses, ok);
    hide Run, Turn, SendResponse, DropResponse;
  }

  lemma {:induction false} OldResponsesGo(g: G, ok: seq<bool>)
    requires EthMayRun(g) && g.eth == EthElsewhere && !g.session.active && |ok| <= |g.session.responses| <= 8
    ensures Run(g, Turn(BeginSession, ok))
            == g.(eth := Discard(|ok|, true), session := g.session.(responses := g.session.responses[|ok|..]))
  {
    if ok == [] {
      TurnBegins(g, BeginSession);
    } else {
      OldResponsesGo(g, ok[..|ok| - 1]);
      TurnGoesOn(g, BeginSession, ok);
      hide Run, Turn;
    }
  }

  /** A session begins with no response queued, even where some were, and nothing else is touched. */
  lemma SessionTurn(g: G, ok: seq<bool>)
    requires EthMayRun(g) && g.eth == EthElsewhere && !g.session.active && |ok| == |g.session.responses| + 2 <= 10
    ensures Run(g, Turn(BeginSession, ok))
            == g.(session := g.session.(active := true, number := g.session.number + 1, responses := []))
  {
    var n := |ok|;
    OldResponsesGo(g, ok[..n - 2]);
    assert ok[..n - 1][..n - 2] == ok[..n - 2];
    TurnGoesOn(g, BeginSession, ok[..n - 1]);
    TurnGoesOn(g, BeginSession, ok);
    hide Run, Turn;
    Activates(Run(g, Turn(BeginSession, ok[..n - 2])), n - 2, ok[n - 2], ok[n - 1]);
    hide Step;
  }

  lemma Activates(g: G, done: nat, first: bool, second: bool)
    requires EthMayRun(g) && g.eth == Discard(done, true) && g.session.responses == []
    ensures Step(Step(g, EthStep(Continue(first))), EthStep(Continue(second)))
            == g.(eth := EthElsewhere, session := g.session.(active := true, number := g.session.number + 1))
  {
    assert Step(g, EthStep(Continue(first))) == g.(eth := Activate);
  }

  /** Whether a PONG is awaited, and which, is the RS-422 task's alone to change. */
  lemma EthSparesPending(g: G, work: EthWork)
    ensures var s, t := g.session, RunEth(g, work).session;
            t.pending == s.pending && t.pendingSeq == s.pendingSeq && t.forwarded == s.forwarded
  {
    hide Encoded, Sendable, ForwardTelemetry;
  }

  // ----- Waits of the RS-422 task -----

  /** The bring-up test waits for its PONG. */
  predicate AwaitsPong(rs: Rs, n: nat) {
    rs == PongTop(n) || rs == PongCheck(n) || rs == PongBlocked(n) || rs == Drain(ToPongCheck(n))
  }

  /** The task waits for the transmission it started to end. */
  predicate AwaitsLine(rs: Rs, p: Packet, o: Origin) {
    || rs == WaitTop(p, o) || rs == Drain(ToPoll(p, o)) || rs == Poll(p, o) || rs == Recheck(p, o)
    || rs == TxBlocked(p, o) || rs == TxFailed(p, o)
  }

  /** A wait for a PONG ends exactly when its time is up, and nothing wakes the task, or the kernel fails. */
  lemma PongWaitEndsIff(g: G, n: nat, c: Choice)
    requires AwaitsPong(g.rs, n)
    ensures !AwaitsPong(RunRs(g, c).rs, n)
            <==> if g.rs.PongBlocked? then c.osError || (c.timeUp && g.flags == NoFlags)
                 else !g.rs.Drain? && c.timeUp
  {
    hide FeedByte, OfferPong, OfferTelemetry, BringUpPing, NoticeDone, DropPending;
  }

  /** A wait for the line ends exactly when the completion was noticed, or after it was given up. */
  lemma LineWaitEndsIff(g: G, p: Packet, o: Origin, c: Choice)
    requires AwaitsLine(g.rs, p, o)
    ensures var h := RunRs(g, c);
            && (!AwaitsLine(h.rs, p, o) <==> (!g.tx.busy && (g.rs.WaitTop? || g.rs.Recheck?)) || g.rs.TxFailed?)
            && (h.rs.TxFailed? && !g.rs.TxFailed?
                <==> match g.rs
                     case Poll(_, _) => c.osError
                     case Recheck(_, _) => g.tx.busy && c.timeUp
                     case TxBlocked(_, _) => c.osError || (c.timeUp && g.flags == NoFlags)
                     case _ => false)
  {
    hide FeedByte, OfferPong, OfferTelemetry, BringUpPing, NoticeDone, DropPending;
  }

  // ----- A transmission given up leaves no PONG awaited -----

  predicate OnCommand(rs: Rs) {
    match rs
    case Drain(next) => next.ToPoll? && next.o == Command
    case GetCommand => false
    case MainBlocked => false
    case PongTop(_) => false
    case PongCheck(_) => false
    case PongBlocked(_) => false
    case _ => rs.o == Command
  }

  function PacketOf(rs: Rs): Packet
    requires OnCommand(rs)
  {
    match rs
    case Drain(next) => next.p
    case _ => rs.p
  }

  predicate Sends(rs: Rs) {
    rs.WaitTop? || rs.Poll? || rs.Recheck? || rs.TxBlocked? || rs.TxFailed? || (rs.Drain? && rs.next.ToPoll?)
  }

  /** With the transmitter still busy, a PONG is awaited only while the task sees to a command's transmission; never in the bring-up. */
  predicate Attended(g: G) {
    && (g.tx.busy && g.session.pending ==> OnCommand(g.rs) && Sends(g.rs))
    && Timely(g)
  }

  /** Once a completion is noticed the line is free; in the bring-up no PONG is awaited for TCP. */
  predicate Timely(g: G) {
    && (g.rs.Drain? && g.rs.next.ToSent? ==> !g.tx.busy)
    && (GF.InBringUp(g.rs) ==> !g.session.pending)
  }

  /** All commands are PINGs. */
  predicate PingsOnly(g: G) {
    && (forall i :: 0 <= i < |g.commands| ==> g.commands[i].msgId == MSG_PING)
    && (OnCommand(g.rs) ==> PacketOf(g.rs).msgId == MSG_PING)
  }

  lemma RsKeepsPingsOnly(g: G, c: Choice)
    ensures PingsOnly(g) ==> PingsOnly(RunRs(g, c))
  {
    hide FeedByte, Encoded, BringUpPing, OfferPong, OfferTelemetry, DropPending, NoteForwarded, Sendable;
    hide NoticeDone, FillBuffer, StartSending;
  }

  /** Frames can only end the wait for a PONG. */
  lemma DrainKeepsAttended(g: G, next: Next)
    requires g.rs == Drain(next)
    ensures PingsOnly(g) && Attended(g) ==> Attended(DrainStep(g, next))
  {
    hide FeedByte, Encoded, OfferTelemetry, PingsOnly;
  }

  lemma RsKeepsTimely(g: G, c: Choice)
    ensures PingsOnly(g) && Attended(g) ==> Timely(RunRs(g, c))
  {
    hide Encoded, BringUpPing, Sendable, DrainStep;
    if g.rs.Drain? {
      DrainKeepsAttended(g, g.rs.next);
    } else {
      hide PingsOnly;
    }
  }

  lemma RsKeepsAttended(g: G, c: Choice)
    ensures PingsOnly(g) && Attended(g) ==> Attended(RunRs(g, c))
  {
    RsKeepsTimely(g, c);
    hide Encoded, BringUpPing, Sendable, DrainStep;
    if g.rs.Drain? {
      DrainKeepsAttended(g, g.rs.next);
    } else {
      hide Timely;
    }
  }

  lemma EthKeepsAttended(g: G, work: EthWork)
    ensures PingsOnly(g) && Attended(g) ==> PingsOnly(RunEth(g, work)) && Attended(RunEth(g, work))
  {
    hide Encoded, Sendable, ForwardTelemetry, OnCommand, PacketOf, Sends, GF.InBringUp;
  }

  /**
   * In every run: while the line is busy, a PONG is awaited only with the task waiting for a command's transmission to
   * end; once that is given up, whatever the reason, no PONG is awaited.
   */
  lemma {:induction false} AlwaysAttended(armed: bool, acts: seq<Act>)
    ensures PingsOnly(Run(Boot(armed), acts)) && Attended(Run(Boot(armed), acts))
  {
    if acts != [] {
      var front := acts[..|acts| - 1];
      AlwaysAttended(armed, front);
      var g := Run(Boot(armed), front);
      hide RunRs, RunEth, Boot;
      match acts[|acts| - 1]
      case RsStep(c) =>
        RsKeepsPingsOnly(g, c);
        RsKeepsAttended(g, c);
        hide PingsOnly, Attended;
      case EthStep(work) =>
        EthKeepsAttended(g, work);
        hide PingsOnly, Attended;
      case _ => hide OnCommand, PacketOf, Sends, GF.InBringUp;
    }
  }
}
