/** What holds in every run of the gateway's step system. */
module GatewayRuns {
  import opened Bits
  import opened Protocol
  import opened StreamParsing
  import opened GatewayParts
  import opened Gateway
  import PR = ParserRuns

  // ----- No lost wake-up -----

  /** Work that arrives while the RS-422 task looks elsewhere has left a flag behind by the time the task sleeps for good. */
  predicate Wakeful(g: G) {
    && (g.rs.GetCommand? || g.rs.MainBlocked? || g.rs.PongCheck? || g.rs.PongBlocked? ==> g.rx == [] || g.flags.rx)
    && (g.rs.TxBlocked? ==> g.tx.busy)
    && (g.rs.MainBlocked? ==> g.commands == [] || g.flags.commandReady || g.eth.SetCommandReady?)
  }

  lemma StepKeepsWakeful(g: G, act: Act)
    requires Wakeful(g)
    ensures Wakeful(Step(g, act))
  {
    hide FeedByte, Encoded, TakeFlags, HandleFrame, BringUpPing;
    match act
    case RsStep(c) => RsKeepsWakeful(g, c);
    case EthStep(work) =>
      if EthMayRun(g) {
        EthKeepsWakeful(g, work);
      }
    case _ =>
  }

  lemma RsKeepsWakeful(g: G, c: Choice)
    requires Wakeful(g)
    ensures Wakeful(RunRs(g, c))
  {
    hide FeedByte, Encoded, BringUpPing, OfferPong, OfferTelemetry, NoteForwarded, NoticeDone;
  }

  lemma EthKeepsWakeful(g: G, work: EthWork)
    requires Wakeful(g) && EthMayRun(g)
    ensures Wakeful(RunEth(g, work))
  {
    hide Encoded, ForwardTelemetry, SendResponse;
  }

  lemma {:induction false} AlwaysWakeful(armed: bool, acts: seq<Act>)
    ensures Wakeful(Run(Boot(armed), acts))
  {
    hide Step;
    if acts != [] {
      AlwaysWakeful(armed, acts[..|acts| - 1]);
      StepKeepsWakeful(Run(Boot(armed), acts[..|acts| - 1]), acts[|acts| - 1]);
    }
  }

  /**
   * Whenever the RS-422 task is in its wait forever: received bytes imply that it is about to wake; queued commands
   * imply that, or that the Ethernet task has yet to set the flag of the command it just queued.
   */
  lemma NoLostWakeUp(armed: bool, acts: seq<Act>)
    ensures var g := Run(Boot(armed), acts);
            g.rs.MainBlocked? ==>
              && (g.rx != [] ==> g.flags.rx)
              && (g.commands != [] ==> g.flags.commandReady || g.eth.SetCommandReady?)
  {
    AlwaysWakeful(armed, acts);
    hide Run;
  }

  /**
   * Of the three waits only the one inside a transmission can hold bytes without the flag that announces them, and
   * it does so only until that transmission's completion: the UART is still sending, or the completion is flagged.
   */
  lemma OnlyTheTransmitWaitHoldsBytes(armed: bool, acts: seq<Act>)
    ensures var g := Run(Boot(armed), acts);
            Blocked(g.rs) && g.rx != [] && !g.flags.rx ==> g.rs.TxBlocked? && (g.tx.uart.Sending? || g.flags.txDone)
  {
    AlwaysWakeful(armed, acts);
    LineAlwaysSound(armed, acts);
    hide Run, LineIsFrames, Encoded;
  }

  /** The ring was not empty when the last poll of the transmit wait took the flags, and nothing has set the RX flag since. */
  predicate LeftByPoll(armed: bool, acts: seq<Act>) {
    acts != [] &&
      var front, last := acts[..|acts| - 1], acts[|acts| - 1];
      var g := Run(Boot(armed), front);
      if last.RxByte? || last.UartError? then false
      else if g.rs.Poll? && last.RsStep? && !last.c.osError then g.rx != []
      else LeftByPoll(armed, front)
  }

  predicate PastPoll(rs: Rs) { rs.Recheck? || rs.TxBlocked? }

  lemma StepPastPoll(g: G, act: Act, left: bool)
    ensures var h := Step(g, act);
            var left' := if act.RxByte? || act.UartError? then false
                         else if g.rs.Poll? && act.RsStep? && !act.c.osError then g.rx != [] else left;
            (PastPoll(g.rs) ==> (g.rx != [] && !g.flags.rx <==> left))
            ==> (PastPoll(h.rs) ==> (h.rx != [] && !h.flags.rx <==> left'))
  {
    hide FeedByte, Encoded, OfferPong, OfferTelemetry, BringUpPing, NoticeDone, DropPending, NoteForwarded;
    hide ForwardTelemetry, SendResponse, DropResponse, ShiftByte, StartSending, FillBuffer;
  }

  /**
   * Exactly when the transmit wait holds bytes without their flag, in every run: its last poll took the flags while
   * the ring was not empty, and neither a byte nor a UART error has come since.
   */
  lemma {:induction false} TransmitWaitHoldsBytesIff(armed: bool, acts: seq<Act>)
    ensures var g := Run(Boot(armed), acts);
            PastPoll(g.rs) ==> (g.rx != [] && !g.flags.rx <==> LeftByPoll(armed, acts))
  {
    if acts != [] {
      var front := acts[..|acts| - 1];
      TransmitWaitHoldsBytesIff(armed, front);
      StepPastPoll(Run(Boot(armed), front), acts[|acts| - 1], LeftByPoll(armed, front));
      hide Step, Boot;
    }
  }

  /** That wait does come to hold bytes with no flag at all: a run. */
  lemma TxWaitMayHoldBytesWithoutFlag()
    ensures exists acts: seq<Act> ::
              var g := Run(Boot(true), acts);
              g.rs.TxBlocked? && g.rx != [] && g.flags == NoFlags
  {
    var turn := RsStep(Choice(HalOk, false, false));
    var start := [turn, turn, turn, turn, turn, turn];
    var acts := start + [RxByte(0)] + [turn] + [turn];
    var g := Run(Boot(true), start);
    assert g.rs.Poll? && g.rx == [] && g.flags == NoFlags && g.tx.busy by {
      FirstPingIsSent(turn);
    }
    RunPrefix(Boot(true), start, RxByte(0));
    RunPrefix(Boot(true), start + [RxByte(0)], turn);
    RunPrefix(Boot(true), start + [RxByte(0)] + [turn], turn);
    hide Run, Boot, FeedByte, Encoded;
    var last := Step(Step(Step(g, RxByte(0)), turn), turn);
    assert Run(Boot(true), acts) == last;
  }

  /** Test busy, fill, clear, transmit, wait, drain nothing. */
  lemma FirstPingIsSent(turn: Act)
    requires turn == RsStep(Choice(HalOk, false, false))
    ensures var g := Run(Boot(true), [turn, turn, turn, turn, turn, turn]);
            g.rs.Poll? && g.rx == [] && g.flags == NoFlags && g.tx.busy
  {
    var b := Boot(true);
    RunPrefix(b, [], turn);
    RunPrefix(b, [turn], turn);
    RunPrefix(b, [turn, turn], turn);
    RunPrefix(b, [turn, turn, turn], turn);
    RunPrefix(b, [turn, turn, turn, turn], turn);
    RunPrefix(b, [turn, turn, turn, turn, turn], turn);
    assert Run(b, []) == b;
    AppendTurns(turn);
    FirstPingIsReady(turn);
    hide *;
    PingGoesOut(Step(Step(Step(b, turn), turn), turn), turn);
  }

  lemma FirstPingIsReady(turn: Act)
    requires turn == RsStep(Choice(HalOk, false, false))
    ensures var g := Step(Step(Step(Boot(true), turn), turn), turn);
            g.rs.Transmit? && g.tx.uart == UartIdle && g.flags == NoFlags && g.rx == []
  {
    hide Encoded, FeedByte;
  }

  lemma PingGoesOut(g: G, turn: Act)
    requires turn == RsStep(Choice(HalOk, false, false))
    requires g.rs.Transmit? && g.tx.uart == UartIdle && g.flags == NoFlags && g.rx == []
    ensures var h := Step(Step(Step(g, turn), turn), turn);
            h.rs.Poll? && h.rx == [] && h.flags == NoFlags && h.tx.busy
  {
    hide Encoded, FeedByte, BringUpPing, NoteForwarded;
  }

  lemma AppendTurns(t: Act)
    ensures [] + [t] == [t] && [t] + [t] == [t, t] && [t, t] + [t] == [t, t, t] && [t, t, t] + [t] == [t, t, t, t]
    ensures [t, t, t, t] + [t] == [t, t, t, t, t] && [t, t, t, t, t] + [t] == [t, t, t, t, t, t]
  {}

  lemma RunPrefix(g: G, acts: seq<Act>, act: Act)
    ensures Run(g, acts + [act]) == Step(Run(g, acts), act)
  {
    assert (acts + [act])[..|acts|] == acts;
  }

  // ----- Wire integrity -----

  predicate LineSound(g: G) {
    && TxConsistent(g.tx, g.flags.txDone)
    && (g.rs.Fill? || g.rs.ClearDone? || g.rs.Transmit? ==> !g.tx.busy)
    && (g.rs.ClearDone? || g.rs.Transmit? ==> Sendable(g.rs.p) && g.tx.buffer == Encoded(g.rs.p))
  }

  lemma TakeKeepsLine(g: G)
    ensures TxConsistent(g.tx, g.flags.txDone) ==> TxConsistent(TakeFlags(g).tx, false)
  {
    NoticeKeeps(g.tx);
    hide TxConsistent;
  }

  lemma FillKeeps(t: Tx, p: Packet)
    requires Sendable(p) && !t.busy
    ensures TxConsistent(t, false) ==> TxConsistent(FillBuffer(t, p), false)
  {
    hide Encoded;
  }

  /** Outside Fill and Transmit, an RS-422 step touches the transmitter only by taking flags. */
  lemma RsSparesTransmitter(g: G, c: Choice)
    requires !g.rs.Fill? && !g.rs.Transmit?
    ensures var h := RunRs(g, c);
            && ((h.tx == g.tx && h.flags == (if g.rs.ClearDone? && !c.osError then g.flags.(txDone := false) else g.flags))
                || (h.tx == TakeFlags(g).tx && h.flags == NoFlags && !h.rs.Transmit? && !h.rs.Fill?))
            && !h.rs.ClearDone?
            && (h.rs.Fill? ==> !g.tx.busy && h.tx == g.tx)
            && (h.rs.Transmit? ==> g.rs.ClearDone? && h.rs.p == g.rs.p)
  {
    hide FeedByte, Encoded, BringUpPing, OfferPong, OfferTelemetry, NoticeDone, DropPending;
    if !g.rs.Drain? {
      hide DrainStep;
    }
  }

  lemma RsKeepsLineSound(g: G, c: Choice)
    ensures LineSound(g) ==> LineSound(RunRs(g, c))
  {
    if g.rs.Fill? {
      FillKeepsLineSound(g, c);
    } else if g.rs.Transmit? {
      TransmitKeepsLineSound(g, c);
    } else if LineSound(g) {
      RsSparesTransmitter(g, c);
      TakeKeepsLine(g);
      assert g.tx.busy || !g.flags.txDone;
      hide TxConsistent, RunRs, TakeFlags, Encoded;
    }
  }

  lemma FillKeepsLineSound(g: G, c: Choice)
    requires g.rs.Fill?
    ensures LineSound(g) ==> LineSound(RunRs(g, c))
  {
    if LineSound(g) {
      assert g.tx.busy || !g.flags.txDone;
      if Sendable(g.rs.p) {
        FillKeeps(g.tx, g.rs.p);
      }
      hide TxConsistent, Encoded, BringUpPing;
    }
  }

  lemma TransmitKeepsLineSound(g: G, c: Choice)
    requires g.rs.Transmit?
    ensures LineSound(g) ==> LineSound(RunRs(g, c))
  {
    if LineSound(g) {
      assert g.tx.busy || !g.flags.txDone;
      StartKeeps(g.tx, g.rs.p);
      hide TxConsistent, Encoded, BringUpPing, NoteForwarded, DropPending, StartSending;
    }
  }

  lemma InterruptKeepsLineSound(g: G, act: Act)
    requires act.RxByte? || act.UartError? || act.TxShift? || act.TxComplete?
    ensures LineSound(g) ==> LineSound(Interrupt(g, act))
  {
    if LineSound(g) {
      ShiftKeeps(g.tx, g.flags.txDone);
      if LastByteGone(g.tx) {
        CompleteKeeps(g.tx);
      }
      assert g.tx.uart.Sending? ==> g.tx.busy && !g.flags.txDone;
      hide TxConsistent, Encoded;
    }
  }

  lemma EthSparesLine(g: G, work: EthWork)
    requires EthMayRun(g)
    ensures var h := RunEth(g, work);
            h.tx == g.tx && h.flags.txDone == g.flags.txDone && h.rs == g.rs && h.rx == g.rx && h.parser == g.parser
  {
    hide Encoded;
  }

  lemma {:induction false} LineAlwaysSound(armed: bool, acts: seq<Act>)
    ensures LineSound(Run(Boot(armed), acts))
  {
    if acts == [] {
      BootIsSound(armed);
    } else {
      hide RunRs, RunEth, Interrupt;
      LineAlwaysSound(armed, acts[..|acts| - 1]);
      var g := Run(Boot(armed), acts[..|acts| - 1]);
      match acts[|acts| - 1]
      case RsStep(c) =>
        hide LineSound;
        RsKeepsLineSound(g, c);
      case EthStep(work) =>
        if EthMayRun(g) {
          EthSparesLine(g, work);
        }
        hide TxConsistent, Encoded;
      case act =>
        hide LineSound;
        InterruptKeepsLineSound(g, act);
    }
  }

  lemma BootIsSound(armed: bool)
    ensures LineSound(Boot(armed))
  {}

  /**
   * In every run, timeouts included: the line has carried whole encoded frames and at most one prefix of another;
   * transmissions started equal those noticed complete plus the one the busy flag stands for; no completion is
   * ever noticed for nothing.
   */
  lemma LineCarriesWholeFrames(armed: bool, acts: seq<Act>)
    ensures var t := Run(Boot(armed), acts).tx;
            LineIsFrames(t) && |t.started| == t.completed + (if t.busy then 1 else 0) && t.spurious == 0
  {
    LineAlwaysSound(armed, acts);
    hide Run, LineIsFrames;
  }

  /** While the peripheral is sending, no step writes the transmit buffer. */
  lemma BufferIsNotWrittenInFlight(armed: bool, acts: seq<Act>, act: Act)
    ensures var g := Run(Boot(armed), acts);
            g.tx.uart.Sending? ==> Step(g, act).tx.buffer == g.tx.buffer
  {
    LineAlwaysSound(armed, acts);
    hide Run, LineIsFrames, Encoded, FeedByte, BringUpPing;
    var g := Run(Boot(armed), acts);
    assert g.tx.uart.Sending? ==> g.tx.busy && !g.rs.Fill?;
    hide TxConsistent, LineSound;
    if act.EthStep? && EthMayRun(g) {
      EthSparesLine(g, act.work);
      hide RunEth;
    }
  }

  // ----- Session provenance -----

  /** Where the two tasks may stand while a closed session still has something outstanding. */
  predicate SessionOrderly(g: G) {
    && (g.flags.contextReset ==> g.eth == Discard(0, false))
    && (g.session.pending ==> g.session.active || g.eth.SetContextReset? || g.flags.contextReset)
    && (g.eth.SetContextReset? || g.eth.Activate? || (g.eth.Discard? && g.eth.activate) ==> !g.session.active)
    && (g.eth.Responding? ==> g.session.active)
    && (g.session.responses != [] ==>
          || g.session.active
          || g.eth.SetContextReset?
          || (g.eth.Discard? && !g.eth.activate && |g.session.responses| + g.eth.done <= RESPONSE_DEPTH))
  }

  predicate SessionSound(g: G) {
    SessionOrderly(g) && Traceable(g.session)
  }

  lemma InterruptKeepsSession(g: G, act: Act)
    requires act.RxByte? || act.UartError? || act.TxShift? || act.TxComplete?
    ensures SessionSound(g) ==> SessionSound(Interrupt(g, act))
  {
    hide Traceable, ShiftByte;
  }

  /** What an RS-422 step may do to the session. */
  lemma RsMovesSession(g: G, c: Choice)
    ensures var h := RunRs(g, c);
            && h.eth == g.eth
            && ((h.session == g.session && (h.flags.contextReset ==> g.flags.contextReset)
                 && (!h.flags.contextReset ==> !g.flags.contextReset))
                || (h.session == DropPending(g.session) && (g.flags.contextReset || h.flags == g.flags))
                || (h.flags == g.flags && exists p :: h.session == NoteForwarded(g.session, p))
                || (h.flags == g.flags && exists p :: h.session == OfferPong(g.session, p)))
  {
    hide FeedByte, Encoded, BringUpPing, OfferPong, OfferTelemetry, NoticeDone, DropPending, NoteForwarded;
    hide FillBuffer, StartSending;
  }

  lemma RsKeepsSession(g: G, c: Choice)
    ensures SessionSound(g) ==> SessionSound(RunRs(g, c))
  {
    if SessionSound(g) {
      RsMovesSession(g, c);
      var h := RunRs(g, c);
      hide RunRs;
      DropPendingKeepsTraceable(g.session);
      forall p
        ensures Traceable(NoteForwarded(g.session, p)) && Traceable(OfferPong(g.session, p))
      {
        ForwardKeepsTraceable(g.session, p);
        OfferKeepsTraceable(g.session, p);
      }
      assert |g.session.responses| <= RESPONSE_DEPTH;
      hide Traceable;
    }
  }

  lemma BeginKeepsSession(g: G, work: EthWork)
    requires g.eth.EthElsewhere? && EthMayRun(g)
    ensures SessionSound(g) ==> SessionSound(BeginWork(g, work))
  {
    DeactivateKeepsTraceable(g.session);
    assert Traceable(g.session) ==> |g.session.responses| <= RESPONSE_DEPTH;
    hide Traceable, Encoded;
  }

  lemma EthKeepsSession(g: G, work: EthWork)
    requires EthMayRun(g)
    ensures SessionSound(g) ==> SessionSound(RunEth(g, work))
  {
    if g.eth.EthElsewhere? {
      BeginKeepsSession(g, work);
      hide SessionSound, BeginWork;
    } else if SessionSound(g) {
      hide BeginWork, ForwardTelemetry, Encoded;
      if g.eth.Activate? {
        NewSessionKeepsTraceable(g.session);
      } else if g.session.responses != [] {
        DropResponseKeepsTraceable(g.session);
        SendResponseKeepsTraceable(g.session);
      }
      hide Traceable;
    }
  }

  lemma DeactivateKeepsTraceable(s: Session)
    ensures Traceable(s) ==> Traceable(s.(active := false))
  {}

  lemma {:induction false} SessionAlwaysSound(armed: bool, acts: seq<Act>)
    ensures SessionSound(Run(Boot(armed), acts))
  {
    if acts == [] {
      BootSessionSound(armed);
    } else {
      hide RunRs, RunEth, Interrupt, SessionSound;
      SessionAlwaysSound(armed, acts[..|acts| - 1]);
      var g := Run(Boot(armed), acts[..|acts| - 1]);
      match acts[|acts| - 1]
      case RsStep(c) => RsKeepsSession(g, c);
      case EthStep(work) =>
        if EthMayRun(g) {
          EthKeepsSession(g, work);
        }
      case act => InterruptKeepsSession(g, act);
    }
  }

  lemma BootSessionSound(armed: bool)
    ensures SessionSound(Boot(armed))
  {}

  /** Between the Ethernet task's sequences, a closed session has no PING pending and no response queued. */
  lemma ClosedSessionIsClean(armed: bool, acts: seq<Act>)
    ensures var g := Run(Boot(armed), acts);
            g.eth == EthElsewhere && !g.session.active ==> !g.session.pending && g.session.responses == []
  {
    SessionAlwaysSound(armed, acts);
    hide Run, Traceable;
  }

  /**
   * Every response ever given to TCP is a PONG whose SEQ is that of a PING forwarded to RS-422 in the very session
   * the response was given in, and no two responses answer the same forwarded PING.
   */
  lemma EveryPongAnswersItsOwnSession(armed: bool, acts: seq<Act>)
    ensures var s := Run(Boot(armed), acts).session;
            && (forall i :: 0 <= i < |s.sent| ==>
                  && s.sent[i].item.packet.msgId == MSG_PONG && s.sent[i].tag < |s.forwarded|
                  && s.forwarded[s.sent[i].tag] == Forwarded(s.sent[i].item.session, s.sent[i].item.packet.seqNo))
            && (forall i, j :: 0 <= i < j < |s.sent| ==> s.sent[i].tag < s.sent[j].tag)
  {
    SessionAlwaysSound(armed, acts);
    hide Run, SessionOrderly;
    var s := Run(Boot(armed), acts).session;
    var all := Tags(s.sent) + Tags(s.responses);
    forall i | 0 <= i < |s.sent|
      ensures Answers(s, s.sent[i].item.session, s.sent[i].item.packet, s.sent[i].tag)
    {}
    forall i, j | 0 <= i < j < |s.sent|
      ensures s.sent[i].tag < s.sent[j].tag
    {
      assert all[i] < all[j];
    }
  }

  // ----- Telemetry transparency -----

  predicate TelemetrySound(g: G) {
    PR.Inv(g.parser) && Transparent(g.telemetry)
  }

  lemma DrainKeepsTelemetry(g: G, next: Next)
    ensures TelemetrySound(g) ==> TelemetrySound(DrainStep(g, next))
  {
    if TelemetrySound(g) && g.rx != [] {
      PR.StepFromInv(g.parser, g.rx[0]);
      var fed := FeedByte(g.parser, g.rx[0]);
      if fed.1.FrameEvent? {
        PR.StepKeepsATail(g.parser, g.rx[0], fed.0, fed.1);
        OfferKeepsTransparent(g.telemetry, fed.1.packet, g.parser.pending + [g.rx[0]]);
      }
      hide Transparent, FeedByte, OfferTelemetry, OfferPong, Encoded;
    }
  }

  lemma RsKeepsTelemetry(g: G, c: Choice)
    ensures TelemetrySound(g) ==> TelemetrySound(RunRs(g, c))
  {
    if g.rs.Drain? {
      DrainKeepsTelemetry(g, g.rs.next);
      hide DrainStep, TelemetrySound;
    } else {
      RsSparesTelemetry(g, c);
      EnableForwardingKeeps(g.telemetry);
      hide RunRs, Transparent;
    }
  }

  lemma RsSparesTelemetry(g: G, c: Choice)
    requires !g.rs.Drain?
    ensures var h := RunRs(g, c);
            h.parser == g.parser && (h.telemetry == g.telemetry || h.telemetry == g.telemetry.(forwarding := true))
  {
    hide Encoded, BringUpPing, NoticeDone, DropPending, NoteForwarded, FillBuffer, StartSending;
  }

  lemma EnableForwardingKeeps(t: Telemetry)
    ensures Transparent(t) ==> Transparent(t.(forwarding := true))
  {
    if Transparent(t) {
      var u := t.(forwarding := true);
      forall i | 0 <= i < |u.queue|
        ensures IsReceived(u, u.queue[i])
      {
        assert IsReceived(t, t.queue[i]);
      }
      forall i | 0 <= i < |u.datagrams|
        ensures IsCopy(u, u.datagrams[i])
      {
        assert IsCopy(t, t.datagrams[i]);
      }
    }
  }

  lemma EthKeepsTelemetry(g: G, work: EthWork)
    requires EthMayRun(g)
    ensures TelemetrySound(g) ==> TelemetrySound(RunEth(g, work))
  {
    if TelemetrySound(g) {
      if g.eth.SendingTelemetry? && g.telemetry.queue != [] {
        ForwardKeepsTransparent(g.telemetry, work == Continue(true));
      }
      hide Transparent, ForwardTelemetry, SendResponse;
    }
  }

  lemma {:induction false} TelemetryAlwaysSound(armed: bool, acts: seq<Act>)
    ensures TelemetrySound(Run(Boot(armed), acts))
  {
    if acts == [] {
      BootTelemetrySound(armed);
    } else {
      hide RunRs, RunEth, TelemetrySound;
      TelemetryAlwaysSound(armed, acts[..|acts| - 1]);
      var g := Run(Boot(armed), acts[..|acts| - 1]);
      match acts[|acts| - 1]
      case RsStep(c) => RsKeepsTelemetry(g, c);
      case EthStep(work) =>
        if EthMayRun(g) {
          EthKeepsTelemetry(g, work);
        }
      case act => InterruptSparesTelemetry(g, act);
    }
  }

  lemma InterruptSparesTelemetry(g: G, act: Act)
    requires act.RxByte? || act.UartError? || act.TxShift? || act.TxComplete?
    ensures TelemetrySound(g) ==> TelemetrySound(Interrupt(g, act))
  {
    hide Transparent, ShiftByte;
  }

  lemma BootTelemetrySound(armed: bool)
    ensures TelemetrySound(Boot(armed))
  {}

  /**
   * Every UDP datagram is, byte for byte, a valid TELEMETRY frame received from RS-422; datagrams keep the order of
   * the frames and repeat none; re-encoding never fails; and what was queued is sent, dropped on sending, or one of
   * at most four still waiting.
   */
  lemma DatagramsAreReceivedFrames(armed: bool, acts: seq<Act>)
    ensures var t := Run(Boot(armed), acts).telemetry;
            && (forall i :: 0 <= i < |t.datagrams| ==>
                  t.datagrams[i].tag < |t.received| && t.datagrams[i].item == t.received[t.datagrams[i].tag])
            && (forall i, j :: 0 <= i < j < |t.datagrams| ==> t.datagrams[i].tag < t.datagrams[j].tag)
            && t.encodeFailures == 0 && t.enqueued - t.dequeued == |t.queue| <= 4
  {
    TelemetryAlwaysSound(armed, acts);
    hide Run;
    var t := Run(Boot(armed), acts).telemetry;
    var all := Tags(t.datagrams) + Tags(t.queue);
    forall i | 0 <= i < |t.datagrams|
      ensures IsCopy(t, t.datagrams[i])
    {}
    forall i, j | 0 <= i < j < |t.datagrams|
      ensures t.datagrams[i].tag < t.datagrams[j].tag
    {
      assert all[i] < all[j];
    }
  }
}
