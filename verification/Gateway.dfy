/**
 * The gateway's two communicating tasks and the UART interrupts as one step system.
 * A step is one statement (or a few that touch nothing shared) of one of them. Priorities are strict: the
 * Ethernet task moves only while the RS-422 task is blocked with no flag to wake it; interrupts come anywhere.
 */
module Gateway {
  import opened Bits
  import opened Protocol
  import opened StreamParsing
  import opened GatewayParts

  const RX_CAPACITY: nat := 512
  const COMMAND_DEPTH: nat := 8
  const TELEMETRY_DRAIN_LIMIT: nat := 2
  const BRINGUP_TESTS: nat := 100

  /** The RS-422 task's thread flags; each stays set until a wait takes it. */
  datatype Flags = Flags(rx: bool, txDone: bool, commandReady: bool, contextReset: bool)

  const NoFlags: Flags := Flags(false, false, false, false)

  /** On whose behalf a packet is transmitted: the n-th bring-up PING, or a command from TCP. */
  datatype Origin = BringUp(n: nat) | Command

  /** What follows once the receive ring has been drained. */
  datatype Next = ToGetCommand | ToPoll(p: Packet, o: Origin) | ToSent(o: Origin) | ToPongCheck(n: nat)

  /** Where the RS-422 task stands. */
  datatype Rs =
    | Drain(next: Next)
    | GetCommand
    | TestBusy(p: Packet, o: Origin)
    | Fill(p: Packet, o: Origin)
    | ClearDone(p: Packet, o: Origin)
    | Transmit(p: Packet, o: Origin)
    | WaitTop(p: Packet, o: Origin)
    | Poll(p: Packet, o: Origin)
    | Recheck(p: Packet, o: Origin)
    | TxBlocked(p: Packet, o: Origin)
    | TxFailed(p: Packet, o: Origin)
    | PongTop(n: nat)
    | PongCheck(n: nat)
    | PongBlocked(n: nat)
    | MainBlocked

  /** Where the Ethernet task stands, as far as it touches what the RS-422 task sees. */
  datatype Eth =
    | EthElsewhere
    | SetContextReset
    | Discard(done: nat, activate: bool)
    | Activate
    | SetCommandReady
    | Responding(done: nat)
    | SendingTelemetry(done: nat)

  datatype G = G(
    rs: Rs, eth: Eth, flags: Flags, rx: seq<u8>, parser: Parser, commands: seq<Packet>,
    tx: Tx, session: Session, telemetry: Telemetry)

  datatype Hal = HalOk | HalBusy | HalError

  /**
   * What the environment decides within an RS-422 step. In the bring-up's wait for a PONG, `timeUp` is that the wait
   * is over: its time is up, or the PONG was among the bytes drained.
   */
  datatype Choice = Choice(hal: Hal, timeUp: bool, osError: bool)

  /** What the Ethernet task turns to next. */
  datatype EthWork =
    | Invalidate
    | BeginSession
    | Receive(p: Packet)
    | DrainResponses
    | DrainTelemetry
    | DiscardStale
    | Continue(ok: bool)

  datatype Act =
    | RxByte(b: u8)
    | UartError
    | TxShift
    | TxComplete
    | RsStep(c: Choice)
    | EthStep(work: EthWork)

  function BringUpPing(n: nat): Packet {
    Packet(VERSION, MSG_PING, (n + 1) % 0x1_0000, [])
  }

  // ----- Interrupts -----

  function Interrupt(g: G, act: Act): G
    requires act.RxByte? || act.UartError? || act.TxShift? || act.TxComplete?
  {
    match act
    case RxByte(b) =>
      g.(rx := if |g.rx| < RX_CAPACITY then g.rx + [b] else g.rx, flags := g.flags.(rx := true))
    case UartError => g.(flags := g.flags.(rx := true))
    case TxShift => g.(tx := ShiftByte(g.tx))
    case TxComplete =>
      if LastByteGone(g.tx) then g.(tx := g.tx.(uart := UartIdle), flags := g.flags.(txDone := true)) else g
  }

  // ----- The RS-422 task -----

  /** A wait returned the flags: it cleared them, and the two handlers run. */
  function TakeFlags(g: G): G {
    g.(flags := NoFlags,
       session := if g.flags.contextReset then DropPending(g.session) else g.session,
       tx := if g.flags.txDone then NoticeDone(g.tx) else g.tx)
  }

  function HandleFrame(g: G, p: Packet, raw: seq<u8>): G {
    g.(telemetry := OfferTelemetry(g.telemetry, p, raw), session := OfferPong(g.session, p))
  }

  /** One turn of the drain loop, or its end. */
  function DrainStep(g: G, next: Next): G {
    if g.rx == [] then g.(rs := Resume(next))
    else
      var fed := FeedByte(g.parser, g.rx[0]);
      var h := g.(rx := g.rx[1..], parser := fed.0);
      match fed.1
      case FrameEvent(p) => HandleFrame(h, p, g.parser.pending + [g.rx[0]])
      case _ => h
  }

  function Resume(next: Next): Rs {
    match next
    case ToGetCommand => GetCommand
    case ToPoll(p, o) => Poll(p, o)
    case ToSent(o) => AfterSent(o)
    case ToPongCheck(n) => PongCheck(n)
  }

  /** The wait for completion returned success. */
  function AfterSent(o: Origin): Rs {
    match o
    case BringUp(n) => PongTop(n)
    case Command => Drain(ToGetCommand)
  }

  /** The transmission, or the bring-up test around it, is over. */
  function Return(g: G, o: Origin): G {
    match o
    case Command => g.(rs := Drain(ToGetCommand))
    case BringUp(n) =>
      if n + 1 < BRINGUP_TESTS then g.(rs := TestBusy(BringUpPing(n + 1), BringUp(n + 1)))
      else g.(rs := Drain(ToGetCommand), telemetry := g.telemetry.(forwarding := true))
  }

  function TransmitStep(g: G, p: Packet, o: Origin, hal: Hal): G {
    if hal == HalOk && g.tx.uart == UartIdle then
      g.(rs := WaitTop(p, o), tx := StartSending(g.tx, p),
         session := if o == Command then NoteForwarded(g.session, p) else g.session)
    else
      Return(g.(session := if o == Command && p.msgId == MSG_PING then DropPending(g.session) else g.session), o)
  }

  predicate Blocked(rs: Rs) {
    rs.TxBlocked? || rs.PongBlocked? || rs.MainBlocked?
  }

  function RunRs(g: G, c: Choice): G {
    match g.rs
    case Drain(next) => DrainStep(g, next)
    case GetCommand =>
      if g.commands == [] then g.(rs := MainBlocked)
      else g.(commands := g.commands[1..], rs := TestBusy(g.commands[0], Command))
    case TestBusy(p, o) => if g.tx.busy then Return(g, o) else g.(rs := Fill(p, o))
    case Fill(p, o) =>
      if !Sendable(p) then Return(g, o) else g.(tx := FillBuffer(g.tx, p), rs := ClearDone(p, o))
    case ClearDone(p, o) =>
      if c.osError then Return(g, o) else g.(flags := g.flags.(txDone := false), rs := Transmit(p, o))
    case Transmit(p, o) => TransmitStep(g, p, o, c.hal)
    case WaitTop(p, o) => g.(rs := if g.tx.busy then Drain(ToPoll(p, o)) else AfterSent(o))
    case Poll(p, o) =>
      if c.osError then g.(rs := TxFailed(p, o)) else TakeFlags(g).(rs := Recheck(p, o))
    case Recheck(p, o) =>
      g.(rs := if !g.tx.busy then Drain(ToSent(o)) else if c.timeUp then TxFailed(p, o) else TxBlocked(p, o))
    case TxBlocked(p, o) =>
      if c.osError then g.(rs := TxFailed(p, o))
      else if g.flags != NoFlags then TakeFlags(g).(rs := WaitTop(p, o))
      else if c.timeUp then g.(rs := TxFailed(p, o))
      else g
    case TxFailed(p, o) =>
      Return(g.(session := if o == Command && p.msgId == MSG_PING then DropPending(g.session) else g.session), o)
    case PongTop(n) => if c.timeUp then Return(g, BringUp(n)) else g.(rs := Drain(ToPongCheck(n)))
    case PongCheck(n) => if c.timeUp then Return(g, BringUp(n)) else g.(rs := PongBlocked(n))
    case PongBlocked(n) =>
      if c.osError then Return(g, BringUp(n))
      else if g.flags != NoFlags then TakeFlags(g).(rs := PongTop(n))
      else if c.timeUp then Return(g, BringUp(n))
      else g
    case MainBlocked =>
      if c.osError then g.(rs := Drain(ToGetCommand))
      else if g.flags != NoFlags then TakeFlags(g).(rs := Drain(ToGetCommand))
      else g
  }

  // ----- The Ethernet task -----

  predicate EthMayRun(g: G) {
    Blocked(g.rs) && g.flags == NoFlags
  }

  function BeginWork(g: G, work: EthWork): G {
    match work
    case Invalidate => g.(session := g.session.(active := false), eth := SetContextReset)
    case BeginSession => if g.session.active then g else g.(eth := Discard(0, true))
    case Receive(p) =>
      if !g.session.active || !Sendable(p) || p.msgId != MSG_PING || |g.commands| >= COMMAND_DEPTH then g
      else g.(commands := g.commands + [p], eth := SetCommandReady)
    case DrainResponses => if g.session.active then g.(eth := Responding(0)) else g
    case DrainTelemetry => g.(eth := SendingTelemetry(0))
    case DiscardStale => g.(eth := Discard(0, false))
    case Continue(_) => g
  }

  function RunEth(g: G, work: EthWork): G {
    match g.eth
    case EthElsewhere => BeginWork(g, work)
    case SetContextReset => g.(flags := g.flags.(contextReset := true), eth := Discard(0, false))
    case Discard(done, activate) =>
      if done < RESPONSE_DEPTH && g.session.responses != [] then
        g.(session := DropResponse(g.session), eth := Discard(done + 1, activate))
      else g.(eth := if activate then Activate else EthElsewhere)
    case Activate =>
      g.(session := g.session.(active := true, number := g.session.number + 1), eth := EthElsewhere)
    case SetCommandReady => g.(flags := g.flags.(commandReady := true), eth := EthElsewhere)
    case Responding(done) =>
      if done < RESPONSE_DEPTH && g.session.responses != [] then
        g.(session := if work == Continue(true) then SendResponse(g.session) else DropResponse(g.session),
           eth := Responding(done + 1))
      else g.(eth := EthElsewhere)
    case SendingTelemetry(done) =>
      if done < TELEMETRY_DRAIN_LIMIT && g.telemetry.queue != [] then
        var accepted := work == Continue(true);
        g.(telemetry := ForwardTelemetry(g.telemetry, accepted),
           eth := if accepted then SendingTelemetry(done + 1) else EthElsewhere)
      else g.(eth := EthElsewhere)
  }

  /** One step; an act that cannot happen now changes nothing. */
  function Step(g: G, act: Act): G {
    match act
    case RsStep(c) => RunRs(g, c)
    case EthStep(work) => if EthMayRun(g) then RunEth(g, work) else g
    case _ => Interrupt(g, act)
  }

  function Run(g: G, acts: seq<Act>): G {
    if acts == [] then g else Step(Run(g, acts[..|acts| - 1]), acts[|acts| - 1])
  }

  /** After StartRS422Task's initialisation; reception could be armed, so the bring-up test runs first, or it could not. */
  function Boot(armed: bool): G {
    G(if armed then TestBusy(BringUpPing(0), BringUp(0)) else Drain(ToGetCommand),
      EthElsewhere, NoFlags, [], Fresh, [],
      TxInitial, SessionInitial, TelemetryInitial.(forwarding := !armed))
  }
}
