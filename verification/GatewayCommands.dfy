/** What the gateway transmits on RS-422: its bring-up PINGs, then the commands accepted from TCP, each in order and at most once. */
module GatewayCommands {
  import opened Bits
  import opened Protocol
  import opened StreamParsing
  import opened GatewayParts
  import opened Gateway
  import opened GatewayRuns
  import opened GatewayOrigins
  import opened GatewayForwarding

  // ----- The command queue -----

  /** A PING received from TCP in a session, with room for it. */
  predicate Accepts(g: G, act: Act) {
    && act.EthStep? && EthMayRun(g) && g.eth.EthElsewhere? && act.work.Receive?
    && g.session.active && Sendable(act.work.p) && act.work.p.msgId == 0x01 && |g.commands| < 8
  }

  /** The commands accepted from TCP. */
  function Accepted(armed: bool, acts: seq<Act>): seq<Packet> {
    if acts == [] then []
    else
      var g, act := Run(Boot(armed), acts[..|acts| - 1]), acts[|acts| - 1];
      Accepted(armed, acts[..|acts| - 1]) + if Accepts(g, act) then [act.work.p] else []
  }

  /** The command that the RS-422 task takes up with this step. */
  function TakenUp(g: G, act: Act): seq<Packet> {
    var h := Step(g, act);
    if g.rs.GetCommand? && h.rs.TestBusy? then [h.rs.p] else []
  }

  /** The commands it has taken up. */
  function Handed(armed: bool, acts: seq<Act>): seq<Packet> {
    if acts == [] then []
    else Handed(armed, acts[..|acts| - 1]) + TakenUp(Run(Boot(armed), acts[..|acts| - 1]), acts[|acts| - 1])
  }

  lemma RsTakesOldest(g: G, c: Choice)
    ensures var h := RunRs(g, c);
            if g.rs.GetCommand? && h.rs.TestBusy? then g.commands == [h.rs.p] + h.commands && h.rs.o == Command
            else h.commands == g.commands
  {
    hide FeedByte, Encoded, BringUpPing, OfferPong, OfferTelemetry, NoticeDone, DropPending, NoteForwarded;
    hide FillBuffer, StartSending, Sendable;
  }

  lemma EthQueues(g: G, work: EthWork)
    requires EthMayRun(g)
    ensures RunEth(g, work).commands == g.commands + if Accepts(g, EthStep(work)) then [work.p] else []
    ensures RunEth(g, work).rs == g.rs
  {
    assert g.commands + [] == g.commands;
    hide Encoded, Sendable, ForwardTelemetry;
  }

  lemma StepMovesQueue(g: G, act: Act)
    ensures TakenUp(g, act) + Step(g, act).commands == g.commands + if Accepts(g, act) then [act.work.p] else []
  {
    assert g.commands + [] == g.commands && [] + g.commands == g.commands;
    hide RunRs, RunEth, Sendable;
    match act
    case RsStep(c) => RsTakesOldest(g, c);
    case EthStep(work) =>
      if EthMayRun(g) {
        EthQueues(g, work);
        assert [] + RunEth(g, work).commands == RunEth(g, work).commands;
      }
    case _ =>
  }

  lemma Regroup(a: seq<Packet>, b: seq<Packet>, c: seq<Packet>, d: seq<Packet>, e: seq<Packet>)
    requires b + c == d + e
    ensures (a + b) + c == (a + d) + e
  {
    assert (a + b) + c == a + (b + c) && a + (d + e) == (a + d) + e;
  }

  /** In every run: the commands taken up, followed by those queued, are those accepted from TCP, in order. */
  lemma {:induction false} CommandsKeepTheirOrder(armed: bool, acts: seq<Act>)
    ensures Handed(armed, acts) + Run(Boot(armed), acts).commands == Accepted(armed, acts)
  {
    if acts == [] {
      assert Boot(armed).commands == [];
    } else {
      var front, last := acts[..|acts| - 1], acts[|acts| - 1];
      CommandsKeepTheirOrder(armed, front);
      var g := Run(Boot(armed), front);
      StepMovesQueue(g, last);
      hide Boot, Step, TakenUp, Accepts;
      var more := if Accepts(g, last) then [last.work.p] else [];
      Regroup(Handed(armed, front), TakenUp(g, last), Step(g, last).commands, g.commands, more);
    }
  }

  // ----- The transmissions -----

  /** On whose behalf a transmission was started: bring-up test n, or the k-th command accepted. */
  datatype Source = Test(n: nat) | Accepting(k: nat)

  /** The source of the transmission that this step starts, if it does. */
  function StartedNow(g: G, act: Act, handed: nat): seq<Source> {
    if |Step(g, act).tx.started| <= |g.tx.started| || !g.rs.Transmit? then []
    else
      match g.rs.o
      case BringUp(n) => [Test(n)]
      case Command => [Accepting(if handed > 0 then handed - 1 else 0)]
  }

  function Sources(armed: bool, acts: seq<Act>): seq<Source> {
    if acts == [] then []
    else
      var front := acts[..|acts| - 1];
      Sources(armed, front) + StartedNow(Run(Boot(armed), front), acts[|acts| - 1], |Handed(armed, front)|)
  }

  predicate Before(a: Source, b: Source) {
    match a
    case Test(n) => b.Accepting? || n < b.n
    case Accepting(k) => b.Accepting? && k < b.k
  }

  /** Bring-up test n sends a PING with SEQ n + 1; the others are the commands themselves. */
  predicate Sends(source: Source, p: Packet, handed: seq<Packet>) {
    match source
    case Test(n) => n < 100 && p == Packet(0x01, 0x01, n + 1, [])
    case Accepting(k) => k < |handed| && p == handed[k]
  }

  /** Before the transmission is tried. */
  predicate Untested(rs: Rs) {
    rs.TestBusy? || rs.Fill? || rs.ClearDone? || rs.Transmit?
  }

  function TestNumber(o: Origin): nat {
    match o
    case BringUp(n) => n
    case Command => 0
  }

  /** The bring-up test under way, if one is. */
  function TestOf(rs: Rs): nat {
    match rs
    case Drain(next) =>
      (match next case ToPoll(_, o) => TestNumber(o) case ToSent(o) => TestNumber(o) case ToPongCheck(n) => n case ToGetCommand => 0)
    case PongTop(n) => n
    case PongCheck(n) => n
    case PongBlocked(n) => n
    case GetCommand => 0
    case MainBlocked => 0
    case _ => TestNumber(rs.o)
  }

  /** What the RS-422 task is about to send, or has been trying to. */
  predicate Prepared(rs: Rs, handed: seq<Packet>) {
    && (InBringUp(rs) ==> handed == [] && TestOf(rs) < 100 && (Untested(rs) ==> rs.p == Packet(0x01, 0x01, TestOf(rs) + 1, [])))
    && (Untested(rs) && rs.o == Command ==> handed != [] && rs.p == handed[|handed| - 1])
  }

  /** The source comes before anything the task will start from here. */
  predicate Past(source: Source, rs: Rs, handed: nat) {
    match source
    case Test(n) => InBringUp(rs) ==> n < TestOf(rs) || (n == TestOf(rs) && !Untested(rs))
    case Accepting(k) => !InBringUp(rs) && (k + 1 < handed || (k < handed && !(Untested(rs) && rs.o == Command)))
  }

  predicate Orderly(rs: Rs, handed: seq<Packet>, sources: seq<Source>, started: seq<Packet>) {
    && |sources| == |started| && Prepared(rs, handed)
    && (forall i :: 0 <= i < |sources| ==> Sends(sources[i], started[i], handed))
    && (forall i :: 0 <= i < |sources| ==> Past(sources[i], rs, |handed|))
    && (forall i, j :: 0 <= i < j < |sources| ==> Before(sources[i], sources[j]))
  }

  /** How a step moves the task along: what it starts, which command it holds, which bring-up test it is at. */
  predicate Starts(g: G, h: G) {
    h.tx.started == g.tx.started
    || (g.rs.Transmit? && h.rs == WaitTop(g.rs.p, g.rs.o) && h.tx.started == g.tx.started + [g.rs.p])
  }

  predicate Holds(g: G, h: G, taken: seq<Packet>) {
    && (taken != [] ==> g.rs == GetCommand && h.rs.TestBusy? && taken == [h.rs.p] && h.rs.o == Command)
    && (Untested(h.rs) && h.rs.o == Command ==> taken != [] || (Untested(g.rs) && g.rs.o == Command && g.rs.p == h.rs.p))
  }

  predicate SameTest(g: G, h: G) {
    TestOf(h.rs) == TestOf(g.rs) && (Untested(h.rs) ==> Untested(g.rs) && h.rs.p == g.rs.p)
  }

  predicate NextTest(g: G, h: G) {
    TestOf(h.rs) == TestOf(g.rs) + 1 && TestOf(h.rs) < 100 && h.tx.started == g.tx.started
    && h.rs == TestBusy(BringUpPing(TestOf(h.rs)), BringUp(TestOf(h.rs)))
  }

  predicate Tests(g: G, h: G) {
    InBringUp(h.rs) ==> InBringUp(g.rs) && (SameTest(g, h) || NextTest(g, h))
  }

  /** Only the hundredth test can be followed by something else than another. */
  predicate EndsLast(g: G, h: G) {
    InBringUp(g.rs) && !InBringUp(h.rs) ==> TestOf(g.rs) >= 99
  }

  lemma RsStarts(g: G, c: Choice)
    ensures Starts(g, RunRs(g, c))
  {
    hide FeedByte, Encoded, BringUpPing, OfferPong, OfferTelemetry, DropPending, NoteForwarded, Sendable;
  }

  lemma RsHolds(g: G, c: Choice)
    ensures Holds(g, RunRs(g, c), TakenUp(g, RsStep(c)))
  {
    hide FeedByte, Encoded, BringUpPing, OfferPong, OfferTelemetry, DropPending, NoteForwarded, Sendable;
    hide NoticeDone, FillBuffer, StartSending;
  }

  lemma RsTests(g: G, c: Choice)
    ensures Tests(g, RunRs(g, c))
  {
    hide FeedByte, Encoded, BringUpPing, OfferPong, OfferTelemetry, DropPending, NoteForwarded, Sendable;
    hide NoticeDone, FillBuffer, StartSending;
  }

  lemma RsEndsLast(g: G, c: Choice)
    ensures EndsLast(g, RunRs(g, c))
  {
    hide FeedByte, Encoded, BringUpPing, OfferPong, OfferTelemetry, DropPending, NoteForwarded, Sendable;
    hide NoticeDone, FillBuffer, StartSending;
  }

  /** Every step, whoever takes it. */
  lemma StepMovesOn(g: G, act: Act)
    ensures var h := Step(g, act); Starts(g, h) && Holds(g, h, TakenUp(g, act)) && Tests(g, h) && EndsLast(g, h)
  {
    match act
    case RsStep(c) =>
      RsStarts(g, c);
      RsHolds(g, c);
      RsTests(g, c);
      RsEndsLast(g, c);
      hide RunRs, Starts, Holds, Tests, EndsLast;
    case EthStep(work) =>
      if EthMayRun(g) {
        EthSparesLine(g, work);
      }
      hide RunEth, TestOf, InBringUp;
    case _ => hide TestOf, InBringUp;
  }

  /** One more transmission, or none, and the order stays. */
  lemma StepStaysOrderly(g: G, act: Act, handed: seq<Packet>, sources: seq<Source>)
    requires Orderly(g.rs, handed, sources, g.tx.started)
    ensures var h := Step(g, act);
            Orderly(h.rs, handed + TakenUp(g, act), sources + StartedNow(g, act, |handed|), h.tx.started)
  {
    StepMovesOn(g, act);
    var h, taken := Step(g, act), TakenUp(g, act);
    var now := StartedNow(g, act, |handed|);
    hide Step, TakenUp, InBringUp, TestOf;
    if now != [] {
      OneMoreSource(g.rs, handed, sources, g.tx.started, now[0], g.rs.p);
    } else {
      assert sources + now == sources && h.tx.started == g.tx.started;
      MoveStaysOrderly(g, h, taken, handed, sources);
    }
  }

  lemma OneMoreSource(rs: Rs, handed: seq<Packet>, sources: seq<Source>, started: seq<Packet>, source: Source, p: Packet)
    requires Orderly(rs, handed, sources, started) && rs.Transmit? && p == rs.p
    requires source == match rs.o case BringUp(n) => Test(n) case Command => Accepting(if |handed| > 0 then |handed| - 1 else 0)
    ensures Orderly(WaitTop(rs.p, rs.o), handed + [], sources + [source], started + [p])
  {
    assert handed + [] == handed;
  }

  lemma MoveStaysOrderly(g: G, h: G, taken: seq<Packet>, handed: seq<Packet>, sources: seq<Source>)
    requires Orderly(g.rs, handed, sources, g.tx.started) && h.tx.started == g.tx.started
    requires Holds(g, h, taken) && Tests(g, h)
    ensures Orderly(h.rs, handed + taken, sources, h.tx.started)
  {
    hide InBringUp, TestOf;
  }

  lemma {:induction false} AlwaysOrderly(armed: bool, acts: seq<Act>)
    ensures var g := Run(Boot(armed), acts); Orderly(g.rs, Handed(armed, acts), Sources(armed, acts), g.tx.started)
  {
    if acts != [] {
      var front := acts[..|acts| - 1];
      AlwaysOrderly(armed, front);
      StepStaysOrderly(Run(Boot(armed), front), acts[|acts| - 1], Handed(armed, front), Sources(armed, front));
      hide Orderly, Step, TakenUp, StartedNow, Boot;
    }
  }

  /**
   * In every run, each frame started on RS-422 is that of a bring-up PING, whose SEQ is its number, or of a command
   * accepted from TCP; no two have the same source; bring-up PINGs come first and in the order of their numbers, and
   * commands in the order in which they were accepted.
   */
  lemma TransmissionsAreInOrder(armed: bool, acts: seq<Act>)
    ensures var started, from, accepted := Run(Boot(armed), acts).tx.started, Sources(armed, acts), Accepted(armed, acts);
            && |from| == |started|
            && (forall i :: 0 <= i < |started| ==> Sends(from[i], started[i], accepted))
            && (forall i, j :: 0 <= i < j < |started| ==> Before(from[i], from[j]))
  {
    AlwaysOrderly(armed, acts);
    CommandsKeepTheirOrder(armed, acts);
    var started, from, accepted := Run(Boot(armed), acts).tx.started, Sources(armed, acts), Accepted(armed, acts);
    var handed := Handed(armed, acts);
    hide Run, Sources, Accepted, Handed, Prepared, Past, InBringUp;
    assert handed <= accepted;
    forall i | 0 <= i < |started|
      ensures Sends(from[i], started[i], accepted)
    {
      assert Sends(from[i], started[i], handed);
    }
  }

  // ----- The bring-up is not cut short -----

  ghost predicate Begun(acts: seq<Act>, n: nat) {
    exists k :: 0 <= k <= |acts| && Run(Boot(true), acts[..k]).rs == TestBusy(BringUpPing(n), BringUp(n))
  }

  lemma BegunBefore(acts: seq<Act>, n: nat)
    requires acts != [] && Begun(acts[..|acts| - 1], n)
    ensures Begun(acts, n)
  {
    var front := acts[..|acts| - 1];
    var k :| 0 <= k <= |front| && Run(Boot(true), front[..k]).rs == TestBusy(BringUpPing(n), BringUp(n));
    assert front[..k] == acts[..k];
  }

  lemma BegunNow(acts: seq<Act>, n: nat)
    requires Run(Boot(true), acts).rs == TestBusy(BringUpPing(n), BringUp(n))
    ensures Begun(acts, n)
  {
    assert acts[..|acts|] == acts;
  }

  /** In every run: each test up to the one under way was begun, and all 100 of them once the bring-up has ended. */
  lemma {:induction false} EveryTestIsBegun(acts: seq<Act>, n: nat)
    ensures var rs := Run(Boot(true), acts).rs; n < 100 && (InBringUp(rs) ==> n <= TestOf(rs)) ==> Begun(acts, n)
  {
    if acts == [] {
      if n == 0 {
        BegunNow([], 0);
      }
    } else {
      var front := acts[..|acts| - 1];
      var g := Run(Boot(true), front);
      EveryTestIsBegun(front, n);
      StepMovesOn(g, acts[|acts| - 1]);
      if Begun(front, n) {
        BegunBefore(acts, n);
      }
      hide Begun, Step, InBringUp, TestOf, Starts, Holds, Boot, BringUpPing;
      var h := Run(Boot(true), acts);
      if InBringUp(h.rs) && n == TestOf(h.rs) && n > TestOf(g.rs) {
        BegunNow(acts, n);
      }
    }
  }
}
