/** A run in which a PING received in one session is answered in the next. */
module GatewayCarryOver {
  import opened Bits
  import opened Protocol
  import opened StreamParsing
  import opened GatewayParts
  import opened Gateway
  import opened GatewayOrigins
  import GT = GatewayTasks
  import PR = ParserRuns
  import Q = Quiescence


  const TURN: Act := RsStep(Choice(HalOk, false, false))

  function Work(work: EthWork): Act { EthStep(work) }

  function Ping(n: u16): Packet { Packet(VERSION, MSG_PING, n, []) }

  lemma Extend(acts: seq<Act>, act: Act) returns (more: seq<Act>)
    ensures Run(Boot(false), more) == Step(Run(Boot(false), acts), act)
    ensures TrailOf(false, more) == Follow(Run(Boot(false), acts), act, TrailOf(false, acts))
  {
    more := acts + [act];
    assert more[..|more| - 1] == acts;
    hide Step, Follow, Boot;
  }

  /** What matters of a state along that run. */
  datatype Scene = Scene(rs: Rs, eth: Eth, flags: Flags, commands: seq<Packet>, active: bool, number: nat,
                         forwarded: nat, busy: bool, uart: Uart, trail: Trail)

  predicate Shows(acts: seq<Act>, c: Scene) {
    var g := Run(Boot(false), acts);
    && g.rs == c.rs && g.eth == c.eth && g.flags == c.flags && g.commands == c.commands && g.rx == []
    && g.session.active == c.active && g.session.number == c.number && |g.session.forwarded| == c.forwarded
    && g.session.responses == [] && g.tx.busy == c.busy && g.tx.uart == c.uart
    && (c.uart.Sending? ==> c.uart.length <= |g.tx.buffer|)
    && g.parser == Fresh && TrailOf(false, acts) == c.trail
  }

  const Asleep: Scene := Scene(MainBlocked, EthElsewhere, NoFlags, [], false, 0, 0, false, UartIdle, NoTrail)

  lemma FallsAsleep() returns (acts: seq<Act>)
    ensures Shows(acts, Asleep)
  {
    acts := Extend([], TURN);
    acts := Extend(acts, TURN);
  }

  /** A session begins while the RS-422 task waits. */
  lemma SessionBegins(before: seq<Act>, c: Scene) returns (acts: seq<Act>)
    requires Shows(before, c) && Blocked(c.rs) && c.flags == NoFlags && c.eth == EthElsewhere && !c.active
    ensures Shows(acts, c.(active := true, number := c.number + 1, trail := c.trail.(queued := CarryOver(c.trail.queued))))
  {
    hide Run, Boot, TrailOf;
    acts := Extend(before, Work(BeginSession));
    acts := Extend(acts, Work(Continue(true)));
    acts := Extend(acts, Work(Continue(true)));
  }

  /** A PING arrives from TCP and is queued. */
  lemma PingIsQueued(before: seq<Act>, c: Scene, n: u16) returns (acts: seq<Act>)
    requires Shows(before, c) && Blocked(c.rs) && c.flags == NoFlags && c.eth == EthElsewhere && c.active && c.commands == []
    ensures Shows(acts, c.(commands := [Ping(n)], flags := NoFlags.(commandReady := true),
                           trail := c.trail.(queued := c.trail.queued + [Received(Ping(n), c.number, false)])))
  {
    hide Run, Boot, TrailOf;
    acts := Extend(before, Work(Receive(Ping(n))));
    acts := Extend(acts, Work(Continue(true)));
  }

  /** The RS-422 task, about to look for a command, takes the only one queued and starts its transmission. */
  lemma PingGoesOut(before: seq<Act>, c: Scene, n: u16) returns (acts: seq<Act>)
    requires Shows(before, c) && c.rs == GetCommand && c.flags == NoFlags && c.commands == [Ping(n)] && c.active
    requires !c.busy && c.uart == UartIdle && |c.trail.queued| == 1
    ensures var from := c.trail.queued[0];
            Shows(acts, c.(rs := WaitTop(Ping(n), Command), commands := [], forwarded := c.forwarded + 1,
                           busy := true, uart := Sending(MIN_FRAME_SIZE, 0),
                           trail := Trail([], from, c.trail.forwarded + [from])))
    ensures var s := Run(Boot(false), acts).session;
            && s.pending && s.pendingSeq == n && |s.forwarded| == c.forwarded + 1 && s.forwarded[c.forwarded] == Forwarded(c.number, n)
            && TrailOf(false, acts).forwarded == c.trail.forwarded + [c.trail.queued[0]]
  {
    hide Run, Boot, TrailOf;
    acts := Extend(before, TURN);
    acts := Extend(acts, TURN);
    acts := Extend(acts, TURN);
    acts := Extend(acts, TURN);
    acts := Extend(acts, TURN);
  }

  lemma FallsAsleepSending(before: seq<Act>, c: Scene) returns (acts: seq<Act>)
    requires Shows(before, c) && c.rs.WaitTop? && c.flags == NoFlags && c.busy
    ensures Shows(acts, c.(rs := TxBlocked(c.rs.p, c.rs.o)))
  {
    hide Run, Boot, TrailOf;
    acts := Extend(before, TURN);
    acts := Extend(acts, TURN);
    acts := Extend(acts, TURN);
    acts := Extend(acts, TURN);
  }

  /** It wakes from its wait in a transmission that is not over, and waits again. */
  lemma WaitsOn(before: seq<Act>, c: Scene) returns (acts: seq<Act>)
    requires Shows(before, c) && c.rs.TxBlocked? && c.flags != NoFlags && !c.flags.txDone && c.busy
    ensures Shows(acts, c.(flags := NoFlags))
  {
    hide Run, Boot, TrailOf;
    acts := Extend(before, TURN);
    acts := FallsAsleepSending(acts, c.(rs := WaitTop(c.rs.p, c.rs.o), flags := NoFlags));
  }

  lemma WakesForCommand(before: seq<Act>, c: Scene) returns (acts: seq<Act>)
    requires Shows(before, c) && c.rs == MainBlocked && c.flags == NoFlags.(commandReady := true)
    ensures Shows(acts, c.(rs := GetCommand, flags := NoFlags))
  {
    hide Run, Boot, TrailOf;
    acts := Extend(before, TURN);
    acts := Extend(acts, TURN);
  }

  /** The session is invalidated; the RS-422 task drops its pending PING. */
  lemma SessionEnds(before: seq<Act>, c: Scene) returns (acts: seq<Act>)
    requires Shows(before, c) && c.rs.TxBlocked? && c.flags == NoFlags && c.eth == EthElsewhere && c.active && c.busy
    ensures Shows(acts, c.(active := false))
  {
    hide Run, Boot, TrailOf;
    acts := Extend(before, Work(Invalidate));
    acts := Extend(acts, Work(Continue(true)));
    acts := WaitsOn(acts, c.(active := false, eth := Discard(0, false), flags := NoFlags.(contextReset := true)));
    acts := Extend(acts, Work(Continue(true)));
  }

  /** The rest of the frame goes out and its completion is noticed. */
  lemma {:induction false} FrameEnds(before: seq<Act>, c: Scene) returns (acts: seq<Act>)
    requires Shows(before, c) && c.uart.Sending? && c.uart.sent <= c.uart.length && c.flags == NoFlags
    ensures Shows(acts, c.(uart := UartIdle, flags := NoFlags.(txDone := true)))
    decreases if c.uart.Sending? then c.uart.length - c.uart.sent else 0
  {
    hide Run, Boot, TrailOf;
    if c.uart.sent == c.uart.length {
      acts := Extend(before, TxComplete);
    } else {
      acts := Extend(before, TxShift);
      acts := FrameEnds(acts, c.(uart := Sending(c.uart.length, c.uart.sent + 1)));
    }
  }

  lemma LooksForCommand(before: seq<Act>, c: Scene) returns (acts: seq<Act>)
    requires Shows(before, c) && c.rs.TxBlocked? && c.rs.o == Command && c.busy && c.flags == NoFlags.(txDone := true)
    ensures Shows(acts, c.(rs := GetCommand, busy := false, flags := NoFlags))
  {
    hide Run, Boot, TrailOf;
    acts := Extend(before, TURN);
    acts := Extend(acts, TURN);
    acts := Extend(acts, TURN);
  }

  const First: Received := Received(Ping(1), 1, false)
  const Second: Received := Received(Ping(2), 1, false)
  const Late: Received := Received(Ping(2), 1, true)

  lemma OneReceived(r: Received)
    ensures var none: seq<Received> := []; none + [r] == [r]
    ensures CarryOver([Second]) == [Late] && CarryOver([]) == [] && [First] + [Late] == [First, Late]
  {}

  /** One PING is being sent and the next is queued, in the first session. */
  lemma SecondPingWaits() returns (acts: seq<Act>)
    ensures Shows(acts, Scene(TxBlocked(Ping(1), Command), EthElsewhere, NoFlags, [Ping(2)], true, 1, 1, true,
                              Sending(MIN_FRAME_SIZE, 0), Trail([Second], First, [First])))
  {
    hide Shows, Run, TrailOf, Boot;
    OneReceived(First);
    OneReceived(Second);
    var c := Asleep;
    acts := FallsAsleep();
    acts := SessionBegins(acts, c);
    c := c.(active := true, number := 1);
    acts := PingIsQueued(acts, c, 1);
    c := c.(commands := [Ping(1)], flags := NoFlags.(commandReady := true), trail := NoTrail.(queued := [First]));
    acts := WakesForCommand(acts, c);
    acts := PingGoesOut(acts, c.(rs := GetCommand, flags := NoFlags), 1);
    c := Scene(WaitTop(Ping(1), Command), EthElsewhere, NoFlags, [], true, 1, 1, true, Sending(MIN_FRAME_SIZE, 0),
               Trail([], First, [First]));
    acts := FallsAsleepSending(acts, c);
    c := c.(rs := TxBlocked(Ping(1), Command));
    acts := PingIsQueued(acts, c, 2);
    c := c.(commands := [Ping(2)], trail := Trail([Second], First, [First]));
    acts := WaitsOn(acts, c.(flags := NoFlags.(commandReady := true)));
  }

  /** That PING is forwarded in the second session, and pending in it. */
  lemma SecondPingGoesOutLate() returns (acts: seq<Act>)
    ensures Answering(acts, WaitTop(Ping(2), Command), EthElsewhere, NoFlags, [], [], true)
  {
    hide Shows, Run, TrailOf, Boot;
    OneReceived(Late);
    acts := SecondPingWaits();
    var c := Scene(TxBlocked(Ping(1), Command), EthElsewhere, NoFlags, [Ping(2)], true, 1, 1, true,
                   Sending(MIN_FRAME_SIZE, 0), Trail([Second], First, [First]));
    acts := SessionEnds(acts, c);
    acts := SessionBegins(acts, c.(active := false));
    c := c.(number := 2, trail := Trail([Late], First, [First]));
    acts := FrameEnds(acts, c);
    acts := LooksForCommand(acts, c.(uart := UartIdle, flags := NoFlags.(txDone := true)));
    c := c.(rs := GetCommand, busy := false, uart := UartIdle);
    acts := PingGoesOut(acts, c, 2);
    NowAnswering(acts, c.(rs := WaitTop(Ping(2), Command), commands := [], forwarded := 2, busy := true,
                          uart := Sending(MIN_FRAME_SIZE, 0), trail := Trail([], Late, [First, Late])));
  }

  // ----- The PONG comes back -----

  function PongTwo(): Packet { Packet(VERSION, MSG_PONG, 2, []) }

  /** The second session waits for PONG 2: `rx` is in the ring, `part` with the parser; or the PONG has been queued. */
  predicate Answering(acts: seq<Act>, rs: Rs, eth: Eth, flags: Flags, rx: seq<u8>, part: seq<u8>, waits: bool) {
    var g := Run(Boot(false), acts);
    && g.rs == rs && g.eth == eth && g.flags == flags && g.rx == rx && g.tx.busy
    && PR.Inv(g.parser) && g.parser.pending == part
    && g.session.active && g.session.number == 2 && |g.session.forwarded| == 2
    && g.session.pending == waits && (waits ==> g.session.pendingSeq == 2)
    && g.session.responses == (if waits then [] else [Tagged(PongTwo(), 1)])
    && TrailOf(false, acts).forwarded == [First, Late]
  }

  lemma NowAnswering(acts: seq<Act>, c: Scene)
    requires Shows(acts, c) && c.rs.WaitTop? && c.eth.EthElsewhere? && c.flags == NoFlags && c.busy && c.active
    requires c.number == 2 && c.forwarded == 2 && c.trail.forwarded == [First, Late]
    requires var s := Run(Boot(false), acts).session; s.pending && s.pendingSeq == 2
    ensures Answering(acts, c.rs, EthElsewhere, NoFlags, [], [], true)
  {
    hide Run, TrailOf, Boot;
  }

  lemma {:induction false} PongArrives(before: seq<Act>, rs: Rs, k: nat) returns (acts: seq<Act>)
    requires Answering(before, rs, EthElsewhere, NoFlags, [], [], true) && 0 < k <= |Encoded(PongTwo())|
    ensures Answering(acts, rs, EthElsewhere, NoFlags.(rx := true), Encoded(PongTwo())[..k], [], true)
  {
    var f := Encoded(PongTwo());
    hide Run, Boot, TrailOf, Encoded, PR.Inv;
    acts := before;
    if k > 1 {
      acts := PongArrives(before, rs, k - 1);
    }
    assert f[..k] == f[..k - 1] + [f[k - 1]] && f[..0] == [];
    acts := Extend(acts, RxByte(f[k - 1]));
  }

  lemma {:induction false} PongIsDrained(before: seq<Act>, next: Next, k: nat) returns (acts: seq<Act>)
    requires Answering(before, Drain(next), EthElsewhere, NoFlags.(rx := true), Encoded(PongTwo()), [], true)
    requires k <= |Encoded(PongTwo())|
    ensures var f := Encoded(PongTwo());
            Answering(acts, Drain(next), EthElsewhere, NoFlags.(rx := true), f[k..], if k < |f| then f[..k] else [], k < |f|)
  {
    var f := Encoded(PongTwo());
    Slices(f, k);
    if k == 0 {
      acts := before;
    } else {
      acts := PongIsDrained(before, next, k - 1);
      hide Answering, Encoded;
      acts := OneIsDrained(acts, next, k - 1);
    }
  }

  lemma Slices(f: seq<u8>, k: nat)
    requires k <= |f|
    ensures f[0..] == f && f[..0] == [] && f[..k] <= f && (k < |f| ==> f[..k] != f)
    ensures k < |f| ==> f[k..] != [] && f[k..][0] == f[k] && f[k..][1..] == f[k + 1..] && f[..k + 1] == f[..k] + [f[k]]
    ensures k == |f| ==> f[..k] == f
  {}

  lemma DrainForwardsNothing(g: G, next: Next, t: Trail)
    requires g.rs == Drain(next) && g.rx != []
    ensures Follow(g, TURN, t).forwarded == t.forwarded
  {
    GT.DrainTurn(g, next, TURN.c);
    hide Step, FeedByte, OfferTelemetry;
  }

  /** The session waits for the PONG to the second PING, or has just queued it. */
  predicate Awaits(s: Session, waits: bool) {
    && s.active && s.number == 2 && |s.forwarded| == 2
    && s.pending == waits && (waits ==> s.pendingSeq == 2)
    && s.responses == (if waits then [] else [Tagged(PongTwo(), 1)])
  }

  lemma PongByteIsReceived(r: GT.Receiver, k: nat)
    requires k < |Encoded(PongTwo())| && PR.Inv(r.parser) && Awaits(r.session, true)
    requires r.parser.pending == Encoded(PongTwo())[..k]
    ensures var f := Encoded(PongTwo());
            var q := GT.ReceiveByte(r, f[k]);
            && PR.Inv(q.parser) && q.parser.pending == (if k + 1 < |f| then f[..k + 1] else [])
            && Awaits(q.session, k + 1 < |f|)
  {
    var f := Encoded(PongTwo());
    Slices(f, k);
    Slices(f, k + 1);
    Q.FrameByte(r.parser, f[k], PongTwo());
    PR.StepFromInv(r.parser, f[k]);
    hide Encoded, PR.Inv, FeedByte, OfferTelemetry;
  }

  lemma OneIsDrained(before: seq<Act>, next: Next, k: nat) returns (acts: seq<Act>)
    requires k < |Encoded(PongTwo())|
    requires var f := Encoded(PongTwo());
             Answering(before, Drain(next), EthElsewhere, NoFlags.(rx := true), f[k..], f[..k], true)
    ensures var f := Encoded(PongTwo());
            Answering(acts, Drain(next), EthElsewhere, NoFlags.(rx := true), f[k + 1..],
                      if k + 1 < |f| then f[..k + 1] else [], k + 1 < |f|)
  {
    var g := Run(Boot(false), before);
    Slices(Encoded(PongTwo()), k);
    hide Run, Boot, TrailOf, Encoded, PR.Inv, FeedByte, OfferTelemetry;
    PongByteIsReceived(GT.Receiving(g), k);
    GT.DrainTurn(g, next, TURN.c);
    DrainForwardsNothing(g, next, TrailOf(false, before));
    acts := Extend(before, TURN);
    hide Step, Follow, GT.ReceiveByte;
  }

  /** Once drained, the RS-422 task waits on for its transmission. */
  lemma WaitsOnForLine(before: seq<Act>) returns (acts: seq<Act>)
    requires Answering(before, Drain(ToPoll(Ping(2), Command)), EthElsewhere, NoFlags.(rx := true), [], [], false)
    ensures Answering(acts, TxBlocked(Ping(2), Command), EthElsewhere, NoFlags, [], [], false)
  {
    hide Run, Boot, TrailOf, Encoded, PR.Inv, FeedByte;
    acts := Extend(before, TURN);
    acts := Extend(acts, TURN);
    acts := Extend(acts, TURN);
  }

  /** Then the Ethernet task gives the PONG to TCP. */
  lemma PongIsSent(before: seq<Act>) returns (acts: seq<Act>)
    requires Answering(before, TxBlocked(Ping(2), Command), EthElsewhere, NoFlags, [], [], false)
    ensures var s := Run(Boot(false), acts).session;
            && TrailOf(false, acts).forwarded == [First, Late]
            && s.sent != [] && s.sent[|s.sent| - 1] == Tagged(Response(2, PongTwo()), 1)
  {
    hide Run, Boot, TrailOf, Encoded, PR.Inv, FeedByte;
    acts := Extend(before, Work(DrainResponses));
    acts := Extend(acts, Work(Continue(true)));
  }

  /** It does happen: a response given to TCP in the second session answers a PING received in the first. */
  lemma PingMayOutliveItsSession()
    ensures exists acts: seq<Act> ::
              var s, t := Run(Boot(false), acts).session, TrailOf(false, acts);
              exists i :: 0 <= i < |s.sent| && s.sent[i].tag < |t.forwarded|
                          && t.forwarded[s.sent[i].tag].session < s.sent[i].item.session
  {
    hide Answering, Run, TrailOf, Boot, Encoded;
    var f := Encoded(PongTwo());
    var acts := SecondPingGoesOutLate();
    acts := PongArrives(acts, WaitTop(Ping(2), Command), |f|);
    assert f[..|f|] == f && f[|f|..] == [];
    acts := StartsToDrain(acts, f);
    acts := PongIsDrained(acts, ToPoll(Ping(2), Command), |f|);
    acts := WaitsOnForLine(acts);
    acts := PongIsSent(acts);
    var s := Run(Boot(false), acts).session;
    assert s.sent[|s.sent| - 1].item.session == 2;
  }

  lemma StartsToDrain(before: seq<Act>, rx: seq<u8>) returns (acts: seq<Act>)
    requires Answering(before, WaitTop(Ping(2), Command), EthElsewhere, NoFlags.(rx := true), rx, [], true)
    ensures Answering(acts, Drain(ToPoll(Ping(2), Command)), EthElsewhere, NoFlags.(rx := true), rx, [], true)
  {
    hide Run, Boot, TrailOf, PR.Inv;
    acts := Extend(before, TURN);
  }
}
