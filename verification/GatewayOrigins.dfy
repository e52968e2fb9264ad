/** In which session the PINGs behind the responses were received. */
module GatewayOrigins {
  import opened Bits
  import opened Protocol
  import opened StreamParsing
  import opened GatewayParts
  import opened Gateway
  import opened GatewayRuns

  /** A command received from TCP, in which session, and whether it was still queued when a later one began. */
  datatype Received = Received(packet: Packet, session: nat, carried: bool)

  /** History: where each queued command, the one last taken from the queue, and each forwarded PING come from. */
  datatype Trail = Trail(queued: seq<Received>, taken: Received, forwarded: seq<Received>)

  const NoTrail: Trail := Trail([], Received(BringUpPing(0), 0, false), [])

  function CarryOver(s: seq<Received>): (r: seq<Received>)
    ensures |r| == |s| && forall i :: 0 <= i < |s| ==> r[i] == s[i].(carried := true)
  {
    seq(|s|, i requires 0 <= i < |s| => s[i].(carried := true))
  }

  /** A session begins with this step. */
  predicate Activates(g: G, act: Act) {
    act.EthStep? && EthMayRun(g) && g.eth.Activate?
  }

  function Follow(g: G, act: Act, t: Trail): Trail {
    var h := Step(g, act);
    var u :=
      if Activates(g, act) then t.(queued := CarryOver(t.queued))
      else if |h.commands| > |g.commands| then t.(queued := t.queued + [Received(h.commands[|g.commands|], g.session.number, false)])
      else if |h.commands| < |g.commands| && t.queued != [] then t.(queued := t.queued[1..], taken := t.queued[0])
      else t;
    if |h.session.forwarded| > |g.session.forwarded| then u.(forwarded := u.forwarded + [u.taken]) else u
  }

  function TrailOf(armed: bool, acts: seq<Act>): Trail {
    if acts == [] then NoTrail
    else Follow(Run(Boot(armed), acts[..|acts| - 1]), acts[|acts| - 1], TrailOf(armed, acts[..|acts| - 1]))
  }

  /** A command taken from the queue whose transmission has not been tried. */
  predicate Untried(rs: Rs) {
    && (rs.TestBusy? || rs.Fill? || rs.ClearDone? || rs.Transmit?)
    && rs.o == Command
  }

  /** Received no later than in session n, and before it exactly if carried over. */
  predicate From(r: Received, n: nat) {
    r.session <= n && (r.session == n <==> !r.carried)
  }

  /** The trail is that of the packets queued, in hand and forwarded. */
  predicate Traced(t: Trail, rs: Rs, commands: seq<Packet>, s: Session) {
    && |t.forwarded| == |s.forwarded| && |t.queued| == |commands|
    && (Untried(rs) ==> From(t.taken, s.number) && t.taken.packet == rs.p)
    && (forall i :: 0 <= i < |t.queued| ==> From(t.queued[i], s.number) && t.queued[i].packet == commands[i])
    && (forall i :: 0 <= i < |t.forwarded| ==>
          && From(t.forwarded[i], s.forwarded[i].session)
          && t.forwarded[i].packet.msgId == MSG_PING && t.forwarded[i].packet.seqNo == s.forwarded[i].seqNo)
  }

  predicate NoneCarried(t: Trail) {
    && !t.taken.carried
    && (forall i :: 0 <= i < |t.queued| ==> !t.queued[i].carried)
    && (forall i :: 0 <= i < |t.forwarded| ==> !t.forwarded[i].carried)
  }

  /** No command was still queued whenever a session began. */
  predicate NothingCarriedOver(armed: bool, acts: seq<Act>) {
    acts != [] ==>
      var g := Run(Boot(armed), acts[..|acts| - 1]);
      && NothingCarriedOver(armed, acts[..|acts| - 1])
      && (Activates(g, acts[|acts| - 1]) ==> g.commands == [])
  }

  /** What one step may do to the queue, the session's number and the forwarded PINGs. */
  predicate MovesCommands(g: G, act: Act, h: G) {
    && (h.commands == g.commands
        || (act.EthStep? && EthMayRun(g) && |h.commands| == |g.commands| + 1 && h.commands[..|g.commands|] == g.commands)
        || (act.RsStep? && g.commands != [] && h.commands == g.commands[1..] && h.rs == TestBusy(g.commands[0], Command)))
    && (h.commands != g.commands ==> h.session == g.session)
    && h.session.number == g.session.number + (if Activates(g, act) then 1 else 0)
    && (h.session.forwarded == g.session.forwarded
        || (act.RsStep? && Untried(g.rs) && g.rs.p.msgId == MSG_PING
            && h.session.forwarded == g.session.forwarded + [Forwarded(g.session.number, g.rs.p.seqNo)]))
    && (Untried(h.rs) ==> (Untried(g.rs) && h.rs.p == g.rs.p && h.commands == g.commands) || |h.commands| < |g.commands|)
    && (EthMayRun(g) ==> !Untried(g.rs))
  }

  lemma RsMovesCommands(g: G, c: Choice)
    ensures MovesCommands(g, RsStep(c), RunRs(g, c))
  {
    hide FeedByte, Encoded, OfferTelemetry, BringUpPing, NoticeDone, StartSending, FillBuffer, Sendable;
    if !g.rs.Drain? {
      hide DrainStep, OfferPong;
    }
    if !g.rs.Transmit? {
      hide TransmitStep, NoteForwarded;
    }
  }

  lemma EthMovesCommands(g: G, work: EthWork)
    requires EthMayRun(g)
    ensures MovesCommands(g, EthStep(work), RunEth(g, work))
  {
    hide Encoded, ForwardTelemetry, Sendable;
  }

  lemma StepMovesCommands(g: G, act: Act)
    ensures MovesCommands(g, act, Step(g, act))
  {
    match act
    case RsStep(c) =>
      RsMovesCommands(g, c);
      hide RunRs, MovesCommands;
    case EthStep(work) =>
      if EthMayRun(g) {
        EthMovesCommands(g, work);
      }
      hide RunEth;
    case _ => hide ShiftByte;
  }

  lemma FollowKeeps(g: G, act: Act, t: Trail)
    ensures var h, u := Step(g, act), Follow(g, act, t);
            && (Traced(t, g.rs, g.commands, g.session) ==> Traced(u, h.rs, h.commands, h.session))
            && (Traced(t, g.rs, g.commands, g.session) && NoneCarried(t) && (Activates(g, act) ==> g.commands == [])
                ==> NoneCarried(u))
  {
    StepMovesCommands(g, act);
    hide Step;
  }

  lemma {:induction false} TrailHolds(armed: bool, acts: seq<Act>)
    ensures var g, t := Run(Boot(armed), acts), TrailOf(armed, acts);
            && Traced(t, g.rs, g.commands, g.session)
            && (NothingCarriedOver(armed, acts) ==> NoneCarried(t))
  {
    if acts != [] {
      var front := acts[..|acts| - 1];
      TrailHolds(armed, front);
      FollowKeeps(Run(Boot(armed), front), acts[|acts| - 1], TrailOf(armed, front));
      hide Follow, Step, Traced, NoneCarried, Boot;
    }
  }

  /**
   * In every run, the PING behind each response was received in the session of the response or an earlier one; in an
   * earlier one if and only if it was still queued when a later session began. No PING is, if the queue was empty
   * whenever a session began.
   */
  lemma ResponsesComeFromNoLaterSession(armed: bool, acts: seq<Act>)
    ensures var s, t := Run(Boot(armed), acts).session, TrailOf(armed, acts);
            forall i :: 0 <= i < |s.sent| ==>
              && s.sent[i].tag < |t.forwarded|
              && var r := t.forwarded[s.sent[i].tag];
                 && r.packet.msgId == MSG_PING && r.packet.seqNo == s.sent[i].item.packet.seqNo
                 && r.session <= s.sent[i].item.session
                 && (r.session < s.sent[i].item.session <==> r.carried)
                 && (NothingCarriedOver(armed, acts) ==> !r.carried)
  {
    TrailHolds(armed, acts);
    EveryPongAnswersItsOwnSession(armed, acts);
    hide Run, TrailOf, NothingCarriedOver;
    var s, t := Run(Boot(armed), acts).session, TrailOf(armed, acts);
    forall i | 0 <= i < |s.sent|
      ensures s.sent[i].tag < |t.forwarded| && From(t.forwarded[s.sent[i].tag], s.sent[i].item.session)
      ensures t.forwarded[s.sent[i].tag].packet.msgId == MSG_PING
      ensures t.forwarded[s.sent[i].tag].packet.seqNo == s.sent[i].item.packet.seqNo
    {}
  }
}
