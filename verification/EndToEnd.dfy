/** Gateway and remote node together: a PING from TCP comes back as the PONG of its own session. */
module EndToEnd {
  import opened Bits
  import opened Protocol
  import opened StreamParsing
  import opened GatewayParts
  import opened GatewayTasks
  import G = Gateway
  import Q = Quiescence
  import N = RemoteNodes
  import PR = ParserRuns
  import PS = ParserSpec
  import PT = ParserTheorems
  import W = GatewayWire

  predicate AtBoundary(p: Parser) {
    PR.Inv(p) && p.pending == []
  }

  // ----- A frame through the node -----

  lemma {:induction false} NodeTakesPart(n: N.Node, p: Packet, envs: seq<N.Env>, k: nat)
    requires AtBoundary(n.parser) && Sendable(p) && |envs| == |Encoded(p)| && k < |Encoded(p)|
    ensures var part := N.ProcessBytes(n, Encoded(p)[..k], envs[..k]);
            && part.1 == [] && PR.Inv(part.0.parser) && part.0.parser.pending == Encoded(p)[..k]
            && part.0 == n.(parser := part.0.parser)
  {
    var f := Encoded(p);
    hide Encoded, FeedByte, PR.Inv;
    if k > 0 {
      NodeTakesPart(n, p, envs, k - 1);
      PartOneMore(f, k - 1);
      assert envs[..k][..k - 1] == envs[..k - 1];
      var before := N.ProcessBytes(n, f[..k - 1], envs[..k - 1]).0;
      Q.FrameByte(before.parser, f[k - 1], p);
      PR.StepFromInv(before.parser, f[k - 1]);
    }
  }

  lemma PartOneMore(s: seq<u8>, k: nat)
    requires k < |s|
    ensures s[..k + 1] == s[..k] + [s[k]] && s[..k + 1][..k] == s[..k] && (k + 1 < |s| ==> s[..k + 1] != s)
    ensures s[..k + 1] <= s
  {}

  /** Whatever the node's state, an intact PING without payload makes it hand over that PING's PONG. */
  lemma NodeAnswersPing(n: N.Node, p: Packet, envs: seq<N.Env>)
    requires AtBoundary(n.parser) && Sendable(p) && p.msgId == MSG_PING && p.payload == []
    requires |envs| == |Encoded(p)|
    ensures N.ProcessBytes(n, Encoded(p), envs).1 == [Encoded(N.Pong(p.seqNo))]
  {
    var f := Encoded(p);
    var k := |f| - 1;
    NodeTakesPart(n, p, envs, k);
    PartOneMore(f, k);
    var before := N.ProcessBytes(n, f[..k], envs[..k]);
    hide Encoded, FeedByte, PR.Inv, N.RememberRequest;
    Q.FrameByte(before.0.parser, f[k], p);
    assert f[..k + 1] == f && |p.payload| == 0;
    assert N.ProcessByte(before.0, f[k], envs[k]).1 == [Encoded(N.Pong(p.seqNo))];
    assert [] + [Encoded(N.Pong(p.seqNo))] == [Encoded(N.Pong(p.seqNo))];
  }

  // ----- A frame through the gateway's receiver -----

  lemma {:induction false} ReceiverTakesPart(r: Receiver, p: Packet, k: nat)
    requires AtBoundary(r.parser) && Sendable(p) && k < |Encoded(p)|
    ensures var part := ReceiveAll(r, Encoded(p)[..k]);
            PR.Inv(part.parser) && part.parser.pending == Encoded(p)[..k] && part == r.(parser := part.parser)
  {
    var f := Encoded(p);
    hide Encoded, FeedByte, PR.Inv;
    if k > 0 {
      ReceiverTakesPart(r, p, k - 1);
      PartOneMore(f, k - 1);
      var before := ReceiveAll(r, f[..k - 1]);
      Q.FrameByte(before.parser, f[k - 1], p);
      PR.StepFromInv(before.parser, f[k - 1]);
    }
  }

  /** An intact frame of packet p, and nothing else, is offered to the telemetry queue and to the session. */
  lemma ReceiverTakesFrame(r: Receiver, p: Packet)
    requires AtBoundary(r.parser) && Sendable(p)
    ensures var all := ReceiveAll(r, Encoded(p));
            && all.session == OfferPong(r.session, p) && all.telemetry == OfferTelemetry(r.telemetry, p, Encoded(p))
            && all.parser.pending == []
  {
    var f := Encoded(p);
    var k := |f| - 1;
    ReceiverTakesPart(r, p, k);
    PartOneMore(f, k);
    var before := ReceiveAll(r, f[..k]);
    hide Encoded, FeedByte, PR.Inv, OfferPong, OfferTelemetry;
    Q.FrameByte(before.parser, f[k], p);
    assert f[..k + 1] == f;
  }

  // ----- Forwarding -----

  /** The RS-422 task starts on a PING command, with nothing in its way. */
  predicate ReadyToForward(g: G.G, p: Packet, c: G.Choice) {
    && g.rs == G.TestBusy(p, G.Command) && !g.tx.busy && g.tx.uart == UartIdle && c.hal == G.HalOk && !c.osError
    && g.session.active && Sendable(p) && p.msgId == MSG_PING && p.payload == []
  }

  // ----- Any run while the session stands -----

  /** The bytes the gateway's parser is fed along a run. */
  function Taken(g: G.G, acts: seq<G.Act>): seq<u8> {
    if acts == [] then []
    else
      var front := acts[..|acts| - 1];
      Taken(g, front) + W.Fed(G.Run(g, front), acts[|acts| - 1])
  }

  /** Same session, same PINGs, same PING pending or none; responses may have been given to TCP meanwhile. */
  predicate Kept(s: Session, t: Session) {
    t == s.(responses := t.responses, sent := t.sent)
  }

  /** Along the run, nothing but received frames touches the session, except that queued responses are given to TCP. */
  predicate Stands(g: G.G, acts: seq<G.Act>) {
    acts != [] ==>
      var front, last := acts[..|acts| - 1], acts[|acts| - 1];
      var h := G.Run(g, front);
      Stands(g, front) && (W.Fed(h, last) == [] ==> Kept(h.session, G.Step(h, last).session))
  }

  /** The frame answers the PING pending in the session. */
  predicate AnswersPending(s: Session, e: Event) {
    e.FrameEvent? && e.packet.msgId == MSG_PONG && e.packet.seqNo == s.pendingSeq
  }

  function Offered(s: Session, e: Event): Session {
    if e.FrameEvent? then OfferPong(s, e.packet) else s
  }

  /** A step that feeds a byte offers the event to the session; no other step moves the parser. */
  lemma StepFeeds(g: G.G, act: G.Act)
    ensures var h := G.Step(g, act);
            if W.Fed(g, act) == [] then h.parser == g.parser
            else h.parser == FeedByte(g.parser, g.rx[0]).0 && h.session == Offered(g.session, FeedByte(g.parser, g.rx[0]).1)
  {
    hide FeedByte, Encoded, OfferPong, OfferTelemetry, G.BringUpPing, NoticeDone, DropPending, NoteForwarded;
    hide ForwardTelemetry, SendResponse, DropResponse, ShiftByte, StartSending, FillBuffer;
  }

  lemma {:induction false} ParserFollowsTaken(g: G.G, acts: seq<G.Act>)
    ensures G.Run(g, acts).parser == PR.Run(g.parser, Taken(g, acts)).0
  {
    hide G.Step, FeedByte;
    if acts == [] {
      PR.RunEmpty(g.parser);
    } else {
      var front := acts[..|acts| - 1];
      ParserFollowsTaken(g, front);
      var h := G.Run(g, front);
      StepFeeds(h, acts[|acts| - 1]);
      if W.Fed(h, acts[|acts| - 1]) == [] {
        W.AppendNothing(Taken(g, front));
      } else {
        PR.RunOneMore(g.parser, Taken(g, front), h.rx[0]);
      }
      hide PR.Run;
    }
  }

  /** What the parser reported along the run. */
  function Heard(g: G.G, acts: seq<G.Act>): seq<Event> {
    PR.Run(g.parser, Taken(g, acts)).1
  }

  /** Step k of the run offers packet q, an answer, to the session as it was when the run began. */
  predicate OfferedAt(g: G.G, acts: seq<G.Act>, k: nat, q: Packet)
    requires k < |acts|
  {
    var before, after := G.Run(g, acts[..k]).session, G.Run(g, acts[..k + 1]).session;
    Kept(g.session, before) && Matches(before, q) && after == OfferPong(before, q)
  }

  /** The first answer heard ends the wait: it is offered at one step of the run, and no other is. */
  ghost predicate Answered(g: G.G, acts: seq<G.Act>) {
    && Kept(g.session.(pending := false), G.Run(g, acts).session)
    && exists k, q :: OfferedAt'(g, acts, k, q)
  }

  predicate OfferedAt'(g: G.G, acts: seq<G.Act>, k: nat, q: Packet) {
    k < |acts| && FrameEvent(q) in Heard(g, acts) && OfferedAt(g, acts, k, q)
  }

  ghost predicate AnswerHeard(g: G.G, acts: seq<G.Act>) {
    exists e :: e in Heard(g, acts) && AnswersPending(g.session, e)
  }

  lemma HeardOneMore(g: G.G, acts: seq<G.Act>, act: G.Act)
    ensures var h := G.Run(g, acts);
            Heard(g, acts + [act])
            == Heard(g, acts) + if W.Fed(h, act) == [] then [] else [FeedByte(h.parser, h.rx[0]).1]
  {
    assert (acts + [act])[..|acts|] == acts;
    ParserFollowsTaken(g, acts);
    var h := G.Run(g, acts);
    hide G.Run, G.Step, PR.Run, FeedByte;
    if W.Fed(h, act) == [] {
      W.AppendNothing(Taken(g, acts));
      assert Heard(g, acts) + [] == Heard(g, acts);
    } else {
      PR.RunOneMore(g.parser, Taken(g, acts), h.rx[0]);
    }
  }

  /** The session along one more step, from its being kept so far. */
  lemma StepWhileWaiting(s: Session, before: Session, e: Event)
    requires s.active && s.pending && Kept(s, before)
    ensures if AnswersPending(s, e) then Matches(before, e.packet) && Kept(s.(pending := false), Offered(before, e))
            else Offered(before, e) == before
  {}

  lemma StepOnceAnswered(s: Session, before: Session, e: Event)
    requires Kept(s.(pending := false), before)
    ensures Offered(before, e) == before
  {}

  lemma OfferedEarlier(g: G.G, acts: seq<G.Act>, act: G.Act, k: nat, q: Packet)
    requires OfferedAt'(g, acts, k, q)
    ensures OfferedAt'(g, acts + [act], k, q)
  {
    HeardOneMore(g, acts, act);
    assert (acts + [act])[..k] == acts[..k] && (acts + [act])[..k + 1] == acts[..k + 1];
    hide Heard, G.Run;
  }

  lemma OfferedLast(g: G.G, acts: seq<G.Act>, act: G.Act)
    requires var h := G.Run(g, acts);
             && W.Fed(h, act) != [] && g.session.active && g.session.pending && Kept(g.session, h.session)
             && AnswersPending(g.session, FeedByte(h.parser, h.rx[0]).1)
    ensures Answered(g, acts + [act]) && AnswerHeard(g, acts + [act])
  {
    var h := G.Run(g, acts);
    var all := acts + [act];
    var e := FeedByte(h.parser, h.rx[0]).1;
    HeardOneMore(g, acts, act);
    StepFeeds(h, act);
    StepWhileWaiting(g.session, h.session, e);
    assert all[..|acts|] == acts && all[..|acts| + 1] == all;
    RunLast(g, all);
    hide FeedByte, Heard, G.Run, G.Step, OfferPong;
    assert e in Heard(g, all);
    assert OfferedAt'(g, all, |acts|, e.packet);
  }

  /**
   * In every run along which the session stands, from any state with a PING pending: the wait ends exactly when an
   * answer is heard, and until then the session is kept.
   */
  lemma {:induction false} WaitEndsIffAnswerHeard(g: G.G, acts: seq<G.Act>)
    requires g.session.active && g.session.pending && Stands(g, acts)
    ensures if AnswerHeard(g, acts) then Answered(g, acts) else Kept(g.session, G.Run(g, acts).session)
  {
    if acts == [] {
      PR.RunEmpty(g.parser);
      assert Heard(g, []) == [];
    } else {
      var front, last := acts[..|acts| - 1], acts[|acts| - 1];
      WaitEndsIffAnswerHeard(g, front);
      assert acts == front + [last];
      hide G.Run, Heard, G.Step, Taken, AnswerHeard, Answered, Kept, W.Fed;
      if AnswerHeard(g, front) {
        StaysAnswered(g, front, last);
      } else {
        WaitsOrIsAnswered(g, front, last);
      }
    }
  }

  lemma WaitsOrIsAnswered(g: G.G, acts: seq<G.Act>, act: G.Act)
    requires g.session.active && g.session.pending && !AnswerHeard(g, acts) && Kept(g.session, G.Run(g, acts).session)
    requires var h := G.Run(g, acts); W.Fed(h, act) == [] ==> Kept(h.session, G.Step(h, act).session)
    ensures var all := acts + [act];
            if AnswerHeard(g, all) then Answered(g, all) else Kept(g.session, G.Run(g, all).session)
  {
    var h := G.Run(g, acts);
    var all := acts + [act];
    HeardOneMore(g, acts, act);
    StepFeeds(h, act);
    assert all[..|all| - 1] == acts;
    RunLast(g, all);
    hide G.Run, Heard, G.Step, FeedByte, Answered, Offered, AnswersPending, W.Fed;
    if W.Fed(h, act) != [] {
      var e := FeedByte(h.parser, h.rx[0]).1;
      StepWhileWaiting(g.session, h.session, e);
      if AnswersPending(g.session, e) {
        OfferedLast(g, acts, act);
      }
    }
  }

  lemma StaysAnswered(g: G.G, acts: seq<G.Act>, act: G.Act)
    requires AnswerHeard(g, acts) && Answered(g, acts)
    requires var h := G.Run(g, acts); W.Fed(h, act) == [] ==> Kept(h.session, G.Step(h, act).session)
    ensures AnswerHeard(g, acts + [act]) && Answered(g, acts + [act])
  {
    var h := G.Run(g, acts);
    var all := acts + [act];
    HeardOneMore(g, acts, act);
    StepFeeds(h, act);
    assert all[..|all| - 1] == acts;
    RunLast(g, all);
    hide G.Run, Heard, G.Step, FeedByte, OfferedAt', Offered, AnswersPending;
    if W.Fed(h, act) != [] {
      StepOnceAnswered(g.session, h.session, FeedByte(h.parser, h.rx[0]).1);
    }
    var k, q :| OfferedAt'(g, acts, k, q);
    OfferedEarlier(g, acts, act, k, q);
  }

  lemma RunLast(g: G.G, acts: seq<G.Act>)
    requires acts != []
    ensures G.Run(g, acts) == G.Step(G.Run(g, acts[..|acts| - 1]), acts[|acts| - 1])
  {}

  // ----- There and back -----

  /** Frames with gaps between them, as on the line: the PONG is among them, and no other packet answers that PING. */
  predicate CarriesPong(gaps: seq<seq<u8>>, packets: seq<Packet>, seqNo: u16) {
    && |gaps| == |packets| + 1 && (forall p :: p in packets ==> Sendable(p)) && (forall b :: b in gaps ==> PT.NoMagic(b))
    && N.Pong(seqNo) in packets
    && (forall q :: q in packets && q.msgId == MSG_PONG && q.seqNo == seqNo ==> q == N.Pong(seqNo))
  }

  lemma {:induction false} OutcomesHold(es: seq<Event>, e: Event)
    requires e.FrameEvent?
    ensures e in PS.Outcomes(es) <==> e in es
  {
    if es != [] {
      OutcomesHold(es[..|es| - 1], e);
      assert es == es[..|es| - 1] + [es[|es| - 1]];
    }
  }

  /** Exactly the packets on the line are heard. */
  lemma HeardPackets(g: G.G, acts: seq<G.Act>, gaps: seq<seq<u8>>, packets: seq<Packet>, seqNo: u16)
    requires AtBoundary(g.parser) && CarriesPong(gaps, packets, seqNo) && Taken(g, acts) == PT.Interleaved(gaps, packets)
    ensures forall q :: FrameEvent(q) in Heard(g, acts) <==> q in packets
  {
    var wire := Taken(g, acts);
    assert PT.Flatten([wire]) == wire by {
      OneChunk(wire);
    }
    PT.DeliveryThroughNoise(g.parser, gaps, packets, [wire]);
    PT.ChunkingIsInvisible(g.parser, [wire]);
    hide PT.Interleaved, PT.NoMagic, PR.Run, PT.RunChunks, Taken, PS.Outcomes, PT.Flatten;
    forall q
      ensures FrameEvent(q) in Heard(g, acts) <==> q in packets
    {
      OutcomesHold(Heard(g, acts), FrameEvent(q));
      if q in packets {
        var i :| 0 <= i < |packets| && packets[i] == q;
        assert PT.FrameEvents(packets)[i] == FrameEvent(q);
      }
    }
  }

  lemma OneChunk(wire: seq<u8>)
    ensures PT.Flatten([wire]) == wire
  {
    assert [wire][1..] == [] && wire + [] == wire;
  }

  /** Step k queues the item, or, the queue being full, drops it; either way it ends the wait for its PING. */
  predicate QueuedAt(g: G.G, acts: seq<G.Act>, k: nat, item: Tagged<Packet>) {
    && k < |acts| && OfferedAt(g, acts, k, item.item)
    && var before, after := G.Run(g, acts[..k]).session, G.Run(g, acts[..k + 1]).session;
       after.responses == if |before.responses| < 8 then before.responses + [item] else before.responses
  }

  ghost predicate Queued(g: G.G, acts: seq<G.Act>, item: Tagged<Packet>) {
    exists k :: QueuedAt(g, acts, k, item)
  }

  /**
   * A PING that the gateway forwards goes out as its frame; any node that receives this frame intact hands over exactly
   * its PONG; and along every run of the gateway from there, however bytes arrive and the task is interrupted, while
   * the session stands and the PONG's frame is among those on the line, between gaps and other frames: some step
   * queues this PONG as the answer to that PING, in that session, which then waits no more.
   */
  lemma PingComesBack(
      g: G.G, p: Packet, c: G.Choice, n: N.Node, envs: seq<N.Env>, acts: seq<G.Act>, gaps: seq<seq<u8>>, packets: seq<Packet>)
    requires ReadyToForward(g, p, c) && AtBoundary(n.parser) && |envs| == MIN_FRAME_SIZE
    requires CarriesPong(gaps, packets, p.seqNo)
    ensures var sent := G.Run(g, Turns(c, 4));
            && sent.tx.buffer == Encoded(p) && sent.tx.uart == Sending(|Encoded(p)|, 0)
            && N.ProcessBytes(n, Encoded(p), envs).1 == [Encoded(N.Pong(p.seqNo))]
    ensures var sent := G.Run(g, Turns(c, 4));
            AtBoundary(sent.parser) && Stands(sent, acts) && Taken(sent, acts) == PT.Interleaved(gaps, packets) ==>
              && Queued(sent, acts, Tagged(N.Pong(p.seqNo), |g.session.forwarded|))
              && var s := G.Run(sent, acts).session;
                 && s.active && !s.pending && s.number == g.session.number
                 && s.forwarded == g.session.forwarded + [Forwarded(g.session.number, p.seqNo)]
  {
    CommandIsForwarded(g, p, c);
    NodeAnswersPing(n, p, envs);
    var sent := G.Run(g, Turns(c, 4));
    var pong := N.Pong(p.seqNo);
    hide G.Run, Encoded, N.ProcessBytes, PR.Inv, Turns, Stands, Taken, Heard, PT.Interleaved, CarriesPong;
    if AtBoundary(sent.parser) && Stands(sent, acts) && Taken(sent, acts) == PT.Interleaved(gaps, packets) {
      PongIsHeard(sent, acts, gaps, packets, p.seqNo);
    }
  }

  lemma PongIsHeard(g: G.G, acts: seq<G.Act>, gaps: seq<seq<u8>>, packets: seq<Packet>, seqNo: u16)
    requires AtBoundary(g.parser) && CarriesPong(gaps, packets, seqNo) && Taken(g, acts) == PT.Interleaved(gaps, packets)
    requires g.session.active && g.session.pending && g.session.pendingSeq == seqNo && |g.session.forwarded| > 0 && Stands(g, acts)
    ensures Kept(g.session.(pending := false), G.Run(g, acts).session)
    ensures Queued(g, acts, Tagged(N.Pong(seqNo), |g.session.forwarded| - 1))
  {
    var pong := N.Pong(seqNo);
    HeardPackets(g, acts, gaps, packets, seqNo);
    WaitEndsIffAnswerHeard(g, acts);
    hide G.Run, PR.Inv, Stands, Taken, Heard, PT.Interleaved, PT.NoMagic, OfferedAt', QueuedAt, Encoded;
    assert FrameEvent(pong) in Heard(g, acts) && AnswersPending(g.session, FrameEvent(pong));
    var k, q :| OfferedAt'(g, acts, k, q);
    OfferedIsQueued(g, acts, k, q);
    hide QueuedAt, OfferedAt', OfferPong;
    assert q in packets && q == pong;
  }

  lemma OfferedIsQueued(g: G.G, acts: seq<G.Act>, k: nat, q: Packet)
    requires OfferedAt'(g, acts, k, q) && |g.session.forwarded| > 0
    ensures QueuedAt(g, acts, k, Tagged(q, |g.session.forwarded| - 1))
    ensures FrameEvent(q) in Heard(g, acts) && q.msgId == MSG_PONG && q.seqNo == g.session.pendingSeq
  {
    hide G.Run, Heard;
  }
}
