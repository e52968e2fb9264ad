/** Two remote nodes wired back to back, without periodic traffic, fall silent. */
module Quiescence {
  import opened Bits
  import opened Protocol
  import opened StreamParsing
  import opened ParserRuns
  import opened ParserSpec
  import opened ParserTheorems
  import opened RemoteNodes
  import opened RemoteNodeTheorems

  // ----- A reply ranks below what it answers -----

  function Rank(p: Packet): nat {
    if IsRequest(p) then 2 else if p.msgId == MSG_ERROR then 0 else 1
  }

  const MAX_REPLY_PAYLOAD: nat := 20
  const ERROR_PAYLOAD: nat := 2

  /** What a node may hand over on receiving p: nothing, or one packet of lower rank and bounded size. */
  predicate IsReply(p: Packet, r: Packet) {
    && Sendable(r) && Rank(r) < Rank(p)
    && |r.payload| <= (if Rank(r) == 0 then ERROR_PAYLOAD else MAX_REPLY_PAYLOAD)
  }

  lemma HandleRepliesBelow(n: Node, p: Packet, env: Env)
    ensures var after := HandlePacket(n, p, env);
            && after.0.parser == n.parser
            && (after.1 == [] || exists r :: IsReply(p, r) && after.1 == [Encoded(r)])
  {
    var m := n.(stats := NoteValidFrame(n.stats, p.seqNo));
    var s := RememberRequest(m, p).stats;
    hide Encoded, NoteValidFrame, StatusPayload, Be32, Be16;
    if IsRequest(p) {
      assert IsReply(p, Pong(p.seqNo)) && IsReply(p, StatusResponse(p.seqNo, env.now, s));
    } else if p.msgId != MSG_ERROR {
      assert IsReply(p, ErrorPacket(p.seqNo, ErrorCode(p), p.msgId));
    }
    hide IsReply;
  }

  /** Each packet of the chain answers the one before. */
  predicate IsChain(chain: seq<Packet>) {
    forall i {:trigger chain[i]} :: 0 < i < |chain| ==> IsReply(chain[i - 1], chain[i])
  }

  lemma {:induction false} ChainsAreShort(chain: seq<Packet>)
    requires IsChain(chain) && chain != []
    ensures |chain| <= 1 + Rank(chain[0]) <= 3
  {
    if |chain| > 1 {
      assert IsReply(chain[0], chain[1]);
      var rest := chain[1..];
      assert IsChain(rest) by {
        forall i | 0 < i < |rest|
          ensures IsReply(rest[i - 1], rest[i])
        {
          assert IsReply(chain[i], chain[i + 1]);
        }
      }
      ChainsAreShort(rest);
    }
  }

  // ----- One byte of a frame in flight -----

  function Frames(ps: seq<Packet>): seq<u8>
    requires forall p :: p in ps ==> Sendable(p)
  {
    if ps == [] then [] else Encoded(ps[0]) + Frames(ps[1..])
  }

  lemma PartOfFrameIsOpen(p: Packet, s: seq<u8>)
    requires Sendable(p) && s <= Encoded(p) && |s| < |Encoded(p)|
    ensures IsOpen(s)
  {
    var f := Encoded(p);
    EncodedLayout(p);
    assert f[0] == f[..2][0] && f[1] == f[..2][1];
    hide Encoded;
    HuntedByHead(s);
    if |s| >= HEADER_SIZE {
      PrefixKeepsHeader(s, f);
    }
  }

  /** A byte that continues a frame is kept; the byte that completes it reports it. */
  lemma FrameByte(p: Parser, b: u8, packet: Packet)
    requires Inv(p) && Sendable(packet) && p.pending + [b] <= Encoded(packet)
    ensures var fed := FeedByte(p, b);
            if p.pending + [b] == Encoded(packet) then fed.1 == FrameEvent(packet) && fed.0.pending == []
            else fed.1 == NoEvent && fed.0.pending == p.pending + [b]
  {
    var s := p.pending + [b];
    StepReads(p, b);
    if s == Encoded(packet) {
      FrameIsRead(packet);
    } else {
      PartOfFrameIsOpen(packet, s);
      ReadOpen(s);
    }
    hide FeedByte, Read, Encoded, IsOpen, Inv;
  }

  lemma FrameIsRead(packet: Packet)
    requires Sendable(packet)
    ensures Read(Encoded(packet)) == Reading([FrameEvent(packet)], [])
  {
    NothingIsOpen();
    ReadFrame(packet, []);
    ReadOpen([]);
    assert Encoded(packet) + [] == Encoded(packet);
    hide Read, Encoded, IsOpen;
  }

  /** The parser's open candidate and the bytes still on the wire make up whole frames, of these packets. */
  predicate Carries(p: Parser, wire: seq<u8>, packets: seq<Packet>) {
    && Inv(p) && (forall q :: q in packets ==> Sendable(q))
    && p.pending + wire == Frames(packets)
    && (packets != [] ==> |p.pending| < |Encoded(packets[0])|)
  }

  /** Bytes that a packet and everything it can provoke may put on the wires. */
  function Cost(p: Packet): nat {
    MIN_FRAME_SIZE + |p.payload| + ReplyCost(Rank(p))
  }

  function ReplyCost(rank: nat): nat {
    if rank == 0 then 0
    else if rank == 1 then MIN_FRAME_SIZE + ERROR_PAYLOAD
    else MIN_FRAME_SIZE + MAX_REPLY_PAYLOAD + (MIN_FRAME_SIZE + ERROR_PAYLOAD)
  }

  function TotalCost(ps: seq<Packet>): nat {
    if ps == [] then 0 else Cost(ps[0]) + TotalCost(ps[1..])
  }

  lemma ReplyCostCovers(p: Packet, r: Packet)
    requires IsReply(p, r)
    ensures Cost(r) <= ReplyCost(Rank(p))
  {}

  lemma {:induction false} AppendFrame(ps: seq<Packet>, p: Packet)
    requires Sendable(p) && forall q :: q in ps ==> Sendable(q)
    ensures Frames(ps + [p]) == Frames(ps) + Encoded(p) && TotalCost(ps + [p]) == TotalCost(ps) + Cost(p)
  {
    hide Encoded, Cost;
    if ps == [] {
      assert ps + [p] == [p] && [p][1..] == [];
    } else {
      AppendFrame(ps[1..], p);
      assert (ps + [p])[1..] == ps[1..] + [p];
    }
  }

  /** Delivering a byte: the first packet is still coming in, or it has arrived and is handled. */
  lemma ReceiveByte(n: Node, wire: seq<u8>, packets: seq<Packet>, env: Env)
    requires Carries(n.parser, wire, packets) && wire != []
    ensures packets != []
    ensures var after := ProcessByte(n, wire[0], env);
            if |n.parser.pending| + 1 == |Encoded(packets[0])| then
              && after.0.parser.pending == [] && Carries(after.0.parser, wire[1..], packets[1..])
              && (after.1 == [] || exists r :: IsReply(packets[0], r) && after.1 == [Encoded(r)])
            else
              && |after.0.parser.pending| == |n.parser.pending| + 1 && Carries(after.0.parser, wire[1..], packets)
              && after.1 == []
  {
    assert packets != [] by {
      assert Frames([]) == [];
    }
    var p, b := n.parser, wire[0];
    var f, rest := Encoded(packets[0]), Frames(packets[1..]);
    assert packets[0] in packets;
    SplitPrefix(p.pending, wire, f, rest);
    FrameByte(p, b, packets[0]);
    StepFromInv(p, b);
    hide FeedByte, IsStep, Inv, Encoded, HandlePacket;
    if p.pending + [b] == f {
      HandleRepliesBelow(n.(parser := FeedByte(p, b).0), packets[0], env);
      FirstFrameSize(packets[1..]);
    }
  }

  lemma FirstFrameSize(ps: seq<Packet>)
    requires forall q :: q in ps ==> Sendable(q)
    ensures ps != [] ==> |Encoded(ps[0])| > 0
  {}

  lemma SplitPrefix(pending: seq<u8>, wire: seq<u8>, f: seq<u8>, rest: seq<u8>)
    requires pending + wire == f + rest && |pending| < |f| && wire != []
    ensures pending + [wire[0]] <= f
    ensures (pending + [wire[0]]) + wire[1..] == f + rest
    ensures pending + [wire[0]] == f ==> [] + wire[1..] == rest
  {
    var fed := pending + [wire[0]];
    assert (pending + wire)[..|fed|] == fed && (f + rest)[..|fed|] == f[..|fed|];
    assert fed == f ==> (pending + wire)[|f|..] == wire[1..] && (f + rest)[|f|..] == rest;
  }

  // ----- The pair -----

  datatype Pair = Pair(a: Node, b: Node, toA: seq<u8>, toB: seq<u8>)

  /** A byte reaches one of the nodes; what that node sends, if its transmitter works, joins the other wire. */
  datatype Delivery = ToA(env: Env) | ToB(env: Env)

  predicate Enabled(s: Pair, d: Delivery) {
    if d.ToA? then s.toA != [] else s.toB != []
  }

  function Emitted(frames: seq<seq<u8>>, txOk: bool): seq<u8> {
    if txOk && frames != [] then frames[0] else []
  }

  function Deliver(s: Pair, d: Delivery): Pair
    requires Enabled(s, d)
  {
    match d
    case ToA(env) =>
      var after := ProcessByte(s.a, s.toA[0], env);
      Pair(after.0, s.b, s.toA[1..], s.toB + Emitted(after.1, env.txOk))
    case ToB(env) =>
      var after := ProcessByte(s.b, s.toB[0], env);
      Pair(s.a, after.0, s.toA + Emitted(after.1, env.txOk), s.toB[1..])
  }

  predicate CarriesBoth(s: Pair, inA: seq<Packet>, inB: seq<Packet>) {
    Carries(s.a.parser, s.toA, inA) && Carries(s.b.parser, s.toB, inB)
  }

  /** An upper bound on the bytes still to be delivered. */
  function Potential(s: Pair, inA: seq<Packet>, inB: seq<Packet>): int {
    TotalCost(inA) + TotalCost(inB) - |s.a.parser.pending| - |s.b.parser.pending|
  }

  lemma AppendToWire(p: Parser, wire: seq<u8>, packets: seq<Packet>, r: Packet)
    requires Carries(p, wire, packets) && Sendable(r)
    ensures Carries(p, wire + Encoded(r), packets + [r]) && TotalCost(packets + [r]) == TotalCost(packets) + Cost(r)
  {
    AppendFrame(packets, r);
    assert p.pending + (wire + Encoded(r)) == p.pending + wire + Encoded(r);
    if packets == [] {
      assert Frames([]) == [] && p.pending == [];
    }
    hide Encoded, Inv;
  }

  /** One side's share of a delivery: the receiving node, its wire, and the packets then on the other wire. */
  lemma DeliverOneSide(n: Node, wire: seq<u8>, packets: seq<Packet>, other: Parser, otherWire: seq<u8>, otherPackets: seq<Packet>, env: Env)
    returns (packets': seq<Packet>, otherPackets': seq<Packet>)
    requires Carries(n.parser, wire, packets) && wire != [] && Carries(other, otherWire, otherPackets)
    ensures var after := ProcessByte(n, wire[0], env);
            && Carries(after.0.parser, wire[1..], packets')
            && Carries(other, otherWire + Emitted(after.1, env.txOk), otherPackets')
            && TotalCost(packets') + TotalCost(otherPackets') - |after.0.parser.pending|
               < TotalCost(packets) + TotalCost(otherPackets) - |n.parser.pending|
  {
    ReceiveByte(n, wire, packets, env);
    packets', otherPackets' := packets, otherPackets;
    var after := ProcessByte(n, wire[0], env);
    assert otherWire + [] == otherWire;
    assert packets[0] in packets;
    hide ProcessByte, Carries, Rank, ReplyCost, IsReply;
    if |n.parser.pending| + 1 == |Encoded(packets[0])| {
      packets' := packets[1..];
      hide Encoded;
      if after.1 != [] && env.txOk {
        var r :| IsReply(packets[0], r) && after.1 == [Encoded(r)];
        ReplyCostCovers(packets[0], r);
        ReplyIsSendable(packets[0], r);
        AppendToWire(other, otherWire, otherPackets, r);
        otherPackets' := otherPackets + [r];
      }
    }
  }

  lemma ReplyIsSendable(p: Packet, r: Packet)
    requires IsReply(p, r)
    ensures Sendable(r)
  {}

  lemma DeliveryLowersPotential(s: Pair, d: Delivery, inA: seq<Packet>, inB: seq<Packet>) returns (inA': seq<Packet>, inB': seq<Packet>)
    requires CarriesBoth(s, inA, inB) && Enabled(s, d)
    ensures CarriesBoth(Deliver(s, d), inA', inB') && Potential(Deliver(s, d), inA', inB') < Potential(s, inA, inB)
  {
    hide ProcessByte, Carries, TotalCost, Emitted;
    match d
    case ToA(env) => inA', inB' := DeliverOneSide(s.a, s.toA, inA, s.b.parser, s.toB, inB, env);
    case ToB(env) => inB', inA' := DeliverOneSide(s.b, s.toB, inB, s.a.parser, s.toA, inA, env);
  }

  /** A schedule that only ever delivers bytes that are there. */
  predicate IsSchedule(s: Pair, schedule: seq<Delivery>)
    decreases |schedule|
  {
    schedule == [] || (Enabled(s, schedule[0]) && IsSchedule(Deliver(s, schedule[0]), schedule[1..]))
  }

  function After(s: Pair, schedule: seq<Delivery>): Pair
    requires IsSchedule(s, schedule)
    decreases |schedule|
  {
    if schedule == [] then s else After(Deliver(s, schedule[0]), schedule[1..])
  }

  lemma {:induction false} PotentialBoundsRun(s: Pair, schedule: seq<Delivery>, inA: seq<Packet>, inB: seq<Packet>)
    returns (inA': seq<Packet>, inB': seq<Packet>)
    requires CarriesBoth(s, inA, inB) && IsSchedule(s, schedule)
    ensures CarriesBoth(After(s, schedule), inA', inB')
    ensures Potential(After(s, schedule), inA', inB') + |schedule| <= Potential(s, inA, inB)
    decreases |schedule|
  {
    inA', inB' := inA, inB;
    if schedule != [] {
      hide CarriesBoth, Potential, Deliver;
      var midA, midB := DeliveryLowersPotential(s, schedule[0], inA, inB);
      inA', inB' := PotentialBoundsRun(Deliver(s, schedule[0]), schedule[1..], midA, midB);
    }
  }

  lemma PotentialIsNotNegative(s: Pair, inA: seq<Packet>, inB: seq<Packet>)
    requires CarriesBoth(s, inA, inB)
    ensures Potential(s, inA, inB) >= 0
  {
    PendingIsPaidFor(s.a.parser, s.toA, inA);
    PendingIsPaidFor(s.b.parser, s.toB, inB);
  }

  lemma PendingIsPaidFor(p: Parser, wire: seq<u8>, packets: seq<Packet>)
    requires Carries(p, wire, packets)
    ensures |p.pending| <= TotalCost(packets)
  {
    if packets == [] {
      assert Frames(packets) == [];
    } else {
      assert packets[0] in packets;
    }
  }

  /**
   * Start with whole frames in flight and both parsers between frames. Under any interleaving of deliveries, with
   * any transmitter failures, at most TotalCost bytes are ever delivered; and when none is left to deliver, both
   * parsers are between frames again: the pair is silent for good.
   */
  lemma PairFallsSilent(s: Pair, inA: seq<Packet>, inB: seq<Packet>, schedule: seq<Delivery>)
    requires Inv(s.a.parser) && Inv(s.b.parser) && s.a.parser.phase.WaitMagic1? && s.b.parser.phase.WaitMagic1?
    requires (forall p :: p in inA ==> Sendable(p)) && (forall p :: p in inB ==> Sendable(p))
    requires s.toA == Frames(inA) && s.toB == Frames(inB) && IsSchedule(s, schedule)
    ensures |schedule| <= TotalCost(inA) + TotalCost(inB)
    ensures var t := After(s, schedule);
            t.toA == [] && t.toB == [] ==> t.a.parser.phase.WaitMagic1? && t.b.parser.phase.WaitMagic1?
  {
    assert CarriesBoth(s, inA, inB) by {
      StartsCarrying(s.a.parser, inA);
      StartsCarrying(s.b.parser, inB);
    }
    var outA, outB := PotentialBoundsRun(s, schedule, inA, inB);
    var t := After(s, schedule);
    hide After;
    PotentialIsNotNegative(t, outA, outB);
    if t.toA == [] && t.toB == [] {
      EmptyWireIsBoundary(t.a.parser, outA);
      EmptyWireIsBoundary(t.b.parser, outB);
    }
  }

  lemma StartsCarrying(p: Parser, packets: seq<Packet>)
    requires Inv(p) && p.phase.WaitMagic1? && forall q :: q in packets ==> Sendable(q)
    ensures Carries(p, Frames(packets), packets)
  {
    assert p.pending + Frames(packets) == Frames(packets);
    FirstFrameSize(packets);
  }

  lemma EmptyWireIsBoundary(p: Parser, packets: seq<Packet>)
    requires Carries(p, [], packets)
    ensures p.phase.WaitMagic1?
  {
    assert p.pending + [] == p.pending;
    assert packets == [] ==> Frames(packets) == [];
  }
}
