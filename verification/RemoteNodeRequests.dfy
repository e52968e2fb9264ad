/** What the remote node remembers of requests: duplicates and unknown messages over any byte stream. */
module RemoteNodeRequests {
  import opened Bits
  import opened Protocol
  import opened StreamParsing
  import opened ParserRuns
  import opened RemoteNodes
  import opened RemoteNodeTheorems

  /** The valid requests among the frames received, in order. */
  function Requests(es: seq<Event>): seq<Packet> {
    if es == [] then []
    else
      var e := es[|es| - 1];
      Requests(es[..|es| - 1]) + if e.FrameEvent? && IsRequest(e.packet) then [e.packet] else []
  }

  /** How often a request has the message and SEQ of the one directly before it. */
  function Repeats(ps: seq<Packet>): nat {
    if |ps| < 2 then 0
    else
      var p, q := ps[|ps| - 2], ps[|ps| - 1];
      Repeats(ps[..|ps| - 1]) + if p.msgId == q.msgId && p.seqNo == q.seqNo then 1 else 0
  }

  predicate IsUnknown(e: Event) {
    e.FrameEvent? && ErrorCode(e.packet) == UNKNOWN_MSG && e.packet.msgId != MSG_ERROR
  }

  function CountUnknown(es: seq<Event>): nat {
    if es == [] then 0 else CountUnknown(es[..|es| - 1]) + if IsUnknown(es[|es| - 1]) then 1 else 0
  }

  predicate Recalls(n: Node, es: seq<Event>) {
    var ps := Requests(es);
    && n.stats.duplicateSeqs == Mod32(Repeats(ps)) && n.stats.unknownMsgs == Mod32(CountUnknown(es))
    && (n.lastRequestValid <==> ps != [])
    && (ps != [] ==> n.lastRequestMsgId == ps[|ps| - 1].msgId && n.lastRequestSeq == ps[|ps| - 1].seqNo)
  }

  lemma RequestsOneMore(es: seq<Event>, e: Event)
    ensures Requests(es + [e]) == Requests(es) + if e.FrameEvent? && IsRequest(e.packet) then [e.packet] else []
    ensures CountUnknown(es + [e]) == CountUnknown(es) + if IsUnknown(e) then 1 else 0
  {
    assert (es + [e])[..|es|] == es;
  }

  lemma RepeatsOneMore(ps: seq<Packet>, p: Packet)
    ensures Repeats(ps + [p])
            == Repeats(ps) + if ps != [] && ps[|ps| - 1].msgId == p.msgId && ps[|ps| - 1].seqNo == p.seqNo then 1 else 0
  {
    assert (ps + [p])[..|ps|] == ps;
  }

  lemma SendRecallsNothing(n: Node, p: Packet, txOk: bool, es: seq<Event>)
    ensures Recalls(SendPacket(n, p, txOk).0, es) <==> Recalls(n, es)
  {
    hide Requests, Repeats, CountUnknown, Mod32, Encoded;
  }

  lemma RememberRecalls(n: Node, es: seq<Event>, p: Packet)
    requires Recalls(n, es) && IsRequest(p)
    ensures Recalls(RememberRequest(n, p), es + [FrameEvent(p)])
  {
    RequestsOneMore(es, FrameEvent(p));
    RepeatsOneMore(Requests(es), p);
    Mod32Inc(Repeats(Requests(es)));
    hide Requests, Repeats, CountUnknown, Mod32, Add32;
  }

  /** Frames that are no valid requests leave the memory of requests alone; unassigned ones are counted. */
  lemma OtherRecalls(n: Node, es: seq<Event>, p: Packet)
    requires Recalls(n, es) && !IsRequest(p)
    ensures Recalls(if IsUnknown(FrameEvent(p)) then n.(stats := n.stats.(unknownMsgs := Add32(n.stats.unknownMsgs, 1))) else n,
                    es + [FrameEvent(p)])
  {
    RequestsOneMore(es, FrameEvent(p));
    Mod32Inc(CountUnknown(es));
    assert Requests(es) + [] == Requests(es);
    hide Requests, Repeats, CountUnknown, Mod32, Add32;
  }

  lemma HandleRecalls(n: Node, es: seq<Event>, p: Packet, env: Env)
    requires Recalls(n, es)
    ensures Recalls(HandlePacket(n, p, env).0, es + [FrameEvent(p)])
  {
    var fs := es + [FrameEvent(p)];
    var m := n.(stats := NoteValidFrame(n.stats, p.seqNo));
    assert Recalls(m, es);
    if IsRequest(p) {
      RememberRecalls(m, es, p);
      var r := RememberRequest(m, p);
      SendRecallsNothing(r, Pong(p.seqNo), env.txOk, fs);
      SendRecallsNothing(r, StatusResponse(p.seqNo, env.now, r.stats), env.txOk, fs);
    } else {
      OtherRecalls(m, es, p);
      SendRecallsNothing(m, ErrorPacket(p.seqNo, ErrorCode(p), p.msgId), env.txOk, fs);
      SendRecallsNothing(m.(stats := m.stats.(unknownMsgs := Add32(m.stats.unknownMsgs, 1))),
                         ErrorPacket(p.seqNo, UNKNOWN_MSG, p.msgId), env.txOk, fs);
    }
    hide Recalls, SendPacket, RememberRequest, StatusPayload, NoteValidFrame;
  }

  lemma ByteRecalls(n: Node, es: seq<Event>, b: u8, env: Env)
    requires Recalls(n, es)
    ensures Recalls(ProcessByte(n, b, env).0, es + [FeedByte(n.parser, b).1])
  {
    var fed := FeedByte(n.parser, b);
    RequestsOneMore(es, fed.1);
    assert Requests(es) + [] == Requests(es);
    if fed.1.FrameEvent? {
      var m := n.(parser := fed.0);
      assert Recalls(m, es);
      HandleRecalls(m, es, fed.1.packet, env);
    }
    hide FeedByte, HandlePacket, Requests, Repeats, CountUnknown, Mod32;
  }

  /**
   * After any bytes: the duplicate counter is the number of requests that repeat the request directly before them,
   * and the unknown-message counter the number of frames with an unassigned MSG_ID, both modulo 2^32.
   */
  lemma {:induction false} DuplicatesAreCounted(start: u32, s: seq<u8>, envs: seq<Env>)
    requires |envs| == |s|
    ensures var stats := ProcessBytes(Booted(start), s, envs).0.stats;
            var es := Run(Fresh, s).1;
            stats.duplicateSeqs == Mod32(Repeats(Requests(es))) && stats.unknownMsgs == Mod32(CountUnknown(es))
    ensures Recalls(ProcessBytes(Booted(start), s, envs).0, Run(Fresh, s).1)
  {
    if s == [] {
      RunEmpty(Fresh);
    } else {
      var k := |s| - 1;
      var front, before := s[..k], envs[..k];
      DuplicatesAreCounted(start, front, before);
      NodeAnswersStream(start, front, before);
      var n := ProcessBytes(Booted(start), front, before).0;
      assert n.parser == Run(Fresh, front).0;
      ByteRecalls(n, Run(Fresh, front).1, s[k], envs[k]);
      RunOneMore(Fresh, front, s[k]);
      LastIsLast(s);
      hide Run, Recalls, ProcessByte, FeedByte, Tallied, Answers;
      assert ProcessBytes(Booted(start), s, envs).0 == ProcessByte(n, s[k], envs[k]).0;
      assert Recalls(ProcessBytes(Booted(start), s, envs).0, Run(Fresh, s).1);
    }
    RecallsCounts(ProcessBytes(Booted(start), s, envs).0, Run(Fresh, s).1);
  }

  lemma RecallsCounts(n: Node, es: seq<Event>)
    requires Recalls(n, es)
    ensures n.stats.duplicateSeqs == Mod32(Repeats(Requests(es))) && n.stats.unknownMsgs == Mod32(CountUnknown(es))
  {}
}
