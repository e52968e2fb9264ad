/** The node's port layer: interrupts at any point of the task's drain, and no byte or fault lost from the count. */
module RemoteNodePorts {
  import opened Bits
  import opened Protocol
  import opened StreamParsing
  import opened ParserRuns
  import opened RemoteNodes
  import opened RemoteNodeTheorems
  import opened RxRings

  /** Where the task stands in one pass of the process routine. */
  datatype Point =
    | Start
    | NotingOverflows(left: u32, uartLeft: u32)
    | NotingErrors(left: u32)
    | Popping
    | HaveByte(b: u8)
    | Periodic

  /** `processed` and `uartFaults` are history. */
  datatype Port = Port(
    rx: Use, overflowPending: u32, uartPending: u32, node: Node, at: Point,
    processed: seq<u8>, uartFaults: nat)

  datatype PortAct =
    | RxIsr(b: u8, rearmOk: bool)
    | ErrorIsr
    | TaskStep(env: Env, heartbeatOk: bool)

  function NoteFault(p: Port): Port {
    p.(uartPending := Add32(p.uartPending, 1), uartFaults := p.uartFaults + 1)
  }

  function RxInterrupt(p: Port, b: u8, rearmOk: bool): Port
    requires Sound(p.rx.ring)
  {
    var stored := PushIsr(p.rx.ring, b).1;
    var q := p.(rx := Step(p.rx, Push(b)),
                overflowPending := if stored then p.overflowPending else Add32(p.overflowPending, 1));
    if rearmOk then q else NoteFault(q)
  }

  function TaskMove(p: Port, env: Env, heartbeatOk: bool): Port
    requires Sound(p.rx.ring)
  {
    match p.at
    case Start =>
      // Interrupts are disabled here, so reading and clearing the two counts is one step.
      p.(at := NotingOverflows(p.overflowPending, p.uartPending), overflowPending := 0, uartPending := 0)
    case NotingOverflows(left, uartLeft) =>
      if left != 0 then p.(node := NoteRxOverflow(p.node), at := NotingOverflows(left - 1, uartLeft))
      else p.(at := NotingErrors(uartLeft))
    case NotingErrors(left) =>
      if left != 0 then p.(node := NoteUartError(p.node), at := NotingErrors(left - 1))
      else p.(at := Popping)
    case Popping =>
      if p.rx.pop.Idle? && p.rx.ring.head == p.rx.ring.tail then p.(at := Periodic)
      else p.(rx := Step(p.rx, PopStep), at := if p.rx.pop.Holding? then HaveByte(p.rx.pop.byte) else Popping)
    case HaveByte(b) =>
      p.(node := ProcessByte(p.node, b, env).0, at := Popping, processed := p.processed + [b])
    case Periodic =>
      p.(node := ProcessPeriodic(p.node, env.now, env.txOk, heartbeatOk).0, at := Start)
  }

  function PortStep(p: Port, act: PortAct): Port
    requires Sound(p.rx.ring)
  {
    match act
    case RxIsr(b, rearmOk) => RxInterrupt(p, b, rearmOk)
    case ErrorIsr => NoteFault(p)
    case TaskStep(env, heartbeatOk) => TaskMove(p, env, heartbeatOk)
  }

  function OverflowsInHand(at: Point): nat {
    if at.NotingOverflows? then at.left else 0
  }

  function FaultsInHand(at: Point): nat {
    if at.NotingOverflows? then at.uartLeft else if at.NotingErrors? then at.left else 0
  }

  function InHand(at: Point): seq<u8> {
    if at.HaveByte? then [at.b] else []
  }

  predicate SameMod32(a: int, b: int) {
    (a - b) % 0x1_0000_0000 == 0
  }

  /** Holds between any two steps of task and interrupts. */
  predicate PortConsistent(p: Port) {
    && Consistent(p.rx)
    && (p.at.Popping? || p.rx.pop.Idle?)
    && p.rx.popped == p.processed + InHand(p.at)
    && p.node.parser == Run(Fresh, p.processed).0
    && SameMod32(p.overflowPending + OverflowsInHand(p.at) + p.node.stats.rxOverflows, p.rx.dropped)
    && SameMod32(p.uartPending + FaultsInHand(p.at) + p.node.stats.uartErrors, p.uartFaults)
  }

  /** One more on both sides, whether or not the counter wraps. */
  lemma CountOne(x: u32, rest: int, b: int)
    ensures SameMod32(x + rest, b) ==> SameMod32(Add32(x, 1) + rest, b + 1)
  {
    if x == 0xFFFF_FFFF {
      assert Add32(x, 1) == x + 1 - 0x1_0000_0000;
    } else {
      assert Add32(x, 1) == x + 1;
    }
  }

  /** One moved from hand to a counter that may wrap. */
  lemma MoveOne(x: u32, rest: int, b: int)
    ensures SameMod32(x + rest, b) ==> SameMod32(Add32(x, 1) + (rest - 1), b)
  {
    CountOne(x, rest - 1, b - 1);
  }

  lemma RxKeepsConsistent(p: Port, b: u8, rearmOk: bool)
    ensures PortConsistent(p) ==> PortConsistent(RxInterrupt(p, b, rearmOk))
  {
    hide PortConsistent, NoteFault, PushIsr, Step, Add32, Sound;
    if PortConsistent(p) {
      ConsistentAccounts(p);
      PushedKeepsConsistent(p, b);
      FaultKeepsConsistent(RxInterrupt(p, b, true));
    }
  }

  lemma PushedKeepsConsistent(p: Port, b: u8)
    requires PortConsistent(p)
    ensures PortConsistent(RxInterrupt(p, b, true))
  {
    PushKeepsConsistent(p.rx, b);
    CountOne(p.overflowPending, OverflowsInHand(p.at) + p.node.stats.rxOverflows, p.rx.dropped);
    hide Run, Contents, Occupancy, IsFull, SameMod32, Add32, Consistent, Sound, PushIsr, InHand, OverflowsInHand;
  }

  lemma FaultKeepsConsistent(p: Port)
    ensures PortConsistent(p) ==> PortConsistent(NoteFault(p))
  {
    CountOne(p.uartPending, FaultsInHand(p.at) + p.node.stats.uartErrors, p.uartFaults);
    hide Run, Consistent, SameMod32, Add32, InHand, OverflowsInHand, FaultsInHand;
  }

  lemma NotingKeepsConsistent(p: Port, env: Env, heartbeatOk: bool)
    requires p.at.Start? || p.at.NotingOverflows? || p.at.NotingErrors?
    ensures PortConsistent(p) ==> PortConsistent(TaskMove(p, env, heartbeatOk))
  {
    MoveOne(p.node.stats.rxOverflows, p.overflowPending + OverflowsInHand(p.at), p.rx.dropped);
    MoveOne(p.node.stats.uartErrors, p.uartPending + FaultsInHand(p.at), p.uartFaults);
    hide Run, Consistent, Sound, SameMod32, Add32;
  }

  lemma PoppingKeepsConsistent(p: Port, env: Env, heartbeatOk: bool)
    requires p.at.Popping?
    ensures PortConsistent(p) ==> PortConsistent(TaskMove(p, env, heartbeatOk))
  {
    if PortConsistent(p) {
      StepRefinesFifo(p.rx, PopStep);
      hide Run, Contents, Occupancy, Sound, IsFull, SameMod32;
    }
  }

  /** Handling a byte or sending periodic traffic touches no receive-fault counter. */
  lemma ByteWorkSparesFaults(n: Node, b: u8, env: Env)
    ensures var m := ProcessByte(n, b, env).0;
            && m.parser == FeedByte(n.parser, b).0
            && m.stats.rxOverflows == n.stats.rxOverflows && m.stats.uartErrors == n.stats.uartErrors
  {
    var fed := FeedByte(n.parser, b);
    if fed.1.FrameEvent? {
      HandleSparesFaults(n.(parser := fed.0), fed.1.packet, env);
    }
    hide FeedByte, HandlePacket, Add32;
  }

  lemma HandleSparesFaults(n: Node, p: Packet, env: Env)
    ensures var m := HandlePacket(n, p, env).0;
            && m.parser == n.parser
            && m.stats.rxOverflows == n.stats.rxOverflows && m.stats.uartErrors == n.stats.uartErrors
  {
    HandleSendsOneOrNone(n, p, env);
    hide HandlePacket, Add32, Encoded;
  }

  lemma PeriodicSparesFaults(n: Node, env: Env, heartbeatOk: bool)
    ensures var m := ProcessPeriodic(n, env.now, env.txOk, heartbeatOk).0;
            && m.parser == n.parser
            && m.stats.rxOverflows == n.stats.rxOverflows && m.stats.uartErrors == n.stats.uartErrors
  {
    hide Encoded, Add32, Be32, Be16;
  }

  lemma ByteWorkKeepsConsistent(p: Port, env: Env, heartbeatOk: bool)
    requires Sound(p.rx.ring) && p.at.HaveByte?
    ensures PortConsistent(p) ==> PortConsistent(TaskMove(p, env, heartbeatOk))
  {
    hide Run, FeedByte, Consistent, SameMod32, ProcessByte, Sound;
    ByteWorkSparesFaults(p.node, p.at.b, env);
    RunOneMore(Fresh, p.processed, p.at.b);
    NoneInHand(p.processed + [p.at.b]);
  }

  lemma NoneInHand(s: seq<u8>)
    ensures s + [] == s
  {}

  lemma PeriodicWorkKeepsConsistent(p: Port, env: Env, heartbeatOk: bool)
    requires Sound(p.rx.ring) && p.at.Periodic?
    ensures PortConsistent(p) ==> PortConsistent(TaskMove(p, env, heartbeatOk))
  {
    hide Run, Consistent, SameMod32, ProcessPeriodic, Sound;
    PeriodicSparesFaults(p.node, env, heartbeatOk);
  }

  lemma PortStepKeepsConsistent(p: Port, act: PortAct)
    requires Sound(p.rx.ring)
    ensures PortConsistent(p) ==> PortConsistent(PortStep(p, act))
  {
    hide PortConsistent, TaskMove, RxInterrupt;
    match act
    case RxIsr(b, rearmOk) => RxKeepsConsistent(p, b, rearmOk);
    case ErrorIsr => FaultKeepsConsistent(p);
    case TaskStep(env, heartbeatOk) =>
      if p.at.Popping? {
        PoppingKeepsConsistent(p, env, heartbeatOk);
      } else if p.at.HaveByte? {
        ByteWorkKeepsConsistent(p, env, heartbeatOk);
      } else if p.at.Periodic? {
        PeriodicWorkKeepsConsistent(p, env, heartbeatOk);
      } else {
        NotingKeepsConsistent(p, env, heartbeatOk);
      }
  }

  function PortInit(ring: Ring, start: u32): Port {
    Port(Use(ring, Idle, 0, [], [], 0), 0, 0, Booted(start), Start, [], 0)
  }

  /** Some interleaving of task and interrupts leads from p to q. */
  ghost predicate Reaches(p: Port, acts: seq<PortAct>, q: Port)
    decreases |acts|
  {
    if acts == [] then q == p else Sound(p.rx.ring) && Reaches(PortStep(p, acts[0]), acts[1..], q)
  }

  lemma {:induction false} RunsStayConsistent(p: Port, acts: seq<PortAct>, q: Port)
    requires Reaches(p, acts, q)
    ensures PortConsistent(p) ==> PortConsistent(q)
    decreases |acts|
  {
    if acts != [] {
      hide PortConsistent, PortStep;
      PortStepKeepsConsistent(p, acts[0]);
      RunsStayConsistent(PortStep(p, acts[0]), acts[1..], q);
    }
  }

  /**
   * After any interleaving: every received byte was processed, is in the task's hand, waits in the ring or was
   * dropped; the drops and the UART faults are in the statistics, in the task's hand or pending (modulo 2^32);
   * and the node's parser is where the processed bytes, in order, put it.
   */
  lemma NothingIsLostUncounted(ring: Ring, start: u32, acts: seq<PortAct>, q: Port)
    requires ring.CompareWrapped? && IsEmptyRing(ring) && Reaches(PortInit(ring, start), acts, q)
    ensures Sound(q.rx.ring)
    ensures q.rx.attempts == |q.processed| + |InHand(q.at)| + Occupancy(q.rx.ring) + q.rx.dropped
    ensures q.processed <= q.rx.stored && q.node.parser == Run(Fresh, q.processed).0
    ensures q.rx.attempts == Receptions(acts)
    ensures SameMod32(q.overflowPending + OverflowsInHand(q.at) + q.node.stats.rxOverflows, q.rx.dropped)
    ensures SameMod32(q.uartPending + FaultsInHand(q.at) + q.node.stats.uartErrors, UartFaults(acts))
  {
    var p := PortInit(ring, start);
    assert p.rx.attempts == 0 && p.uartFaults == 0;
    HistoryIsTrue(p, acts, q);
    InitIsConsistent(ring, start);
    RunsStayConsistent(p, acts, q);
    hide Reaches, Receptions, UartFaults, PortInit, PortConsistent;
    ConsistentAccounts(q);
  }

  lemma ConsistentAccounts(q: Port)
    requires PortConsistent(q)
    ensures Sound(q.rx.ring)
    ensures q.rx.attempts == |q.processed| + |InHand(q.at)| + Occupancy(q.rx.ring) + q.rx.dropped
    ensures q.processed <= q.rx.stored && q.node.parser == Run(Fresh, q.processed).0
    ensures SameMod32(q.overflowPending + OverflowsInHand(q.at) + q.node.stats.rxOverflows, q.rx.dropped)
    ensures SameMod32(q.uartPending + FaultsInHand(q.at) + q.node.stats.uartErrors, q.uartFaults)
  {
    hide Run, SameMod32;
  }

  lemma InitIsConsistent(ring: Ring, start: u32)
    requires ring.CompareWrapped? && IsEmptyRing(ring)
    ensures PortConsistent(PortInit(ring, start))
  {
    RunEmpty(Fresh);
    assert Contents(ring) == [];
  }

  // ----- What is handed over meanwhile -----

  /** Receptions and UART faults (ErrorCallback, or a reception that could not be re-armed), counted from what happened. */
  function Receptions(acts: seq<PortAct>): nat {
    if acts == [] then 0 else (if acts[0].RxIsr? then 1 else 0) + Receptions(acts[1..])
  }

  function UartFaults(acts: seq<PortAct>): nat {
    if acts == [] then 0
    else (if acts[0].ErrorIsr? || (acts[0].RxIsr? && !acts[0].rearmOk) then 1 else 0) + UartFaults(acts[1..])
  }

  lemma {:induction false} HistoryIsTrue(p: Port, acts: seq<PortAct>, q: Port)
    requires Reaches(p, acts, q)
    ensures q.rx.attempts == p.rx.attempts + Receptions(acts)
    ensures q.uartFaults == p.uartFaults + UartFaults(acts)
    decreases |acts|
  {
    if acts != [] {
      StepHistory(p, acts[0]);
      HistoryIsTrue(PortStep(p, acts[0]), acts[1..], q);
      hide PortStep, Sound;
    }
  }

  lemma StepHistory(p: Port, act: PortAct)
    requires Sound(p.rx.ring)
    ensures var q := PortStep(p, act);
            && q.rx.attempts == p.rx.attempts + (if act.RxIsr? then 1 else 0)
            && q.uartFaults == p.uartFaults + if act.ErrorIsr? || (act.RxIsr? && !act.rearmOk) then 1 else 0
  {
    hide Sound, PushIsr, ProcessByte, ProcessPeriodic, NoteRxOverflow, NoteUartError, Add32;
  }

  /** The frames handed to the transmitter in answer to a byte. */
  function Replies(p: Port, act: PortAct): seq<seq<u8>> {
    if act.TaskStep? && p.at.HaveByte? then ProcessByte(p.node, p.at.b, act.env).1 else []
  }

  function Handed(p: Port, acts: seq<PortAct>): seq<seq<u8>>
    decreases |acts|
  {
    if acts == [] || !Sound(p.rx.ring) then [] else Replies(p, acts[0]) + Handed(PortStep(p, acts[0]), acts[1..])
  }

  /** One answer for each packet, in order. */
  predicate AnswersTo(frames: seq<seq<u8>>, packets: seq<Packet>) {
    |frames| == |packets| && forall i :: 0 <= i < |frames| ==> IsAnswer(frames[i], packets[i])
  }

  lemma PacketGetsItsAnswer(n: Node, p: Packet, env: Env)
    ensures var frames := HandlePacket(n, p, env).1;
            if p.msgId == MSG_ERROR then frames == [] else |frames| == 1 && IsAnswer(frames[0], p)
  {
    assert p.payload == [] <==> |p.payload| == 0;
    hide Encoded, DecodeResult, Decoded, RememberRequest, StatusPayload;
    if p.msgId == MSG_PING && p.payload == [] {
      RoundTrip(Pong(p.seqNo));
    } else if p.msgId == MSG_READ_STATUS && p.payload == [] {
      var m := RememberRequest(n.(stats := NoteValidFrame(n.stats, p.seqNo)), p);
      RoundTrip(StatusResponse(p.seqNo, env.now, m.stats));
    } else {
      RoundTrip(ErrorPacket(p.seqNo, BAD_LENGTH, p.msgId));
      RoundTrip(ErrorPacket(p.seqNo, UNSUPPORTED, p.msgId));
      RoundTrip(ErrorPacket(p.seqNo, UNKNOWN_MSG, p.msgId));
    }
  }

  lemma AnswerableOneMore(es: seq<Event>, e: Event)
    ensures Answerable(es + [e])
            == Answerable(es) + if e.FrameEvent? && e.packet.msgId != MSG_ERROR then [e.packet] else []
  {
    assert (es + [e])[..|es|] == es;
  }

  lemma AddAnswer(frames: seq<seq<u8>>, packets: seq<Packet>, frame: seq<u8>, packet: Packet)
    requires AnswersTo(frames, packets) && IsAnswer(frame, packet)
    ensures AnswersTo(frames + [frame], packets + [packet])
  {
    hide IsAnswer;
  }

  /** A byte's replies are the answer to the packet it completes, if it does. */
  lemma ByteGetsItsAnswer(n: Node, b: u8, env: Env, es: seq<Event>, frames: seq<seq<u8>>)
    requires AnswersTo(frames, Answerable(es))
    ensures AnswersTo(frames + ProcessByte(n, b, env).1, Answerable(es + [FeedByte(n.parser, b).1]))
  {
    var fed := FeedByte(n.parser, b);
    AnswerableOneMore(es, fed.1);
    assert frames + [] == frames && Answerable(es) + [] == Answerable(es);
    if fed.1.FrameEvent? {
      PacketGetsItsAnswer(n.(parser := fed.0), fed.1.packet, env);
      if fed.1.packet.msgId != MSG_ERROR {
        var r := ProcessByte(n, b, env).1;
        AddAnswer(frames, Answerable(es), r[0], fed.1.packet);
        assert r == [r[0]];
      }
    }
    hide FeedByte, HandlePacket, Answerable, AnswersTo;
  }

  lemma StepAnswersBytes(p: Port, act: PortAct, frames: seq<seq<u8>>)
    requires Sound(p.rx.ring)
    ensures PortConsistent(p) && AnswersTo(frames, Answerable(Run(Fresh, p.processed).1))
            ==> AnswersTo(frames + Replies(p, act), Answerable(Run(Fresh, PortStep(p, act).processed).1))
  {
    if PortConsistent(p) && AnswersTo(frames, Answerable(Run(Fresh, p.processed).1)) {
      if act.TaskStep? && p.at.HaveByte? {
        RunOneMore(Fresh, p.processed, p.at.b);
        ByteGetsItsAnswer(p.node, p.at.b, act.env, Run(Fresh, p.processed).1, frames);
        hide Run, FeedByte, ProcessByte, Answerable, AnswersTo, Consistent, SameMod32;
      } else {
        OtherStepsProcessNothing(p, act);
        assert frames + [] == frames;
        hide Run, Answerable, AnswersTo, PortConsistent, PortStep;
      }
    }
  }

  lemma OtherStepsProcessNothing(p: Port, act: PortAct)
    requires Sound(p.rx.ring) && !(act.TaskStep? && p.at.HaveByte?)
    ensures PortStep(p, act).processed == p.processed && Replies(p, act) == []
  {
    hide ProcessPeriodic, Step, PushIsr, Add32, NoteRxOverflow, NoteUartError, Sound;
  }

  /** After any interleaving, the frames handed over for bytes are the answers to the packets among the bytes processed, in order. */
  lemma {:induction false} BytesAreAnswered(p: Port, acts: seq<PortAct>, q: Port, frames: seq<seq<u8>>)
    requires Reaches(p, acts, q)
    ensures PortConsistent(p) && AnswersTo(frames, Answerable(Run(Fresh, p.processed).1))
            ==> AnswersTo(frames + Handed(p, acts), Answerable(Run(Fresh, q.processed).1))
    decreases |acts|
  {
    hide PortConsistent, PortStep, AnswersTo, Answerable, Run, Replies, Sound;
    if acts == [] {
      assert frames + [] == frames;
    } else {
      var next, r := PortStep(p, acts[0]), Replies(p, acts[0]);
      StepAnswersBytes(p, acts[0], frames);
      PortStepKeepsConsistent(p, acts[0]);
      BytesAreAnswered(next, acts[1..], q, frames + r);
      ThreeParts(frames, r, Handed(next, acts[1..]));
    }
  }

  lemma ThreeParts(a: seq<seq<u8>>, b: seq<seq<u8>>, c: seq<seq<u8>>)
    ensures a + b + c == a + (b + c)
  {}

  lemma PortAnswersBytes(ring: Ring, start: u32, acts: seq<PortAct>, q: Port)
    requires ring.CompareWrapped? && IsEmptyRing(ring) && Reaches(PortInit(ring, start), acts, q)
    ensures AnswersTo(Handed(PortInit(ring, start), acts), Answerable(Run(Fresh, q.processed).1))
  {
    InitIsConsistent(ring, start);
    RunEmpty(Fresh);
    BytesAreAnswered(PortInit(ring, start), acts, q, []);
    assert [] + Handed(PortInit(ring, start), acts) == Handed(PortInit(ring, start), acts);
    hide Run, Reaches, PortConsistent, Handed;
  }

  // ----- One uninterrupted pass, on the structures themselves -----

  function NoteOverflows(n: Node, k: nat): Node
    decreases k
  {
    if k == 0 then n else NoteOverflows(NoteRxOverflow(n), k - 1)
  }

  function NoteErrors(n: Node, k: nat): Node
    decreases k
  {
    if k == 0 then n else NoteErrors(NoteUartError(n), k - 1)
  }

  class RemoteNodePort {
    const node: RemoteNode
    const ring: UartRxRing
    var overflowPending: u32
    var uartErrorPending: u32

    ghost predicate Valid()
      reads this, node, node.parser, node.parser.frameBuffer, ring, ring.storage
    {
      node.Valid() && ring.Valid() && ring.storage != node.parser.frameBuffer
    }

    constructor (now: u32)
      ensures Valid() && node.View() == Booted(now) && Contents(ring.View()) == []
      ensures overflowPending == uartErrorPending == 0
    {
      node := new RemoteNode(now);
      ring := new UartRxRing();
      overflowPending, uartErrorPending := 0, 0;
    }

    method RxComplete(byte: u8, rearmOk: bool)
      requires Valid()
      modifies this, ring, ring.storage
      ensures Valid() && node.View() == old(node.View())
      ensures var room := |old(Contents(ring.View()))| < SLOTS - 1;
              && Contents(ring.View()) == (if room then old(Contents(ring.View())) + [byte] else old(Contents(ring.View())))
              && overflowPending == (if room then old(overflowPending) else Add32(old(overflowPending), 1))
      ensures uartErrorPending == if rearmOk then old(uartErrorPending) else Add32(old(uartErrorPending), 1)
    {
      var stored := ring.PushFromIsr(byte);
      if !stored {
        overflowPending := Add32(overflowPending, 1);
      }
      if !rearmOk {
        uartErrorPending := Add32(uartErrorPending, 1);
      }
    }

    /** `envs` is what the platform answers for each byte drained. */
    method Process(envs: seq<Env>, now: u32, telemetryOk: bool, heartbeatOk: bool) returns (handed: seq<seq<u8>>)
      requires Valid() && |envs| == |Contents(ring.View())|
      modifies this, node, node.parser, node.parser.frameBuffer, ring
      ensures Valid() && overflowPending == uartErrorPending == 0 && Contents(ring.View()) == []
      ensures var noted := NoteErrors(NoteOverflows(old(node.View()), old(overflowPending)), old(uartErrorPending));
              var drained := ProcessBytes(noted, old(Contents(ring.View())), envs);
              var periodic := ProcessPeriodic(drained.0, now, telemetryOk, heartbeatOk);
              node.View() == periodic.0 && handed == drained.1 + periodic.1
    {
      var overflowCount, errorCount := overflowPending, uartErrorPending;
      overflowPending, uartErrorPending := 0, 0;
      NoteAll(overflowCount, errorCount);
      var drained := Drain(envs);
      var periodic := node.Periodic(now, telemetryOk, heartbeatOk);
      handed := drained + periodic;
    }

    method NoteAll(overflows: u32, errors: u32)
      requires Valid()
      modifies node
      ensures Valid() && node.View() == NoteErrors(NoteOverflows(old(node.View()), overflows), errors)
      ensures node.View().parser == old(node.View()).parser
    {
      hide NoteRxOverflow, NoteUartError;
      var overflowCount := overflows;
      while overflowCount != 0
        invariant Valid() && node.View().parser == old(node.View()).parser
        invariant NoteOverflows(node.View(), overflowCount) == NoteOverflows(old(node.View()), overflows)
      {
        node.NoteOverflow();
        overflowCount := overflowCount - 1;
      }
      ghost var mid := node.View();
      var errorCount := errors;
      while errorCount != 0
        invariant Valid() && node.View().parser == old(node.View()).parser
        invariant NoteErrors(node.View(), errorCount) == NoteErrors(mid, errors)
      {
        node.NoteError();
        errorCount := errorCount - 1;
      }
    }

    method Drain(envs: seq<Env>) returns (handed: seq<seq<u8>>)
      requires Valid() && |envs| == |Contents(ring.View())|
      modifies node, node.parser, node.parser.frameBuffer, ring
      ensures Valid() && Contents(ring.View()) == []
      ensures (node.View(), handed) == ProcessBytes(old(node.View()), old(Contents(ring.View())), envs)
    {
      handed := [];
      ghost var all := Contents(ring.View());
      ghost var start := node.View();
      hide ProcessByte, ProcessBytes, Contents, Occupancy, Sound;
      NoBytes(start);
      var i := 0;
      var ok, byte := ring.Pop();
      while ok
        invariant Valid() && 0 <= i <= |all|
        invariant if ok then i < |all| && [byte] + Contents(ring.View()) == all[i..] else i == |all| && Contents(ring.View()) == []
        invariant (node.View(), handed) == ProcessBytes(start, all[..i], envs[..i])
        decreases |all| - i
      {
        FrontOf(byte, Contents(ring.View()), all, i);
        var more := node.Process(byte, envs[i]);
        handed := handed + more;
        OneMoreByte(start, all, envs, i);
        i := i + 1;
        ok, byte := ring.Pop();
      }
      AllOf(all, envs);
    }
  }

  lemma NoBytes(n: Node)
    ensures ProcessBytes(n, [], []) == (n, [])
  {}

  lemma FrontOf(b: u8, rest: seq<u8>, all: seq<u8>, i: nat)
    requires i < |all| && [b] + rest == all[i..]
    ensures b == all[i] && rest == all[i + 1..]
  {
    assert b == all[i..][0];
    assert rest == all[i..][1..];
  }

  lemma AllOf(s: seq<u8>, envs: seq<Env>)
    requires |s| == |envs|
    ensures s[..|s|] == s && envs[..|s|] == envs
  {}

  lemma OneMoreByte(n: Node, s: seq<u8>, envs: seq<Env>, i: nat)
    requires i < |s| == |envs|
    ensures var before := ProcessBytes(n, s[..i], envs[..i]);
            var next := ProcessByte(before.0, s[i], envs[i]);
            ProcessBytes(n, s[..i + 1], envs[..i + 1]) == (next.0, before.1 + next.1)
  {
    hide ProcessByte;
    assert s[..i + 1][..i] == s[..i] && envs[..i + 1][..i] == envs[..i];
  }
}
