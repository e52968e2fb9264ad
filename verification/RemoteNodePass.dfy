/** A pass of the node's port that nothing interrupts: it ends, and does what the process routine does. */
module RemoteNodePass {
  import opened Bits
  import opened Protocol
  import opened StreamParsing
  import opened RemoteNodes
  import opened RemoteNodePorts
  import opened RxRings

  /** The task's steps from p, k of them and nothing else, lead to q. */
  predicate LeadsTo(p: Port, env: Env, heartbeatOk: bool, k: nat, q: Port)
    decreases k
  {
    if k == 0 then q == p
    else Sound(p.rx.ring) && LeadsTo(TaskMove(p, env, heartbeatOk), env, heartbeatOk, k - 1, q)
  }

  lemma {:induction false} LeadsOn(p: Port, env: Env, h: bool, k: nat, q: Port, m: nat, r: Port)
    requires LeadsTo(p, env, h, k, q) && LeadsTo(q, env, h, m, r)
    ensures LeadsTo(p, env, h, k + m, r)
    decreases k
  {
    if k > 0 {
      LeadsOn(TaskMove(p, env, h), env, h, k - 1, q, m, r);
      hide TaskMove, Sound;
    }
  }

  lemma {:induction false} OverflowsAreNoted(p: Port, env: Env, h: bool)
    requires Sound(p.rx.ring) && p.at.NotingOverflows?
    ensures LeadsTo(p, env, h, p.at.left + 1, p.(node := NoteOverflows(p.node, p.at.left), at := NotingErrors(p.at.uartLeft)))
    decreases p.at.left
  {
    hide Sound, NoteRxOverflow;
    var next := TaskMove(p, env, h);
    if p.at.left == 0 {
      assert LeadsTo(next, env, h, 0, next);
    } else {
      OverflowsAreNoted(next, env, h);
    }
  }

  lemma {:induction false} ErrorsAreNoted(p: Port, env: Env, h: bool)
    requires Sound(p.rx.ring) && p.at.NotingErrors?
    ensures LeadsTo(p, env, h, p.at.left + 1, p.(node := NoteErrors(p.node, p.at.left), at := Popping))
    decreases p.at.left
  {
    hide Sound, NoteUartError;
    var next := TaskMove(p, env, h);
    if p.at.left == 0 {
      assert LeadsTo(next, env, h, 0, next);
    } else {
      ErrorsAreNoted(next, env, h);
    }
  }

  /** Four steps: three of the pop, and the byte through the node. */
  lemma OneByteIsProcessed(p: Port, env: Env, h: bool) returns (q: Port)
    requires Consistent(p.rx) && p.rx.pop.Idle? && p.at.Popping? && Contents(p.rx.ring) != []
    ensures LeadsTo(p, env, h, 4, q)
    ensures var b := Contents(p.rx.ring)[0];
            && q.node == ProcessByte(p.node, b, env).0 && q.processed == p.processed + [b]
            && Contents(q.rx.ring) == Contents(p.rx.ring)[1..]
    ensures Consistent(q.rx) && q.rx.pop.Idle? && q.at.Popping?
    ensures q.overflowPending == p.overflowPending && q.uartPending == p.uartPending
  {
    UninterruptedPop(p.rx);
    var p1 := TaskMove(p, env, h);
    assert Sound(p1.rx.ring) && p1.rx == Step(p.rx, PopStep);
    var p2 := TaskMove(p1, env, h);
    assert Sound(p2.rx.ring) && p2.rx == Step(p1.rx, PopStep);
    var p3 := TaskMove(p2, env, h);
    assert Sound(p3.rx.ring) && p3.rx == Step(p2.rx, PopStep) && p3.at == HaveByte(Contents(p.rx.ring)[0]);
    q := TaskMove(p3, env, h);
    hide Sound, Contents, Step, ProcessByte, Consistent, TaskMove;
    assert LeadsTo(q, env, h, 0, q) && LeadsTo(p3, env, h, 1, q) && LeadsTo(p2, env, h, 2, q) && LeadsTo(p1, env, h, 3, q);
  }

  lemma {:induction false} RingIsEmptied(p: Port, env: Env, h: bool) returns (k: nat, q: Port)
    requires Consistent(p.rx) && p.rx.pop.Idle? && p.at.Popping?
    ensures LeadsTo(p, env, h, k, q) && Sound(q.rx.ring)
    ensures var bytes := Contents(p.rx.ring);
            q.node == ProcessEach(p.node, bytes, env) && q.processed == p.processed + bytes && Contents(q.rx.ring) == []
    ensures Consistent(q.rx) && q.rx.pop.Idle? && q.at.Popping?
    ensures q.overflowPending == p.overflowPending && q.uartPending == p.uartPending
    decreases |Contents(p.rx.ring)|
  {
    hide Sound, ProcessByte, TaskMove, Contents, LeadsTo;
    if Contents(p.rx.ring) == [] {
      k, q := 0, p;
      Here(p, env, h);
      assert p.processed + [] == p.processed;
    } else {
      var next := OneByteIsProcessed(p, env, h);
      k, q := RingIsEmptied(next, env, h);
      LeadsOn(p, env, h, 4, next, k, q);
      k := 4 + k;
      FirstThenRest(p.processed, Contents(p.rx.ring));
    }
  }

  lemma Here(p: Port, env: Env, h: bool)
    ensures LeadsTo(p, env, h, 0, p)
  {}

  lemma FirstThenRest(a: seq<u8>, b: seq<u8>)
    requires b != []
    ensures (a + [b[0]]) + b[1..] == a + b
  {}

  function ProcessEach(n: Node, bytes: seq<u8>, env: Env): Node
    decreases |bytes|
  {
    if bytes == [] then n else ProcessEach(ProcessByte(n, bytes[0], env).0, bytes[1..], env)
  }

  /**
   * From the start of a pass, with nothing interrupting: the task comes back to the start, having noted the pending
   * overflows and errors, put every byte of the ring through the node in order, and done the periodic work.
   */
  lemma PassProcessesEverything(p: Port, env: Env, h: bool) returns (k: nat, q: Port)
    requires Consistent(p.rx) && p.rx.pop.Idle? && p.at.Start?
    ensures LeadsTo(p, env, h, k, q) && q.at.Start? && q.rx.pop.Idle? && Sound(q.rx.ring)
    ensures var noted := NoteErrors(NoteOverflows(p.node, p.overflowPending), p.uartPending);
            q.node == ProcessPeriodic(ProcessEach(noted, Contents(p.rx.ring), env), env.now, env.txOk, h).0
    ensures q.overflowPending == 0 && q.uartPending == 0
    ensures q.processed == p.processed + Contents(p.rx.ring) && Contents(q.rx.ring) == []
  {
    var p1 := TaskMove(p, env, h);
    OverflowsAreNoted(p1, env, h);
    var p2 := p1.(node := NoteOverflows(p1.node, p1.at.left), at := NotingErrors(p1.at.uartLeft));
    ErrorsAreNoted(p2, env, h);
    var p3 := p2.(node := NoteErrors(p2.node, p2.at.left), at := Popping);
    var m, p4 := RingIsEmptied(p3, env, h);
    UninterruptedPop(p4.rx);
    var p5 := TaskMove(p4, env, h);
    q := TaskMove(p5, env, h);
    Here(q, env, h);
    assert LeadsTo(p4, env, h, 2, q) by {
      assert LeadsTo(p5, env, h, 1, q);
    }
    Here(p1, env, h);
    assert LeadsTo(p, env, h, 1, p1);
    hide LeadsTo, TaskMove, Sound, Contents, ProcessEach, NoteOverflows, NoteErrors, ProcessPeriodic, Consistent;
    LeadsOn(p, env, h, 1, p1, p1.at.left + 1, p2);
    LeadsOn(p, env, h, p1.at.left + 2, p2, p2.at.left + 1, p3);
    LeadsOn(p, env, h, p1.at.left + p2.at.left + 3, p3, m, p4);
    LeadsOn(p, env, h, p1.at.left + p2.at.left + 3 + m, p4, 2, q);
    k := p1.at.left + p2.at.left + 5 + m;
  }
}
