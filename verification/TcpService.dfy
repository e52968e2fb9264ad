/** What the TCP server's passes do, one by one: service left alone, restarts tried and put off, the link's edges counted. */
module TcpService {
  import opened Bits
  import opened StreamParsing
  import opened Ticks
  import opened TcpRecovery
  import opened TcpRuns
  import opened TcpProgress

  predicate LinkUp(s: Server) {
    s.netOk && s.link.known && s.link.previous && s.link.up
  }

  // ----- In service -----

  /** The status last read, or that before. */
  function LastRead(status: u8, steps: seq<Step>): u8 {
    if steps == [] then status
    else
      var last := steps[|steps| - 1];
      if last.Data? && last.reading.Sr? then last.reading.status else LastRead(status, steps[..|steps| - 1])
  }

  predicate ReadsService(steps: seq<Step>) {
    forall i :: 0 <= i < |steps| && steps[i].Data? && steps[i].reading.Sr? ==> InService(steps[i].reading.status)
  }

  lemma PassLeavesServiceAlone(s: Server, step: Step)
    requires LinkUp(s) && !Pending(s) && InService(s.status) && step.Pass? && step.link != Link(false)
    ensures Take(s, step) == s || Take(s, step) == s.(graceful := false)
  {
    assert SampleLink(s, step.link, step.linkAt) == s;
    hide SampleLink, TryRestart, MayLast;
  }

  /**
   * A server listening or connected is left alone: in every run with the link up and every reading in service,
   * nothing becomes pending, no restart is rescheduled, and the status is the one last read; no operation on the
   * socket is made, whatever it would have answered.
   */
  lemma {:induction false} ServiceIsLeftAlone(s: Server, steps: seq<Step>)
    requires LinkUp(s) && !Pending(s) && InService(s.status) && LinkStaysUp(steps) && ReadsService(steps)
    ensures var t := Run(s, steps);
            && !Pending(t) && t.deadline == s.deadline && t.link == s.link && t.netOk
            && t.status == LastRead(s.status, steps) && InService(t.status)
  {
    if steps != [] {
      var front, last := steps[..|steps| - 1], steps[|steps| - 1];
      ServiceIsLeftAlone(s, front);
      var t := Run(s, front);
      if last.Pass? {
        assert last.link != Link(false);
        PassLeavesServiceAlone(t, last);
        hide Take;
      } else {
        assert last.reading.Sr? ==> InService(last.reading.status);
      }
    }
  }

  // ----- Out of service -----

  ghost predicate Reaches(expected: u8, w: Waiting) {
    exists k :: ReachesAt(expected, w, k)
  }

  lemma WaitReaches(expected: u8, w: Waiting)
    ensures Outcome(expected, w).Reached? <==> Reaches(expected, w)
  {
    WaitReachesIff(expected, w);
    hide Outcome, ReachesAt;
  }

  /** The server listens, nothing is pending. */
  predicate Listens(s: Server) {
    s.status == LISTEN && !Pending(s) && s.spiOk && s.previous == LISTEN
  }

  /** The server is to be restarted, no sooner than the retry delay after `end`, and must first be read again. */
  predicate PutOff(s: Server, end: int) {
    Pending(s) && s.deadline == end + 500 && !s.spiOk
  }

  /** A pending restart that is due: CLOSE, mode, port, OPEN and LISTEN with their waits; all succeed, or it is put off. */
  lemma DueRestart(s: Server, ops: Ops, now: int, end: int)
    requires s.netOk && s.spiOk && s.link.up && Pending(s) && RestartDue(s, now)
    ensures var t := Control(s, ops, now, end);
            if ops.close && Reaches(CLOSED, ops.closed) && ops.mode && ops.port && ops.open && Reaches(INIT, ops.init)
               && ops.listen && Reaches(LISTEN, ops.listening)
            then Listens(t) && t.entered == end && !t.graceful
            else PutOff(t, end) && !t.known && t.recovery == s.recovery && t.lifecycle == s.lifecycle
  {
    WaitReaches(CLOSED, ops.closed);
    WaitReaches(INIT, ops.init);
    WaitReaches(LISTEN, ops.listening);
    RestartMovesStatus(s, ops);
    hide Outcome, Reaches, Restarted, RestartDue, ReachesAt;
  }

  /** A closed socket: mode, port, OPEN and LISTEN with their waits, and no CLOSE. */
  lemma ClosedIsStarted(s: Server, ops: Ops, now: int, end: int)
    requires s.netOk && s.spiOk && s.link.up && !Pending(s) && s.status == CLOSED
    ensures var t := Control(s, ops, now, end);
            if ops.mode && ops.port && ops.open && Reaches(INIT, ops.init) && ops.listen && Reaches(LISTEN, ops.listening)
            then Listens(t) && t.entered == end && !t.graceful
            else PutOff(t, end) && !t.known && !t.recovery
  {
    WaitReaches(INIT, ops.init);
    WaitReaches(LISTEN, ops.listening);
    StartMovesStatus(s, ops);
    hide Outcome, Reaches, Started, ReachesAt;
  }

  /** An opened socket: LISTEN with its wait, nothing else. */
  lemma OpenedIsMadeToListen(s: Server, ops: Ops, now: int, end: int)
    requires s.netOk && s.spiOk && s.link.up && !Pending(s) && s.status == INIT
    ensures var t := Control(s, ops, now, end);
            if ops.listen && Reaches(LISTEN, ops.listening) then Listens(t) && t.entered == end && !t.graceful
            else PutOff(t, end) && !t.known && !t.recovery
  {
    WaitReaches(LISTEN, ops.listening);
    ListenMovesStatus(s, ops);
    hide Outcome, Reaches, Listened, ReachesAt;
  }

  /** The peer has closed: DISCON once, then patience; when that or a closing state has lasted 3000 ticks, a restart at once. */
  lemma ClosingIsWaitedFor(s: Server, ops: Ops, now: int, end: int)
    requires s.netOk && s.spiOk && s.link.up && !Pending(s)
    requires s.status in {0x15, 0x16, 0x18, 0x1A, 0x1B, 0x1C, 0x1D}
    ensures var t := Control(s, ops, now, end);
            if s.status == 0x1C && !s.graceful then
              (if ops.disconnect then t == s.(graceful := true, entered := end) else PutOff(t, end) && !t.recovery)
            else if (now - s.entered) % WRAP < 3000 then t == s
            else t == s.(lifecycle := true, deadline := now, graceful := false)
  {
    LagModulo(now, s.entered);
    hide Minus, Tick;
  }

  lemma LagModulo(now: int, since: int)
    ensures Minus(Tick(now), Tick(since)) == (now - since) % WRAP
  {
    var lag, turns := (now - since) % WRAP, (now - since) / WRAP;
    assert now - since == WRAP * turns + lag;
    assert now == WRAP * turns + (since + lag);
    TickOfSum(turns, since + lag);
    TrueDistance(since + lag, since);
    hide Tick, Minus;
  }

  /** Any other state: a restart at once. */
  lemma StrangeStateIsLeft(s: Server, ops: Ops, now: int, end: int)
    requires s.netOk && s.spiOk && s.link.up && !Pending(s)
    requires s.status !in {0x00, 0x13, 0x14, 0x15, 0x16, 0x17, 0x18, 0x1A, 0x1B, 0x1C, 0x1D}
    ensures Control(s, ops, now, end) == s.(lifecycle := true, deadline := now, graceful := false)
  {}

  /** Without a configured network, a valid reading of the socket or a link, a pass does nothing. */
  lemma NothingIsDoneBlindly(s: Server, ops: Ops, now: int, end: int)
    requires !s.netOk || !s.spiOk || !s.link.up
    ensures Control(s, ops, now, end) == s
  {}

  // ----- Readings of the socket -----

  predicate NothingRead(steps: seq<Step>) {
    forall i :: 0 <= i < |steps| && steps[i].Data? ==> steps[i].reading == SrFailed
  }

  /** After a failed reading nothing at all is done until the socket is read again. */
  lemma {:induction false} FailedReadingStopsServer(s: Server, now: int, steps: seq<Step>)
    requires LinkUp(s) && NothingRead(steps) && LinkStaysUp(steps)
    ensures Run(Take(s, Data(SrFailed, now)), steps) == s.(spiOk := false)
  {
    if steps != [] {
      var last := steps[|steps| - 1];
      FailedReadingStopsServer(s, now, steps[..|steps| - 1]);
      if last.Pass? {
        assert last.link != Link(false);
      } else {
        assert last.reading == SrFailed;
      }
    }
  }

  /** With the link down nothing at all is done, and the socket is not read, until the link is read as up. */
  lemma {:induction false} DownLinkStopsServer(s: Server, steps: seq<Step>)
    requires s.link.known && !s.link.up && !s.link.previous
    requires forall i :: 0 <= i < |steps| && steps[i].Pass? ==> steps[i].link != Link(true)
    ensures Run(s, steps) == s
  {
    if steps != [] {
      var last := steps[|steps| - 1];
      DownLinkStopsServer(s, steps[..|steps| - 1]);
      if last.Pass? {
        assert last.link != Link(true);
      }
    }
  }

  /** Without a configured network the socket is never read nor used. */
  lemma {:induction false} UnconfiguredServerStaysIdle(ops: Ops, now: int, steps: seq<Step>)
    ensures var s := Run(Boot(false, ops, now), steps); !s.netOk && !s.spiOk && s.status == CLOSED && !s.lifecycle && !s.graceful
  {
    if steps != [] {
      UnconfiguredServerStaysIdle(ops, now, steps[..|steps| - 1]);
    }
  }

  /** Each connection that its peer closes is answered by a disconnect of its own, even if the one before still lasted. */
  lemma EachCloseIsAnswered(s: Server, pass: Step, from: int, until: int)
    requires LinkUp(s) && !Pending(s) && pass.Pass? && pass.link != Link(false)
    ensures var t := Run(s, [Data(Sr(0x17), from), Data(Sr(0x1C), until), pass]);
            if pass.ops.disconnect then t.graceful && !Pending(t) && t.entered == pass.end else PutOff(t, pass.end)
  {
    var first, second := Data(Sr(0x17), from), Data(Sr(0x1C), until);
    assert [first, second, pass][..2] == [first, second] && [first, second][..1] == [first] && [first][..0] == [];
    var read := Take(Take(s, first), second);
    assert Run(s, [first]) == Take(s, first);
    assert Run(s, [first, second]) == read;
    assert Run(s, [first, second, pass]) == Take(read, pass);
    assert read == s.(spiOk := true, status := 0x1C, graceful := false, known := true, previous := 0x1C, entered := read.entered);
    assert SampleLink(read, pass.link, pass.linkAt) == read;
    ClosingIsWaitedFor(read, pass.ops, pass.now, pass.end);
    hide Run, Control, SampleLink;
  }

  /** The poll is the last that the wait reads. */
  predicate LastPoll(expected: u8, w: Waiting, k: nat) {
    && k < |w.polls| && w.polls[k].reading.Sr?
    && (forall j :: 0 <= j < k ==> GoesOn(expected, w.start, w.polls[j]))
    && (GoesOn(expected, w.start, w.polls[k]) ==> k + 1 == |w.polls| || w.polls[k + 1].reading.SrFailed?)
  }

  /** Whether or not a wait succeeds, the status is the last that it read; and the reading is valid only if it succeeds. */
  lemma {:induction false} WaitLeavesLastRead(s: Server, expected: u8, w: Waiting, k: nat)
    requires LastPoll(expected, w, k)
    ensures var t := AfterWait(s, expected, Outcome(expected, w));
            && t == s.(status := w.polls[k].reading.status, spiOk := t.spiOk)
            && (t.spiOk <==> w.polls[k].reading.status == expected)
    decreases k
  {
    var rest := Waiting(w.start, w.polls[1..]);
    hide Minus;
    if k > 0 {
      assert GoesOn(expected, w.start, w.polls[0]);
      assert LastPoll(expected, rest, k - 1) by {
        forall j | 0 <= j < k - 1
          ensures GoesOn(expected, w.start, rest.polls[j])
        {
          assert GoesOn(expected, w.start, w.polls[j + 1]);
        }
      }
      WaitLeavesLastRead(s, expected, rest, k - 1);
    } else if GoesOn(expected, w.start, w.polls[0]) {
      assert Judge(expected, w.start, w.polls[1..]) == NotReached([]);
    }
  }

  /** After a failed attempt nothing is tried for 500 ticks: in every run that ends sooner with the link up. */
  lemma FailedAttemptIsNotRepeatedSoon(t: Server, end: int, steps: seq<Step>)
    requires PutOff(t, end) && LinkUp(t) && LinkStaysUp(steps)
    requires InOrder(steps, end) && Finish(steps, end) < end + 500
    ensures var u := Run(t, steps); Pending(u) && u.deadline == t.deadline && u.recovery == t.recovery
  {
    LeftAtDistance(t.deadline, end);
    NothingIsTriedBeforeDue(t, steps, end);
    hide Run, InOrder, Left, LinkStaysUp;
  }

  // ----- The link -----

  /** The link states read, in order. */
  function Readings(steps: seq<Step>): seq<bool> {
    if steps == [] then []
    else
      var last := steps[|steps| - 1];
      Readings(steps[..|steps| - 1]) + if last.Pass? && last.link.Link? then [last.link.up] else []
  }

  predicate WasUp(rs: seq<bool>) {
    true in rs
  }

  function Falls(rs: seq<bool>): nat {
    if |rs| < 2 then 0 else Falls(rs[..|rs| - 1]) + if rs[|rs| - 2] && !rs[|rs| - 1] then 1 else 0
  }

  /** Returns of a link that had been up before. */
  function Returns(rs: seq<bool>): nat {
    if |rs| < 2 then 0
    else Returns(rs[..|rs| - 1]) + if !rs[|rs| - 2] && rs[|rs| - 1] && WasUp(rs[..|rs| - 2]) then 1 else 0
  }

  predicate LinkFollows(s: Server, rs: seq<bool>) {
    && (s.link.known <==> rs != []) && s.link.up == (rs != [] && rs[|rs| - 1]) && s.link.established == WasUp(rs)
    && s.link.downs == Falls(rs) % 0x1_0000_0000 && s.link.recoveries == Returns(rs) % 0x1_0000_0000
  }

  lemma EdgesOneMore(rs: seq<bool>, up: bool)
    ensures WasUp(rs + [up]) == (WasUp(rs) || up)
    ensures rs == [] ==> Falls(rs + [up]) == Returns(rs + [up]) == 0 && Falls(rs) == Returns(rs) == 0
    ensures rs != [] ==>
              && Falls(rs + [up]) == Falls(rs) + (if rs[|rs| - 1] && !up then 1 else 0)
              && Returns(rs + [up]) == Returns(rs) + (if !rs[|rs| - 1] && up && WasUp(rs) then 1 else 0)
  {
    assert (rs + [up])[..|rs|] == rs;
    if rs != [] {
      assert (rs + [up])[..|rs| - 1] == rs[..|rs| - 1];
      assert rs == rs[..|rs| - 1] + [rs[|rs| - 1]];
    }
  }

  lemma CountUp(n: nat)
    ensures Add32(n % 0x1_0000_0000, 1) == (n + 1) % 0x1_0000_0000
  {}

  lemma ReadingIsFollowed(s: Server, rs: seq<bool>, up: bool, now: int)
    requires LinkCounted(s) && LinkFollows(s, rs)
    ensures LinkFollows(SampleLink(s, Link(up), now), rs + [up])
  {
    EdgesOneMore(rs, up);
    CountUp(Falls(rs));
    CountUp(Returns(rs));
    hide Falls, Returns, WasUp, Add32;
  }

  /**
   * In every run the two link counters count, modulo 2^32, the losses read and the returns of a link that had been up
   * before; and the link is taken to be as last read.
   */
  lemma {:induction false} EdgesAreCounted(netOk: bool, ops: Ops, now: int, steps: seq<Step>)
    ensures LinkFollows(Run(Boot(netOk, ops, now), steps), Readings(steps))
  {
    var boot := Boot(netOk, ops, now);
    if steps == [] {
      assert Falls([]) == 0 && Returns([]) == 0;
      hide Started, StartOk;
      BootLink(netOk, ops, now);
    } else {
      var front, last := steps[..|steps| - 1], steps[|steps| - 1];
      EdgesAreCounted(netOk, ops, now, front);
      LossesMatchRecoveries(boot, netOk, ops, now, front);
      var s, rs := Run(boot, front), Readings(front);
      assert rs + [] == rs;
      hide Boot, Falls, Returns, WasUp, LinkCounted, LinkFollows, Take;
      if last.Pass? {
        PassIsFollowed(s, rs, last);
      } else {
        ReadingSpares(s, last);
        LinkAlone(s, Take(s, last), rs);
      }
    }
  }

  lemma LinkAlone(s: Server, t: Server, rs: seq<bool>)
    requires t.link == s.link
    ensures LinkFollows(s, rs) == LinkFollows(t, rs)
  {}

  lemma PassIsFollowed(s: Server, rs: seq<bool>, step: Step)
    requires LinkCounted(s) && LinkFollows(s, rs) && step.Pass?
    ensures LinkFollows(Take(s, step), rs + if step.link.Link? then [step.link.up] else [])
  {
    var t := SampleLink(s, step.link, step.linkAt);
    ControlSpares(t, step.ops, step.now, step.end);
    LinkAlone(t, Take(s, step), rs + if step.link.Link? then [step.link.up] else []);
    assert rs + [] == rs;
    if step.link.Link? {
      ReadingIsFollowed(s, rs, step.link.up, step.linkAt);
    }
    hide Control, LinkFollows, LinkCounted;
  }

  lemma BootLink(netOk: bool, ops: Ops, now: int)
    ensures Boot(netOk, ops, now).link == LinkState(false, false, false, false, 0, 0)
  {
    StartMovesStatus(Server(netOk, LinkState(false, false, false, false, 0, 0), CLOSED, false,
                            false, false, false, false, CLOSED, now, now), ops);
    hide Started, StartOk;
  }

  /**
   * A link that comes back, or comes up for the first time with a restart waiting: the server is restarted in the same
   * pass, and serves if every operation succeeds.
   */
  lemma ReturnOfLinkRestartsAtOnce(s: Server, linkAt: int, now: int, end: int, ops: Ops)
    requires LinkCounted(s) && s.netOk && s.spiOk && s.link.known && !s.link.up && (s.link.established || Pending(s))
    requires 0 <= now - linkAt < 0x8000_0000 && RestartOk(ops)
    ensures Listens(Take(s, Pass(Link(true), linkAt, now, end, ops)))
  {
    var t := SampleLink(s, Link(true), linkAt);
    assert t.deadline == linkAt && Pending(t);
    DueExactly(linkAt, now);
    assert (now - linkAt) % WRAP == now - linkAt;
    RestartMovesStatus(t, ops);
    hide SampleLink, Restarted, RestartOk, IsDue, Left, Tick;
  }

  /** The loss of a link that was up leaves a recovery pending, and nothing else. */
  lemma LossOfLinkLeavesRecovery(s: Server, linkAt: int, now: int, end: int, ops: Ops)
    requires LinkCounted(s) && s.link.known && s.link.up
    ensures var t := Take(s, Pass(Link(false), linkAt, now, end, ops));
            t.recovery && !t.lifecycle && !t.graceful && !t.known && !t.link.up && t.status == s.status && t.deadline == s.deadline
  {
    hide Add32;
  }
}
