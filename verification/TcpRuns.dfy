/** Every run of the TCP recovery: counts that match, restarts that end listening, deadlines that stay near. */
module TcpRuns {
  import opened Bits
  import opened StreamParsing
  import opened Ticks
  import opened TcpRecovery

  // ----- Every run, whatever the chip answers -----

  predicate LinkCounted(s: Server) {
    && s.link.up == s.link.previous
    && (!s.link.known ==> !s.link.up && !s.link.established)
    && (s.link.up ==> s.link.established)
    && s.link.downs == (if s.link.established && !s.link.up then Add32(s.link.recoveries, 1) else s.link.recoveries)
    && (s.link.established && !s.link.up ==> s.recovery)
  }

  lemma ListenMovesStatus(s: Server, ops: Ops)
    ensures Listened(s, ops) == s.(status := Listened(s, ops).status, spiOk := ListenOk(ops))
    ensures ListenOk(ops) ==> Listened(s, ops).status == LISTEN
  {}

  lemma StartMovesStatus(s: Server, ops: Ops)
    ensures Started(s, ops) == s.(status := Started(s, ops).status, spiOk := StartOk(ops))
    ensures StartOk(ops) ==> Started(s, ops).status == LISTEN
  {
    ListenMovesStatus(AfterWait(s, INIT, Outcome(INIT, ops.init)), ops);
    hide Listened, ListenOk;
  }

  lemma RestartMovesStatus(s: Server, ops: Ops)
    ensures Restarted(s, ops) == s.(status := Restarted(s, ops).status, spiOk := RestartOk(ops))
    ensures RestartOk(ops) ==> Restarted(s, ops).status == LISTEN
  {
    StartMovesStatus(AfterWait(s, CLOSED, Outcome(CLOSED, ops.closed)), ops);
    hide Started, StartOk;
  }

  /** Socket operations move the sampled status and its validity, nothing else; only success leaves it valid. */
  lemma OperationsMoveStatus(s: Server, ops: Ops)
    ensures Listened(s, ops) == s.(status := Listened(s, ops).status, spiOk := ListenOk(ops))
    ensures Started(s, ops) == s.(status := Started(s, ops).status, spiOk := StartOk(ops))
    ensures Restarted(s, ops) == s.(status := Restarted(s, ops).status, spiOk := RestartOk(ops))
    ensures ListenOk(ops) ==> Listened(s, ops).status == LISTEN
    ensures StartOk(ops) ==> Started(s, ops).status == LISTEN
    ensures RestartOk(ops) ==> Restarted(s, ops).status == LISTEN
  {
    ListenMovesStatus(s, ops);
    StartMovesStatus(s, ops);
    RestartMovesStatus(s, ops);
    hide Listened, Started, Restarted, ListenOk, StartOk, RestartOk;
  }

  /** What a control pass leaves alone, and the only ticks it may put a restart off to. */
  lemma ControlSpares(s: Server, ops: Ops, now: int, end: int)
    ensures var t := Control(s, ops, now, end);
            && t.link == s.link && t.netOk == s.netOk && (!s.link.up ==> t == s)
            && (t.deadline == s.deadline || t.deadline == now || t.deadline == end + RETRY)
  {
    OperationsMoveStatus(s, ops);
    hide IsDue, Tick, Minus, Listened, Started, Restarted, ListenOk, StartOk, RestartOk, MayLast;
  }

  lemma LinkReadingIsCounted(s: Server, link: LinkReading, now: int)
    requires LinkCounted(s)
    ensures LinkCounted(SampleLink(s, link, now))
  {
    hide Add32;
  }

  lemma LinkStaysCounted(s: Server, step: Step)
    requires LinkCounted(s)
    ensures LinkCounted(Take(s, step))
  {
    match step
    case Pass(link, linkAt, now, end, ops) =>
      LinkReadingIsCounted(s, link, linkAt);
      ControlSpares(SampleLink(s, link, linkAt), ops, now, end);
      hide Control, SampleLink, Add32;
    case Data(reading, now) => hide Add32;
  }

  /**
   * In every run, link losses equal link recoveries, modulo 2^32, plus one while a link that was once up is down;
   * and then a recovery is pending.
   */
  lemma {:induction false} LossesMatchRecoveries(boot: Server, netOk: bool, ops: Ops, now: int, steps: seq<Step>)
    requires boot == Boot(netOk, ops, now)
    ensures var s := Run(boot, steps);
            && s.link.downs == (if s.link.established && !s.link.up then Add32(s.link.recoveries, 1) else s.link.recoveries)
            && (s.link.established && !s.link.up ==> s.recovery)
    ensures LinkCounted(Run(boot, steps))
  {
    if steps != [] {
      LossesMatchRecoveries(boot, netOk, ops, now, steps[..|steps| - 1]);
      LinkStaysCounted(Run(boot, steps[..|steps| - 1]), steps[|steps| - 1]);
      hide Take, Boot;
    }
  }

  /** Whatever makes a pending restart no longer pending, bar the loss of the link, has seen the server listen. */
  lemma RestartsEndListening(s: Server, ops: Ops, now: int, end: int)
    ensures var t := Control(s, ops, now, end);
            s.recovery || s.lifecycle ==>
              || (t.recovery == s.recovery && t.lifecycle == s.lifecycle)
              || (!t.recovery && !t.lifecycle && t.status == LISTEN && t.previous == LISTEN && t.spiOk && RestartDue(s, now))
  {
    OperationsMoveStatus(s, ops);
    hide RestartDue, StateTimedOut, Listened, Started, Restarted, ListenOk, StartOk, RestartOk, MayLast;
  }

  /** Steps happen in order of true time, from `now` on; the last ends at the returned time. */
  predicate InOrder(steps: seq<Step>, now: int) {
    steps != [] ==> InOrder(steps[..|steps| - 1], now) && Starts(steps[|steps| - 1], Finish(steps[..|steps| - 1], now))
  }

  function Finish(steps: seq<Step>, now: int): int {
    if steps == [] then now
    else
      match steps[|steps| - 1]
      case Pass(_, _, _, end, _) => end
      case Data(_, at) => at
  }

  predicate Starts(step: Step, after: int) {
    match step
    case Pass(_, linkAt, now, end, _) => after <= linkAt <= now <= end
    case Data(_, at) => after <= at
  }

  /** In every run, the next restart is never put off by more than the retry delay. */
  lemma {:induction false} RestartIsNeverFarOff(boot: Server, netOk: bool, ops: Ops, now: int, steps: seq<Step>)
    requires boot == Boot(netOk, ops, now) && InOrder(steps, now)
    ensures Run(boot, steps).deadline <= Finish(steps, now) + RETRY
  {
    if steps != [] {
      RestartIsNeverFarOff(boot, netOk, ops, now, steps[..|steps| - 1]);
      StepPutsOffLittle(Run(boot, steps[..|steps| - 1]), steps[|steps| - 1], Finish(steps[..|steps| - 1], now));
      hide Take, Boot;
    }
  }

  lemma StepPutsOffLittle(s: Server, step: Step, after: int)
    requires Starts(step, after) && s.deadline <= after + RETRY
    ensures Take(s, step).deadline <= Finish([step], after) + RETRY
  {
    match step
    case Pass(link, linkAt, now, end, ops) =>
      LinkPutsOffNothing(s, link, linkAt);
      ControlSpares(SampleLink(s, link, linkAt), ops, now, end);
      hide Control, SampleLink;
    case Data(reading, now) =>
  }

  lemma LinkPutsOffNothing(s: Server, link: LinkReading, now: int)
    ensures var t := SampleLink(s, link, now); t.deadline == s.deadline || t.deadline == now
  {
    hide Add32;
  }

  // ----- Time left, as the wrapping counter shows it -----

  /** For how long a restart will still not be due. */
  function Left(deadline: int, now: int): nat {
    if IsDue(Tick(now), Tick(deadline)) then 0 else Minus(Tick(deadline), Tick(now))
  }

  /** For how long the present state will still be put up with. */
  function Patience(entered: int, now: int): nat {
    var elapsed := Minus(Tick(now), Tick(entered));
    if elapsed >= TRANSIENT_TIMEOUT then 0 else TRANSIENT_TIMEOUT - elapsed
  }

  lemma LeftAtDistance(deadline: int, now: int)
    requires -0x8000_0000 <= deadline - now <= 0x8000_0000
    ensures deadline - now == -0x8000_0000 || Left(deadline, now) == if deadline <= now then 0 else deadline - now
  {
    TrueDistance(now, deadline);
    TrueDistance(deadline, now);
    hide Tick, Minus;
  }

  /** When the 32-bit test calls a deadline due: for all times, by the lag modulo 2^32. */
  lemma DueExactly(deadline: int, now: int)
    ensures IsDue(Tick(now), Tick(deadline)) <==> (now - deadline) % WRAP < 0x8000_0000
    ensures Left(deadline, now) == if (now - deadline) % WRAP < 0x8000_0000 then 0 else WRAP - (now - deadline) % WRAP
  {
    var lag := (now - deadline) % WRAP;
    var turns := (now - deadline) / WRAP;
    assert now - deadline == WRAP * turns + lag;
    assert now == WRAP * turns + (deadline + lag);
    TickOfSum(turns, deadline + lag);
    TrueDistance(deadline + lag, deadline);
    TrueDistance(deadline, deadline + lag);
    hide Tick, Minus;
  }

  lemma LeftShrinks(deadline: int, now: int, d: int)
    requires 1 <= d < 0x8000_0000 && Left(deadline, now) > 0
    ensures Left(deadline, now) <= 0x8000_0000
    ensures Left(deadline, now + d) == if Left(deadline, now) > d then Left(deadline, now) - d else 0
  {
    var left := Minus(Tick(deadline), Tick(now));
    NotDueIsAhead(Tick(now), Tick(deadline));
    SameTick(deadline, now, left);
    LeftAtDistance(now + left, now + d);
    hide Tick, Minus;
  }

  lemma NotDueIsAhead(now: u32, deadline: u32)
    ensures !IsDue(now, deadline) ==> 0 < Minus(deadline, now) <= 0x8000_0000
  {
    if deadline > now {
      assert Minus(deadline, now) == deadline - now && Minus(now, deadline) == now - deadline + WRAP;
    } else if deadline < now {
      assert Minus(deadline, now) == deadline - now + WRAP && Minus(now, deadline) == now - deadline;
    }
  }

  lemma SameTick(deadline: int, now: int, left: int)
    requires left == Minus(Tick(deadline), Tick(now))
    ensures Tick(deadline) == Tick(now + left)
  {
    assert (now + left) % WRAP == ((now % WRAP) + left) % WRAP;
    assert ((now % WRAP) + ((deadline % WRAP) - (now % WRAP)) % WRAP) % WRAP == deadline % WRAP;
  }

  lemma PatienceShrinks(entered: int, now: int, d: int)
    requires 1 <= d < 0x8000_0000 && Patience(entered, now) > 0
    ensures Patience(entered, now + d) == if Patience(entered, now) > d then Patience(entered, now) - d else 0
  {
    var elapsed := Minus(Tick(now), Tick(entered));
    SameTick(now, entered, elapsed);
    MoveOn(entered + elapsed, now, d);
    TrueDistance(entered + elapsed + d, entered);
    hide Tick, Minus;
  }

  lemma MoveOn(a: int, b: int, d: int)
    requires Tick(a) == Tick(b)
    ensures Tick(a + d) == Tick(b + d)
  {}
}
