/** With the link up and an obedient socket, the TCP server is back in service after a bounded time. */
module TcpProgress {
  import opened Bits
  import opened Ticks
  import opened TcpRecovery
  import opened TcpRuns

  predicate InService(status: u8) {
    status == LISTEN || status == ESTABLISHED
  }

  /** How many states a socket can still pass through of its own accord. */
  function Rank(status: u8): nat {
    if status == CLOSED then 0
    else if status == LAST_ACK || status == TIME_WAIT then 1
    else if status == CLOSING || status == CLOSE_WAIT then 2
    else if status == FIN_WAIT || status == SYNRECV then 3
    else if status == SYNSENT then 4
    else if status == INIT then 5
    else 6
  }

  // ----- One round: a control pass, then at least one reading of the socket -----

  datatype Sample = Sample(at: int, status: u8)

  datatype Round = Round(at: int, end: int, ops: Ops, samples: seq<Sample>)

  function Passed(s: Server, r: Round): Server {
    Take(s, Pass(Link(true), r.at, r.at, r.end, r.ops))
  }

  function Sampled(s: Server, samples: seq<Sample>): Server {
    if samples == [] then s
    else
      var last := samples[|samples| - 1];
      Take(Sampled(s, samples[..|samples| - 1]), Data(Sr(last.status), last.at))
  }

  function RoundEnd(s: Server, r: Round): Server {
    Sampled(Passed(s, r), r.samples)
  }

  predicate Visits(s: Server, r: Round) {
    InService(Passed(s, r).status) || exists i :: 0 <= i < |r.samples| && InService(r.samples[i].status)
  }

  // ----- What is expected of the chip and the peer -----

  /**
   * Every transfer succeeds, and CLOSE, OPEN and LISTEN take effect. Only a LISTEN to a socket merely thought to be
   * in INIT may come too late: the socket is then found closed.
   */
  predicate Obeys(s: Server, ops: Ops) {
    && ops.close && Outcome(CLOSED, ops.closed) == Reached
    && ops.mode && ops.port && ops.open && Outcome(INIT, ops.init) == Reached
    && ops.listen && ops.disconnect
    && (Outcome(LISTEN, ops.listening) == Reached || (s.status == INIT && !s.recovery && !s.lifecycle))
  }

  /** Of its own accord the socket only moves down, or into service. */
  predicate Settles(from: u8, to: u8) {
    to == from || InService(to) || Rank(to) < Rank(from)
  }

  function LastStatus(from: u8, samples: seq<Sample>): u8 {
    if samples == [] then from else samples[|samples| - 1].status
  }

  predicate SettlesThrough(from: u8, samples: seq<Sample>) {
    samples == []
    || (SettlesThrough(from, samples[..|samples| - 1])
        && Settles(LastStatus(from, samples[..|samples| - 1]), samples[|samples| - 1].status))
  }

  predicate Good(s: Server, r: Round, next: int, gap: nat) {
    && r.at < next <= r.at + gap && r.at <= r.end <= next
    && r.samples != [] && (forall i :: 0 <= i < |r.samples| ==> r.end <= r.samples[i].at <= next)
    && Obeys(s, r.ops) && SettlesThrough(Passed(s, r).status, r.samples)
  }

  /** The link is up and was, and the socket has just been read: not in service. */
  predicate Observing(s: Server) {
    && s.netOk && s.spiOk && s.link.known && s.link.previous && s.link.up
    && s.known && s.previous == s.status && !InService(s.status)
  }

  // ----- How much time is left at most -----

  function Floor(status: u8, gap: nat): nat {
    Rank(status) * (TRANSIENT_TIMEOUT + 2 * gap)
  }

  function Budget(s: Server, now: int, gap: nat): nat {
    if s.recovery || s.lifecycle then
      var left := Left(s.deadline, now);
      if left == 0 then gap else left + 2 * gap
    else if s.status == CLOSED then gap
    else if s.status == INIT then RETRY + 3 * gap
    else if !MayLast(s.status) then 2 * gap
    else if s.status == CLOSE_WAIT && !s.graceful then Floor(s.status, gap) + TRANSIENT_TIMEOUT + 4 * gap
    else
      var patience := Patience(s.entered, now);
      Floor(s.status, gap) + (if patience == 0 then 2 * gap else patience + 3 * gap)
  }

  lemma FloorDrops(from: u8, to: u8, gap: nat)
    requires Rank(to) < Rank(from) <= 4
    ensures Floor(to, gap) + TRANSIENT_TIMEOUT + 2 * gap <= Floor(from, gap)
  {
    var unit := TRANSIENT_TIMEOUT + 2 * gap;
    var a, b := Rank(to), Rank(from);
    assert (b - a) * unit >= unit;
    assert b * unit == a * unit + (b - a) * unit;
  }

  lemma MayLastRank(status: u8)
    ensures MayLast(status) ==> 1 <= Rank(status) <= 4 && status != INIT
    ensures Rank(status) <= 4 && !InService(status) ==> status == CLOSED || MayLast(status)
  {}

  /** Fresh in a state of that rank, the server needs at most this much. */
  lemma FreshBudget(s: Server, now: int, gap: nat)
    requires !s.recovery && !s.lifecycle && Rank(s.status) <= 4 && !InService(s.status)
    ensures Budget(s, now, gap) <= Floor(s.status, gap) + TRANSIENT_TIMEOUT + 4 * gap
  {
    MayLastRank(s.status);
    hide Floor, MayLast;
  }

  // ----- What the readings do -----

  /** Readings change only what is known of the socket's state; they restart its clock only when it has moved down. */
  lemma {:induction false} ReadingsFollowSocket(s: Server, samples: seq<Sample>)
    requires s.netOk && s.link.up && samples != [] && SettlesThrough(s.status, samples)
    requires forall i :: 0 <= i < |samples| ==> !InService(samples[i].status)
    ensures var t := Sampled(s, samples);
            && t.netOk && t.spiOk && t.link == s.link && t.known && t.previous == t.status && !InService(t.status)
            && t.recovery == s.recovery && t.lifecycle == s.lifecycle && t.deadline == s.deadline
            && t.graceful == s.graceful
            && (t.status == s.status || Rank(t.status) < Rank(s.status))
            && (t.status == s.status && s.known && s.previous == s.status ==> t.entered == s.entered)
  {
    var n := |samples| - 1;
    if n == 0 {
      assert samples[..n] == [];
    } else {
      var front := samples[..n];
      ReadingsFollowSocket(s, front);
      LastReading(s, front);
    }
  }

  lemma LastReading(s: Server, samples: seq<Sample>)
    requires s.netOk && s.link.up && samples != []
    ensures var t := Sampled(s, samples); t.status == samples[|samples| - 1].status && t.netOk && t.link == s.link
  {
    var n := |samples| - 1;
    if n > 0 {
      LastReading(s, samples[..n]);
    } else {
      assert samples[..n] == [];
    }
  }

  // ----- One round -----

  predicate Pending(s: Server) {
    s.recovery || s.lifecycle
  }

  /** Unless the round visits service, it ends observing, and the pass's effect on what is pending stands. */
  lemma RoundObserves(s: Server, r: Round, next: int, gap: nat)
    requires Observing(s) && Good(s, r, next, gap) && !Visits(s, r)
    ensures var p, t := Passed(s, r), RoundEnd(s, r);
            && Observing(t)
            && Pending(t) == Pending(p) && t.deadline == p.deadline && t.graceful == p.graceful
            && (t.status == p.status || Rank(t.status) < Rank(p.status))
            && (t.status == p.status && p.known && p.previous == p.status ==> t.entered == p.entered)
  {
    var p := Passed(s, r);
    LinkSteady(s, r);
    ControlSpares(s, r.ops, r.at, r.end);
    ReadingsFollowSocket(p, r.samples);
    hide Sampled, Control, SettlesThrough;
  }

  lemma LinkSteady(s: Server, r: Round)
    requires Observing(s)
    ensures Passed(s, r) == Control(s, r.ops, r.at, r.end)
  {
    assert SampleLink(s, Link(true), r.at) == s;
    hide Control;
  }

  /** With a restart pending: it is due, and succeeds, or it comes nearer. */
  lemma PendingRound(s: Server, r: Round, next: int, gap: nat)
    requires Observing(s) && Good(s, r, next, gap) && gap < 0x8000_0000 && Pending(s)
    ensures Visits(s, r) || Budget(RoundEnd(s, r), next, gap) + (next - r.at) <= Budget(s, r.at, gap)
  {
    LinkSteady(s, r);
    if RestartDue(s, r.at) {
      RestartMovesStatus(s, r.ops);
    } else if !Visits(s, r) {
      RoundObserves(s, r, next, gap);
      LeftShrinks(s.deadline, r.at, next - r.at);
      hide RoundEnd, Left, Floor, IsDue;
    }
  }

  /** The socket is closed or opened: it is brought to listen, or a restart follows. */
  lemma StartingRound(s: Server, r: Round, next: int, gap: nat)
    requires Observing(s) && Good(s, r, next, gap) && gap < 0x8000_0000 - RETRY && !Pending(s)
    requires s.status == CLOSED || s.status == INIT
    ensures Visits(s, r) || Budget(RoundEnd(s, r), next, gap) + (next - r.at) <= Budget(s, r.at, gap)
  {
    LinkSteady(s, r);
    StartMovesStatus(s, r.ops);
    ListenMovesStatus(s, r.ops);
    if !Visits(s, r) {
      RoundObserves(s, r, next, gap);
      LeftAtDistance(r.end + RETRY, next);
      hide RoundEnd, Left, Floor, Listened, Started, IsDue;
    }
  }

  /** The state is given up: a restart is due at once. */
  lemma AbandoningRound(s: Server, r: Round, next: int, gap: nat)
    requires Observing(s) && Good(s, r, next, gap) && gap < 0x8000_0000 && !Pending(s)
    requires FollowStatus(s, r.ops, r.at, r.end) == GiveUp(s, r.at)
    ensures Visits(s, r) || Budget(RoundEnd(s, r), next, gap) == gap
  {
    LinkSteady(s, r);
    if !Visits(s, r) {
      RoundObserves(s, r, next, gap);
      LeftAtDistance(r.at, next);
      hide RoundEnd, Left, FollowStatus, Floor;
    }
  }

  /** A state is sat out, or is left for one further down. */
  lemma WaitingRound(s: Server, r: Round, next: int, gap: nat)
    requires Observing(s) && Good(s, r, next, gap) && gap < 0x8000_0000 && !Pending(s)
    requires MayLast(s.status) && (s.status == CLOSE_WAIT ==> s.graceful) && Patience(s.entered, r.at) > 0
    ensures Visits(s, r) || Budget(RoundEnd(s, r), next, gap) + (next - r.at) <= Budget(s, r.at, gap)
  {
    LinkSteady(s, r);
    if !Visits(s, r) {
      assert Passed(s, r) == s;
      RoundObserves(s, r, next, gap);
      var t := RoundEnd(s, r);
      MayLastRank(s.status);
      if t.status == s.status {
        PatienceShrinks(s.entered, r.at, next - r.at);
      } else {
        FloorDrops(s.status, t.status, gap);
        FreshBudget(t, next, gap);
      }
      hide RoundEnd, Patience, FollowStatus, Floor, MayLast, Left;
    }
  }

  /** The peer has closed: the server asks to disconnect, and from then on waits. */
  lemma DisconnectingRound(s: Server, r: Round, next: int, gap: nat)
    requires Observing(s) && Good(s, r, next, gap) && gap < 0x8000_0000 && !Pending(s)
    requires s.status == CLOSE_WAIT && !s.graceful
    ensures Visits(s, r) || Budget(RoundEnd(s, r), next, gap) + (next - r.at) <= Budget(s, r.at, gap)
  {
    LinkSteady(s, r);
    if !Visits(s, r) {
      RoundObserves(s, r, next, gap);
      var t := RoundEnd(s, r);
      if t.status != s.status {
        FloorDrops(s.status, t.status, gap);
        FreshBudget(t, next, gap);
      }
      hide RoundEnd, Floor, Left;
    }
  }

  /** Each round sees the server in service, or uses up at least its own length of the time left. */
  lemma RoundMakesProgress(s: Server, r: Round, next: int, gap: nat)
    requires Observing(s) && Good(s, r, next, gap) && gap < 0x8000_0000 - RETRY
    ensures Visits(s, r)
            || (Observing(RoundEnd(s, r)) && Budget(RoundEnd(s, r), next, gap) + (next - r.at) <= Budget(s, r.at, gap))
  {
    if !Visits(s, r) {
      RoundObserves(s, r, next, gap);
    }
    if Pending(s) {
      PendingRound(s, r, next, gap);
    } else if s.status == CLOSED || s.status == INIT {
      StartingRound(s, r, next, gap);
    } else if s.status == CLOSE_WAIT && !s.graceful {
      DisconnectingRound(s, r, next, gap);
    } else if MayLast(s.status) && Patience(s.entered, r.at) > 0 {
      WaitingRound(s, r, next, gap);
    } else {
      AbandoningRound(s, r, next, gap);
      hide RoundEnd, Visits, Good, Left;
    }
  }

  // ----- Any number of rounds -----

  /** Good rounds, one starting where the one before ends; the last ends at `stop`. */
  predicate GoodRounds(s: Server, rs: seq<Round>, gap: nat, stop: int)
    decreases |rs|
  {
    rs != [] ==>
      && Good(s, rs[0], if |rs| > 1 then rs[1].at else stop, gap)
      && GoodRounds(RoundEnd(s, rs[0]), rs[1..], gap, stop)
  }

  predicate ComesIntoService(s: Server, rs: seq<Round>)
    decreases |rs|
  {
    rs != [] && (Visits(s, rs[0]) || ComesIntoService(RoundEnd(s, rs[0]), rs[1..]))
  }

  /** Good rounds that last longer than the budget see the server in service. */
  lemma {:induction false} BudgetBoundsOutage(s: Server, rs: seq<Round>, gap: nat, stop: int)
    requires Observing(s) && GoodRounds(s, rs, gap, stop) && gap < 0x8000_0000 - RETRY
    requires rs != [] && stop - rs[0].at > Budget(s, rs[0].at, gap)
    ensures ComesIntoService(s, rs)
    decreases |rs|
  {
    var next := if |rs| > 1 then rs[1].at else stop;
    RoundMakesProgress(s, rs[0], next, gap);
    if !Visits(s, rs[0]) {
      if |rs| > 1 {
        BudgetBoundsOutage(RoundEnd(s, rs[0]), rs[1..], gap, stop);
      }
      hide RoundEnd, Visits, Good, Budget;
    }
  }

  /** Apart from waiting for a pending restart to be due, little time is ever needed. */
  lemma BudgetIsSmall(s: Server, now: int, gap: nat)
    requires Observing(s)
    ensures Budget(s, now, gap) <= if Pending(s) then Left(s.deadline, now) + 2 * gap else 15000 + 12 * gap
    ensures Left(s.deadline, now) <= 0x8000_0000
  {
    NotDueIsAhead(Tick(now), Tick(s.deadline));
    if !Pending(s) && Rank(s.status) <= 4 {
      FreshBudget(s, now, gap);
    }
    hide Patience, Tick, Minus, IsDue;
  }

  /**
   * With the link up, transfers succeeding, an obedient socket that of its own accord only moves down or into
   * service, and passes at most `gap` ticks apart, the server is seen listening or connected within 2 * gap ticks of
   * a pending restart falling due, or within 15000 + 12 * gap without one; from any state whatever, and so always
   * within 2^31 + 15000 + 12 * gap.
   */
  lemma OutageIsBounded(s: Server, rs: seq<Round>, gap: nat, stop: int)
    requires Observing(s) && rs != [] && GoodRounds(s, rs, gap, stop) && gap < 0x8000_0000 - RETRY
    ensures stop - rs[0].at > (if Pending(s) then Left(s.deadline, rs[0].at) + 2 * gap else 15000 + 12 * gap)
            ==> ComesIntoService(s, rs)
    ensures stop - rs[0].at > 0x8000_0000 + 15000 + 12 * gap ==> ComesIntoService(s, rs)
  {
    BudgetIsSmall(s, rs[0].at, gap);
    if stop - rs[0].at > Budget(s, rs[0].at, gap) {
      BudgetBoundsOutage(s, rs, gap, stop);
    }
    hide GoodRounds, ComesIntoService, Budget, Left;
  }

  /**
   * From any moment of any run, whatever happened before: if a restart that is pending is ahead or due, the server is
   * back within 15000 + 12 * gap ticks (16.2 s for the 100-tick period).
   */
  lemma ServerComesBack(netOk: bool, first: Ops, start: int, history: seq<Step>, s: Server, rs: seq<Round>, gap: nat, stop: int)
    requires InOrder(history, start) && s == Run(Boot(netOk, first, start), history)
    requires Observing(s) && rs != [] && Finish(history, start) <= rs[0].at
    requires Pending(s) ==> rs[0].at < s.deadline || RestartDue(s, rs[0].at)
    requires GoodRounds(s, rs, gap, stop) && gap < 0x8000_0000 - RETRY
    requires stop - rs[0].at > 15000 + 12 * gap
    ensures ComesIntoService(s, rs)
  {
    RestartIsNeverFarOff(Boot(netOk, first, start), netOk, first, start, history);
    if Pending(s) && rs[0].at < s.deadline {
      LeftAtDistance(s.deadline, rs[0].at);
    }
    OutageIsBounded(s, rs, gap, stop);
    hide GoodRounds, ComesIntoService, Run, Boot, InOrder;
  }

  /** One reading of the socket while the link is up is enough to begin with: it shows service, or the state observed. */
  lemma OneReadingObserves(s: Server, status: u8, at: int)
    requires s.netOk && s.link.known && s.link.previous && s.link.up
    ensures var t := Take(s, Data(Sr(status), at)); InService(t.status) || Observing(t)
  {}

  // ----- That guard is needed -----

  predicate LinkStaysUp(steps: seq<Step>) {
    forall i :: 0 <= i < |steps| && steps[i].Pass? ==> steps[i].link != Link(false)
  }

  /**
   * Until a pending restart is due by the 32-bit test, nothing is tried: whatever the chip answers meanwhile, the
   * restart stays pending for the same time, and the status is the one last read.
   */
  lemma {:induction false} NothingIsTriedBeforeDue(s: Server, steps: seq<Step>, now: int)
    requires s.link.known && s.link.previous && s.link.up && Pending(s) && LinkStaysUp(steps)
    requires InOrder(steps, now) && Finish(steps, now) < now + Left(s.deadline, now)
    ensures var t := Run(s, steps);
            && t.link == s.link && t.recovery == s.recovery && t.lifecycle == s.lifecycle && t.deadline == s.deadline
            && ((forall i :: 0 <= i < |steps| ==> steps[i].Pass? || steps[i].reading in {SrFailed, Sr(s.status)})
                ==> t.status == s.status)
    ensures now <= Finish(steps, now)
  {
    if steps != [] {
      var front, last := steps[..|steps| - 1], steps[|steps| - 1];
      assert Starts(last, Finish(front, now));
      FinishInOrder(front, now);
      NothingIsTriedBeforeDue(s, front, now);
      var t := Run(s, front);
      if last.Pass? {
        assert last.link != Link(false);
        NotDueMeanwhile(s.deadline, now, last.now - now);
        PassBeforeDue(t, last);
      } else {
        ReadingSpares(t, last);
      }
      hide IsDue, Tick, Left, Take, InOrder;
    }
  }

  lemma PassBeforeDue(s: Server, step: Step)
    requires s.link.known && s.link.previous && s.link.up && Pending(s)
    requires step.Pass? && step.link != Link(false) && !RestartDue(s, step.now)
    ensures Take(s, step) == s
  {
    assert SampleLink(s, step.link, step.linkAt) == s by {
      hide Control, RestartDue;
    }
    hide SampleLink, RestartDue, TryRestart, FollowStatus;
  }

  lemma ReadingSpares(s: Server, step: Step)
    requires step.Data?
    ensures var t := Take(s, step);
            && t.link == s.link && t.recovery == s.recovery && t.lifecycle == s.lifecycle && t.deadline == s.deadline
            && (t.status == s.status || step.reading == Sr(t.status))
  {}

  lemma {:induction false} FinishInOrder(steps: seq<Step>, now: int)
    requires InOrder(steps, now)
    ensures now <= Finish(steps, now)
  {
    if steps != [] {
      FinishInOrder(steps[..|steps| - 1], now);
      assert Starts(steps[|steps| - 1], Finish(steps[..|steps| - 1], now));
    }
  }

  lemma NotDueMeanwhile(deadline: int, now: int, d: int)
    requires 0 <= d < Left(deadline, now)
    ensures !IsDue(Tick(now + d), Tick(deadline))
  {
    NotDueIsAhead(Tick(now), Tick(deadline));
    if d > 0 {
      LeftShrinks(deadline, now, d);
    }
    hide Tick, Minus;
  }

  lemma TwoSteps(s: Server, a: Step, b: Step)
    ensures Run(s, [a, b]) == Take(Take(s, a), b)
    ensures forall now :: Starts(a, now) && Starts(b, Finish([a], now)) ==> InOrder([a, b], now)
  {
    hide Take, Starts;
    assert [a, b][..1] == [a] && [a][..0] == [];
    assert Run(s, [a]) == Take(Run(s, []), a);
    forall now | Starts(a, now) && Starts(b, Finish([a], now))
      ensures InOrder([a, b], now)
    {
      assert InOrder([], now) && Finish([], now) == now;
      assert InOrder([a], now);
    }
  }

  /**
   * A run after which the guard fails, and the server stays out of service for another 2^31 ticks: the first start
   * fails, the link is up, and the socket is first read again 2^31 ticks later. The restart then looks 2^31 ticks
   * ahead, and until then a closed, obedient socket is left closed.
   */
  lemma OverdueRestartCanBeMissed(ops: Ops, later: seq<Step>)
    requires !ops.mode && LinkStaysUp(later)
    requires InOrder(later, 0x8000_0000) && Finish(later, 0x8000_0000) < 2 * 0x8000_0000
    requires forall i :: 0 <= i < |later| ==> later[i].Pass? || later[i].reading == Sr(CLOSED)
    ensures var run := [Pass(Link(true), 0, 0, 0, ops), Data(Sr(CLOSED), 0x8000_0000)];
            var s := Run(Boot(true, ops, 0), run);
            && InOrder(run, 0) && Observing(s) && Pending(s) && !RestartDue(s, 0x8000_0000)
            && Run(s, later).status == CLOSED && Pending(Run(s, later))
  {
    var up, read := Pass(Link(true), 0, 0, 0, ops), Data(Sr(CLOSED), 0x8000_0000);
    var run := [up, read];
    var boot := Boot(true, ops, 0);
    var s := Take(Take(boot, up), read);
    TwoSteps(boot, up, read);
    assert Starts(up, 0) && Starts(read, 0);
    assert Observing(s) && Pending(s) && s.deadline == 0 && s.status == CLOSED;
    DueExactly(0, 0x8000_0000);
    hide Run, Take, InOrder, Left, Boot;
    NothingIsTriedBeforeDue(s, later, 0x8000_0000);
  }
}
