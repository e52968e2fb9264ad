/** How the Ethernet task keeps its TCP server listening: the link, the socket's states, restarts and their deadlines. */
module TcpRecovery {
  import opened Bits
  import opened StreamParsing
  import opened Ticks

  const TRANSIENT_TIMEOUT: nat := 3000
  const RETRY: nat := 500
  const STATE_TIMEOUT: nat := 1000

  const CLOSED: u8 := 0x00
  const INIT: u8 := 0x13
  const LISTEN: u8 := 0x14
  const SYNSENT: u8 := 0x15
  const SYNRECV: u8 := 0x16
  const ESTABLISHED: u8 := 0x17
  const FIN_WAIT: u8 := 0x18
  const CLOSING: u8 := 0x1A
  const TIME_WAIT: u8 := 0x1B
  const CLOSE_WAIT: u8 := 0x1C
  const LAST_ACK: u8 := 0x1D

  predicate IsTransient(status: u8) {
    status in {SYNSENT, SYNRECV, FIN_WAIT, CLOSING, TIME_WAIT, LAST_ACK}
  }

  /** States the server sits out, up to a timeout: the transient ones, and CLOSE_WAIT once it has asked to disconnect. */
  predicate MayLast(status: u8) {
    IsTransient(status) || status == CLOSE_WAIT
  }

  // ----- What the chip answers -----

  datatype LinkReading = PhyFailed | Link(up: bool)

  datatype SocketReading = SrFailed | Sr(status: u8)

  /** A polling wait reaches the expected status, or ends without it after reading these others. */
  datatype Wait = Reached | NotReached(seen: seq<u8>)

  /** One turn of a polling wait: what the status register gives, and the tick read after it. */
  datatype Poll = Poll(reading: SocketReading, tick: u32)

  /** What a polling wait begun at `start` meets. Polls that run out stand for a wait that times out. */
  datatype Waiting = Waiting(start: u32, polls: seq<Poll>)

  function Judge(expected: u8, start: u32, polls: seq<Poll>): Wait {
    if polls == [] || polls[0].reading.SrFailed? then NotReached([])
    else
      var status := polls[0].reading.status;
      if status == expected then Reached
      else if Minus(polls[0].tick, start) >= STATE_TIMEOUT then NotReached([status])
      else
        match Judge(expected, start, polls[1..])
        case Reached => Reached
        case NotReached(seen) => NotReached([status] + seen)
  }

  function Outcome(expected: u8, w: Waiting): Wait {
    Judge(expected, w.start, w.polls)
  }

  /** A wait that has read `seen` and then ends as w. */
  function Resumed(seen: seq<u8>, w: Wait): Wait {
    match w
    case Reached => Reached
    case NotReached(more) => NotReached(seen + more)
  }

  lemma JudgeStep(seen: seq<u8>, expected: u8, start: u32, polls: seq<Poll>)
    ensures Resumed(seen, Judge(expected, start, polls))
            == if polls == [] || polls[0].reading.SrFailed? then NotReached(seen)
               else if polls[0].reading.status == expected then Reached
               else if Minus(polls[0].tick, start) >= STATE_TIMEOUT then NotReached(seen + [polls[0].reading.status])
               else Resumed(seen + [polls[0].reading.status], Judge(expected, start, polls[1..]))
  {
    hide Minus;
    assert seen + [] == seen;
    if polls != [] && polls[0].reading.Sr? {
      match Judge(expected, start, polls[1..])
      case Reached =>
      case NotReached(more) =>
        assert seen + ([polls[0].reading.status] + more) == seen + [polls[0].reading.status] + more;
    }
  }

  lemma NothingSeen(w: Wait)
    ensures Resumed([], w) == w
  {
    if w.NotReached? {
      assert [] + w.seen == w.seen;
    }
  }

  /** The poll lets the wait go on. */
  predicate GoesOn(expected: u8, start: u32, poll: Poll) {
    poll.reading.Sr? && poll.reading.status != expected && Minus(poll.tick, start) < 1000
  }

  predicate ReachesAt(expected: u8, w: Waiting, k: nat) {
    && k < |w.polls| && w.polls[k].reading == Sr(expected)
    && forall j :: 0 <= j < k ==> GoesOn(expected, w.start, w.polls[j])
  }

  /** A wait succeeds exactly when some poll reads the expected status and every one before it let the wait go on. */
  lemma {:induction false} WaitReachesIff(expected: u8, w: Waiting)
    ensures Outcome(expected, w).Reached? <==> exists k :: ReachesAt(expected, w, k)
    decreases |w.polls|
  {
    hide Minus;
    if w.polls != [] {
      var rest := Waiting(w.start, w.polls[1..]);
      WaitReachesIff(expected, rest);
      if w.polls[0].reading == Sr(expected) {
        assert ReachesAt(expected, w, 0);
      }
      forall k: nat | ReachesAt(expected, rest, k) && GoesOn(expected, w.start, w.polls[0])
        ensures ReachesAt(expected, w, k + 1)
      {}
      forall k: nat | ReachesAt(expected, w, k) && k > 0
        ensures ReachesAt(expected, rest, k - 1)
      {
        forall j | 0 <= j < k - 1
          ensures GoesOn(expected, w.start, rest.polls[j])
        {
          assert GoesOn(expected, w.start, w.polls[j + 1]);
        }
      }
    }
  }

  /** What the operations on socket 0 meet during one control pass. */
  datatype Ops = Ops(
    close: bool, closed: Waiting, mode: bool, port: bool, open: bool, init: Waiting,
    listen: bool, listening: Waiting, disconnect: bool)

  // ----- State -----

  datatype LinkState = LinkState(known: bool, established: bool, previous: bool, up: bool, downs: u32, recoveries: u32)

  /**
   * `deadline` and `entered` are next_tcp_restart_tick and socket_state_enter_tick without their wrap-around:
   * the program holds Tick(deadline) and Tick(entered), and decides by those.
   */
  datatype Server = Server(
    netOk: bool, link: LinkState, status: u8, spiOk: bool,
    recovery: bool, lifecycle: bool, graceful: bool, known: bool, previous: u8,
    entered: int, deadline: int)

  // ----- Socket operations -----

  function AfterWait(s: Server, expected: u8, w: Wait): Server {
    match w
    case Reached => s.(status := expected, spiOk := true)
    case NotReached(seen) => s.(status := if seen == [] then s.status else seen[|seen| - 1], spiOk := false)
  }

  function ListenOk(ops: Ops): bool { ops.listen && Outcome(LISTEN, ops.listening).Reached? }

  function Listened(s: Server, ops: Ops): Server {
    if ops.listen then AfterWait(s, LISTEN, Outcome(LISTEN, ops.listening)) else s.(spiOk := false)
  }

  function StartOk(ops: Ops): bool { ops.mode && ops.port && ops.open && Outcome(INIT, ops.init).Reached? && ListenOk(ops) }

  function Started(s: Server, ops: Ops): Server {
    if !(ops.mode && ops.port && ops.open) then s.(spiOk := false)
    else
      var t := AfterWait(s, INIT, Outcome(INIT, ops.init));
      if Outcome(INIT, ops.init).Reached? then Listened(t, ops) else t
  }

  function RestartOk(ops: Ops): bool { ops.close && Outcome(CLOSED, ops.closed).Reached? && StartOk(ops) }

  function Restarted(s: Server, ops: Ops): Server {
    if !ops.close then s.(spiOk := false)
    else
      var t := AfterWait(s, CLOSED, Outcome(CLOSED, ops.closed));
      if Outcome(CLOSED, ops.closed).Reached? then Started(t, ops) else t
  }

  // ----- Steps -----

  function LinkLost(s: Server): Server {
    if s.link.established then
      s.(link := s.link.(downs := Add32(s.link.downs, 1)), recovery := true, lifecycle := false, graceful := false, known := false)
    else s
  }

  function LinkBack(s: Server, now: int): Server {
    if !s.link.established then s.(link := s.link.(established := true), deadline := now)
    else if s.recovery then s.(link := s.link.(recoveries := Add32(s.link.recoveries, 1)), deadline := now)
    else s
  }

  function SampleLink(s: Server, reading: LinkReading, now: int): Server {
    match reading
    case PhyFailed => s
    case Link(up) =>
      var t :=
        if !s.link.known then s.(link := s.link.(known := true, established := s.link.established || up))
        else if up == s.link.previous then s
        else if up then LinkBack(s, now)
        else LinkLost(s);
      t.(link := t.link.(up := up, previous := up))
  }

  predicate RestartDue(s: Server, now: int) {
    IsDue(Tick(now), Tick(s.deadline))
  }

  predicate StateTimedOut(s: Server, now: int) {
    Minus(Tick(now), Tick(s.entered)) >= TRANSIENT_TIMEOUT
  }

  function NowListening(s: Server, end: int): Server {
    s.(graceful := false, known := true, previous := LISTEN, entered := end)
  }

  /** A restart that was waiting is tried: it succeeds and nothing is pending, or is put off. */
  function TryRestart(s: Server, ops: Ops, end: int): Server {
    var t := Restarted(s, ops);
    if RestartOk(ops) then NowListening(t.(recovery := false, lifecycle := false), end)
    else t.(deadline := end + RETRY, known := false)
  }

  function Disconnected(s: Server, ops: Ops, end: int): Server {
    if ops.disconnect then s.(spiOk := true, graceful := true, entered := end)
    else s.(spiOk := false, lifecycle := true, deadline := end + RETRY)
  }

  function GiveUp(s: Server, now: int): Server {
    s.(lifecycle := true, deadline := now, graceful := false)
  }

  /** What the server does about the status it sampled, with no restart waiting. */
  function FollowStatus(s: Server, ops: Ops, now: int, end: int): Server {
    if s.status == ESTABLISHED || s.status == LISTEN then s.(graceful := false)
    else if s.status == CLOSE_WAIT && !s.graceful then Disconnected(s, ops, end)
    else if s.status == CLOSED then
      if StartOk(ops) then NowListening(Started(s, ops), end)
      else Started(s, ops).(lifecycle := true, deadline := end + RETRY, known := false)
    else if s.status == INIT then
      if ListenOk(ops) then NowListening(Listened(s, ops), end)
      else Listened(s, ops).(lifecycle := true, deadline := end + RETRY, known := false)
    else if !MayLast(s.status) || StateTimedOut(s, now) then GiveUp(s, now)
    else s
  }

  function Control(s: Server, ops: Ops, now: int, end: int): Server {
    if !s.netOk || !s.spiOk || !s.link.up then s
    else if s.recovery || s.lifecycle then (if RestartDue(s, now) then TryRestart(s, ops, end) else s)
    else FollowStatus(s, ops, now, end)
  }

  function NoteState(s: Server, now: int): Server {
    if !s.known || s.status != s.previous then s.(known := true, previous := s.status, entered := now) else s
  }

  function SampleSocket(s: Server, reading: SocketReading, now: int): Server {
    if !s.netOk || !s.link.up then s
    else
      match reading
      case SrFailed => s.(spiOk := false)
      case Sr(status) =>
        NoteState(s.(spiOk := true, status := status, graceful := s.graceful && status != ESTABLISHED), now)
  }

  /** One pass of the control service (link, then server), or one reading by the data service. */
  datatype Step =
    | Pass(link: LinkReading, linkAt: int, now: int, end: int, ops: Ops)
    | Data(reading: SocketReading, now: int)

  function Take(s: Server, step: Step): Server {
    match step
    case Pass(link, linkAt, now, end, ops) => Control(SampleLink(s, link, linkAt), ops, now, end)
    case Data(reading, now) => SampleSocket(s, reading, now)
  }

  function Run(s: Server, steps: seq<Step>): Server {
    if steps == [] then s else Take(Run(s, steps[..|steps| - 1]), steps[|steps| - 1])
  }

  /** The task's state as it enters its loop at `now`, the first start of the server having turned out thus. */
  function Boot(netOk: bool, ops: Ops, now: int): Server {
    var s := Server(netOk, LinkState(false, false, false, false, 0, 0), CLOSED, false,
                    false, false, false, false, CLOSED, now, now);
    if !netOk then s else Started(s, ops).(lifecycle := !StartOk(ops))
  }

  // ----- The task's variables -----

  class TcpServer {
    const netOk: bool
    var linkKnown: bool
    var wasEstablished: bool
    var previousLinkUp: bool
    var linkUp: bool
    var linkDownCount: u32
    var linkRecoveryCount: u32
    var socketStatus: u8
    var socketSpiOk: bool
    var recoveryPending: bool
    var lifecyclePending: bool
    var gracefulPending: bool
    var stateKnown: bool
    var previousStatus: u8
    var stateEnterTick: u32
    var nextRestartTick: u32
    ghost var entered: int
    ghost var deadline: int

    ghost predicate Valid()
      reads this
    {
      stateEnterTick == Tick(entered) && nextRestartTick == Tick(deadline)
    }

    ghost function View(): Server
      reads this
    {
      Server(netOk, LinkState(linkKnown, wasEstablished, previousLinkUp, linkUp, linkDownCount, linkRecoveryCount),
             socketStatus, socketSpiOk, recoveryPending, lifecyclePending, gracefulPending, stateKnown, previousStatus,
             entered, deadline)
    }

    /** Up to the loop: the variables are cleared and, with the network configured, the server is started. */
    constructor (netOk: bool, ops: Ops, tick: u32, ghost now: int)
      requires tick == Tick(now)
      ensures Valid() && View() == Boot(netOk, ops, now)
    {
      this.netOk := netOk;
      linkKnown, wasEstablished, previousLinkUp, linkUp, linkDownCount, linkRecoveryCount := false, false, false, false, 0, 0;
      socketStatus, socketSpiOk, recoveryPending, lifecyclePending, gracefulPending := CLOSED, false, false, false, false;
      stateKnown, previousStatus, stateEnterTick, nextRestartTick := false, CLOSED, tick, tick;
      entered, deadline := now, now;
      new;
      hide Tick, Started, StartOk;
      if netOk {
        var ok := Start(ops);
        if !ok {
          lifecyclePending := true;
        }
      }
    }

    /** The loop of w5500_wait_for_socket0_status; its callers record its result as the validity of the reading. */
    method WaitForStatus(expected: u8, w: Waiting) returns (ok: bool)
      modifies `socketStatus, `socketSpiOk
      ensures ok == Outcome(expected, w).Reached? && View() == AfterWait(old(View()), expected, Outcome(expected, w))
    {
      hide Minus, Judge, Resumed;
      ghost var seen: seq<u8> := [];
      NothingSeen(Outcome(expected, w));
      assert w.polls[0..] == w.polls;
      var i := 0;
      while i < |w.polls|
        invariant 0 <= i <= |w.polls|
        invariant socketStatus == if seen == [] then old(socketStatus) else seen[|seen| - 1]
        invariant Outcome(expected, w) == Resumed(seen, Judge(expected, w.start, w.polls[i..]))
      {
        var poll := w.polls[i];
        JudgeStep(seen, expected, w.start, w.polls[i..]);
        assert w.polls[i..][1..] == w.polls[i + 1..];
        socketSpiOk := poll.reading.Sr?;
        if poll.reading.SrFailed? {
          return false;
        }
        socketStatus := poll.reading.status;
        if poll.reading.status == expected {
          return true;
        }
        if Minus(poll.tick, w.start) >= STATE_TIMEOUT {
          socketSpiOk := false;
          return false;
        }
        seen := seen + [poll.reading.status];
        i := i + 1;
      }
      JudgeStep(seen, expected, w.start, w.polls[i..]);
      socketSpiOk := false;
      return false;
    }

    method Listen(ops: Ops) returns (ok: bool)
      modifies `socketStatus, `socketSpiOk
      ensures ok == ListenOk(ops) && View() == Listened(old(View()), ops)
    {
      ok, socketSpiOk := ops.listen, ops.listen;
      if ok {
        ok := WaitForStatus(LISTEN, ops.listening);
      }
    }

    method Start(ops: Ops) returns (ok: bool)
      modifies `socketStatus, `socketSpiOk
      ensures ok == StartOk(ops) && View() == Started(old(View()), ops)
    {
      ok := ops.mode;
      if ok {
        ok := ops.port;
      }
      if ok {
        ok := ops.open;
      }
      socketSpiOk := ok;
      if ok {
        ok := WaitForStatus(INIT, ops.init);
      }
      if ok {
        ok := Listen(ops);
      }
    }

    method Restart(ops: Ops) returns (ok: bool)
      modifies `socketStatus, `socketSpiOk
      ensures ok == RestartOk(ops) && View() == Restarted(old(View()), ops)
    {
      ok, socketSpiOk := ops.close, ops.close;
      if ok {
        ok := WaitForStatus(CLOSED, ops.closed);
      }
      if ok {
        ok := Start(ops);
      }
    }

    method NoteLinkLost()
      requires Valid()
      modifies this
      ensures Valid() && View() == LinkLost(old(View()))
    {
      hide Tick, Add32;
      if wasEstablished {
        linkDownCount := Add32(linkDownCount, 1);
        recoveryPending, lifecyclePending, gracefulPending, stateKnown := true, false, false, false;
      }
    }

    method NoteLinkBack(tick: u32, ghost now: int)
      requires Valid() && tick == Tick(now)
      modifies this
      ensures Valid() && View() == LinkBack(old(View()), now)
    {
      hide Tick, Add32;
      if !wasEstablished {
        wasEstablished := true;
        nextRestartTick, deadline := tick, now;
      } else if recoveryPending {
        linkRecoveryCount := Add32(linkRecoveryCount, 1);
        nextRestartTick, deadline := tick, now;
      }
    }

    /** The link part of the control pass. */
    method ReadLink(reading: LinkReading, tick: u32, ghost now: int)
      requires Valid() && tick == Tick(now)
      modifies this
      ensures Valid() && View() == SampleLink(old(View()), reading, now)
    {
      hide Tick, LinkLost, LinkBack;
      match reading
      case PhyFailed =>
      case Link(up) =>
        if !linkKnown {
          linkKnown, wasEstablished := true, wasEstablished || up;
        } else if up != previousLinkUp {
          if up {
            NoteLinkBack(tick, now);
          } else {
            NoteLinkLost();
          }
        }
        linkUp, previousLinkUp := up, up;
    }

    method NoteListening(tick: u32, ghost now: int)
      requires Valid() && tick == Tick(now)
      modifies this
      ensures Valid() && View() == NowListening(old(View()), now)
    {
      hide Tick;
      gracefulPending, stateKnown, previousStatus := false, true, LISTEN;
      stateEnterTick, entered := tick, now;
    }

    method ScheduleRestart(tick: u32, ghost now: int)
      requires Valid() && tick == Tick(now)
      modifies `nextRestartTick, `deadline
      ensures Valid() && View() == old(View()).(deadline := now + RETRY)
    {
      TickShift(now, RETRY);
      nextRestartTick, deadline := Plus(tick, RETRY), now + RETRY;
    }

    /** The server part of the control pass. */
    method Serve(ops: Ops, tick: u32, endTick: u32, ghost now: int, ghost end: int)
      requires Valid() && tick == Tick(now) && endTick == Tick(end)
      modifies this
      ensures Valid() && View() == Control(old(View()), ops, now, end)
    {
      hide IsDue, Minus, Plus, Tick, Restarted, Started, Listened, RestartOk, StartOk, ListenOk, IsTransient;
      if !netOk || !socketSpiOk || !linkUp {
        return;
      }
      if recoveryPending || lifecyclePending {
        if IsDue(tick, nextRestartTick) {
          var ok := Restart(ops);
          if ok {
            recoveryPending, lifecyclePending := false, false;
            NoteListening(endTick, end);
          } else {
            ScheduleRestart(endTick, end);
            stateKnown := false;
          }
        }
      } else {
        Follow(ops, tick, endTick, now, end);
      }
    }

    method Disconnect(ops: Ops, endTick: u32, ghost end: int)
      requires Valid() && endTick == Tick(end)
      modifies this
      ensures Valid() && View() == Disconnected(old(View()), ops, end)
    {
      hide Tick;
      socketSpiOk := ops.disconnect;
      if ops.disconnect {
        gracefulPending := true;
        stateEnterTick, entered := endTick, end;
      } else {
        lifecyclePending := true;
        ScheduleRestart(endTick, end);
      }
    }

    method Abandon(tick: u32, ghost now: int)
      requires Valid() && tick == Tick(now)
      modifies this
      ensures Valid() && View() == GiveUp(old(View()), now)
    {
      hide Tick;
      lifecyclePending, gracefulPending := true, false;
      nextRestartTick, deadline := tick, now;
    }

    /** After an attempt to bring the server up: it listens, or is to be restarted. */
    method Conclude(ok: bool, endTick: u32, ghost end: int)
      requires Valid() && endTick == Tick(end)
      modifies this
      ensures Valid()
      ensures View() == if ok then NowListening(old(View()), end)
                        else old(View()).(lifecycle := true, deadline := end + RETRY, known := false)
    {
      hide Tick;
      if ok {
        NoteListening(endTick, end);
      } else {
        lifecyclePending, stateKnown := true, false;
        ScheduleRestart(endTick, end);
      }
    }

    method Follow(ops: Ops, tick: u32, endTick: u32, ghost now: int, ghost end: int)
      requires Valid() && tick == Tick(now) && endTick == Tick(end)
      modifies this
      ensures Valid() && View() == FollowStatus(old(View()), ops, now, end)
    {
      hide Minus, Tick, Started, Listened, StartOk, ListenOk, MayLast, Disconnected, NowListening, GiveUp;
      if socketStatus == ESTABLISHED || socketStatus == LISTEN {
        gracefulPending := false;
      } else if socketStatus == CLOSE_WAIT && !gracefulPending {
        Disconnect(ops, endTick, end);
      } else if socketStatus == CLOSED {
        var ok := Start(ops);
        Conclude(ok, endTick, end);
      } else if socketStatus == INIT {
        var ok := Listen(ops);
        Conclude(ok, endTick, end);
      } else if !MayLast(socketStatus) || Minus(tick, stateEnterTick) >= TRANSIENT_TIMEOUT {
        Abandon(tick, now);
      }
    }

    method TrackState(tick: u32, ghost now: int)
      requires Valid() && tick == Tick(now)
      modifies this
      ensures Valid() && View() == NoteState(old(View()), now)
    {
      hide Tick;
      if !stateKnown || socketStatus != previousStatus {
        stateKnown, previousStatus := true, socketStatus;
        stateEnterTick, entered := tick, now;
      }
    }

    /** The data service reads the socket's status. */
    method ReadSocket(reading: SocketReading, tick: u32, ghost now: int)
      requires Valid() && tick == Tick(now)
      modifies this
      ensures Valid() && View() == SampleSocket(old(View()), reading, now)
    {
      hide Tick, NoteState;
      if !netOk || !linkUp {
        return;
      }
      socketSpiOk := reading.Sr?;
      if reading.Sr? {
        socketStatus := reading.status;
        gracefulPending := gracefulPending && reading.status != ESTABLISHED;
        TrackState(tick, now);
      }
    }
  }
}
