/** The health task: when silence on RS-422 is called a timeout, and when it is over. */
module HealthMonitoring {
  import opened Bits
  import opened StreamParsing
  import opened Ticks

  const PERIOD: nat := 100
  const TIMEOUT: nat := 1500

  datatype CommState = CommInit | CommOk | CommTimeout

  datatype Health = Health(state: CommState, timeouts: u32, recoveries: u32)

  const Initial: Health := Health(CommInit, 0, 0)

  /** What the task reads on a wake: the tick, then whether a valid frame was ever seen, then the tick of the last. */
  datatype Sample = Sample(now: u32, hasFrame: bool, lastFrame: u32)

  function EnterTimeout(h: Health): Health {
    if h.state == CommTimeout then h else h.(state := CommTimeout, timeouts := Add32(h.timeouts, 1))
  }

  function EnterOk(h: Health): Health {
    if h.state == CommOk then h
    else h.(state := CommOk, recoveries := if h.state == CommTimeout then Add32(h.recoveries, 1) else h.recoveries)
  }

  function Wake(h: Health, start: u32, s: Sample): Health {
    if s.hasFrame then
      if Minus(s.now, s.lastFrame) >= TIMEOUT then EnterTimeout(h) else EnterOk(h)
    else if Minus(s.now, start) >= TIMEOUT then EnterTimeout(h)
    else h
  }

  class HealthMonitor {
    const startTick: u32
    var state: CommState
    var timeoutCount: u32
    var recoveryCount: u32

    ghost function View(): Health
      reads this
    {
      Health(state, timeoutCount, recoveryCount)
    }

    constructor (startTick: u32)
      ensures this.startTick == startTick && View() == Initial
    {
      this.startTick := startTick;
      state, timeoutCount, recoveryCount := CommInit, 0, 0;
    }

    method OnWake(currentTick: u32, hasValidFrame: bool, lastValidFrameTick: u32)
      modifies this
      ensures View() == Wake(old(View()), startTick, Sample(currentTick, hasValidFrame, lastValidFrameTick))
    {
      if hasValidFrame {
        if Minus(currentTick, lastValidFrameTick) >= TIMEOUT {
          if state != CommTimeout {
            timeoutCount := Add32(timeoutCount, 1);
            state := CommTimeout;
          }
        } else if state != CommOk {
          if state == CommTimeout {
            recoveryCount := Add32(recoveryCount, 1);
          }
          state := CommOk;
        }
      } else if Minus(currentTick, startTick) >= TIMEOUT {
        if state != CommTimeout {
          timeoutCount := Add32(timeoutCount, 1);
          state := CommTimeout;
        }
      }
    }
  }

  // ----- Every run, whatever is sampled -----

  function RunHealth(start: u32, samples: seq<Sample>): Health {
    if samples == [] then Initial
    else Wake(RunHealth(start, samples[..|samples| - 1]), start, samples[|samples| - 1])
  }

  predicate CountsMatch(h: Health) {
    h.timeouts == if h.state == CommTimeout then Add32(h.recoveries, 1) else h.recoveries
  }

  /** Timeouts equal recoveries plus the one in progress, modulo 2^32. */
  lemma {:induction false} TimeoutsMatchRecoveries(start: u32, samples: seq<Sample>)
    ensures CountsMatch(RunHealth(start, samples))
  {
    if samples != [] {
      TimeoutsMatchRecoveries(start, samples[..|samples| - 1]);
    }
  }

  /** How many of the wakes entered TIMEOUT, and how many went from TIMEOUT to OK, by the states between wakes. */
  function Entries(start: u32, samples: seq<Sample>): nat {
    if samples == [] then 0
    else
      var before, after := RunHealth(start, samples[..|samples| - 1]).state, RunHealth(start, samples).state;
      Entries(start, samples[..|samples| - 1]) + if before != CommTimeout && after == CommTimeout then 1 else 0
  }

  function Exits(start: u32, samples: seq<Sample>): nat {
    if samples == [] then 0
    else
      var before, after := RunHealth(start, samples[..|samples| - 1]).state, RunHealth(start, samples).state;
      Exits(start, samples[..|samples| - 1]) + if before == CommTimeout && after == CommOk then 1 else 0
  }

  lemma WakeCounts(h: Health, start: u32, s: Sample)
    ensures var t := Wake(h, start, s);
            && t.timeouts == (if h.state != CommTimeout && t.state == CommTimeout then Add32(h.timeouts, 1) else h.timeouts)
            && t.recoveries == (if h.state == CommTimeout && t.state == CommOk then Add32(h.recoveries, 1) else h.recoveries)
  {
    hide Minus, Add32;
  }

  lemma CountUp(n: nat)
    ensures Add32(n % 0x1_0000_0000, 1) == (n + 1) % 0x1_0000_0000
  {}

  /** In every run each counter counts its own transitions, modulo 2^32, and nothing else. */
  lemma {:induction false} TransitionsAreCounted(start: u32, samples: seq<Sample>)
    ensures RunHealth(start, samples).timeouts == Entries(start, samples) % 0x1_0000_0000
    ensures RunHealth(start, samples).recoveries == Exits(start, samples) % 0x1_0000_0000
  {
    if samples != [] {
      var front := samples[..|samples| - 1];
      TransitionsAreCounted(start, front);
      WakeCounts(RunHealth(start, front), start, samples[|samples| - 1]);
      CountUp(Entries(start, front));
      CountUp(Exits(start, front));
      hide Wake, Add32;
    }
  }

  /** INIT is left for good. */
  lemma {:induction false} InitIsNeverReentered(start: u32, samples: seq<Sample>, more: seq<Sample>)
    requires RunHealth(start, samples).state != CommInit
    ensures RunHealth(start, samples + more).state != CommInit
  {
    if more == [] {
      assert samples + more == samples;
    } else {
      var front := more[..|more| - 1];
      InitIsNeverReentered(start, samples, front);
      assert (samples + more)[..|samples + more| - 1] == samples + front;
    }
  }

  // ----- Against true time -----

  /** What true times N (now) and L (last frame) look like to the task. */
  function SampleAt(n: int, l: int): Sample {
    Sample(Tick(n), true, Tick(l))
  }

  lemma DistanceModulo(n: int, l: int)
    ensures Minus(Tick(n), Tick(l)) == (n - l) % WRAP
  {
    var d, turns := (n - l) % WRAP, (n - l) / WRAP;
    assert n - l == WRAP * turns + d;
    assert n == WRAP * turns + (l + d);
    TickOfSum(turns, l + d);
    TrueDistance(l + d, l);
    hide Tick, Minus;
  }

  /**
   * The verdict of one wake, exactly, for all times: it goes by the age of the last frame modulo 2^32. A frame later
   * than `now` (the tick is read before the frame's tick, and one may arrive in between) counts as nearly 2^32 old;
   * a silence of 2^32 ticks counts as none.
   */
  lemma VerdictExactly(h: Health, start: u32, n: int, l: int)
    ensures Wake(h, start, SampleAt(n, l)).state == CommTimeout <==> (n - l) % WRAP >= 1500
    ensures Wake(h, start, SampleAt(n, l)).state == CommOk <==> (n - l) % WRAP < 1500
  {
    DistanceModulo(n, l);
    hide Tick, Minus;
  }

  /** A frame one tick after the reading of the clock turns a healthy link into a timeout. */
  lemma FreshFrameCanLookLikeTimeout()
    ensures Wake(Health(CommOk, 0, 0), 0, SampleAt(5000, 5001)) == Health(CommTimeout, 1, 0)
  {
    VerdictExactly(Health(CommOk, 0, 0), 0, 5000, 5001);
  }

  /** A silence of 2^32 + 100 ticks ends a timeout, and is counted as a recovery, although no frame has come. */
  lemma LongSilenceCanLookLikeRecovery()
    ensures Wake(Health(CommTimeout, 1, 0), 0, SampleAt(WRAP + 100, 0)) == Health(CommOk, 1, 1)
  {
    VerdictExactly(Health(CommTimeout, 1, 0), 0, WRAP + 100, 0);
  }

  /** Wakes are tick-exact: the k-th (from 0) is at start + 100 * (k + 1). */
  function WakeTime(start: nat, k: nat): nat {
    start + PERIOD * (k + 1)
  }

  /** From wake i on, the last valid frame stays the one at true time l. */
  predicate SilentSince(start: nat, samples: seq<Sample>, i: nat, l: nat) {
    forall k {:trigger samples[k]} :: i <= k < |samples| ==> samples[k] == SampleAt(WakeTime(start, k), l)
  }

  /** What the task says after its k-th wake. */
  function StateAfter(start: nat, samples: seq<Sample>, k: nat): CommState
    requires k < |samples|
  {
    RunHealth(Tick(start), samples[..k + 1]).state
  }

  /** With the link silent after a frame at time l, each wake reports OK before l + 1500 and TIMEOUT from then on. */
  lemma SilenceIsJudgedByAge(start: nat, samples: seq<Sample>, i: nat, l: nat, k: nat)
    requires i <= k < |samples| && SilentSince(start, samples, i, l)
    requires l <= WakeTime(start, i) && WakeTime(start, |samples| - 1) - l < WRAP
    ensures StateAfter(start, samples, k)
            == if WakeTime(start, k) - l >= 1500 then CommTimeout else CommOk
  {
    var upTo := samples[..k + 1];
    assert upTo[..k] == samples[..k] && upTo[k] == samples[k];
    VerdictExactly(RunHealth(Tick(start), samples[..k]), Tick(start), WakeTime(start, k), l);
  }

  /**
   * A silence that begins with the frame at l (the first wake after it being wake i) and lasts is detected at one
   * wake between 1500 and 1599 ticks after l: every wake before it, from i, says OK, and every one from it on TIMEOUT.
   */
  lemma LossIsDetectedInTime(start: nat, samples: seq<Sample>, i: nat, l: nat) returns (detected: nat)
    requires i < |samples| && SilentSince(start, samples, i, l)
    requires WakeTime(start, i) - 100 < l <= WakeTime(start, i)
    requires 1600 <= WakeTime(start, |samples| - 1) - l < WRAP
    ensures i <= detected < |samples|
    ensures l + 1500 <= WakeTime(start, detected) < l + 1600
    ensures forall k :: i <= k < |samples| ==>
              StateAfter(start, samples, k) == if k < detected then CommOk else CommTimeout
  {
    detected := i + (TIMEOUT + PERIOD - 1 - (WakeTime(start, i) - l)) / PERIOD;
    forall k | i <= k < |samples|
      ensures StateAfter(start, samples, k) == if k < detected then CommOk else CommTimeout
    {
      SilenceIsJudgedByAge(start, samples, i, l, k);
    }
  }

  /** No valid frame was seen up to the k-th wake. */
  predicate NoFrameBy(start: nat, samples: seq<Sample>) {
    forall k {:trigger samples[k]} :: 0 <= k < |samples| ==>
      samples[k].now == Tick(WakeTime(start, k)) && !samples[k].hasFrame
  }

  /** Without any frame since start-up, a wake says INIT up to 1499 ticks after it and TIMEOUT for ever after, wrapping or not. */
  lemma {:induction false} NoFrameIsJudgedByUptime(start: nat, samples: seq<Sample>, k: nat)
    requires k < |samples| && NoFrameBy(start, samples)
    ensures StateAfter(start, samples, k) == if WakeTime(start, k) - start < 1500 then CommInit else CommTimeout
  {
    var upTo := samples[..k + 1];
    assert upTo[..k] == samples[..k] && upTo[k] == samples[k];
    TrueDistance(WakeTime(start, k), start);
    hide Tick, Minus;
    if k == 0 {
      assert samples[..0] == [];
    } else {
      NoFrameIsJudgedByUptime(start, samples, k - 1);
      assert samples[..(k - 1) + 1] == samples[..k];
    }
    assert !samples[k].hasFrame && samples[k].now == Tick(WakeTime(start, k));
    assert RunHealth(Tick(start), upTo) == Wake(RunHealth(Tick(start), samples[..k]), Tick(start), samples[k]);
  }
}
