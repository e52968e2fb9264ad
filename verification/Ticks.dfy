/** Kernel ticks: conversions, and deadlines on a 32-bit counter that wraps. */
module Ticks {
  import opened Bits

  const WRAP: int := 0x1_0000_0000

  function Tick(t: int): u32 { t % WRAP }

  /** A 32-bit value read as signed. */
  function Signed(x: u32): int {
    if x < 0x8000_0000 then x else x - WRAP
  }

  function Minus(a: u32, b: u32): u32 { (a - b) % WRAP }

  function Plus(a: u32, b: u32): u32 { (a + b) % WRAP }

  function MsToTicks(ms: u32, frequency: u32): u32 {
    var ticks := (ms * frequency + 999) / 1000 % WRAP;
    if ticks == 0 then 1 else ticks
  }

  /** At the configured 1000 Hz a millisecond is a tick, and nothing waits for no time at all. */
  lemma MsAreTicks(ms: u32)
    ensures MsToTicks(ms, 1000) == if ms == 0 then 1 else ms
  {
    assert (ms * 1000 + 999) / 1000 == ms;
  }

  /** At any frequency, the fewest ticks that last as long, and never none; beyond 32 bits it would wrap. */
  lemma TicksRoundUp(ms: u32, frequency: u32)
    requires ms * frequency + 999 < 1000 * WRAP
    ensures var ticks := MsToTicks(ms, frequency);
            ticks >= 1 && ticks * 1000 >= ms * frequency && (ticks == 1 || (ticks - 1) * 1000 < ms * frequency)
  {
    var product := ms * frequency;
    assert (product + 999) / 1000 * 1000 <= product + 999 < (product + 999) / 1000 * 1000 + 1000;
    assert (product + 999) / 1000 % WRAP == (product + 999) / 1000;
  }

  predicate IsDue(now: u32, deadline: u32) {
    Signed(Minus(now, deadline)) >= 0
  }

  /** Minus undoes a distance, whatever wraps on the way. */
  lemma MinusOfDistance(now: u32, d: int)
    requires 0 <= d < WRAP
    ensures Minus(Tick(now + d), now) == d && Minus(now, Tick(now - d)) == d
  {
    if now + d < WRAP {
      assert Tick(now + d) == now + d;
    } else {
      assert Tick(now + d) == now + d - WRAP;
    }
    if now - d >= 0 {
      assert Tick(now - d) == now - d;
    } else {
      assert Tick(now - d) == now - d + WRAP;
    }
  }

  /** Two true times less than a wrap apart, compared as the counter shows them. */
  lemma TrueDistance(n: int, l: int)
    ensures 0 <= n - l < WRAP ==> Minus(Tick(n), Tick(l)) == n - l
    ensures -WRAP <= n - l < 0 ==> Minus(Tick(n), Tick(l)) == n - l + WRAP
  {
    var d := n - l;
    assert Tick(n) == Tick(Tick(l) + d) by {
      var q := l / WRAP;
      assert n == WRAP * q + (Tick(l) + d);
      TickOfSum(q, Tick(l) + d);
    }
    if 0 <= d < WRAP {
      MinusOfDistance(Tick(l), d);
    } else if -WRAP <= d < 0 {
      MinusOfDistance(Tick(l), d + WRAP);
      assert Tick(l) + (d + WRAP) == WRAP * 1 + (Tick(l) + d);
      TickOfSum(1, Tick(l) + d);
    }
  }

  lemma TickShift(t: int, p: u32)
    ensures Plus(Tick(t), p) == Tick(t + p)
  {
    var q, r := t / WRAP, t % WRAP;
    assert t == WRAP * q + r;
    TickOfSum(q, r + p);
    TickOfSum(0, r + p);
  }

  lemma TickOfSum(q: int, r: int)
    ensures Tick(WRAP * q + r) == Tick(r)
  {}

  lemma TickOfMinus(now: u32, deadline: u32)
    ensures Tick(now - Minus(now, deadline)) == deadline
  {
    if now >= deadline {
      assert Minus(now, deadline) == now - deadline;
    } else {
      assert Minus(now, deadline) == now - deadline + WRAP;
    }
  }

  /**
   * The do-while that moves a deadline past `now`. It ends with the deadline less than or exactly one period
   * ahead, having moved it a whole number of periods, the least that suffices.
   */
  method CatchUp(deadline: u32, period: u32, now: u32) returns (next: u32, ghost periods: nat)
    requires 1 <= period <= 0x8000_0000 && IsDue(now, deadline)
    ensures 0 < Minus(next, now) <= period
    ensures periods >= 1 && next == Tick(deadline + periods * period)
    ensures (periods - 1) * period <= Minus(now, deadline) < periods * period
  {
    // How far the deadline lies behind, unwrapped (negative once it lies ahead), and how far it was moved.
    ghost var late := Minus(now, deadline);
    ghost var lag: int, moved: int, step: int := late, 0, period;
    assert late < 0x8000_0000;
    hide Tick, Minus, Plus, IsDue;
    TickOfMinus(now, deadline);
    next := Plus(deadline, period);
    TickShift(now - lag, period);
    lag, moved, periods := lag - step, moved + step, 1;
    while IsDue(now, next)
      invariant -step <= lag < 0x8000_0000 && next == Tick(now - lag)
      invariant periods >= 1 && lag == late - moved && moved == periods * step
      decreases lag
    {
      LagIsDue(now, lag);
      next := Plus(next, period);
      TickShift(now - lag, period);
      OneMorePeriod(periods, step);
      lag, moved, periods := lag - step, moved + step, periods + 1;
    }
    LagIsDue(now, lag);
    MinusOfDistance(now, -lag);
    WholePeriods(deadline, now, late, moved);
    OneMorePeriod(periods - 1, step);
  }

  lemma OneMorePeriod(periods: nat, step: int)
    ensures (periods + 1) * step == periods * step + step
  {}

  lemma LagIsDue(now: u32, lag: int)
    requires -0x8000_0000 <= lag < 0x8000_0000
    ensures IsDue(now, Tick(now - lag)) <==> lag >= 0
  {
    if lag >= 0 {
      MinusOfDistance(now, lag);
    } else {
      var d := WRAP + lag;
      MinusOfDistance(now, d);
      TickOfSum(-1, now - lag);
      assert now - d == WRAP * -1 + (now - lag);
    }
  }

  lemma WholePeriods(deadline: u32, now: u32, late: u32, moved: int)
    requires late == Minus(now, deadline)
    ensures Tick(now - (late - moved)) == Tick(deadline + moved)
  {
    if now >= deadline {
      assert now - (late - moved) == deadline + moved;
    } else {
      assert now - (late - moved) == WRAP * -1 + (deadline + moved);
      TickOfSum(-1, deadline + moved);
    }
  }

  /** How long the Ethernet task sleeps. */
  function WaitTicks(nextData: u32, nextPhy: u32, now: u32): u32 {
    var data, phy := Signed(Minus(nextData, now)), Signed(Minus(nextPhy, now));
    if data > 0 && phy > 0 then (if data < phy then data else phy) else 0
  }

  /** With both deadlines ahead by less than 2^31, the sleep ends exactly at the earlier one; an overdue one allows no sleep. */
  lemma WaitEndsAtEarlierDeadline(nextData: u32, nextPhy: u32, now: u32)
    ensures var wait := WaitTicks(nextData, nextPhy, now);
            && (0 < Minus(nextData, now) < 0x8000_0000 && 0 < Minus(nextPhy, now) < 0x8000_0000
                ==> wait > 0 && wait <= Minus(nextData, now) && wait <= Minus(nextPhy, now)
                    && (Plus(now, wait) == nextData || Plus(now, wait) == nextPhy))
            && ((IsDue(now, nextData) || IsDue(now, nextPhy)) ==> wait == 0)
  {
    NowPlusMinus(now, nextData);
    NowPlusMinus(now, nextPhy);
    DueIsNotAhead(now, nextData);
    DueIsNotAhead(now, nextPhy);
    hide Minus, Plus, IsDue;
  }

  lemma NowPlusMinus(now: u32, deadline: u32)
    ensures Plus(now, Minus(deadline, now)) == deadline
  {
    if deadline >= now {
      assert Minus(deadline, now) == deadline - now;
    } else {
      assert Minus(deadline, now) == deadline - now + WRAP;
    }
  }

  lemma DueIsNotAhead(now: u32, deadline: u32)
    ensures IsDue(now, deadline) ==> Signed(Minus(deadline, now)) <= 0
  {
    if deadline == now {
      assert Minus(deadline, now) == 0;
    } else if deadline > now {
      assert Minus(deadline, now) == deadline - now && Minus(now, deadline) == now - deadline + WRAP;
    } else {
      assert Minus(deadline, now) == deadline - now + WRAP && Minus(now, deadline) == now - deadline;
    }
  }
}
