/** The two interrupt-to-task byte rings, and the one bounded FIFO that both of them are. */
module RxRings {
  import opened Bits
  import opened StreamParsing

  const SLOTS: nat := 512

  /** The gateway's ring counts with free-running 16-bit indices, the node's with indices that wrap by comparison. */
  datatype Ring =
    | FreeRunning(storage: seq<u8>, head: u16, tail: u16)
    | CompareWrapped(storage: seq<u8>, head: u16, tail: u16)

  /** The second ring keeps one slot empty. */
  function Capacity(r: Ring): nat {
    match r
    case FreeRunning(_, _, _) => SLOTS
    case CompareWrapped(_, _, _) => SLOTS - 1
  }

  function Occupancy(r: Ring): nat {
    match r
    case FreeRunning(_, head, tail) => (head - tail) % 0x1_0000
    case CompareWrapped(_, head, tail) => (head - tail) % SLOTS
  }

  predicate Sound(r: Ring) {
    && |r.storage| == SLOTS && Occupancy(r) <= Capacity(r)
    && (r.CompareWrapped? ==> r.head < SLOTS && r.tail < SLOTS)
  }

  /** The bytes waiting, oldest first. */
  function Contents(r: Ring): (s: seq<u8>)
    requires Sound(r)
    ensures |s| == Occupancy(r)
  {
    seq(Occupancy(r), i requires 0 <= i < Occupancy(r) => r.storage[(r.tail + i) % SLOTS])
  }

  function NextIndex(r: Ring, index: u16): u16 {
    match r
    case FreeRunning(_, _, _) => (index + 1) % 0x1_0000
    case CompareWrapped(_, _, _) => if index + 1 >= SLOTS then 0 else index + 1
  }

  predicate IsFull(r: Ring) {
    match r
    case FreeRunning(_, head, tail) => (head - tail) % 0x1_0000 >= SLOTS
    case CompareWrapped(_, head, tail) => NextIndex(r, head) == tail
  }

  /** The interrupt's step: whether the byte was stored. */
  function PushIsr(r: Ring, b: u8): (Ring, bool)
    requires Sound(r)
  {
    if IsFull(r) then (r, false)
    else (r.(storage := r.storage[r.head % SLOTS := b], head := NextIndex(r, r.head)), true)
  }

  // ----- Index arithmetic -----

  lemma OccupancyFacts(r: Ring)
    requires Sound(r)
    ensures IsFull(r) <==> Occupancy(r) == Capacity(r)
    ensures r.head == r.tail <==> Occupancy(r) == 0
    ensures (r.tail + Occupancy(r)) % SLOTS == r.head % SLOTS
  {}

  lemma SlotsDiffer(tail: nat, i: nat, n: nat)
    requires i < n < SLOTS
    ensures (tail + i) % SLOTS != (tail + n) % SLOTS
  {}

  lemma HeadAdvances(r: Ring)
    requires Sound(r) && !IsFull(r)
    ensures Occupancy(r.(head := NextIndex(r, r.head))) == Occupancy(r) + 1
  {
    if r.FreeRunning? {
      FreeDistanceGrows(r.head, r.tail);
    } else {
      WrappedDistanceGrows(r.head, r.tail);
    }
  }

  lemma FreeDistanceGrows(head: u16, tail: u16)
    requires (head - tail) % 0x1_0000 < 0xFFFF
    ensures ((head + 1) % 0x1_0000 - tail) % 0x1_0000 == (head - tail) % 0x1_0000 + 1
  {
    if head < 0xFFFF {
      assert (head + 1) % 0x1_0000 == head + 1;
    } else {
      assert (head + 1) % 0x1_0000 == 0;
    }
  }

  lemma WrappedDistanceGrows(head: u16, tail: u16)
    requires head < SLOTS && tail < SLOTS
    requires (if head + 1 >= SLOTS then 0 else head + 1) != tail
    ensures ((if head + 1 >= SLOTS then 0 else head + 1) - tail) % SLOTS == (head - tail) % SLOTS + 1
  {}

  lemma TailAdvances(r: Ring)
    requires Sound(r) && r.head != r.tail
    ensures Occupancy(r.(tail := NextIndex(r, r.tail))) == Occupancy(r) - 1
    ensures r.CompareWrapped? ==> NextIndex(r, r.tail) < SLOTS
  {
    if r.FreeRunning? {
      FreeDistance(r.head, r.tail);
    } else {
      WrappedDistance(r.head, r.tail);
    }
  }

  lemma FreeDistance(head: u16, tail: u16)
    requires head != tail
    ensures (head - (tail + 1) % 0x1_0000) % 0x1_0000 == (head - tail) % 0x1_0000 - 1
  {
    if head > tail {
      assert (tail + 1) % 0x1_0000 == tail + 1;
    } else if tail == 0xFFFF {
      assert (tail + 1) % 0x1_0000 == 0;
    }
  }

  lemma WrappedDistance(head: u16, tail: u16)
    requires head != tail && head < SLOTS && tail < SLOTS
    ensures (head - if tail + 1 >= SLOTS then 0 else tail + 1) % SLOTS == (head - tail) % SLOTS - 1
  {}

  lemma NextSlot(r: Ring, i: nat)
    requires Sound(r)
    ensures (NextIndex(r, r.tail) + i) % SLOTS == (r.tail + (i + 1)) % SLOTS
  {}

  lemma PushAppends(r: Ring, b: u8)
    requires Sound(r)
    ensures var (r', stored) := PushIsr(r, b);
            && Sound(r') && Capacity(r') == Capacity(r) && r'.tail == r.tail
            && (stored <==> |Contents(r)| < if r.FreeRunning? then 512 else 511)
            && Contents(r') == if stored then Contents(r) + [b] else Contents(r)
  {
    OccupancyFacts(r);
    if !IsFull(r) {
      HeadAdvances(r);
      var n := Occupancy(r);
      var r' := PushIsr(r, b).0;
      assert Sound(r');
      forall i | 0 <= i < n
        ensures Contents(r')[i] == Contents(r)[i]
      {
        SlotsDiffer(r.tail, i, n);
      }
      assert Contents(r') == Contents(r) + [b];
    }
  }

  lemma PopTakesFirst(r: Ring)
    requires Sound(r) && r.head != r.tail
    ensures var r' := r.(tail := NextIndex(r, r.tail));
            && Sound(r') && Capacity(r') == Capacity(r)
            && Contents(r) == [r.storage[r.tail % SLOTS]] + Contents(r')
  {
    OccupancyFacts(r);
    TailAdvances(r);
    var r' := r.(tail := NextIndex(r, r.tail));
    assert Sound(r');
    var n := Occupancy(r');
    forall i | 0 <= i < n
      ensures Contents(r')[i] == Contents(r)[i + 1]
    {
      NextSlot(r, i);
      hide IsFull, NextIndex, Occupancy;
    }
    hide IsFull, NextIndex, Occupancy, Sound;
  }

  // ----- A pop interrupted anywhere -----

  /** Where the task is inside a pop: not popping; past the emptiness test; holding the byte, tail not yet published. */
  datatype Pop = Idle | Checked(at: u16) | Holding(at: u16, byte: u8)

  /** A ring in use, and what has happened to it: attempted pushes, stored bytes, popped bytes, dropped bytes. */
  datatype Use = Use(ring: Ring, pop: Pop, attempts: nat, stored: seq<u8>, popped: seq<u8>, dropped: nat)

  datatype Act = Push(b: u8) | PopStep

  function Step(u: Use, act: Act): Use
    requires Sound(u.ring)
  {
    match act
    case Push(b) =>
      var (r, ok) := PushIsr(u.ring, b);
      if ok then u.(ring := r, attempts := u.attempts + 1, stored := u.stored + [b])
      else u.(attempts := u.attempts + 1, dropped := u.dropped + 1)
    case PopStep =>
      match u.pop
      case Idle => if u.ring.tail == u.ring.head then u else u.(pop := Checked(u.ring.tail))
      case Checked(at) => u.(pop := Holding(at, u.ring.storage[at % SLOTS]))
      case Holding(at, b) => u.(ring := u.ring.(tail := NextIndex(u.ring, at)), pop := Idle, popped := u.popped + [b])
  }

  /** The bounded FIFO: bytes go in unless it is full, and come out in order. */
  datatype Fifo = Fifo(capacity: nat, items: seq<u8>)

  function FifoPush(f: Fifo, b: u8): Fifo {
    if |f.items| < f.capacity then f.(items := f.items + [b]) else f
  }

  function AsFifo(r: Ring): Fifo
    requires Sound(r)
  {
    Fifo(Capacity(r), Contents(r))
  }

  /** Holds between any two steps, pops half done included. */
  predicate Consistent(u: Use) {
    && Sound(u.ring)
    && u.stored == u.popped + Contents(u.ring)
    && u.attempts == |u.stored| + u.dropped
    && match u.pop
       case Idle => true
       case Checked(at) => at == u.ring.tail && at != u.ring.head
       case Holding(at, b) => at == u.ring.tail && at != u.ring.head && b == u.ring.storage[at % SLOTS]
  }

  /** Every step is a FIFO push, a FIFO take of the oldest byte, or nothing. */
  lemma StepRefinesFifo(u: Use, act: Act)
    requires Consistent(u)
    ensures var v := Step(u, act);
            && Consistent(v) && Capacity(v.ring) == Capacity(u.ring)
            && match act
               case Push(b) => AsFifo(v.ring) == FifoPush(AsFifo(u.ring), b) && v.popped == u.popped
               case PopStep =>
                 if u.pop.Holding? then
                   Contents(u.ring) == [u.pop.byte] + Contents(v.ring) && v.popped == u.popped + [u.pop.byte]
                 else v.ring == u.ring && v.popped == u.popped
  {
    match act
    case Push(b) => PushKeepsConsistent(u, b);
    case PopStep =>
      if u.pop.Holding? {
        PopTakesFirst(u.ring);
        hide Contents, Occupancy, NextIndex, Sound, IsFull;
        assert u.popped + ([u.pop.byte] + Contents(Step(u, act).ring)) == (u.popped + [u.pop.byte]) + Contents(Step(u, act).ring);
      }
  }

  /** A pop that nothing interrupts: three steps take the oldest byte, if there is one. */
  lemma UninterruptedPop(u: Use)
    requires Consistent(u) && u.pop.Idle?
    ensures if Contents(u.ring) == [] then Step(u, PopStep) == u && u.ring.head == u.ring.tail
            else
              var held := Step(Step(u, PopStep), PopStep);
              && u.ring.head != u.ring.tail && Step(u, PopStep).pop.Checked? && held.pop.Holding?
              && Consistent(Step(u, PopStep)) && Consistent(held) && held.pop.byte == Contents(u.ring)[0]
              && var v := Step(held, PopStep);
                 && Consistent(v) && v.pop.Idle? && Contents(v.ring) == Contents(u.ring)[1..]
                 && v.popped == u.popped + [Contents(u.ring)[0]] && v.attempts == u.attempts && v.dropped == u.dropped
  {
    OccupancyFacts(u.ring);
    if Contents(u.ring) != [] {
      var checked := Step(u, PopStep);
      var held := Step(checked, PopStep);
      StepRefinesFifo(u, PopStep);
      StepRefinesFifo(checked, PopStep);
      StepRefinesFifo(held, PopStep);
      hide Contents, Occupancy, NextIndex, Sound, IsFull;
    }
  }

  lemma PushKeepsConsistent(u: Use, b: u8)
    requires Consistent(u)
    ensures var v := Step(u, Push(b));
            && Consistent(v) && Capacity(v.ring) == Capacity(u.ring) && v.popped == u.popped
            && AsFifo(v.ring) == FifoPush(AsFifo(u.ring), b)
  {
    var v := Step(u, Push(b));
    PushAppends(u.ring, b);
    OccupancyFacts(u.ring);
    PushSparesTail(u.ring, b);
    hide Contents, Occupancy, NextIndex, Sound, IsFull, PushIsr;
    assert u.popped + (Contents(u.ring) + [b]) == u.popped + Contents(u.ring) + [b];
  }

  /** A push neither overwrites the oldest byte nor makes the ring look empty. */
  lemma PushSparesTail(r: Ring, b: u8)
    requires Sound(r)
    ensures var r' := PushIsr(r, b).0;
            r.head != r.tail ==> r'.head != r'.tail && r'.storage[r'.tail % SLOTS] == r.storage[r.tail % SLOTS]
  {
    PushAppends(r, b);
    OccupancyFacts(r);
    OccupancyFacts(PushIsr(r, b).0);
    if r.head != r.tail {
      assert Contents(r)[0] == Contents(PushIsr(r, b).0)[0];
    }
  }

  function RunUse(u: Use, acts: seq<Act>): (v: Use)
    requires Consistent(u)
    ensures Consistent(v) && Capacity(v.ring) == Capacity(u.ring)
    decreases |acts|
  {
    if acts == [] then u
    else
      StepRefinesFifo(u, acts[0]);
      RunUse(Step(u, acts[0]), acts[1..])
  }

  predicate IsEmptyRing(r: Ring) {
    |r.storage| == SLOTS && r.head == r.tail == 0
  }

  /** From an empty ring, under any interleaving: bytes come out in the order stored, and none goes missing uncounted. */
  lemma RingsNeverLoseCount(r: Ring, acts: seq<Act>)
    requires IsEmptyRing(r)
    ensures Sound(r) && Consistent(Use(r, Idle, 0, [], [], 0))
    ensures var u := RunUse(Use(r, Idle, 0, [], [], 0), acts);
            && u.popped <= u.stored
            && u.attempts == |u.popped| + Occupancy(u.ring) + u.dropped
            && Occupancy(u.ring) <= if r.FreeRunning? then 512 else 511
  {
    var u0 := Use(r, Idle, 0, [], [], 0);
    assert Contents(r) == [];
    var u := RunUse(u0, acts);
    assert Capacity(u.ring) == Capacity(r);
  }

  // ----- The two structures, updated in place -----

  class GatewayRxRing {
    const storage: array<u8>
    var head: u16
    var tail: u16
    var overflowCount: u32

    ghost function View(): Ring
      reads this, storage
    {
      FreeRunning(storage[..], head, tail)
    }

    ghost predicate Valid()
      reads this, storage
    {
      Sound(View())
    }

    constructor ()
      ensures Valid() && Contents(View()) == [] && overflowCount == 0 && fresh(storage)
    {
      storage := new u8[SLOTS](_ => 0);
      head, tail, overflowCount := 0, 0, 0;
    }

    method PushFromIsr(byte: u8)
      requires Valid()
      modifies this, storage
      ensures Valid() && View() == PushIsr(old(View()), byte).0 && tail == old(tail)
      ensures if |old(Contents(View()))| < SLOTS then
                Contents(View()) == old(Contents(View())) + [byte] && overflowCount == old(overflowCount)
              else
                Contents(View()) == old(Contents(View())) && overflowCount == Add32(old(overflowCount), 1)
    {
      ghost var before := View();
      PushAppends(before, byte);
      hide Contents;
      var h, t: int := head, tail;
      if (h - t) % 0x1_0000 >= SLOTS {
        overflowCount := Add32(overflowCount, 1);
        return;
      }
      storage[h % SLOTS] := byte;
      head := (h + 1) % 0x1_0000;
      assert View() == PushIsr(before, byte).0;
    }

    method Pop() returns (ok: bool, byte: u8)
      requires Valid()
      modifies `tail
      ensures Valid() && (ok <==> old(Contents(View())) != [])
      ensures if ok then old(Contents(View())) == [byte] + Contents(View()) else Contents(View()) == old(Contents(View()))
    {
      ghost var before := View();
      OccupancyFacts(before);
      var t := tail;
      if t == head {
        return false, 0;
      }
      PopTakesFirst(before);
      byte := storage[t % SLOTS];
      tail := (t + 1) % 0x1_0000;
      assert View() == before.(tail := NextIndex(before, before.tail));
      return true, byte;
    }
  }

  class UartRxRing {
    const storage: array<u8>
    var writeIndex: u16
    var readIndex: u16

    ghost function View(): Ring
      reads this, storage
    {
      CompareWrapped(storage[..], writeIndex, readIndex)
    }

    ghost predicate Valid()
      reads this, storage
    {
      Sound(View())
    }

    constructor ()
      ensures Valid() && Contents(View()) == [] && fresh(storage)
    {
      storage := new u8[SLOTS](_ => 0);
      writeIndex, readIndex := 0, 0;
    }

    method PushFromIsr(byte: u8) returns (stored: bool)
      requires Valid()
      modifies this, storage
      ensures Valid() && (View(), stored) == PushIsr(old(View()), byte)
      ensures stored <==> |old(Contents(View()))| < SLOTS - 1
      ensures Contents(View()) == if stored then old(Contents(View())) + [byte] else old(Contents(View()))
    {
      ghost var before := View();
      PushAppends(before, byte);
      hide Contents, Occupancy;
      var nextWrite := writeIndex + 1;
      if nextWrite >= SLOTS {
        nextWrite := 0;
      }
      if nextWrite == readIndex {
        return false;
      }
      storage[writeIndex] := byte;
      writeIndex := nextWrite;
      assert View() == PushIsr(before, byte).0;
      return true;
    }

    method Pop() returns (ok: bool, byte: u8)
      requires Valid()
      modifies `readIndex
      ensures Valid() && (ok <==> old(Contents(View())) != [])
      ensures if ok then old(Contents(View())) == [byte] + Contents(View()) else Contents(View()) == old(Contents(View()))
    {
      ghost var before := View();
      OccupancyFacts(before);
      if readIndex == writeIndex {
        return false, 0;
      }
      PopTakesFirst(before);
      byte := storage[readIndex];
      var nextRead := readIndex + 1;
      if nextRead >= SLOTS {
        nextRead := 0;
      }
      readIndex := nextRead;
      assert View() == before.(tail := NextIndex(before, before.tail));
      return true, byte;
    }
  }
}
