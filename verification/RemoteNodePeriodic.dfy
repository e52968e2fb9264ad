/** The remote node's own traffic against true time: how far apart its TELEMETRY and HEARTBEAT frames are. */
module RemoteNodePeriodic {
  import opened Bits
  import opened Protocol
  import opened StreamParsing
  import opened RemoteNodes
  import opened RemoteNodeTheorems
  import opened Ticks

  /** What happens to the node: a periodic pass at a true time (the node sees it modulo 2^32), or anything else. */
  datatype Moment =
    | Call(at: int, telemetryOk: bool, heartbeatOk: bool)
    | Other(input: Input)

  /** A periodic frame handed over, when, and with which status flags set. */
  datatype Beat = Beat(at: int, flags: u16, frame: seq<u8>)

  datatype Played = Played(node: Node, flags: u16, telemetry: seq<Beat>, heartbeats: seq<Beat>)

  function Beats(frames: seq<seq<u8>>, at: int, flags: u16): seq<Beat> {
    seq(|frames|, i requires 0 <= i < |frames| => Beat(at, flags, frames[i]))
  }

  function PlayOne(p: Played, m: Moment): Played {
    match m
    case Call(at, telemetryOk, heartbeatOk) =>
      var t := TelemetryStep(p.node, Tick(at), telemetryOk);
      var h := HeartbeatStep(t.0, Tick(at), heartbeatOk);
      p.(node := h.0, telemetry := p.telemetry + Beats(t.1, at, p.flags), heartbeats := p.heartbeats + Beats(h.1, at, p.flags))
    case Other(input) =>
      p.(node := StepNode(p.node, input), flags := if input.FlagsIn? then input.flags else p.flags)
  }

  function Play(start: int, moments: seq<Moment>): Played {
    if moments == [] then Played(Booted(Tick(start)), 0, [], [])
    else PlayOne(Play(start, moments[..|moments| - 1]), moments[|moments| - 1])
  }

  function LastCall(moments: seq<Moment>, start: int): int {
    if moments == [] then start
    else if moments[|moments| - 1].Call? then moments[|moments| - 1].at
    else LastCall(moments[..|moments| - 1], start)
  }

  /** Passes come in order, the first at most `gap` after `start` and each at most `gap` after the one before; what else happens is anything but a pass. */
  predicate Regular(moments: seq<Moment>, start: int, gap: nat) {
    moments != [] ==>
      var front, last := moments[..|moments| - 1], moments[|moments| - 1];
      && Regular(front, start, gap)
      && (last.Call? ==> LastCall(front, start) <= last.at <= LastCall(front, start) + gap)
      && (last.Other? ==> !last.input.PeriodicIn?)
  }

  function LastBeat(beats: seq<Beat>, start: int): int {
    if beats == [] then start else beats[|beats| - 1].at
  }

  /** Beats keep a period: never sooner, and late by less than `gap`. */
  predicate Paced(beats: seq<Beat>, start: int, period: nat, gap: nat) {
    beats != [] ==>
      && Paced(beats[..|beats| - 1], start, period, gap)
      && period <= beats[|beats| - 1].at - LastBeat(beats[..|beats| - 1], start) < period + gap
  }

  /** The k-th TELEMETRY frame carries SEQ k, the time and the status flags; the k-th HEARTBEAT SEQ k and the time. */
  function TelemetryFrame(k: nat, at: int, flags: u16): seq<u8> {
    Encoded(Packet(VERSION, MSG_TELEMETRY, Low16(k), Be32(Tick(at)) + Be16(flags)))
  }

  function HeartbeatFrame(k: nat, at: int): seq<u8> {
    Encoded(Packet(VERSION, MSG_HEARTBEAT, Low16(k), Be32(Tick(at))))
  }

  predicate Numbered(beats: seq<Beat>) {
    forall i :: 0 <= i < |beats| ==> beats[i].frame == TelemetryFrame(i + 1, beats[i].at, beats[i].flags)
  }

  predicate NumberedHearts(beats: seq<Beat>) {
    forall i :: 0 <= i < |beats| ==> beats[i].frame == HeartbeatFrame(i + 1, beats[i].at)
  }

  function Low16(n: nat): u16 { n % 0x1_0000 }

  lemma Low16Inc(n: nat)
    ensures (Low16(n) + 1) % 0x1_0000 == Low16(n + 1)
  {}

  lemma ElapsedIsTrue(now: int, since: int)
    requires 0 <= now - since < WRAP
    ensures Elapsed(Tick(now), Tick(since)) == now - since
  {
    TrueDistance(now, since);
  }

  lemma PacedOneMore(beats: seq<Beat>, b: Beat, start: int, period: nat, gap: nat)
    requires period <= b.at - LastBeat(beats, start) < period + gap
    ensures Paced(beats, start, period, gap) ==> Paced(beats + [b], start, period, gap)
  {
    assert (beats + [b])[..|beats|] == beats;
  }

  predicate TelemetryOnTime(n: Node, beats: seq<Beat>, start: int, now: int, gap: nat, flags: u16) {
    && n.statusFlags == flags && n.lastTelemetry == Tick(LastBeat(beats, start)) && n.telemetrySeq == Low16(|beats|)
    && 0 <= now - LastBeat(beats, start) < 100
    && Paced(beats, start, 100, gap) && Numbered(beats)
  }

  predicate HeartbeatOnTime(n: Node, beats: seq<Beat>, start: int, now: int, gap: nat) {
    && n.lastHeartbeat == Tick(LastBeat(beats, start)) && n.heartbeatSeq == Low16(|beats|)
    && 0 <= now - LastBeat(beats, start) < 500
    && Paced(beats, start, 500, gap) && NumberedHearts(beats)
  }

  predicate OnTime(p: Played, start: int, now: int, gap: nat) {
    TelemetryOnTime(p.node, p.telemetry, start, now, gap, p.flags) && HeartbeatOnTime(p.node, p.heartbeats, start, now, gap)
  }

  lemma TelemetryStaysOnTime(n: Node, beats: seq<Beat>, start: int, last: int, call: Moment, gap: nat, flags: u16)
    requires call.Call? && last <= call.at <= last + gap && gap < WRAP - 500
    ensures var t := TelemetryStep(n, Tick(call.at), call.telemetryOk);
            TelemetryOnTime(n, beats, start, last, gap, flags)
            ==> TelemetryOnTime(t.0, beats + Beats(t.1, call.at, flags), start, call.at, gap, flags)
  {
    if TelemetryOnTime(n, beats, start, last, gap, flags) {
      var since := LastBeat(beats, start);
      TelemetryByTrueTime(n, call.at, since, |beats|, call.telemetryOk);
      BeatsOf(TelemetryFrame(|beats| + 1, call.at, flags), call.at, flags);
      AddNothing(beats);
      if call.at - since >= 100 {
        TelemetryKeepsPeriod(beats, start, last, call.at, gap, flags);
      }
      hide TelemetryStep, TelemetryFrame, Low16, Beats, Paced, LastBeat, Tick, Numbered;
    }
  }

  lemma HeartbeatStaysOnTime(n: Node, beats: seq<Beat>, start: int, last: int, call: Moment, gap: nat, flags: u16)
    requires call.Call? && last <= call.at <= last + gap && gap < WRAP - 500
    ensures var h := HeartbeatStep(n, Tick(call.at), call.heartbeatOk);
            HeartbeatOnTime(n, beats, start, last, gap)
            ==> HeartbeatOnTime(h.0, beats + Beats(h.1, call.at, flags), start, call.at, gap)
  {
    if HeartbeatOnTime(n, beats, start, last, gap) {
      var since := LastBeat(beats, start);
      HeartbeatByTrueTime(n, call.at, since, |beats|, call.heartbeatOk);
      BeatsOf(HeartbeatFrame(|beats| + 1, call.at), call.at, flags);
      AddNothing(beats);
      if call.at - since >= 500 {
        HeartbeatKeepsPeriod(beats, start, last, call.at, gap, flags);
      }
      hide HeartbeatStep, HeartbeatFrame, Low16, Beats, Paced, LastBeat, Tick, NumberedHearts;
    }
  }

  /** The two senders do not touch each other's variables. */
  lemma SendersAreApart(n: Node, now: u32, txOk: bool)
    ensures var t := TelemetryStep(n, now, txOk).0; t.lastHeartbeat == n.lastHeartbeat && t.heartbeatSeq == n.heartbeatSeq
    ensures var h := HeartbeatStep(n, now, txOk).0;
            h.lastTelemetry == n.lastTelemetry && h.telemetrySeq == n.telemetrySeq && h.statusFlags == n.statusFlags
  {
    hide Encoded, Be32, Be16, Elapsed;
  }

  lemma CallKeepsOnTime(p: Played, start: int, last: int, call: Moment, gap: nat)
    requires call.Call? && last <= call.at <= last + gap && gap < WRAP - 500
    ensures OnTime(p, start, last, gap) ==> OnTime(PlayOne(p, call), start, call.at, gap)
  {
    var t := TelemetryStep(p.node, Tick(call.at), call.telemetryOk).0;
    TelemetryStaysOnTime(p.node, p.telemetry, start, last, call, gap, p.flags);
    HeartbeatStaysOnTime(t, p.heartbeats, start, last, call, gap, p.flags);
    SendersAreApart(p.node, Tick(call.at), call.telemetryOk);
    SendersAreApart(t, Tick(call.at), call.heartbeatOk);
    hide TelemetryStep, HeartbeatStep, Low16, Beats, Paced, LastBeat, Tick, Numbered, NumberedHearts;
  }

  /** Bytes, overflows, UART errors and new flags touch neither timers nor numbers. */
  lemma OtherSparesTimers(n: Node, input: Input)
    requires !input.PeriodicIn?
    ensures var m := StepNode(n, input);
            && m.lastTelemetry == n.lastTelemetry && m.lastHeartbeat == n.lastHeartbeat
            && m.telemetrySeq == n.telemetrySeq && m.heartbeatSeq == n.heartbeatSeq
            && m.statusFlags == if input.FlagsIn? then input.flags else n.statusFlags
  {
    hide FeedByte, Encoded, StatusPayload, Add32;
  }

  lemma OtherKeepsOnTime(p: Played, start: int, last: int, m: Moment, gap: nat)
    requires m.Other? && !m.input.PeriodicIn?
    ensures OnTime(p, start, last, gap) ==> OnTime(PlayOne(p, m), start, last, gap)
  {
    OtherSparesTimers(p.node, m.input);
    hide StepNode, Low16, Paced, LastBeat, Tick, Numbered, NumberedHearts;
  }

  lemma AddNothing(beats: seq<Beat>)
    ensures beats + [] == beats
  {}

  /**
   * With passes at most `gap` ms apart, whatever is received in between, whatever the transmit function answers and
   * however the clock wraps: successive TELEMETRY frames are 100 to 100 + gap ms apart and HEARTBEATs 500 to 500 + gap,
   * counted from start-up, none is still owed after a pass, and each carries its number, its time and the flags last set.
   */
  lemma {:induction false} PeriodsAreKept(start: int, moments: seq<Moment>, gap: nat)
    requires Regular(moments, start, gap) && gap < WRAP - 500
    ensures var p, now := Play(start, moments), LastCall(moments, start);
            && Paced(p.telemetry, start, 100, gap) && Paced(p.heartbeats, start, 500, gap)
            && 0 <= now - LastBeat(p.telemetry, start) < 100
            && 0 <= now - LastBeat(p.heartbeats, start) < 500
            && Numbered(p.telemetry) && NumberedHearts(p.heartbeats)
    ensures OnTime(Play(start, moments), start, LastCall(moments, start), gap)
  {
    if moments == [] {
      StartsOnTime(start, gap);
    } else {
      var front, last := moments[..|moments| - 1], moments[|moments| - 1];
      PeriodsAreKept(start, front, gap);
      if last.Call? {
        CallKeepsOnTime(Play(start, front), start, LastCall(front, start), last, gap);
      } else {
        OtherKeepsOnTime(Play(start, front), start, LastCall(front, start), last, gap);
      }
      hide PlayOne, Paced, Numbered, NumberedHearts, LastBeat;
    }
  }

  lemma StartsOnTime(start: int, gap: nat)
    ensures OnTime(Played(Booted(Tick(start)), 0, [], []), start, start, gap)
  {}

  /** What a pass does about TELEMETRY, by true times; `at` is now and `since` the last frame or the start. */
  lemma TelemetryByTrueTime(n: Node, at: int, since: int, k: nat, txOk: bool)
    requires n.lastTelemetry == Tick(since) && n.telemetrySeq == Low16(k) && 0 <= at - since < WRAP
    ensures var (m, frames) := TelemetryStep(n, Tick(at), txOk);
            var due := at - since >= 100;
            && frames == (if due then [TelemetryFrame(k + 1, at, n.statusFlags)] else [])
            && m.lastTelemetry == Tick(if due then at else since) && m.telemetrySeq == Low16(if due then k + 1 else k)
            && m.statusFlags == n.statusFlags && m.lastHeartbeat == n.lastHeartbeat && m.heartbeatSeq == n.heartbeatSeq
  {
    ElapsedIsTrue(at, since);
    Low16Inc(k);
    hide Encoded, Be32, Be16, Low16, Elapsed, Tick;
  }

  lemma HeartbeatByTrueTime(n: Node, at: int, since: int, k: nat, txOk: bool)
    requires n.lastHeartbeat == Tick(since) && n.heartbeatSeq == Low16(k) && 0 <= at - since < WRAP
    ensures var (m, frames) := HeartbeatStep(n, Tick(at), txOk);
            var due := at - since >= 500;
            && frames == (if due then [HeartbeatFrame(k + 1, at)] else [])
            && m.lastHeartbeat == Tick(if due then at else since) && m.heartbeatSeq == Low16(if due then k + 1 else k)
            && m.statusFlags == n.statusFlags && m.lastTelemetry == n.lastTelemetry && m.telemetrySeq == n.telemetrySeq
  {
    ElapsedIsTrue(at, since);
    Low16Inc(k);
    hide Encoded, Be32, Be16, Low16, Elapsed, Tick;
  }

  lemma BeatsOf(frame: seq<u8>, at: int, flags: u16)
    ensures Beats([frame], at, flags) == [Beat(at, flags, frame)] && Beats([], at, flags) == []
  {}

  lemma TelemetryKeepsPeriod(beats: seq<Beat>, start: int, last: int, at: int, gap: nat, flags: u16)
    requires 0 <= last - LastBeat(beats, start) < 100 && last <= at <= last + gap
    requires at - LastBeat(beats, start) >= 100
    ensures var more := beats + [Beat(at, flags, TelemetryFrame(|beats| + 1, at, flags))];
            && LastBeat(more, start) == at
            && (Paced(beats, start, 100, gap) ==> Paced(more, start, 100, gap))
            && (Numbered(beats) ==> Numbered(more))
  {
    PacedOneMore(beats, Beat(at, flags, TelemetryFrame(|beats| + 1, at, flags)), start, 100, gap);
    hide TelemetryFrame, Paced;
  }

  lemma HeartbeatKeepsPeriod(beats: seq<Beat>, start: int, last: int, at: int, gap: nat, flags: u16)
    requires 0 <= last - LastBeat(beats, start) < 500 && last <= at <= last + gap
    requires at - LastBeat(beats, start) >= 500
    ensures var more := beats + [Beat(at, flags, HeartbeatFrame(|beats| + 1, at))];
            && LastBeat(more, start) == at
            && (Paced(beats, start, 500, gap) ==> Paced(more, start, 500, gap))
            && (NumberedHearts(beats) ==> NumberedHearts(more))
  {
    PacedOneMore(beats, Beat(at, flags, HeartbeatFrame(|beats| + 1, at)), start, 500, gap);
    hide HeartbeatFrame, Paced;
  }

  /** The fields of a TELEMETRY frame, read back from it. */
  lemma TelemetryFields(k: nat, at: int, flags: u16)
    ensures var t := TelemetryFrame(k, at, flags);
            && |t| == 16 && t[3] == 0x40 && ReadU16(t, 4) == k % 0x1_0000 && ReadU32(t, 8) == Tick(at) && ReadU16(t, 12) == flags
  {
    var t := Packet(VERSION, MSG_TELEMETRY, Low16(k), Be32(Tick(at)) + Be16(flags));
    EncodedLayout(t);
    hide Encoded, Be32, Be16, Body, ReadU32, ReadU16, Tick;
    assert t.payload == [] + Be32(Tick(at)) + Be16(flags) && t.payload == Be32(Tick(at)) + Be16(flags) + [];
    FieldInPayload(t, 0, 0, Tick(at), [], Be16(flags));
    FieldInPayload(t, 4, flags, 0, Be32(Tick(at)), []);
  }

  /** The fields of a HEARTBEAT frame, read back from it. */
  lemma HeartbeatFields(k: nat, at: int)
    ensures var h := HeartbeatFrame(k, at);
            |h| == 14 && h[3] == 0x20 && ReadU16(h, 4) == k % 0x1_0000 && ReadU32(h, 8) == Tick(at)
  {
    var h := Packet(VERSION, MSG_HEARTBEAT, Low16(k), Be32(Tick(at)));
    EncodedLayout(h);
    hide Encoded, Be32, Be16, Body, ReadU32, ReadU16, Tick;
    assert h.payload == [] + Be32(Tick(at)) + [];
    FieldInPayload(h, 0, 0, Tick(at), [], []);
  }
}
