/** From the RS-422 wire to UDP: which received bytes each datagram is. */
module GatewayWire {
  import opened Bits
  import opened Protocol
  import opened StreamParsing
  import opened GatewayParts
  import opened Gateway
  import opened GatewayRuns
  import PR = ParserRuns

  /** The bytes the ring took, in a run from start-up. */
  function Accepted(armed: bool, acts: seq<Act>): seq<u8> {
    if acts == [] then []
    else
      var front, last := acts[..|acts| - 1], acts[|acts| - 1];
      if last.RxByte? && |Run(Boot(armed), front).rx| < 512 then Accepted(armed, front) + [last.b]
      else Accepted(armed, front)
  }

  /** The bytes the RS-422 task has taken out again and fed to its parser. */
  function Popped(armed: bool, acts: seq<Act>): seq<u8> {
    if acts == [] then []
    else
      var front, last := acts[..|acts| - 1], acts[|acts| - 1];
      Popped(armed, front) + Fed(Run(Boot(armed), front), last)
  }

  function Fed(g: G, act: Act): seq<u8> {
    if act.RsStep? && g.rs.Drain? && g.rx != [] then [g.rx[0]] else []
  }

  predicate IsTelemetry(e: Event) {
    e.FrameEvent? && e.packet.msgId == MSG_TELEMETRY && Sendable(e.packet)
  }

  /** The frames of the TELEMETRY packets among the events (a parser reports sendable packets only). */
  function Images(es: seq<Event>): seq<seq<u8>> {
    if es == [] then []
    else
      var e := es[|es| - 1];
      Images(es[..|es| - 1]) + if IsTelemetry(e) then [Encoded(e.packet)] else []
  }

  lemma ImagesOneMore(es: seq<Event>, e: Event)
    ensures Images(es + [e]) == Images(es) + if IsTelemetry(e) then [Encoded(e.packet)] else []
  {
    assert (es + [e])[..|es|] == es;
    hide Encoded;
  }

  /** The parser is where the bytes taken put it, and the history of TELEMETRY frames is theirs. */
  predicate Wired(g: G, popped: seq<u8>) {
    g.parser == PR.Run(Fresh, popped).0 && g.telemetry.received == Images(PR.Run(Fresh, popped).1)
  }

  lemma DrainStaysWired(g: G, next: Next, popped: seq<u8>)
    requires g.rx != [] && PR.Inv(g.parser)
    ensures Wired(g, popped) ==> Wired(DrainStep(g, next), popped + [g.rx[0]])
  {
    if Wired(g, popped) {
      var b := g.rx[0];
      PR.RunOneMore(Fresh, popped, b);
      PR.StepFromInv(g.parser, b);
      var fed := FeedByte(g.parser, b);
      PR.StepKeepsATail(g.parser, b, fed.0, fed.1);
      ImagesOneMore(PR.Run(Fresh, popped).1, fed.1);
      assert Images(PR.Run(Fresh, popped).1) + [] == Images(PR.Run(Fresh, popped).1);
      hide PR.Run, Images, FeedByte, Encoded, OfferPong, Sendable, PR.Inv;
    }
  }

  lemma RsStaysWired(g: G, c: Choice, popped: seq<u8>)
    requires PR.Inv(g.parser)
    ensures Wired(g, popped) ==> Wired(RunRs(g, c), popped + Fed(g, RsStep(c)))
  {
    if g.rs.Drain? {
      if g.rx != [] {
        DrainStaysWired(g, g.rs.next, popped);
      }
      assert popped + [] == popped;
      hide Wired, DrainStep;
    } else {
      RsSparesTelemetry(g, c);
      assert popped + [] == popped;
      hide RunRs;
    }
  }

  lemma EthSparesWire(g: G, work: EthWork)
    ensures var h := RunEth(g, work);
            h.parser == g.parser && h.telemetry.received == g.telemetry.received
  {
    hide Encoded;
  }

  lemma InterruptSparesWire(g: G, act: Act)
    requires act.RxByte? || act.UartError? || act.TxShift? || act.TxComplete?
    ensures var h := Interrupt(g, act);
            h.parser == g.parser && h.telemetry == g.telemetry
  {}

  lemma {:induction false} AlwaysWired(armed: bool, acts: seq<Act>)
    ensures Wired(Run(Boot(armed), acts), Popped(armed, acts))
  {
    if acts == [] {
      PR.RunEmpty(Fresh);
    } else {
      var front, last := acts[..|acts| - 1], acts[|acts| - 1];
      AlwaysWired(armed, front);
      TelemetryAlwaysSound(armed, front);
      var g, popped := Run(Boot(armed), front), Popped(armed, front);
      assert popped + [] == popped;
      hide RunRs, RunEth, Interrupt, Boot;
      match last
      case RsStep(c) =>
        RsStaysWired(g, c, popped);
        hide Wired, Fed;
      case EthStep(work) => EthSparesWire(g, work);
      case act => InterruptSparesWire(g, act);
    }
  }

  lemma StepMovesRx(g: G, act: Act)
    ensures var h := Step(g, act);
            Fed(g, act) + h.rx == g.rx + if act.RxByte? && |g.rx| < 512 then [act.b] else []
  {
    hide FeedByte, Encoded, OfferPong, OfferTelemetry, BringUpPing, NoticeDone, DropPending, NoteForwarded;
    hide ForwardTelemetry, SendResponse, DropResponse, ShiftByte, StartSending, FillBuffer;
  }

  /** Bytes leave the ring in the order in which it took them. */
  lemma {:induction false} PoppedThenWaiting(armed: bool, acts: seq<Act>)
    ensures Popped(armed, acts) + Run(Boot(armed), acts).rx == Accepted(armed, acts)
  {
    if acts != [] {
      var front, last := acts[..|acts| - 1], acts[|acts| - 1];
      PoppedThenWaiting(armed, front);
      var g := Run(Boot(armed), front);
      StepMovesRx(g, last);
      hide Step, Boot, Fed;
      var more := if last.RxByte? && |g.rx| < 512 then [last.b] else [];
      Regroup(Popped(armed, front), Fed(g, last), Step(g, last).rx, g.rx, more);
      AppendNothing(Accepted(armed, front));
    } else {
      assert Popped(armed, []) + Boot(armed).rx == [];
    }
  }

  lemma Regroup(popped: seq<u8>, fed: seq<u8>, rest: seq<u8>, rx: seq<u8>, more: seq<u8>)
    requires fed + rest == rx + more
    ensures (popped + fed) + rest == (popped + rx) + more
  {
    assert (popped + fed) + rest == popped + (fed + rest);
    assert popped + (rx + more) == (popped + rx) + more;
  }

  lemma AppendNothing(s: seq<u8>)
    ensures s + [] == s
  {}

  /** Which byte completed the k-th TELEMETRY frame. */
  function Place(es: seq<Event>, k: nat): nat
    requires k < |Images(es)|
    decreases |es|
  {
    var front := es[..|es| - 1];
    if k < |Images(front)| then Place(front, k) else |es| - 1
  }

  lemma {:induction false} PlaceIsTelemetry(es: seq<Event>, k: nat)
    requires k < |Images(es)|
    ensures Place(es, k) < |es| && IsTelemetry(es[Place(es, k)])
    ensures Images(es)[k] == Encoded(es[Place(es, k)].packet)
    decreases |es|
  {
    hide Encoded;
    if k < |Images(es[..|es| - 1])| {
      PlaceIsTelemetry(es[..|es| - 1], k);
    }
  }

  lemma {:induction false} PlacesAreInOrder(es: seq<Event>, j: nat, k: nat)
    requires j < k < |Images(es)|
    ensures Place(es, j) < Place(es, k)
    decreases |es|
  {
    hide Encoded;
    var front := es[..|es| - 1];
    if k < |Images(front)| {
      PlacesAreInOrder(front, j, k);
    } else {
      PlaceIsTelemetry(front, j);
    }
  }

  /** The datagram is a valid TELEMETRY frame, and the bytes of `wire` up to and including position `at`. */
  predicate IsFrameAt(wire: seq<u8>, at: nat, datagram: seq<u8>) {
    && DecodeResult(datagram) == ProtoOk && Decoded(datagram).msgId == MSG_TELEMETRY
    && |datagram| <= at + 1 <= |wire| && wire[at + 1 - |datagram|..at + 1] == datagram
  }

  lemma ImageIsFrameAt(wire: seq<u8>, k: nat)
    ensures var es := PR.Run(Fresh, wire).1;
            k < |Images(es)| ==> IsFrameAt(wire, Place(es, k), Images(es)[k])
  {
    var es := PR.Run(Fresh, wire).1;
    if k < |Images(es)| {
      var at := Place(es, k);
      PlaceIsTelemetry(es, k);
      PR.FramesAreDisjointImages(wire);
      assert PR.FrameEndsAt(wire, es, at);
      RoundTrip(es[at].packet);
      hide PR.Run, Images, Place, Encoded, DecodeResult, Decoded;
    }
  }

  lemma ImagesAreDisjoint(wire: seq<u8>, j: nat, k: nat)
    ensures var es := PR.Run(Fresh, wire).1;
            j < k < |Images(es)| ==> Place(es, j) + |Images(es)[k]| <= Place(es, k)
  {
    var es := PR.Run(Fresh, wire).1;
    if j < k < |Images(es)| {
      PlaceIsTelemetry(es, j);
      PlaceIsTelemetry(es, k);
      PlacesAreInOrder(es, j, k);
      PR.FramesAreDisjointImages(wire);
      assert PR.FrameStart(es, Place(es, k)) > Place(es, j);
      hide PR.Run, Images, Place, PR.FramesAreImages, Body;
    }
  }

  /**
   * Wire to datagram, in every run: the bytes fed to the parser are, with those still in the ring, the bytes the ring
   * took; each datagram is a valid TELEMETRY frame and a stretch of the bytes fed; and the stretches of different
   * datagrams do not overlap and come in the order of the datagrams.
   */
  lemma DatagramsAreWireFrames(armed: bool, acts: seq<Act>)
    ensures var g, wire := Run(Boot(armed), acts), Popped(armed, acts);
            var es, ds := PR.Run(Fresh, wire).1, g.telemetry.datagrams;
            && wire + g.rx == Accepted(armed, acts)
            && g.telemetry.received == Images(es)
            && (forall i :: 0 <= i < |ds| ==> ds[i].tag < |Images(es)| && IsFrameAt(wire, Place(es, ds[i].tag), ds[i].item))
            && (forall i, j :: 0 <= i < j < |ds| ==> Place(es, ds[i].tag) + |ds[j].item| <= Place(es, ds[j].tag))
  {
    PoppedThenWaiting(armed, acts);
    AlwaysWired(armed, acts);
    DatagramsAreReceivedFrames(armed, acts);
    var g, wire := Run(Boot(armed), acts), Popped(armed, acts);
    var es, ds := PR.Run(Fresh, wire).1, g.telemetry.datagrams;
    hide PR.Run, Run, Popped, Accepted, Images, Place, IsFrameAt;
    forall i | 0 <= i < |ds|
      ensures ds[i].tag < |Images(es)| && ds[i].item == Images(es)[ds[i].tag]
      ensures IsFrameAt(wire, Place(es, ds[i].tag), ds[i].item)
    {
      ImageIsFrameAt(wire, ds[i].tag);
    }
    forall i, j | 0 <= i < j < |ds|
      ensures Place(es, ds[i].tag) + |ds[j].item| <= Place(es, ds[j].tag)
    {
      ImagesAreDisjoint(wire, ds[i].tag, ds[j].tag);
    }
  }
}
