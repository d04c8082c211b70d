/**
 * The protocol on byte strings: what travels is what the header encoding and the gather-write
 * produce, and what arrives is parsed by the header decoding and `skip`. It does exactly what the
 * protocol on frames does.
 */
module WireProtocol {
  import opened Bytes
  import opened Headers
  import opened ReliableChannels
  import opened Protocol
  import opened Progress

  datatype WireEvent =
    | Offer(payload: bytes)
    | Tick
    | Receive(raw: bytes)
  {
    predicate Legible() { Receive? ==> |raw| >= HEADER_SIZE }

    function Meaning(): Event
      requires Legible()
    {
      match this
      case Offer(payload) => Submit(payload)
      case Tick => Expire
      case Receive(raw) => Incoming(DecodeFrame(raw))
    }
  }

  /** Like a protocol node, but its frames are bytes and it stamps them with its channel id. */
  datatype WireNode = WireNode(
    cid: byte, e: Endpoint, acked: nat, accepted: seq<bytes>, delivered: seq<bytes>,
    wire: set<bytes>, read: set<bytes>)
  {
    ghost predicate Legible() {
      forall raw | raw in wire + read :: |raw| >= HEADER_SIZE
    }
  }

  /** The effect is that of the channel object: its outputs are `EncodeFrames` of the frames sent. */
  function WireNodeStep(n: WireNode, event: WireEvent): WireNode
    requires event.Legible()
  {
    var effect := React(n.e, event.Meaning());
    WireNode(
      n.cid,
      effect.next,
      n.acked + effect.canSend,
      if event.Offer? && n.e.inFlight.None? then n.accepted + [event.payload] else n.accepted,
      n.delivered + effect.delivered,
      n.wire + (set raw | raw in EncodeFrames(n.cid, effect.sent)),
      if event.Receive? then n.read + {event.raw} else n.read)
  }

  function Parse(wire: set<bytes>): set<Frame>
    requires forall raw | raw in wire :: |raw| >= HEADER_SIZE
  {
    set raw | raw in wire :: DecodeFrame(raw)
  }

  ghost function Abstract(n: WireNode): Node
    requires n.Legible()
  {
    Node(n.e, n.acked, n.accepted, n.delivered, Parse(n.wire), Parse(n.read))
  }

  lemma ParseUnion(x: set<bytes>, y: set<bytes>)
    requires forall raw | raw in x + y :: |raw| >= HEADER_SIZE
    ensures Parse(x + y) == Parse(x) + Parse(y)
  {
    forall f | f in Parse(x) + Parse(y)
      ensures f in Parse(x + y)
    {
      if f in Parse(x) {
        var raw :| raw in x && DecodeFrame(raw) == f;
        assert raw in x + y;
      } else {
        var raw :| raw in y && DecodeFrame(raw) == f;
        assert raw in x + y;
      }
    }
  }

  lemma ParseSingle(raw: bytes)
    requires |raw| >= HEADER_SIZE
    ensures Parse({raw}) == {DecodeFrame(raw)}
  {
    assert raw in {raw};
  }

  /** Parsing what was encoded gives the frames that were sent. */
  lemma ParseEncoded(cid: byte, frames: seq<Frame>)
    ensures
      var raws := set raw | raw in EncodeFrames(cid, frames);
      && (forall raw | raw in raws :: |raw| >= HEADER_SIZE)
      && Parse(raws) == set f | f in frames
  {
    var encoded := EncodeFrames(cid, frames);
    var raws := set raw | raw in encoded;
    forall i | 0 <= i < |frames|
      ensures encoded[i] in raws && DecodeFrame(encoded[i]) == frames[i]
    {
      FrameRoundTrip(cid, frames[i]);
    }
    forall f | f in frames
      ensures f in Parse(raws)
    {
      var i :| 0 <= i < |frames| && frames[i] == f;
      assert encoded[i] in raws && DecodeFrame(encoded[i]) == f;
    }
    forall f | f in Parse(raws)
      ensures f in frames
    {
      var raw :| raw in raws && DecodeFrame(raw) == f;
      var i :| 0 <= i < |encoded| && encoded[i] == raw;
      assert DecodeFrame(encoded[i]) == frames[i];
    }
  }

  /** One step on bytes is one step on frames. */
  lemma NodeSimulates(n: WireNode, event: WireEvent)
    requires n.Legible() && event.Legible()
    ensures WireNodeStep(n, event).Legible()
    ensures Abstract(WireNodeStep(n, event)) == NodeStep(Abstract(n), event.Meaning())
  {
    hide React, EncodeFrames, Parse, DecodeFrame;
    var sent := React(n.e, event.Meaning()).sent;
    var raws := set raw | raw in EncodeFrames(n.cid, sent);
    ParseEncoded(n.cid, sent);
    ParseUnion(n.wire, raws);
    if event.Receive? {
      ParseUnion(n.read, {event.raw});
      ParseSingle(event.raw);
    }
  }

  datatype WireSystem = WireSystem(a: WireNode, b: WireNode) {
    function At(side: Side): WireNode { if side.A? then a else b }

    ghost predicate Legible() { a.Legible() && b.Legible() }
  }

  datatype WireStep = WireStep(side: Side, event: WireEvent)

  function WireStart(cidA: byte, cidB: byte): WireSystem {
    WireSystem(WireNode(cidA, CONSTRUCTED, 0, [], [], {}, {}), WireNode(cidB, CONSTRUCTED, 0, [], [], {}, {}))
  }

  ghost function AbstractSystem(s: WireSystem): System
    requires s.Legible()
  {
    System(Abstract(s.a), Abstract(s.b))
  }

  /** Any byte string the other side ever put on the wire may arrive. */
  predicate WireEnabled(s: WireSystem, step: WireStep) {
    step.event.Receive? ==> step.event.raw in s.At(step.side.Other()).wire
  }

  /**
   * A string too short to hold a header would be read past its end, which the code leaves
   * undefined; here it changes nothing, and `BytesSimulateFrames` shows that none ever arrives.
   */
  function WireNext(s: WireSystem, step: WireStep): WireSystem {
    if !step.event.Legible() then s
    else
      var n := WireNodeStep(s.At(step.side), step.event);
      if step.side.A? then s.(a := n) else s.(b := n)
  }

  function WireAfter(s: WireSystem, steps: seq<WireStep>): WireSystem
    decreases |steps|
  {
    if steps == [] then s else WireNext(WireAfter(s, steps[..|steps| - 1]), steps[|steps| - 1])
  }

  predicate WirePossible(s: WireSystem, steps: seq<WireStep>)
    decreases |steps|
  {
    steps == []
    || (var before := steps[..|steps| - 1];
        WirePossible(s, before) && WireEnabled(WireAfter(s, before), steps[|steps| - 1]))
  }

  predicate AllLegible(steps: seq<WireStep>) {
    forall i | 0 <= i < |steps| :: steps[i].event.Legible()
  }

  function MeaningOf(step: WireStep): Step
    requires step.event.Legible()
  {
    Step(step.side, step.event.Meaning())
  }

  function Meanings(steps: seq<WireStep>): (r: seq<Step>)
    requires AllLegible(steps)
    ensures |r| == |steps|
  {
    if steps == [] then [] else Meanings(steps[..|steps| - 1]) + [MeaningOf(steps[|steps| - 1])]
  }

  lemma SystemSimulates(s: WireSystem, step: WireStep)
    requires s.Legible() && WireEnabled(s, step)
    ensures step.event.Legible() && WireNext(s, step).Legible()
    ensures Enabled(AbstractSystem(s), MeaningOf(step))
    ensures AbstractSystem(WireNext(s, step)) == Next(AbstractSystem(s), MeaningOf(step))
  {
    if step.event.Receive? {
      assert step.event.raw in s.At(step.side.Other()).wire;
      assert DecodeFrame(step.event.raw) in Parse(s.At(step.side.Other()).wire);
    }
    hide NodeStep, WireNodeStep;
    NodeSimulates(s.At(step.side), step.event);
  }

  lemma StartsAgree(cidA: byte, cidB: byte)
    ensures WireStart(cidA, cidB).Legible() && AbstractSystem(WireStart(cidA, cidB)) == START
  {
  }

  lemma LegibleSnoc(steps: seq<WireStep>)
    requires steps != [] && AllLegible(steps[..|steps| - 1]) && steps[|steps| - 1].event.Legible()
    ensures AllLegible(steps)
  {
    var before := steps[..|steps| - 1];
    assert forall i | 0 <= i < |before| :: steps[i] == before[i];
  }

  /**
   * Every run on bytes is, step for step, a run on frames; in particular every string that can
   * arrive is long enough to hold a header.
   */
  lemma {:induction false} BytesSimulateFrames(cidA: byte, cidB: byte, steps: seq<WireStep>)
    requires WirePossible(WireStart(cidA, cidB), steps)
    ensures
      var t := WireAfter(WireStart(cidA, cidB), steps);
      && AllLegible(steps) && t.Legible()
      && Possible(START, Meanings(steps)) && AbstractSystem(t) == After(START, Meanings(steps))
    decreases |steps|
  {
    hide Next, WireNext, Enabled, WireEnabled, AbstractSystem, WireStart, WireSystem.Legible, AllLegible;
    if steps == [] {
      StartsAgree(cidA, cidB);
      EmptyRun(START);
      NoneIllegible();
    } else {
      var before, last := steps[..|steps| - 1], steps[|steps| - 1];
      BytesSimulateFrames(cidA, cidB, before);
      SystemSimulates(WireAfter(WireStart(cidA, cidB), before), last);
      LegibleSnoc(steps);
      RunSnoc(START, Meanings(before), MeaningOf(last));
    }
  }

  lemma NoneIllegible()
    ensures AllLegible([])
  {
  }

  /** A byte-level event with the given meaning, drawing arrivals from what is on the wire. */
  lemma Encodable(s: WireSystem, step: Step) returns (w: WireStep)
    requires s.Legible() && Enabled(AbstractSystem(s), step)
    ensures WireEnabled(s, w) && w.event.Legible() && MeaningOf(w) == step
  {
    match step.event
    case Submit(p) => w := WireStep(step.side, Offer(p));
    case Expire => w := WireStep(step.side, Tick);
    case Incoming(f) =>
      var wire := s.At(step.side.Other()).wire;
      assert f in Parse(wire);
      var raw :| raw in wire && DecodeFrame(raw) == f;
      w := WireStep(step.side, Receive(raw));
  }

  lemma WireRunSnoc(s: WireSystem, steps: seq<WireStep>, step: WireStep)
    ensures WireAfter(s, steps + [step]) == WireNext(WireAfter(s, steps), step)
    ensures WirePossible(s, steps + [step]) <==> WirePossible(s, steps) && WireEnabled(WireAfter(s, steps), step)
    ensures AllLegible(steps) && step.event.Legible() ==>
              AllLegible(steps + [step]) && Meanings(steps + [step]) == Meanings(steps) + [MeaningOf(step)]
  {
    hide WireNext, WireEnabled;
    assert (steps + [step])[..|steps|] == steps;
  }

  /** Conversely, every run on frames is the meaning of some run on bytes. */
  lemma {:induction false} FramesAreRealized(cidA: byte, cidB: byte, steps: seq<Step>)
      returns (wsteps: seq<WireStep>)
    requires Possible(START, steps)
    ensures WirePossible(WireStart(cidA, cidB), wsteps)
    ensures AllLegible(wsteps) && Meanings(wsteps) == steps
    decreases |steps|
  {
    hide Next, WireNext, Enabled, WireEnabled, WireStart, AbstractSystem, WireSystem.Legible, WireAfter;
    if steps == [] {
      wsteps := [];
    } else {
      var n := |steps| - 1;
      var before := FramesAreRealized(cidA, cidB, steps[..n]);
      BytesSimulateFrames(cidA, cidB, before);
      var w := Encodable(WireAfter(WireStart(cidA, cidB), before), steps[n]);
      wsteps := before + [w];
      WireRunSnoc(WireStart(cidA, cidB), before, w);
    }
  }

  /** Everything a node has put on the wire begins with its own channel id. */
  ghost predicate Stamped(n: WireNode) {
    forall raw | raw in n.wire :: |raw| >= 6 && raw[0] == n.cid
  }

  lemma StampedKept(n: WireNode, event: WireEvent)
    requires Stamped(n) && event.Legible()
    ensures Stamped(WireNodeStep(n, event)) && WireNodeStep(n, event).cid == n.cid
  {
    hide React;
    var sent := React(n.e, event.Meaning()).sent;
    var encoded := EncodeFrames(n.cid, sent);
    forall raw | raw in encoded
      ensures |raw| >= 6 && raw[0] == n.cid
    {
      var i :| 0 <= i < |encoded| && encoded[i] == raw;
      FramesAreStamped(n.cid, sent, i);
    }
  }

  lemma {:induction false} StampedAlongRun(cidA: byte, cidB: byte, steps: seq<WireStep>)
    ensures
      var t := WireAfter(WireStart(cidA, cidB), steps);
      Stamped(t.a) && t.a.cid == cidA && Stamped(t.b) && t.b.cid == cidB
    decreases |steps|
  {
    if steps != [] {
      hide Stamped, WireNodeStep;
      var before, last := steps[..|steps| - 1], steps[|steps| - 1];
      StampedAlongRun(cidA, cidB, before);
      if last.event.Legible() {
        StampedKept(WireAfter(WireStart(cidA, cidB), before).At(last.side), last.event);
      }
    }
  }

  lemma FrameBytesLayout(raw: bytes)
    requires |raw| >= HEADER_SIZE
    ensures raw[1] == DecodeFrame(raw).flags && |raw| == 6 + |DecodeFrame(raw).payload|
    ensures BigEndian(raw[2..6]) == DecodeFrame(raw).number
  {
    SeqIsBigEndian(raw[2..6]);
  }

  /**
   * In every run on bytes, every string a side has put on the wire begins with that side's channel id;
   * its flag byte is 0, or it is 1 and nothing follows the six bytes of the header.
   */
  lemma WireFormat(cidA: byte, cidB: byte, steps: seq<WireStep>, side: Side, raw: bytes)
    requires WirePossible(WireStart(cidA, cidB), steps)
    requires raw in WireAfter(WireStart(cidA, cidB), steps).At(side).wire
    ensures |raw| >= 6 && raw[0] == if side.A? then cidA else cidB
    ensures raw[1] == 0 || (raw[1] == 1 && |raw| == 6)
  {
    hide WirePossible, WireAfter, After, Possible, WireStart;
    StampedAlongRun(cidA, cidB, steps);
    BytesSimulateFrames(cidA, cidB, steps);
    ReachableByRun(Meanings(steps));
    var t := WireAfter(WireStart(cidA, cidB), steps);
    FrameIsWellFormed(AbstractSystem(t), side, DecodeFrame(raw)) by {
      assert DecodeFrame(raw) in Parse(t.At(side).wire);
    }
    FrameBytesLayout(raw);
  }

  lemma FrameIsWellFormed(s: System, side: Side, f: Frame)
    requires Reachable(s) && f in s.At(side).sent
    ensures f.flags == 0 || (f.flags == 1 && f.payload == [])
  {
    hide Reachable;
    ReachableHalf(s, side);
  }

  /**
   * End to end, on bytes: whatever the two channel ids and whatever the network does, what a side
   * has handed up is a prefix of what was accepted on the other side, its first payload left out.
   */
  lemma WireDeliveredIsPrefix(cidA: byte, cidB: byte, steps: seq<WireStep>, side: Side)
    requires WirePossible(WireStart(cidA, cidB), steps)
    ensures
      var t := WireAfter(WireStart(cidA, cidB), steps);
      t.At(side.Other()).delivered <= WithoutFirst(t.At(side).accepted)
  {
    hide WirePossible, WireAfter, After, Possible, WireStart;
    BytesSimulateFrames(cidA, cidB, steps);
    ReachableByRun(Meanings(steps));
    var t := WireAfter(WireStart(cidA, cidB), steps);
    DeliveredIsPrefix(AbstractSystem(t), side);
  }

  /** And any list of payloads gets across on bytes, under any finite script of losses. */
  lemma WireEverythingGetsAcross(cidA: byte, cidB: byte, side: Side, payloads: seq<bytes>, script: seq<Fate>)
      returns (steps: seq<WireStep>)
    requires |payloads| <= SEQ_MODULUS
    ensures
      var t := WireAfter(WireStart(cidA, cidB), steps);
      && WirePossible(WireStart(cidA, cidB), steps)
      && t.At(side).accepted == payloads
      && t.At(side.Other()).delivered == WithoutFirst(payloads)
  {
    hide WirePossible, WireAfter, After, Possible, WireStart;
    EverythingGetsAcrossFromStart(side, payloads, script);
    steps := FramesAreRealized(cidA, cidB, Drive(side, 0, payloads, script));
    BytesSimulateFrames(cidA, cidB, steps);
  }
}
