/**
 * Two endpoints joined by a network that may lose, duplicate and reorder frames: at any moment any
 * frame ever sent may arrive, any number of times or never. Timeouts may occur at any moment, which
 * covers every timer.
 */
module Protocol {
  import opened Bytes
  import opened Headers
  import opened ReliableChannels

  /**
   * An endpoint and its history. `acked` counts the matching acknowledgements it has processed,
   * without wrapping; `processed` holds every frame it has read.
   */
  datatype Node = Node(
    e: Endpoint, acked: nat, accepted: seq<bytes>, delivered: seq<bytes>,
    sent: set<Frame>, processed: set<Frame>)
  {
    /** The 32-bit counter has not yet come round to zero again. */
    predicate PreWrap() { acked < SEQ_MODULUS }
  }

  const FRESH := Node(CONSTRUCTED, 0, [], [], {}, {})

  function NodeStep(n: Node, event: Event): Node {
    var effect := React(n.e, event);
    Node(
      effect.next,
      n.acked + effect.canSend,
      if event.Submit? && n.e.inFlight.None? then n.accepted + [event.payload] else n.accepted,
      n.delivered + effect.delivered,
      n.sent + (set f | f in effect.sent),
      if event.Incoming? then n.processed + {event.frame} else n.processed)
  }

  datatype Side = A | B {
    function Other(): Side { if A? then B else A }
  }

  datatype System = System(a: Node, b: Node) {
    function At(side: Side): Node { if side.A? then a else b }

    function With(side: Side, n: Node): System {
      if side.A? then this.(a := n) else this.(b := n)
    }
  }

  datatype Step = Step(side: Side, event: Event)

  const START := System(FRESH, FRESH)

  /** Only frames the other side has sent can arrive. */
  predicate Enabled(s: System, step: Step) {
    step.event.Incoming? ==> step.event.frame in s.At(step.side.Other()).sent
  }

  function Next(s: System, step: Step): System {
    s.With(step.side, NodeStep(s.At(step.side), step.event))
  }

  function After(s: System, steps: seq<Step>): System
    decreases |steps|
  {
    if steps == [] then s else Next(After(s, steps[..|steps| - 1]), steps[|steps| - 1])
  }

  predicate Possible(s: System, steps: seq<Step>)
    decreases |steps|
  {
    steps == []
    || (var before := steps[..|steps| - 1];
        Possible(s, before) && Enabled(After(s, before), steps[|steps| - 1]))
  }

  /** Some run from two freshly constructed endpoints leads to `s`. */
  ghost predicate Reachable(s: System) {
    exists steps :: Possible(START, steps) && After(START, steps) == s
  }

  lemma ReachableByRun(steps: seq<Step>)
    requires Possible(START, steps)
    ensures Reachable(After(START, steps))
  {
  }

  // ---- The invariant of one direction, from sender `s` to receiver `r` ----

  ghost predicate WellFormedFrames(n: Node) {
    forall f | f in n.sent :: f.IsData() || f == Ack(f.number)
  }

  /** Data frames carry the accepted payload of their number. */
  ghost predicate DataMatches(s: Node) {
    forall f | f in s.sent && f.IsData() ::
      f.number < |s.accepted| && f.payload == s.accepted[f.number]
  }

  /** Acknowledgements name payloads that exist and that the receiver has reached. */
  ghost predicate AcksMatch(s: Node, r: Node) {
    forall f | f in r.sent && f.HasAck() :: f.number < |s.accepted| && f.number <= r.e.peerSeq
  }

  ghost predicate AckHistory(s: Node) {
    forall f | f in s.processed && f.HasAck() :: f.number < s.acked
  }

  ghost predicate DataHistory(r: Node) {
    forall f | f in r.processed && f.IsData() :: f.number <= r.e.peerSeq
  }

  /** Payloads 1 to `peak`: what a receiver that has reached `peak` should have delivered. */
  function Expected(accepted: seq<bytes>, peak: nat): seq<bytes>
    requires peak == 0 || peak < |accepted|
  {
    if peak == 0 then [] else accepted[1..peak + 1]
  }

  ghost predicate Counters(s: Node, r: Node) {
    && s.e.localSeq == s.acked
    && |s.accepted| == s.acked + (if s.e.inFlight.Some? then 1 else 0)
    && (s.e.inFlight.Some? ==> s.accepted[s.acked] == s.e.inFlight.value)
    && (r.e.peerSeq == 0 || r.e.peerSeq < |s.accepted|)
    && s.acked <= r.e.peerSeq + 1
  }

  ghost predicate BeforeWrap(s: Node, r: Node) {
    && Counters(s, r)
    && DataMatches(s)
    && AcksMatch(s, r)
    && AckHistory(s)
    && r.delivered == Expected(s.accepted, r.e.peerSeq)
  }

  ghost predicate AfterWrap(s: Node, r: Node) {
    && r.e.peerSeq == SEQ_MODULUS - 1
    && |s.accepted| >= SEQ_MODULUS
    && r.delivered == Expected(s.accepted, SEQ_MODULUS - 1)
  }

  ghost predicate Half(s: Node, r: Node) {
    && WellFormedFrames(s) && WellFormedFrames(r)
    && DataHistory(r)
    && if s.PreWrap() then BeforeWrap(s, r) else AfterWrap(s, r)
  }

  ghost predicate Inv(s: System) {
    Half(s.a, s.b) && Half(s.b, s.a)
  }

  lemma HalfKeptBySubmit(s: Node, r: Node, payload: bytes)
    requires Half(s, r)
    ensures Half(NodeStep(s, Submit(payload)), r)
  {
    var s' := NodeStep(s, Submit(payload));
    assert s'.sent == s.sent;
    assert s.accepted <= s'.accepted;
    var peak := r.e.peerSeq;
    assert 0 < peak < |s.accepted| ==> s'.accepted[1..peak + 1] == s.accepted[1..peak + 1];
  }

  lemma HalfKeptByExpire(s: Node, r: Node)
    requires Half(s, r)
    ensures Half(NodeStep(s, Expire), r)
  {
    var s' := NodeStep(s, Expire);
    if s.e.inFlight.Some? {
      assert s'.sent == s.sent + {Data(s.e.localSeq, s.e.inFlight.value)};
    } else {
      assert s'.sent == s.sent;
    }
  }

  lemma HalfKeptByAckArrival(s: Node, r: Node, f: Frame)
    requires Half(s, r) && f in r.sent
    ensures Half(NodeStep(s, Incoming(f)), r)
  {
    var s' := NodeStep(s, Incoming(f));
    if f.IsData() {
      assert s'.sent == s.sent + {Ack(f.number)};
    } else {
      assert s'.sent == s.sent;
      if s.PreWrap() && s.e.localSeq == f.number {
        assert s.e.inFlight.Some?;
        assert s'.acked == s.acked + 1;
        if s'.PreWrap() {
          assert s'.e.localSeq == s'.acked;
        } else {
          assert s.acked == SEQ_MODULUS - 1 <= r.e.peerSeq;
        }
      }
    }
  }

  lemma HalfKeptByReceiver(s: Node, r: Node, event: Event)
    requires Half(s, r)
    requires event.Incoming? ==> event.frame in s.sent
    ensures Half(s, NodeStep(r, event))
  {
    var r' := NodeStep(r, event);
    match event
    case Submit(_) => assert r'.sent == r.sent;
    case Expire =>
      assert r'.sent == r.sent || exists p :: r'.sent == r.sent + {Data(r.e.localSeq, p)};
    case Incoming(f) =>
      if f.IsData() {
        assert r'.sent == r.sent + {Ack(f.number)};
        if s.PreWrap() && r.e.peerSeq < f.number {
          assert f.number == r.e.peerSeq + 1;
          assert r'.delivered == r.delivered + [s.accepted[f.number]];
        }
      } else {
        assert r'.sent == r.sent;
      }
  }

  lemma HalfKept(s: Node, r: Node, event: Event)
    requires Half(s, r)
    requires event.Incoming? ==> event.frame in r.sent
    ensures Half(NodeStep(s, event), r)
  {
    match event
    case Submit(p) => HalfKeptBySubmit(s, r, p);
    case Expire => HalfKeptByExpire(s, r);
    case Incoming(f) => HalfKeptByAckArrival(s, r, f);
  }

  lemma InvKept(s: System, step: Step)
    requires Inv(s) && Enabled(s, step)
    ensures Inv(Next(s, step))
  {
    var n, peer := s.At(step.side), s.At(step.side.Other());
    HalfKept(n, peer, step.event);
    HalfKeptByReceiver(peer, n, step.event);
  }

  lemma {:induction false} InvAlongRun(s: System, steps: seq<Step>)
    requires Inv(s) && Possible(s, steps)
    ensures Inv(After(s, steps))
    decreases |steps|
  {
    hide Inv, Next, Enabled;
    if steps != [] {
      InvAlongRun(s, steps[..|steps| - 1]);
      InvKept(After(s, steps[..|steps| - 1]), steps[|steps| - 1]);
    }
  }

  lemma StartInv()
    ensures Inv(START)
  {
  }

  lemma ReachableInv(s: System)
    requires Reachable(s)
    ensures Inv(s)
  {
    StartInv();
    hide Inv, After, Possible;
    var steps :| Possible(START, steps) && After(START, steps) == s;
    InvAlongRun(START, steps);
  }

  lemma ReachableHalf(s: System, side: Side)
    requires Reachable(s)
    ensures Half(s.At(side), s.At(side.Other()))
  {
    hide Reachable;
    ReachableInv(s);
  }

  // ---- Safety of every run ----

  function WithoutFirst(payloads: seq<bytes>): seq<bytes> {
    if payloads == [] then [] else payloads[1..]
  }

  lemma HalfIsPrefix(s: Node, r: Node)
    requires Half(s, r)
    ensures r.delivered <= WithoutFirst(s.accepted)
  {
  }

  /**
   * In every run, however long and across the wrap of the 32-bit counters, what a side has
   * delivered is a prefix of what the other accepted, payload number 0 left out.
   */
  lemma DeliveredIsPrefix(s: System, side: Side)
    requires Reachable(s)
    ensures s.At(side.Other()).delivered <= WithoutFirst(s.At(side).accepted)
  {
    hide Reachable;
    ReachableHalf(s, side);
    HalfIsPrefix(s.At(side), s.At(side.Other()));
  }

  ghost predicate Exact(s: Node, r: Node) {
    && s.e.localSeq == s.acked
    && r.e.peerSeq <= s.e.localSeq <= r.e.peerSeq + 1
    && DataMatches(s)
    && (r.e.peerSeq == 0 || r.e.peerSeq < |s.accepted|)
    && r.delivered == Expected(s.accepted, r.e.peerSeq)
  }

  lemma HalfIsExact(s: Node, r: Node)
    requires Half(s, r) && s.PreWrap()
    ensures Exact(s, r)
  {
  }

  /**
   * In every reachable state before the sender's counter wraps, the two counters differ by at most
   * one, every data frame carries the accepted payload of its number, and exactly payloads 1 to
   * `peerSeq` have been delivered.
   */
  lemma DeliveredIsExact(s: System, side: Side)
    requires Reachable(s) && s.At(side).PreWrap()
    ensures Exact(s.At(side), s.At(side.Other()))
  {
    hide Reachable, Half;
    ReachableHalf(s, side);
    HalfIsExact(s.At(side), s.At(side.Other()));
  }

  /** Every number ever acknowledged is still on the wire, and `localSeq` counts them modulo 2^32. */
  ghost predicate Trail(s: Node, r: Node) {
    && s.e.localSeq == s.acked % SEQ_MODULUS
    && WellFormedFrames(r)
    && forall k: u32 | k < s.acked :: Ack(k) in r.sent
  }

  lemma TrailKeptBySender(s: Node, r: Node, event: Event)
    requires Trail(s, r)
    requires event.Incoming? ==> event.frame in r.sent
    ensures Trail(NodeStep(s, event), r)
  {
    var s' := NodeStep(s, event);
    if s'.acked != s.acked {
      assert (s.acked + 1) % 0x1_0000_0000 == (s.acked % 0x1_0000_0000 + 1) % 0x1_0000_0000;
      assert event.frame == Ack(s.e.localSeq);
    }
  }

  lemma TrailKeptByReceiver(s: Node, r: Node, event: Event)
    requires Trail(s, r)
    ensures Trail(s, NodeStep(r, event))
  {
    var r' := NodeStep(r, event);
    assert r.sent <= r'.sent;
    forall f | f in r'.sent && f !in r.sent
      ensures f.IsData() || f == Ack(f.number)
    {
      assert f in React(r.e, event).sent;
    }
  }

  lemma {:induction false} TrailAlongRun(steps: seq<Step>, side: Side)
    requires Possible(START, steps)
    ensures Trail(After(START, steps).At(side), After(START, steps).At(side.Other()))
    decreases |steps|
  {
    if steps != [] {
      hide Trail, NodeStep;
      var before, last := After(START, steps[..|steps| - 1]), steps[|steps| - 1];
      TrailAlongRun(steps[..|steps| - 1], side);
      if last.side == side {
        TrailKeptBySender(before.At(side), before.At(side.Other()), last.event);
      } else {
        TrailKeptByReceiver(before.At(side), before.At(side.Other()), last.event);
      }
    }
  }

  lemma ReachableTrail(s: System, side: Side)
    requires Reachable(s)
    ensures Trail(s.At(side), s.At(side.Other()))
  {
    var steps :| Possible(START, steps) && After(START, steps) == s;
    hide After, Possible;
    TrailAlongRun(steps, side);
  }

  /** The 32-bit counter is the count of matching acknowledgements, reduced, before and after the wrap. */
  lemma LocalSeqCountsAcks(s: System, side: Side)
    requires Reachable(s)
    ensures s.At(side).e.localSeq == s.At(side).acked % SEQ_MODULUS
  {
    hide Reachable;
    ReachableTrail(s, side);
  }

  /** A sender has wrapped only if its peer has reached the last number there is. */
  lemma WrapOnlyAfterLastNumber(s: System, side: Side)
    requires Reachable(s) && !s.At(side).PreWrap()
    ensures s.At(side.Other()).e.peerSeq == SEQ_MODULUS - 1
    ensures |s.At(side.Other()).delivered| == SEQ_MODULUS - 1
  {
    hide Reachable;
    ReachableHalf(s, side);
  }

  lemma PeakEndsDelivery(n: Node, event: Event)
    requires n.e.peerSeq == SEQ_MODULUS - 1
    ensures NodeStep(n, event).e.peerSeq == SEQ_MODULUS - 1
    ensures NodeStep(n, event).delivered == n.delivered
  {
  }

  lemma {:induction false} PeakEndsDeliveryForever(s: System, side: Side, more: seq<Step>)
    requires s.At(side).e.peerSeq == SEQ_MODULUS - 1
    ensures After(s, more).At(side).e.peerSeq == SEQ_MODULUS - 1
    ensures After(s, more).At(side).delivered == s.At(side).delivered
    decreases |more|
  {
    if more != [] {
      var before := After(s, more[..|more| - 1]);
      PeakEndsDeliveryForever(s, side, more[..|more| - 1]);
      PeakEndsDelivery(before.At(side), more[|more| - 1].event);
    }
  }

  /** Once a sender has wrapped, its peer never delivers anything again. */
  lemma NothingDeliveredAfterWrap(s: System, side: Side, more: seq<Step>)
    requires Reachable(s) && !s.At(side).PreWrap() && Possible(s, more)
    ensures After(s, more).At(side.Other()).delivered == s.At(side.Other()).delivered
  {
    hide Reachable, NodeStep;
    WrapOnlyAfterLastNumber(s, side);
    PeakEndsDeliveryForever(s, side.Other(), more);
  }

  lemma HalfAckFindsPayload(s: Node, r: Node, f: Frame)
    requires Half(s, r) && s.PreWrap() && f in r.sent && f.HasAck() && f.number == s.e.localSeq
    ensures s.e.inFlight.Some? && |s.accepted| == f.number + 1
    ensures s.e.inFlight.value == s.accepted[f.number]
    ensures f.number > 0 ==> f.number == |r.delivered| && r.delivered[f.number - 1] == s.accepted[f.number]
  {
    assert f.number < |s.accepted|;
  }

  /** Some frame that can arrive at `side` would be taken as the acknowledgement of what it has in flight. */
  ghost predicate AckCanArrive(s: System, side: Side) {
    exists f :: Enabled(s, Step(side, Incoming(f))) && React(s.At(side).e, Incoming(f)).canSend > 0
  }

  /** Once a sender has wrapped, a stale acknowledgement of its current number is always on the wire, and is taken. */
  lemma WrappedTakesStaleAck(s: System, side: Side)
    requires Reachable(s) && !s.At(side).PreWrap()
    ensures Enabled(s, Step(side, Incoming(Ack(s.At(side).e.localSeq))))
    ensures React(s.At(side).e, Incoming(Ack(s.At(side).e.localSeq))).canSend == 1
  {
    hide Reachable;
    ReachableTrail(s, side);
    assert s.At(side).e.localSeq < SEQ_MODULUS;
  }

  /**
   * The missing check matters exactly after the wrap: in a reachable state with nothing in flight, an
   * acknowledgement that would nevertheless be taken can arrive if and only if the sender has wrapped.
   */
  lemma AckTakenIdleIffWrapped(s: System, side: Side)
    requires Reachable(s) && s.At(side).e.inFlight == None
    ensures AckCanArrive(s, side) <==> !s.At(side).PreWrap()
  {
    hide Reachable, Half, After, Possible;
    if !s.At(side).PreWrap() {
      WrappedTakesStaleAck(s, side);
    } else if AckCanArrive(s, side) {
      var f :| Enabled(s, Step(side, Incoming(f))) && React(s.At(side).e, Incoming(f)).canSend > 0;
      AckFindsItsPayload(s, side, f);
    }
  }

  /**
   * A payload accepted after the wrap can be acknowledged at once, without having been sent, and is
   * then never delivered, whatever happens later.
   */
  lemma AcceptedAfterWrapIsLost(s: System, side: Side, payload: bytes, more: seq<Step>)
    requires Reachable(s) && !s.At(side).PreWrap() && s.At(side).e.inFlight == None
    ensures
      var submit, ack := Step(side, Submit(payload)), Step(side, Incoming(Ack(s.At(side).e.localSeq)));
      var t := Next(Next(s, submit), ack);
      && Enabled(s, submit) && Enabled(Next(s, submit), ack)
      && t.At(side).accepted == s.At(side).accepted + [payload] && t.At(side).e.inFlight == None
      && t.At(side).acked == s.At(side).acked + 1 && t.At(side).sent == s.At(side).sent
      && After(t, more).At(side.Other()).delivered == s.At(side.Other()).delivered
  {
    hide Reachable, Half, After;
    WrappedTakesStaleAck(s, side);
    WrapOnlyAfterLastNumber(s, side);
    var submit, ack := Step(side, Submit(payload)), Step(side, Incoming(Ack(s.At(side).e.localSeq)));
    PeakEndsDeliveryForever(Next(Next(s, submit), ack), side.Other(), more);
  }

  /**
   * The code does not check that anything is in flight when an acknowledgement matches. Between two
   * such endpoints something always is, before the wrap; and `canSend` for payload k > 0 is raised
   * only when the peer has already delivered that very payload as its k-th.
   */
  lemma AckFindsItsPayload(s: System, side: Side, f: Frame)
    requires Reachable(s) && s.At(side).PreWrap()
    requires Enabled(s, Step(side, Incoming(f)))
    requires React(s.At(side).e, Incoming(f)).canSend > 0
    ensures
      var n, peer, k := s.At(side), s.At(side.Other()), f.number;
      && n.e.inFlight.Some? && |n.accepted| == k + 1
      && n.e.inFlight.value == n.accepted[k]
      && (k > 0 ==> k == |peer.delivered| && peer.delivered[k - 1] == n.accepted[k])
  {
    hide Reachable, Half;
    ReachableHalf(s, side);
    HalfAckFindsPayload(s.At(side), s.At(side.Other()), f);
  }

  lemma RepeatHasNoEffect(n: Node, f: Frame)
    requires f in n.processed
    requires f.IsData() ==> f.number <= n.e.peerSeq
    requires f.HasAck() ==> f.number != n.e.localSeq
    ensures NodeStep(n, Incoming(f)) == n.(sent := if f.IsData() then n.sent + {Ack(f.number)} else n.sent)
  {
    var effect := React(n.e, Incoming(f));
    assert effect == Effect(n.e, if f.IsData() then [Ack(f.number)] else [], [], 0);
    assert n.processed + {f} == n.processed;
    assert n.delivered + [] == n.delivered;
    assert (set g | g in effect.sent) == if f.IsData() then {Ack(f.number)} else {};
  }

  lemma HalvesKnowRepeats(n: Node, peer: Node, f: Frame)
    requires Half(n, peer) && Half(peer, n) && n.PreWrap() && f in n.processed
    ensures f.IsData() ==> f.number <= n.e.peerSeq
    ensures f.HasAck() ==> f.number != n.e.localSeq
  {
  }

  /**
   * Reading again a frame that was read before, in any later state before the wrap, changes neither
   * counter, not the payload in flight and delivers nothing; repeated data is acknowledged again.
   */
  lemma RepeatsAreHarmless(s: System, side: Side, f: Frame)
    requires Reachable(s) && s.At(side).PreWrap() && f in s.At(side).processed
    ensures
      var n := s.At(side);
      NodeStep(n, Incoming(f)) == n.(sent := if f.IsData() then n.sent + {Ack(f.number)} else n.sent)
  {
    var n, peer := s.At(side), s.At(side.Other());
    hide Reachable, Half, NodeStep;
    ReachableHalf(s, side);
    ReachableHalf(s, side.Other());
    HalvesKnowRepeats(n, peer, f);
    RepeatHasNoEffect(n, f);
  }
}
