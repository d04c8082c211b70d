/**
 * Progress of the protocol: one undisturbed exchange gets the payload in flight across, and any
 * list of payloads gets across under any finite number of losses.
 */
module Progress {
  import opened Bytes
  import opened Headers
  import opened ReliableChannels
  import opened Protocol

  lemma RunSnoc(s: System, steps: seq<Step>, step: Step)
    ensures After(s, steps + [step]) == Next(After(s, steps), step)
    ensures Possible(s, steps + [step]) <==> Possible(s, steps) && Enabled(After(s, steps), step)
  {
    assert (steps + [step])[..|steps|] == steps;
  }

  lemma EmptyRun(s: System)
    ensures Possible(s, []) && After(s, []) == s
  {
  }

  /** Runs compose. */
  lemma {:induction false} RunConcat(s: System, xs: seq<Step>, ys: seq<Step>)
    requires Possible(s, xs) && Possible(After(s, xs), ys)
    ensures Possible(s, xs + ys) && After(s, xs + ys) == After(After(s, xs), ys)
    decreases |ys|
  {
    hide Next, Enabled;
    if ys == [] {
      assert xs + ys == xs;
    } else {
      var n := |ys| - 1;
      RunConcat(s, xs, ys[..n]);
      assert xs + ys == (xs + ys[..n]) + [ys[n]];
      RunSnoc(s, xs + ys[..n], ys[n]);
    }
  }

  /** Every state a reachable state can run to is reachable. */
  lemma ReachableExtends(s: System, steps: seq<Step>)
    requires Reachable(s) && Possible(s, steps)
    ensures Reachable(After(s, steps))
  {
    var before :| Possible(START, before) && After(START, before) == s;
    RunConcat(START, before, steps);
  }

  /** What the network does to one transmission and its acknowledgement. */
  datatype Fate = DataLost | AckLost | Through

  /** One try: offer the payload (refused if it is still in flight), let the timer fire, and meet `fate`. */
  function Try(side: Side, k: u32, payload: bytes, fate: Fate): seq<Step> {
    [Step(side, Submit(payload)), Step(side, Expire)]
    + (if fate.DataLost? then [] else [Step(side.Other(), Incoming(Data(k, payload)))])
    + (if fate.Through? then [Step(side, Incoming(Ack(k)))] else [])
  }

  /** Nothing is in flight, or the payload being offered is. */
  predicate ReadyFor(n: Node, payload: bytes) {
    n.e.inFlight == None || n.e.inFlight == Some(payload)
  }

  /** The payloads accepted and acknowledged. */
  function Settled(n: Node): seq<bytes> {
    if n.acked <= |n.accepted| then n.accepted[..n.acked] else n.accepted
  }

  /** A sender after offering a payload and letting the timer fire. */
  function LaunchedNode(n: Node, payload: bytes): Node {
    NodeStep(NodeStep(n, Submit(payload)), Expire)
  }

  lemma LaunchEffect(n: Node, payload: bytes)
    requires ReadyFor(n, payload)
    requires |n.accepted| == n.acked + (if n.e.inFlight.Some? then 1 else 0)
    requires n.e.inFlight.Some? ==> n.accepted[n.acked] == n.e.inFlight.value
    ensures
      var m := LaunchedNode(n, payload);
      && m.e == n.e.(inFlight := Some(payload), armed := true)
      && m.acked == n.acked && m.accepted == Settled(n) + [payload]
      && Data(n.e.localSeq, payload) in m.sent
  {
    var mid := NodeStep(n, Submit(payload));
    assert mid.e == n.e.(inFlight := Some(payload));
    assert React(mid.e, Expire).sent == [Data(n.e.localSeq, payload)];
  }

  lemma SenderCounts(s: System, side: Side)
    requires Inv(s) && s.At(side).PreWrap()
    ensures
      var n := s.At(side);
      && n.e.localSeq == n.acked
      && |n.accepted| == n.acked + (if n.e.inFlight.Some? then 1 else 0)
      && (n.e.inFlight.Some? ==> n.accepted[n.acked] == n.e.inFlight.value)
  {
    assert Half(s.At(side), s.At(side.Other()));
  }

  lemma LaunchIsPossible(s: System, side: Side, payload: bytes)
    requires Inv(s)
    ensures
      var steps := Try(side, s.At(side).e.localSeq, payload, DataLost);
      && Possible(s, steps)
      && After(s, steps) == s.With(side, LaunchedNode(s.At(side), payload))
      && Inv(After(s, steps))
  {
    hide Inv, NodeStep;
    var first, second := Step(side, Submit(payload)), Step(side, Expire);
    RunSnoc(s, [], first);
    RunSnoc(s, [first], second);
    assert [] + [first] == [first];
    assert Try(side, s.At(side).e.localSeq, payload, DataLost) == [first] + [second];
    InvKept(s, first);
    InvKept(Next(s, first), second);
  }

  lemma ArrivalProvokesAck(r: Node, k: u32, payload: bytes)
    ensures Ack(k) in NodeStep(r, Incoming(Data(k, payload))).sent
  {
    assert Ack(k) in React(r.e, Incoming(Data(k, payload))).sent;
  }

  lemma LandingIsPossible(s: System, side: Side, payload: bytes)
    requires Inv(s) && s.At(side).PreWrap() && ReadyFor(s.At(side), payload)
    ensures
      var steps := Try(side, s.At(side).e.localSeq, payload, AckLost);
      var t := After(s, steps);
      && Possible(s, steps) && Inv(t)
      && t.At(side) == LaunchedNode(s.At(side), payload)
      && Ack(s.At(side).e.localSeq) in t.At(side.Other()).sent
  {
    hide Inv, NodeStep, LaunchedNode, After, Possible;
    LaunchIsPossible(s, side, payload);
    SenderCounts(s, side);
    LaunchEffect(s.At(side), payload);
    var k := s.At(side).e.localSeq;
    var steps, step := Try(side, k, payload, DataLost), Step(side.Other(), Incoming(Data(k, payload)));
    var launched := After(s, steps);
    InvKept(launched, step);
    RunSnoc(s, steps, step);
    assert steps + [step] == Try(side, k, payload, AckLost);
    ArrivalProvokesAck(launched.At(side.Other()), k, payload);
  }

  lemma MatchingAckSettles(n: Node)
    ensures
      var m := NodeStep(n, Incoming(Ack(n.e.localSeq)));
      m.e.inFlight == None && m.acked == n.acked + 1 && m.accepted == n.accepted
  {
  }

  /** A try that meets no loss clears the payload in flight and settles it. */
  lemma ThroughSettles(s: System, side: Side, payload: bytes)
    requires Inv(s) && s.At(side).PreWrap() && ReadyFor(s.At(side), payload)
    ensures
      var steps := Try(side, s.At(side).e.localSeq, payload, Through);
      var t := After(s, steps);
      && Possible(s, steps) && Inv(t)
      && t.At(side).e.inFlight == None && t.At(side).acked == s.At(side).acked + 1
      && t.At(side).accepted == Settled(s.At(side)) + [payload]
  {
    hide Inv, NodeStep, LaunchedNode, After, Possible;
    LandingIsPossible(s, side, payload);
    SenderCounts(s, side);
    LaunchEffect(s.At(side), payload);
    var k := s.At(side).e.localSeq;
    var steps, step := Try(side, k, payload, AckLost), Step(side, Incoming(Ack(k)));
    var landed := After(s, steps);
    InvKept(landed, step);
    RunSnoc(s, steps, step);
    assert steps + [step] == Try(side, k, payload, Through);
    MatchingAckSettles(landed.At(side));
  }

  /** When nothing is in flight and the peer has had every number so far, everything has been delivered. */
  lemma IdleMeansDelivered(s: Node, r: Node)
    requires Half(s, r) && s.e.inFlight == None && s.acked <= SEQ_MODULUS && |s.accepted| == s.acked
    ensures r.delivered == WithoutFirst(s.accepted)
  {
    if s.acked > 0 {
      assert r.e.peerSeq == s.acked - 1;
    }
  }

  /** Timeout, arrival of the data frame, arrival of its acknowledgement. */
  function Exchange(side: Side, k: u32, payload: bytes): seq<Step> {
    [Step(side, Expire), Step(side.Other(), Incoming(Data(k, payload))), Step(side, Incoming(Ack(k)))]
  }

  lemma ExchangeSettles(s: System, side: Side, payload: bytes)
    requires Inv(s) && s.At(side).PreWrap() && s.At(side).e.inFlight == Some(payload)
    ensures
      var steps := Exchange(side, s.At(side).e.localSeq, payload);
      var t := After(s, steps);
      && Possible(s, steps) && Inv(t)
      && t.At(side).e.inFlight == None && t.At(side).acked == s.At(side).acked + 1
      && t.At(side).accepted == Settled(s.At(side)) + [payload]
  {
    hide Inv, NodeStep, After, Possible;
    ThroughSettles(s, side, payload);
    RefusedOfferChangesNothing(s, side, payload);
    var k := s.At(side).e.localSeq;
    var steps := Try(side, k, payload, Through);
    RunUncons(s, steps);
    assert steps[1..] == Exchange(side, k, payload);
  }

  /**
   * From every reachable state before the wrap with payload number k in flight, a timeout, the
   * arrival of the data frame and the arrival of its acknowledgement are possible, clear it, and
   * leave exactly payloads 1 to k delivered: payload 0 is acknowledged but not delivered.
   */
  lemma ExchangeClears(s: System, side: Side, payload: bytes)
    requires Reachable(s) && s.At(side).PreWrap() && s.At(side).e.inFlight == Some(payload)
    ensures
      var k := s.At(side).e.localSeq;
      var t := After(s, Exchange(side, k, payload));
      && Possible(s, Exchange(side, k, payload))
      && t.At(side).e.inFlight == None && t.At(side).acked == k + 1
      && t.At(side).accepted == s.At(side).accepted && |s.At(side).accepted| == k + 1
      && t.At(side.Other()).delivered == s.At(side).accepted[1..]
  {
    hide Reachable, Inv, Half, NodeStep, After, Possible;
    ReachableInv(s);
    SenderCounts(s, side);
    var n := s.At(side);
    ExchangeSettles(s, side, payload);
    var t := After(s, Exchange(side, n.e.localSeq, payload));
    InvGivesHalf(t, side);
    assert n.accepted == Settled(n) + [payload];
    IdleMeansDelivered(t.At(side), t.At(side.Other()));
  }

  lemma RefusedOfferChangesNothing(s: System, side: Side, payload: bytes)
    requires s.At(side).e.inFlight.Some?
    ensures Next(s, Step(side, Submit(payload))) == s
  {
    var n := s.At(side);
    var n' := NodeStep(n, Submit(payload));
    assert n'.delivered == n.delivered && n'.sent == n.sent;
  }

  lemma InvGivesHalf(s: System, side: Side)
    requires Inv(s)
    ensures Half(s.At(side), s.At(side.Other()))
  {
  }

  lemma {:induction false} RunUncons(s: System, steps: seq<Step>)
    requires steps != [] && Possible(s, steps)
    ensures Possible(Next(s, steps[0]), steps[1..])
    ensures After(Next(s, steps[0]), steps[1..]) == After(s, steps)
    decreases |steps|
  {
    hide Enabled, NodeStep;
    var n := |steps| - 1;
    if n > 0 {
      RunUncons(s, steps[..n]);
      assert steps[..n][1..] == steps[1..][..n - 1];
    } else {
      assert steps[..n] == [];
    }
  }

  /**
   * The run in which `side` sends `payloads`, the first of them numbered `k`, retrying each until it
   * gets through; after the scripted fates, everything gets through.
   */
  function Drive(side: Side, k: nat, payloads: seq<bytes>, script: seq<Fate>): seq<Step>
    requires k + |payloads| <= SEQ_MODULUS
    decreases |payloads|, |script|
  {
    if payloads == [] then []
    else if script == [] then
      Try(side, k, payloads[0], Through) + Drive(side, k + 1, payloads[1..], script)
    else if script[0].Through? then
      Try(side, k, payloads[0], Through) + Drive(side, k + 1, payloads[1..], script[1..])
    else
      Try(side, k, payloads[0], script[0]) + Drive(side, k, payloads, script[1..])
  }

  /** Nothing foreign is in flight, the payloads fit before the wrap, and the next number is `k`. */
  ghost predicate CanDrive(s: System, side: Side, k: nat, payloads: seq<bytes>) {
    var n := s.At(side);
    && Inv(s) && n.acked == k && k + |payloads| <= SEQ_MODULUS
    && (n.e.inFlight == None || (payloads != [] && n.e.inFlight == Some(payloads[0])))
    && (payloads == [] ==> |n.accepted| == k)
  }

  ghost predicate Driven(s: System, t: System, side: Side, payloads: seq<bytes>) {
    && Inv(t) && t.At(side).e.inFlight == None
    && t.At(side).acked == s.At(side).acked + |payloads|
    && t.At(side).accepted == Settled(s.At(side)) + payloads
  }

  lemma SettledThen(n: Node, t: Node, payload: bytes)
    requires n.acked <= |n.accepted|
    requires t.acked == n.acked + 1 && t.accepted == Settled(n) + [payload]
    ensures Settled(t) == Settled(n) + [payload]
  {
  }

  /** A try that meets a loss leaves the payload in flight and settles nothing. */
  lemma LossLeavesInFlight(s: System, side: Side, payload: bytes, fate: Fate)
    requires Inv(s) && s.At(side).PreWrap() && ReadyFor(s.At(side), payload) && !fate.Through?
    ensures
      var steps := Try(side, s.At(side).e.localSeq, payload, fate);
      var t := After(s, steps);
      && Possible(s, steps) && Inv(t)
      && t.At(side).e.inFlight == Some(payload) && t.At(side).acked == s.At(side).acked
      && t.At(side).accepted == Settled(s.At(side)) + [payload]
  {
    hide Inv, NodeStep, LaunchedNode, After, Possible;
    SenderCounts(s, side);
    LaunchEffect(s.At(side), payload);
    if fate.DataLost? {
      LaunchIsPossible(s, side, payload);
    } else {
      LandingIsPossible(s, side, payload);
    }
  }

  lemma DriveAfterThrough(s: System, side: Side, k: nat, payloads: seq<bytes>, rest: seq<Step>)
    requires CanDrive(s, side, k, payloads) && payloads != []
    ensures
      var attempt := Try(side, k, payloads[0], Through);
      var t := After(s, attempt);
      && CanDrive(t, side, k + 1, payloads[1..])
      && (Possible(t, rest) && Driven(t, After(t, rest), side, payloads[1..]) ==>
            Possible(s, attempt + rest) && Driven(s, After(s, attempt + rest), side, payloads))
  {
    hide Inv, NodeStep, After, Possible;
    var p, n := payloads[0], s.At(side);
    SenderCounts(s, side);
    ThroughSettles(s, side, p);
    var attempt := Try(side, k, p, Through);
    var t := After(s, attempt);
    SettledThen(n, t.At(side), p);
    assert Settled(n) + [p] + payloads[1..] == Settled(n) + payloads;
    if Possible(t, rest) {
      RunConcat(s, attempt, rest);
    }
  }

  lemma DriveAfterLoss(s: System, side: Side, k: nat, payloads: seq<bytes>, fate: Fate, rest: seq<Step>)
    requires CanDrive(s, side, k, payloads) && payloads != [] && !fate.Through?
    ensures
      var attempt := Try(side, k, payloads[0], fate);
      var t := After(s, attempt);
      && CanDrive(t, side, k, payloads)
      && (Possible(t, rest) && Driven(t, After(t, rest), side, payloads) ==>
            Possible(s, attempt + rest) && Driven(s, After(s, attempt + rest), side, payloads))
  {
    hide Inv, NodeStep, After, Possible;
    var p, n := payloads[0], s.At(side);
    SenderCounts(s, side);
    LossLeavesInFlight(s, side, p, fate);
    var attempt := Try(side, k, p, fate);
    var t := After(s, attempt);
    assert Settled(t.At(side)) == Settled(n);
    if Possible(t, rest) {
      RunConcat(s, attempt, rest);
    }
  }

  lemma {:induction false} DriveArrives(s: System, side: Side, k: nat, payloads: seq<bytes>, script: seq<Fate>)
    requires CanDrive(s, side, k, payloads)
    ensures
      var steps := Drive(side, k, payloads, script);
      Possible(s, steps) && Driven(s, After(s, steps), side, payloads)
    decreases |payloads|, |script|
  {
    hide Inv, NodeStep, After, Possible, Driven;
    if payloads == [] {
      DriveNothing(s, side, k);
    } else if script == [] || script[0].Through? {
      var script' := if script == [] then script else script[1..];
      var rest := Drive(side, k + 1, payloads[1..], script');
      DriveAfterThrough(s, side, k, payloads, rest);
      DriveArrives(After(s, Try(side, k, payloads[0], Through)), side, k + 1, payloads[1..], script');
    } else {
      var rest := Drive(side, k, payloads, script[1..]);
      DriveAfterLoss(s, side, k, payloads, script[0], rest);
      DriveArrives(After(s, Try(side, k, payloads[0], script[0])), side, k, payloads, script[1..]);
    }
  }

  lemma DriveNothing(s: System, side: Side, k: nat)
    requires CanDrive(s, side, k, [])
    ensures Possible(s, []) && Driven(s, After(s, []), side, [])
  {
    EmptyRun(s);
    assert Settled(s.At(side)) + [] == s.At(side).accepted;
  }

  /**
   * From every reachable state before the wrap with nothing in flight, any list of payloads that fits
   * before the wrap, under any finite script of lost data frames and lost acknowledgements, is sent by
   * a run that ends; then everything was accepted once and in order, and everything ever accepted but
   * the very first payload was delivered once and in order.
   */
  lemma EverythingGetsAcross(s: System, side: Side, payloads: seq<bytes>, script: seq<Fate>)
    requires Reachable(s) && s.At(side).PreWrap() && s.At(side).e.inFlight == None
    requires s.At(side).acked + |payloads| <= SEQ_MODULUS
    ensures
      var steps := Drive(side, s.At(side).acked, payloads, script);
      var t := After(s, steps);
      && Possible(s, steps) && Reachable(t)
      && t.At(side).accepted == s.At(side).accepted + payloads
      && t.At(side).e.inFlight == None
      && t.At(side).acked == s.At(side).acked + |payloads|
      && t.At(side.Other()).delivered == WithoutFirst(s.At(side).accepted + payloads)
  {
    hide Reachable, Inv, Half, NodeStep, After, Possible;
    ReachableInv(s);
    SenderCounts(s, side);
    var n := s.At(side);
    DriveArrives(s, side, n.acked, payloads, script);
    var steps := Drive(side, n.acked, payloads, script);
    ReachableExtends(s, steps);
    assert Settled(n) == n.accepted;
    var t := After(s, steps);
    InvGivesHalf(t, side);
    IdleMeansDelivered(t.At(side), t.At(side.Other()));
  }

  lemma StartIsReachable()
    ensures Reachable(START)
  {
    EmptyRun(START);
  }

  /** In particular any list of at most 2^32 payloads gets across between two fresh endpoints. */
  lemma EverythingGetsAcrossFromStart(side: Side, payloads: seq<bytes>, script: seq<Fate>)
    requires |payloads| <= SEQ_MODULUS
    ensures
      var steps := Drive(side, 0, payloads, script);
      var t := After(START, steps);
      && Possible(START, steps) && Reachable(t)
      && t.At(side).accepted == payloads && t.At(side).e.inFlight == None
      && t.At(side).acked == |payloads|
      && t.At(side.Other()).delivered == WithoutFirst(payloads)
  {
    hide Reachable, After, Possible;
    StartIsReachable();
    EverythingGetsAcross(START, side, payloads, script);
    assert [] + payloads == payloads;
  }

  /** The first payload of a channel is taken and acknowledged, and never delivered. */
  lemma FirstPayloadIsLost(side: Side, payload: bytes)
    ensures
      var steps := Drive(side, 0, [payload], []);
      && Possible(START, steps)
      && After(START, steps).At(side).accepted == [payload]
      && After(START, steps).At(side).acked == 1
      && After(START, steps).At(side.Other()).delivered == []
  {
    EverythingGetsAcrossFromStart(side, [payload], []);
  }

  /**
   * The wrap is reached, by sending 2^32 payloads; there the counter is 0 again, nothing is in flight,
   * and the stale acknowledgement of payload 0 is taken.
   */
  lemma StaleAckAfterWrap(side: Side, payloads: seq<bytes>)
    requires |payloads| == SEQ_MODULUS
    ensures
      var steps := Drive(side, 0, payloads, []);
      var t := After(START, steps);
      && Possible(START, steps) && !t.At(side).PreWrap()
      && t.At(side).e.inFlight == None && t.At(side).e.localSeq == 0
      && Enabled(t, Step(side, Incoming(Ack(0))))
      && React(t.At(side).e, Incoming(Ack(0))).canSend == 1
  {
    hide After, Possible, Reachable;
    EverythingGetsAcrossFromStart(side, payloads, []);
    var t := After(START, Drive(side, 0, payloads, []));
    LocalSeqCountsAcks(t, side);
    WrappedTakesStaleAck(t, side);
  }
}
