/**
 * Two channel objects joined by the network: any run of the protocol on bytes, played on the objects
 * themselves, leaves them as the protocol says, so its theorems are about the objects.
 */
module ChannelPairs {
  import opened Bytes
  import opened Packets
  import opened Headers
  import opened ReliableChannels
  import opened Protocol
  import opened WireProtocol

  /** The object, and the payloads it was seen to accept, agree with the protocol's node. */
  ghost predicate Matches(c: ReliableChannel, accepted: seq<bytes>, n: WireNode)
    reads c
  {
    && c.Valid() && c.View() == n.e && c.cid == n.cid
    && accepted == n.accepted && c.received == n.delivered && c.canSendRaised == n.acked
    && (set raw | raw in c.written) == n.wire
  }

  /** One event at one object. */
  method Handle(c: ReliableChannel, event: WireEvent, accepted: seq<bytes>, ghost n: WireNode)
      returns (accepted': seq<bytes>)
    requires Matches(c, accepted, n) && event.Legible()
    modifies c
    ensures Matches(c, accepted', WireNodeStep(n, event))
  {
    accepted' := accepted;
    ghost var effect, before := React(n.e, event.Meaning()), c.written;
    match event {
      case Offer(payload) =>
        var taken := c.WritePacket(Whole(payload));
        if taken {
          accepted' := accepted + [payload];
        }
      case Tick => c.OnTimeout();
      case Receive(raw) => c.ReadPacket(Whole(raw));
    }
    assert c.Valid() && c.View() == effect.next;
    assert c.written == before + EncodeFrames(c.cid, effect.sent);
  }

  lemma {:induction false} PrefixPossible(s: WireSystem, steps: seq<WireStep>, i: nat)
    requires WirePossible(s, steps) && i <= |steps|
    ensures WirePossible(s, steps[..i])
    decreases |steps|
  {
    if i == |steps| {
      assert steps[..i] == steps;
    } else {
      var n := |steps| - 1;
      PrefixPossible(s, steps[..n], i);
      assert steps[..n][..i] == steps[..i];
    }
  }

  /** The next step of a run on bytes brings its next state, and what arrives in it can be parsed. */
  lemma NextOfRun(cidA: byte, cidB: byte, steps: seq<WireStep>, i: nat)
    requires WirePossible(WireStart(cidA, cidB), steps) && i < |steps|
    ensures
      var s := WireStart(cidA, cidB);
      && steps[i].event.Legible()
      && WireAfter(s, steps[..i + 1]) == WireNext(WireAfter(s, steps[..i]), steps[i])
  {
    hide WireNext, WireEnabled, WireStart, After, Possible, WireAfter, WirePossible, Meanings, AbstractSystem, WireSystem.Legible;
    var s := WireStart(cidA, cidB);
    PrefixPossible(s, steps, i + 1);
    BytesSimulateFrames(cidA, cidB, steps[..i + 1]);
    assert steps[..i + 1] == steps[..i] + [steps[i]];
    WireRunSnoc(s, steps[..i], steps[i]);
    assert steps[..i + 1][i] == steps[i];
  }

  lemma WrittenIsStamped(c: ReliableChannel, accepted: seq<bytes>, n: WireNode)
    requires Matches(c, accepted, n) && Stamped(n)
    ensures forall raw | raw in c.written :: |raw| >= 6 && raw[0] == n.cid
  {
    forall raw | raw in c.written
      ensures raw in n.wire
    {
      assert raw in (set x | x in c.written);
    }
  }

  /**
   * Any run the network allows between two fresh channel objects: afterwards each has received a
   * prefix of what the other was seen to accept, its first payload left out.
   */
  method Play(cidA: byte, cidB: byte, steps: seq<WireStep>)
      returns (a: ReliableChannel, b: ReliableChannel, acceptedA: seq<bytes>, acceptedB: seq<bytes>)
    requires WirePossible(WireStart(cidA, cidB), steps)
    ensures Matches(a, acceptedA, WireAfter(WireStart(cidA, cidB), steps).a)
    ensures Matches(b, acceptedB, WireAfter(WireStart(cidA, cidB), steps).b)
    ensures forall raw | raw in a.written :: |raw| >= 6 && raw[0] == cidA
    ensures forall raw | raw in b.written :: |raw| >= 6 && raw[0] == cidB
    ensures b.received <= WithoutFirst(acceptedA)
    ensures a.received <= WithoutFirst(acceptedB)
  {
    a := new ReliableChannel(cidA);
    b := new ReliableChannel(cidB);
    acceptedA, acceptedB := [], [];
    ghost var s := WireStart(cidA, cidB);
    hide WirePossible, WireNodeStep, React;
    for i := 0 to |steps|
      invariant fresh(a) && fresh(b) && a != b
      invariant Matches(a, acceptedA, WireAfter(s, steps[..i]).a)
      invariant Matches(b, acceptedB, WireAfter(s, steps[..i]).b)
    {
      NextOfRun(cidA, cidB, steps, i);
      ghost var t := WireAfter(s, steps[..i]);
      if steps[i].side.A? {
        acceptedA := Handle(a, steps[i].event, acceptedA, t.a);
      } else {
        acceptedB := Handle(b, steps[i].event, acceptedB, t.b);
      }
    }
    assert steps[..|steps|] == steps;
    StampedAlongRun(cidA, cidB, steps);
    WrittenIsStamped(a, acceptedA, WireAfter(s, steps).a);
    WrittenIsStamped(b, acceptedB, WireAfter(s, steps).b);
    WireDeliveredIsPrefix(cidA, cidB, steps, A);
    WireDeliveredIsPrefix(cidA, cidB, steps, B);
  }
}
