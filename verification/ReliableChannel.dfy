/**
 * One endpoint of the stop-and-wait channel: what it does with a packet to send, an expired
 * timer and an incoming frame, and what holds of it whatever the other side does.
 */
module ReliableChannels {
  import opened Bytes
  import opened Packets
  import opened Streams
  import opened Headers

  datatype Endpoint = Endpoint(localSeq: u32, peerSeq: u32, inFlight: Option<bytes>, armed: bool)

  const CONSTRUCTED := Endpoint(0, 0, None, false)

  datatype Event =
    | Submit(payload: bytes)
    | Expire
    | Incoming(frame: Frame)

  /** The endpoint afterwards, the frames it put on the wire, the payloads it handed up. */
  datatype Effect = Effect(next: Endpoint, sent: seq<Frame>, delivered: seq<bytes>, canSend: nat)

  /** `writePacket`: takes the packet if nothing is in flight; neither transmits nor arms the timer. */
  function OnSubmit(e: Endpoint, payload: bytes): Effect {
    Effect(if e.inFlight.Some? then e else e.(inFlight := Some(payload)), [], [], 0)
  }

  /** `transmitQueue`: sends what is in flight, if anything, and arms the timer for it. */
  function OnTransmit(e: Endpoint): Effect {
    if e.inFlight.Some? then
      Effect(e.(armed := true), [Data(e.localSeq, e.inFlight.value)], [], 0)
    else
      Effect(e, [], [], 0)
  }

  /** `onTimeout`: the one-shot timer has fired and is no longer armed. */
  function OnExpire(e: Endpoint): Effect {
    OnTransmit(e.(armed := false))
  }

  /** `readPacket` on a decoded frame. */
  function OnFrame(e: Endpoint, f: Frame): Effect {
    if f.HasAck() && e.localSeq == f.number then
      Effect(Endpoint(Increment(e.localSeq), e.peerSeq, None, false), [], [], 1)
    else if f.IsData() then
      if e.peerSeq < f.number then
        Effect(e.(peerSeq := f.number), [Ack(f.number)], [f.payload], 0)
      else
        Effect(e, [Ack(f.number)], [], 0)
    else
      Effect(e, [], [], 0)
  }

  function React(e: Endpoint, event: Event): Effect {
    match event
    case Submit(payload) => OnSubmit(e, payload)
    case Expire => OnExpire(e)
    case Incoming(frame) => OnFrame(e, frame)
  }

  /**
   * A frame is taken as an acknowledgement exactly if bit 0x01 is set and the number is the current
   * one, is answered exactly if its flag byte is 0, and any other frame is ignored.
   */
  lemma FlagsDecide(e: Endpoint, f: Frame)
    ensures
      var effect := React(e, Incoming(f));
      && (effect.canSend > 0 <==> (f.flags as bv8) & 0x01 != 0 && f.number == e.localSeq)
      && (effect.sent != [] <==> f.flags == 0)
      && (effect.canSend == 0 && effect.sent == [] ==> effect == Effect(e, [], [], 0))
  {
    AckIsBitOne(f);
  }

  // ---- The endpoint on its own, against any peer whatsoever ----

  /** Everything one endpoint has done; `transmitted` says whether the payload in flight was ever sent. */
  datatype History = History(e: Endpoint, transmitted: bool, sent: seq<Frame>, delivered: seq<Frame>)

  function Observe(h: History, event: Event): History {
    var effect := React(h.e, event);
    History(
      effect.next,
      effect.next.inFlight.Some? && (h.transmitted || (effect.sent != [] && event.Expire?)),
      h.sent + effect.sent,
      if effect.delivered == [] || !event.Incoming? then h.delivered
      else h.delivered + [event.frame.(payload := effect.delivered[0])])
  }

  function Live(events: seq<Event>): History {
    if events == [] then History(CONSTRUCTED, false, [], [])
    else Observe(Live(events[..|events| - 1]), events[|events| - 1])
  }

  function IncomingData(events: seq<Event>): seq<Frame> {
    if events == [] then []
    else
      var rest, last := IncomingData(events[..|events| - 1]), events[|events| - 1];
      if last.Incoming? && last.frame.IsData() then rest + [last.frame] else rest
  }

  /** The frames of `frames` whose number exceeds zero and every number before them. */
  function Records(frames: seq<Frame>): seq<Frame> {
    if frames == [] then []
    else
      var before, last := frames[..|frames| - 1], frames[|frames| - 1];
      if last.number > 0 && (forall g | g in before :: g.number < last.number) then
        Records(before) + [last]
      else
        Records(before)
  }

  function AcksIn(frames: seq<Frame>): seq<Frame> {
    if frames == [] then []
    else
      var rest, last := AcksIn(frames[..|frames| - 1]), frames[|frames| - 1];
      if last.flags == ACK then rest + [last] else rest
  }

  function AcksFor(frames: seq<Frame>): seq<Frame> {
    seq(|frames|, i requires 0 <= i < |frames| => Ack(frames[i].number))
  }

  ghost predicate Increasing(frames: seq<Frame>) {
    forall i, j :: 0 <= i < j < |frames| ==> frames[i].number < frames[j].number
  }

  /** `peerSeq` is the largest number of any data frame seen so far. */
  lemma {:induction false} PeerSeqIsPeak(events: seq<Event>)
    ensures
      var peak, frames := Live(events).e.peerSeq, IncomingData(events);
      && (forall f | f in frames :: f.number <= peak)
      && (peak == 0 || exists f :: f in frames && f.number == peak)
  {
    if events != [] {
      var before, last := events[..|events| - 1], events[|events| - 1];
      PeerSeqIsPeak(before);
      var h := Live(before);
      if last.Incoming? && last.frame.IsData() {
        assert last.frame in IncomingData(events);
        forall f | f in IncomingData(before)
          ensures f in IncomingData(events)
        {
        }
      }
    }
  }

  lemma RecordsSnoc(frames: seq<Frame>, f: Frame, peak: nat)
    requires forall g | g in frames :: g.number <= peak
    requires peak == 0 || exists g :: g in frames && g.number == peak
    ensures Records(frames + [f]) == if peak < f.number then Records(frames) + [f] else Records(frames)
  {
    assert (frames + [f])[..|frames|] == frames;
  }

  lemma DeliveryIsByPeak(h: History, event: Event)
    ensures
      Observe(h, event).delivered
      == if event.Incoming? && event.frame.IsData() && h.e.peerSeq < event.frame.number
         then h.delivered + [event.frame] else h.delivered
  {
  }

  /** Whatever arrives, the deliveries are exactly the record-breaking data frames, in order. */
  lemma {:induction false} DeliversExactlyTheRecords(events: seq<Event>)
    ensures Live(events).delivered == Records(IncomingData(events))
  {
    hide Observe, Records;
    if events == [] {
      EmptyHasNoRecords();
    } else {
      var before, last := events[..|events| - 1], events[|events| - 1];
      DeliversExactlyTheRecords(before);
      PeerSeqIsPeak(before);
      DeliveryIsByPeak(Live(before), last);
      if last.Incoming? && last.frame.IsData() {
        RecordsSnoc(IncomingData(before), last.frame, Live(before).e.peerSeq);
      }
    }
  }

  lemma EmptyHasNoRecords()
    ensures Records([]) == []
  {
  }

  /** Delivered numbers strictly increase, start above 0 and end at `peerSeq`. */
  ghost predicate Climbs(h: History) {
    && Increasing(h.delivered)
    && (forall f | f in h.delivered :: 1 <= f.number <= h.e.peerSeq)
    && (h.delivered == [] <==> h.e.peerSeq == 0)
    && (h.delivered != [] ==> h.delivered[|h.delivered| - 1].number == h.e.peerSeq)
    && |h.delivered| <= h.e.peerSeq < SEQ_MODULUS
  }

  lemma PeakMoves(h: History, event: Event)
    ensures
      Observe(h, event).e.peerSeq
      == if event.Incoming? && event.frame.IsData() && h.e.peerSeq < event.frame.number
         then event.frame.number else h.e.peerSeq
  {
  }

  lemma ClimbsOn(h: History, h': History, f: Frame)
    requires Climbs(h) && h.e.peerSeq < f.number
    requires h'.delivered == h.delivered + [f] && h'.e.peerSeq == f.number
    ensures Climbs(h')
  {
    forall i, j | 0 <= i < j < |h'.delivered|
      ensures h'.delivered[i].number < h'.delivered[j].number
    {
      assert h'.delivered[i] == h.delivered[i] && h.delivered[i] in h.delivered;
    }
  }

  lemma ClimbsKept(h: History, event: Event)
    requires Climbs(h)
    ensures Climbs(Observe(h, event))
  {
    hide Observe;
    DeliveryIsByPeak(h, event);
    PeakMoves(h, event);
    if event.Incoming? && event.frame.IsData() && h.e.peerSeq < event.frame.number {
      hide Climbs;
      ClimbsOn(h, Observe(h, event), event.frame);
    }
  }

  /**
   * Against any stream of frames, delivered numbers strictly increase and end at `peerSeq`, so an
   * endpoint makes fewer than 2^32 deliveries in its life.
   */
  lemma {:induction false} DeliveriesAreBounded(events: seq<Event>)
    ensures Climbs(Live(events))
  {
    if events != [] {
      hide Observe, Climbs;
      DeliveriesAreBounded(events[..|events| - 1]);
      ClimbsKept(Live(events[..|events| - 1]), events[|events| - 1]);
    }
  }

  lemma AcksInSnoc(frames: seq<Frame>, f: Frame)
    ensures AcksIn(frames + [f]) == if f.flags == ACK then AcksIn(frames) + [f] else AcksIn(frames)
  {
    assert (frames + [f])[..|frames|] == frames;
  }

  function AckOwed(event: Event): seq<Frame> {
    if event.Incoming? && event.frame.IsData() then [Ack(event.frame.number)] else []
  }

  lemma AcksInGrows(h: History, event: Event)
    ensures AcksIn(Observe(h, event).sent) == AcksIn(h.sent) + AckOwed(event)
  {
    var emitted := React(h.e, event).sent;
    if emitted == [] {
      assert h.sent + emitted == h.sent;
    } else {
      assert emitted == [emitted[0]];
      AcksInSnoc(h.sent, emitted[0]);
    }
  }

  lemma AcksForGrows(events: seq<Event>)
    requires events != []
    ensures
      AcksFor(IncomingData(events))
      == AcksFor(IncomingData(events[..|events| - 1])) + AckOwed(events[|events| - 1])
  {
  }

  /** Every data frame, new or repeated, is acknowledged once, with its own number, in order. */
  lemma {:induction false} EveryDataFrameIsAcknowledged(events: seq<Event>)
    ensures AcksIn(Live(events).sent) == AcksFor(IncomingData(events))
  {
    if events != [] {
      var before, last := events[..|events| - 1], events[|events| - 1];
      EveryDataFrameIsAcknowledged(before);
      AcksInGrows(Live(before), last);
      AcksForGrows(events);
    }
  }

  /** The timer runs exactly while a payload that has been transmitted awaits its acknowledgement. */
  lemma {:induction false} TimerInvariant(events: seq<Event>)
    ensures
      var h := Live(events);
      h.e.armed <==> h.e.inFlight.Some? && h.transmitted
  {
    if events != [] {
      TimerInvariant(events[..|events| - 1]);
    }
  }

  /** Timeouts occur only when the timer is armed, as the event loop has it. */
  ghost predicate GenuineTimeouts(events: seq<Event>) {
    forall i :: 0 <= i < |events| && events[i].Expire? ==> Live(events[..i]).e.armed
  }

  /**
   * Since accepting a packet neither transmits nor arms the timer, a freshly constructed channel
   * driven by its own timer alone never sends a data frame, whatever it is given to send or receives.
   */
  lemma {:induction false} NeverTransmitsUnprompted(events: seq<Event>)
    requires GenuineTimeouts(events)
    ensures forall f | f in Live(events).sent :: !f.IsData()
    ensures !Live(events).e.armed
  {
    if events != [] {
      var n := |events| - 1;
      var before := events[..n];
      forall i | 0 <= i < |before| && before[i].Expire?
        ensures Live(before[..i]).e.armed
      {
        assert before[..i] == events[..i] && events[i].Expire?;
      }
      NeverTransmitsUnprompted(before);
    }
  }

  // ---- The channel object, working on bytes ----

  function EncodeFrames(cid: byte, frames: seq<Frame>): (r: seq<bytes>)
    ensures |r| == |frames|
  {
    seq(|frames|, i requires 0 <= i < |frames| => EncodeFrame(cid, frames[i]))
  }

  /** Every string a channel writes begins with its own id and decodes to the frame meant. */
  lemma FramesAreStamped(cid: byte, frames: seq<Frame>, i: nat)
    requires i < |frames|
    ensures
      var raw := EncodeFrames(cid, frames)[i];
      && |raw| == 6 + |frames[i].payload| && raw[0] == cid && raw[1] == frames[i].flags
      && DecodeFrame(raw) == frames[i]
  {
    FrameRoundTrip(cid, frames[i]);
    WireLayout(cid, frames[i]);
  }

  class ReliableChannel {
    const cid: byte
    var timerArmed: bool
    var inFlightPacket: Option<Packet>
    var localSeq: u32
    var peerSeq: u32

    // What the channel has done to its surroundings: frames given to `next`, payloads given to
    // `receive`, and how often `canSend` was raised.
    var written: seq<bytes>
    var received: seq<bytes>
    var canSendRaised: nat

    predicate Valid()
      reads this
    {
      inFlightPacket.Some? ==> inFlightPacket.value.Valid()
    }

    function View(): Endpoint
      requires Valid()
      reads this
    {
      Endpoint(localSeq, peerSeq,
               if inFlightPacket.Some? then Some(inFlightPacket.value.Contents()) else None,
               timerArmed)
    }

    /** The state and the visible outputs are those of `effect` applied to the old ones. */
    twostate predicate Performed(effect: Effect)
      reads this
    {
      && Valid()
      && View() == effect.next
      && written == old(written) + EncodeFrames(cid, effect.sent)
      && received == old(received) + effect.delivered
      && canSendRaised == old(canSendRaised) + effect.canSend
    }

    constructor (cid: byte)
      ensures Valid() && View() == CONSTRUCTED && this.cid == cid
      ensures written == [] && received == [] && canSendRaised == 0
    {
      this.cid := cid;
      timerArmed, inFlightPacket, localSeq, peerSeq := false, None, 0, 0;
      written, received, canSendRaised := [], [], 0;
    }

    method OnTimeout()
      requires Valid()
      modifies this
      ensures Performed(OnExpire(old(View())))
    {
      timerArmed := false;
      TransmitQueue();
    }

    method TransmitQueue()
      requires Valid()
      modifies this
      ensures Performed(OnTransmit(old(View())))
    {
      if inFlightPacket.Some? {
        TransmitPacket(inFlightPacket.value);
        timerArmed := true;
      }
    }

    method TransmitPacket(packet: Packet)
      requires packet.Valid()
      modifies this`written
      ensures written == old(written) + [EncodeFrame(cid, Data(localSeq, packet.Contents()))]
    {
      var header := EncodeHeader(Header(cid, 0, localSeq));
      Send([Whole(header), packet]);
      assert ContentsOf([Whole(header), packet]) == [header, packet.Contents()];
      FlattenFew(header, packet.Contents());
    }

    /** `next.write` with several packets. */
    method Send(packets: seq<Packet>)
      requires AllValid(packets)
      modifies this`written
      ensures written == old(written) + [Flatten(ContentsOf(packets))]
    {
      var joined := Gather(packets);
      written := written + [joined.Contents()];
    }

    method WritePacket(packet: Packet) returns (accepted: bool)
      requires Valid() && packet.Valid()
      modifies this
      ensures accepted <==> old(inFlightPacket).None?
      ensures Performed(OnSubmit(old(View()), packet.Contents()))
    {
      if inFlightPacket.Some? {
        return false;
      }
      inFlightPacket := Some(packet);
      return true;
    }

    method ReadPacket(packet: Packet)
      requires Valid() && packet.Valid() && packet.length >= HEADER_SIZE
      modifies this
      ensures Performed(OnFrame(old(View()), DecodeFrame(packet.Contents())))
    {
      var header := DecodeHeader(packet.Contents());

      if header.flags % 2 == ACK && localSeq == header.number {
        localSeq := Increment(localSeq);
        inFlightPacket := None;
        timerArmed := false;
        canSendRaised := canSendRaised + 1;
      } else if header.flags == 0 {
        var ackHeader := EncodeHeader(Header(cid, ACK, header.number));
        if peerSeq < header.number {
          peerSeq := header.number;
          received := received + [packet.Skip(HEADER_SIZE).Contents()];
        }
        Send([Whole(ackHeader)]);
        assert ContentsOf([Whole(ackHeader)]) == [ackHeader];
        FlattenFew(ackHeader, []);
        assert EncodeFrame(cid, Ack(header.number)) == ackHeader;
      }
    }
  }
}
