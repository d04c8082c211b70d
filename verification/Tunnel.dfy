/** The unreliable data channel and the tunnel that dispatches incoming packets to it. */
module Tunnels {
  import opened Bytes
  import opened Packets
  import opened Streams

  const DATA_CHANNEL: byte := 0

  datatype Error = TooShort | UnknownChannel

  datatype Result<+T> = Success(value: T) | Failure(error: Error)

  /** `UnreliableChannel::writePacket`: a one-byte header, then the payload. */
  method WriteUnreliable(cid: byte, packet: Packet) returns (frame: Packet)
    requires packet.Valid()
    ensures frame.Valid() && frame.Contents() == [cid] + packet.Contents()
  {
    var header := Whole([cid]);
    frame := Gather([header, packet]);
    assert ContentsOf([header, packet]) == [[cid], packet.Contents()];
    FlattenFew([cid], packet.Contents());
  }

  /** `UnreliableChannel::readPacket`: what the channel hands to its listeners. */
  function ReadUnreliable(packet: Packet): (r: Packet)
    requires packet.Valid()
    ensures r.Valid()
  {
    packet.Skip(1)
  }

  /** `getChannel`: the data channel is the only one there is; every reliable channel is refused. */
  function GetChannel(id: byte, reliable: bool): Result<byte> {
    if reliable then Failure(UnknownChannel)
    else if id == DATA_CHANNEL then Success(DATA_CHANNEL)
    else Failure(UnknownChannel)
  }

  /** `propagate`: strips the tag, then hands the rest to the channel, whose payload reaches `tun->write`. */
  function Propagate(packet: Packet): (r: Result<Packet>)
    requires packet.Valid()
    ensures r.Success? ==> r.value.Valid()
  {
    if packet.length == 0 then Failure(TooShort)
    else
      var channel := packet.Contents()[0];
      match GetChannel(channel % 0x80, channel >= 0x80)
      case Failure(e) => Failure(e)
      case Success(_) => Success(ReadUnreliable(packet.Skip(1)))
  }

  /** A packet reaches the device exactly if it begins with the data channel's id, 0. */
  lemma PropagateAccepts(packet: Packet)
    requires packet.Valid()
    ensures Propagate(packet).Success? <==> packet.length > 0 && packet.Contents()[0] == 0
    ensures Propagate(packet) == Failure(TooShort) <==> packet.length == 0
    ensures Propagate(packet) == Failure(UnknownChannel) <==> packet.length > 0 && packet.Contents()[0] != 0
  {
  }

  /** Read directly by the channel, a frame yields exactly the payload written. */
  lemma DirectReadReturnsPayload(cid: byte, payload: bytes, frame: Packet)
    requires frame.Valid() && frame.Contents() == [cid] + payload
    ensures ReadUnreliable(frame).Contents() == payload
  {
    assert ([cid] + payload)[1..] == payload;
  }

  /**
   * Through the tunnel the tag is stripped twice: what reaches the far device is the payload
   * without its first byte.
   */
  lemma TunnelDropsFirstByte(payload: bytes, frame: Packet)
    requires frame.Valid() && frame.Contents() == [0] + payload
    ensures Propagate(frame).Success?
    ensures Propagate(frame).value.Contents() == payload[Min(1, |payload|)..]
  {
    assert frame.Contents()[0] == 0;
    var inner := frame.Skip(1);
    assert inner.Contents() == payload;
    assert inner.Skip(1).Contents() == payload[Min(1, |payload|)..];
  }

  /** So the tunnel carries a packet intact exactly if the packet is empty. */
  lemma TunnelIntactIffEmpty(payload: bytes, frame: Packet)
    requires frame.Valid() && frame.Contents() == [0] + payload
    ensures Propagate(frame).Success?
    ensures Propagate(frame).value.Contents() == payload <==> payload == []
  {
    TunnelDropsFirstByte(payload, frame);
    assert payload != [] ==> |payload[1..]| < |payload|;
  }

  /** `tunRead` on one side and `propagate` on the other, composed. */
  method Carry(packet: Packet) returns (out: Packet)
    requires packet.Valid()
    ensures out.Valid() && out.Contents() == packet.Skip(1).Contents()
  {
    var frame := WriteUnreliable(DATA_CHANNEL, packet);
    TunnelDropsFirstByte(packet.Contents(), frame);
    out := Propagate(frame).value;
  }
}
