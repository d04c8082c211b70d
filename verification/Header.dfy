/** The packed six-byte header of the reliable channel and the frames it introduces. */
module Headers {
  import opened Bytes

  const HEADER_SIZE: nat := 6
  const ACK: byte := 1

  /** `htonl`: most significant byte first. */
  function EncodeSeq(n: u32): (b: bytes)
    ensures |b| == 4
  {
    var n1 := n / 256;
    var n2 := n1 / 256;
    [n2 / 256, n2 % 256, n1 % 256, n % 256]
  }

  /** `ntohl`. */
  function DecodeSeq(b: bytes): u32
    requires |b| == 4
  {
    var b0: int, b1: int, b2: int, b3: int := b[0], b[1], b[2], b[3];
    ((b0 * 256 + b1) * 256 + b2) * 256 + b3
  }

  lemma SeqRoundTrip(n: u32)
    ensures DecodeSeq(EncodeSeq(n)) == n
  {
    var n1 := n / 256;
    var n2 := n1 / 256;
    assert n2 / 256 * 256 + n2 % 256 == n2;
    assert n2 * 256 + n1 % 256 == n1;
    assert n1 * 256 + n % 256 == n;
  }

  lemma SeqBytesRoundTrip(b: bytes)
    requires |b| == 4
    ensures EncodeSeq(DecodeSeq(b)) == b
  {
    var b0: int, b1: int, b2: int, b3: int := b[0], b[1], b[2], b[3];
    var n2 := b0 * 256 + b1;
    var n1 := n2 * 256 + b2;
    var n := n1 * 256 + b3;
    assert n / 256 == n1 && n % 256 == b3;
    assert n1 / 256 == n2 && n1 % 256 == b2;
    assert n2 / 256 == b0 && n2 % 256 == b1;
  }

  datatype Header = Header(cid: byte, flags: byte, number: u32)

  function EncodeHeader(h: Header): (b: bytes)
    ensures |b| == HEADER_SIZE
  {
    [h.cid, h.flags] + EncodeSeq(h.number)
  }

  /** Reads the first six bytes; the code checks no length, so shorter input is the caller's fault. */
  function DecodeHeader(b: bytes): Header
    requires |b| >= HEADER_SIZE
  {
    Header(b[0], b[1], DecodeSeq(b[2..6]))
  }

  /** What a frame means to a channel; the channel id is carried but never inspected. */
  datatype Frame = Frame(flags: byte, number: u32, payload: bytes) {
    predicate IsData() { flags == 0 }
    predicate HasAck() { flags % 2 == 1 }
  }

  function Data(number: u32, payload: bytes): Frame { Frame(0, number, payload) }

  function Ack(number: u32): Frame { Frame(ACK, number, []) }

  /** The flag test is that of bit 0x01. */
  lemma AckIsBitOne(f: Frame)
    ensures f.HasAck() <==> (f.flags as bv8) & 0x01 != 0
  {
  }

  function EncodeFrame(cid: byte, f: Frame): (b: bytes)
    ensures |b| == HEADER_SIZE + |f.payload|
  {
    EncodeHeader(Header(cid, f.flags, f.number)) + f.payload
  }

  function DecodeFrame(b: bytes): Frame
    requires |b| >= HEADER_SIZE
  {
    var h := DecodeHeader(b);
    Frame(h.flags, h.number, b[HEADER_SIZE..])
  }

  /** No channel id, flag byte, number or payload is lost on the wire. */
  lemma FrameRoundTrip(cid: byte, f: Frame)
    ensures DecodeFrame(EncodeFrame(cid, f)) == f
    ensures DecodeHeader(EncodeFrame(cid, f)).cid == cid
  {
    var b := EncodeFrame(cid, f);
    assert b[2..6] == EncodeSeq(f.number);
    SeqRoundTrip(f.number);
  }

  /** Every string of at least six bytes is the encoding of exactly one channel id and frame. */
  lemma FrameBytesRoundTrip(b: bytes)
    requires |b| >= HEADER_SIZE
    ensures EncodeFrame(b[0], DecodeFrame(b)) == b
    ensures forall cid, f :: EncodeFrame(cid, f) == b ==> cid == b[0] && f == DecodeFrame(b)
  {
    SeqBytesRoundTrip(b[2..6]);
    assert b == [b[0], b[1]] + b[2..6] + b[6..];
    forall cid, f | EncodeFrame(cid, f) == b
      ensures cid == b[0] && f == DecodeFrame(b)
    {
      FrameRoundTrip(cid, f);
    }
  }

  /** The number a byte string denotes, most significant byte first. */
  function BigEndian(b: bytes): nat {
    if b == [] then 0 else BigEndian(b[..|b| - 1]) * 256 + b[|b| - 1]
  }

  lemma SeqIsBigEndian(b: bytes)
    requires |b| == 4
    ensures DecodeSeq(b) == BigEndian(b)
  {
    assert b[..3][..2] == b[..2] && b[..2][..1] == b[..1] && b[..1][..0] == [];
    assert BigEndian(b[..1]) == b[0];
    assert BigEndian(b[..2]) == BigEndian(b[..1]) * 256 + b[1];
    assert BigEndian(b[..3]) == BigEndian(b[..2]) * 256 + b[2];
  }

  /** The packed layout on the wire: id, flags, number in network byte order, payload. */
  lemma WireLayout(cid: byte, f: Frame)
    ensures
      var b := EncodeFrame(cid, f);
      && b[0] == cid && b[1] == f.flags
      && BigEndian(b[2..6]) == f.number && b[6..] == f.payload
  {
    var b := EncodeFrame(cid, f);
    assert b[2..6] == EncodeSeq(f.number);
    SeqRoundTrip(f.number);
    SeqIsBigEndian(b[2..6]);
  }
}
