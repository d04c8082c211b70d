/** The gather form of `Stream::write`: several packets leave as one contiguous packet. */
module Streams {
  import opened Bytes
  import opened Packets

  predicate AllValid(packets: seq<Packet>) {
    forall i :: 0 <= i < |packets| ==> packets[i].Valid()
  }

  function ContentsOf(packets: seq<Packet>): (r: seq<bytes>)
    requires AllValid(packets)
    ensures |r| == |packets|
  {
    seq(|packets|, i requires 0 <= i < |packets| => packets[i].Contents())
  }

  function TotalLength(packets: seq<Packet>): nat {
    if packets == [] then 0 else TotalLength(packets[..|packets| - 1]) + packets[|packets| - 1].length
  }

  lemma {:induction false} TotalLengthIsFlattened(packets: seq<Packet>)
    requires AllValid(packets)
    ensures TotalLength(packets) == |Flatten(ContentsOf(packets))|
  {
    if packets != [] {
      var n := |packets| - 1;
      TotalLengthIsFlattened(packets[..n]);
      assert ContentsOf(packets) == ContentsOf(packets[..n]) + [packets[n].Contents()];
      FlattenSnoc(ContentsOf(packets[..n]), packets[n].Contents());
    }
  }

  lemma {:induction false} TotalLengthMonotone(packets: seq<Packet>, i: nat)
    requires i <= |packets|
    ensures TotalLength(packets[..i]) <= TotalLength(packets)
  {
    if i == |packets| {
      assert packets[..i] == packets;
    } else {
      var n := |packets| - 1;
      TotalLengthMonotone(packets[..n], i);
      assert packets[..n][..i] == packets[..i];
    }
  }

  lemma ContentsSnoc(packets: seq<Packet>, i: nat)
    requires AllValid(packets) && i < |packets|
    ensures
      Flatten(ContentsOf(packets[..i + 1])) == Flatten(ContentsOf(packets[..i])) + packets[i].Contents()
  {
    assert ContentsOf(packets[..i + 1]) == ContentsOf(packets[..i]) + [packets[i].Contents()];
    FlattenSnoc(ContentsOf(packets[..i]), packets[i].Contents());
  }

  /** One loop measures, a second one copies into a buffer of exactly the measured size. */
  method Gather(packets: seq<Packet>) returns (r: Packet)
    requires AllValid(packets)
    ensures r.Valid() && r.offset == 0 && r.length == |r.data|
    ensures r.Contents() == Flatten(ContentsOf(packets))
  {
    var size := 0;
    for i := 0 to |packets|
      invariant size == TotalLength(packets[..i])
    {
      assert packets[..i + 1][..i] == packets[..i];
      size := size + packets[i].length;
    }
    assert packets[..|packets|] == packets;

    var buffer := new byte[size];
    var offset := 0;
    for i := 0 to |packets|
      invariant offset == TotalLength(packets[..i]) <= size
      invariant buffer[..offset] == Flatten(ContentsOf(packets[..i]))
    {
      assert packets[..i + 1][..i] == packets[..i];
      TotalLengthMonotone(packets, i + 1);
      ContentsSnoc(packets, i);
      CopyInto(buffer, offset, packets[i].Contents());
      offset := offset + packets[i].length;
    }
    assert buffer[..offset] == buffer[..];
    r := Packet(buffer[..], 0, size);
  }
}
