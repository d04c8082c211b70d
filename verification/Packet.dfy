/** Immutable windows onto shared data: `Packet`, and what chains of `skip` and `truncate` mean. */
module Packets {
  import opened Bytes

  datatype Packet = Packet(data: bytes, offset: nat, length: nat) {

    predicate Valid() {
      offset + length <= |data|
    }

    function Contents(): bytes
      requires Valid()
    {
      data[offset..offset + length]
    }

    /** Dropping more than there is leaves an empty packet, not an error. */
    function Skip(count: nat): (r: Packet)
      requires Valid()
      ensures r.Valid() && r.data == data
      ensures r.Contents() == Contents()[Min(count, length)..]
    {
      var n := if count > length then length else count;
      assert data[offset + n..offset + length] == Contents()[n..];
      Packet(data, offset + n, length - n)
    }

    /** Asking for more than there is keeps the whole packet. */
    function Truncate(limit: nat): (r: Packet)
      requires Valid()
      ensures r.Valid() && r.data == data
      ensures r.Contents() == Contents()[..Min(limit, length)]
    {
      var n := if limit > length then length else limit;
      assert data[offset..offset + n] == Contents()[..n];
      Packet(data, offset, n)
    }
  }

  function Whole(data: bytes): (p: Packet)
    ensures p.Valid() && p.Contents() == data
  {
    Packet(data, 0, |data|)
  }

  /** Cutting a packet anywhere loses nothing and duplicates nothing. */
  lemma CutAndRejoin(p: Packet, k: nat)
    requires p.Valid()
    ensures p.Truncate(k).Contents() + p.Skip(k).Contents() == p.Contents()
  {
    var c, n := p.Contents(), Min(k, p.length);
    assert c[..n] + c[n..] == c;
  }

  /**
   * The documentation promises an empty packet for a limit beyond the length; the code gives one
   * exactly if the packet was empty, and the whole packet always.
   */
  lemma TruncateBeyondLength(p: Packet, k: nat)
    requires p.Valid() && k > p.length
    ensures p.Truncate(k) == p
    ensures p.Truncate(k).length == 0 <==> p.length == 0
  {
  }

  datatype Cut = SkipBy(count: nat) | TruncateTo(limit: nat)

  function Apply(p: Packet, cut: Cut): (r: Packet)
    requires p.Valid()
    ensures r.Valid()
  {
    match cut
    case SkipBy(n) => p.Skip(n)
    case TruncateTo(n) => p.Truncate(n)
  }

  function ApplyAll(p: Packet, cuts: seq<Cut>): (r: Packet)
    requires p.Valid()
    ensures r.Valid()
    decreases |cuts|
  {
    if cuts == [] then p else ApplyAll(Apply(p, cuts[0]), cuts[1..])
  }

  /** How many leading bytes a chain of cuts drops from a packet of `length` bytes. */
  function Dropped(cuts: seq<Cut>, length: nat): (n: nat)
    ensures n <= length
  {
    if cuts == [] then 0
    else match cuts[0]
      case SkipBy(n) => Min(n, length) + Dropped(cuts[1..], length - Min(n, length))
      case TruncateTo(n) => Dropped(cuts[1..], Min(n, length))
  }

  /** How many bytes remain after a chain of cuts. */
  function Kept(cuts: seq<Cut>, length: nat): (n: nat)
    ensures Dropped(cuts, length) + n <= length
  {
    if cuts == [] then length
    else match cuts[0]
      case SkipBy(n) => Kept(cuts[1..], length - Min(n, length))
      case TruncateTo(n) => Kept(cuts[1..], Min(n, length))
  }

  lemma {:induction false} ChainWindow(p: Packet, cuts: seq<Cut>)
    requires p.Valid()
    ensures ApplyAll(p, cuts) == Packet(p.data, p.offset + Dropped(cuts, p.length), Kept(cuts, p.length))
    decreases |cuts|
  {
    if cuts != [] {
      ChainWindow(Apply(p, cuts[0]), cuts[1..]);
    }
  }

  lemma SkipThenTruncate(p: Packet, d: nat, k: nat)
    requires p.Valid() && d + k <= p.length
    ensures p.Skip(d).Truncate(k) == Packet(p.data, p.offset + d, k)
  {
  }

  lemma SliceOfSlice(data: bytes, from: nat, length: nat, d: nat, k: nat)
    requires from + length <= |data| && d + k <= length
    ensures data[from..from + length][d..d + k] == data[from + d..from + d + k]
  {
    var window := data[from..from + length];
    var inner := window[d..d + k];
    assert forall i :: 0 <= i < k ==> inner[i] == data[from + d + i];
  }

  /**
   * Every chain of cuts collapses to one `skip` followed by one `truncate`, and therefore
   * reads exactly one slice of the original window and never leaves it.
   */
  lemma ChainsCollapse(p: Packet, cuts: seq<Cut>)
    requires p.Valid()
    ensures
      var d, k, r := Dropped(cuts, p.length), Kept(cuts, p.length), ApplyAll(p, cuts);
      && r == p.Skip(d).Truncate(k)
      && r.Contents() == p.Contents()[d..d + k]
      && p.offset <= r.offset && r.offset + r.length <= p.offset + p.length
  {
    var d, k := Dropped(cuts, p.length), Kept(cuts, p.length);
    ChainWindow(p, cuts);
    SkipThenTruncate(p, d, k);
    SliceOfSlice(p.data, p.offset, p.length, d, k);
  }
}
