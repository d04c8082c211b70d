/** IP addresses as a client of the archive: a family discriminator selects the size of what follows. */
module IPAddresses {
  import opened Bytes
  import opened Serialization

  /** `in_addr` holds four bytes, `in6_addr` sixteen. */
  datatype Address = IPv4(native: bytes) | IPv6(native: bytes) {
    predicate Valid() {
      |native| == if IPv4? then 4 else 16
    }
  }

  type IPAddress = a: Address | a.Valid() witness IPv4([127, 0, 0, 1])

  // `AddressFamily` is an `int`: AF_INET and AF_INET6, as little-endian machines store them.
  const FAMILY_V4: bytes := [2, 0, 0, 0]
  const FAMILY_V6: bytes := [10, 0, 0, 0]

  const ADDRESS := SSwitch(4, [Arm(FAMILY_V4, SPod(4)), Arm(FAMILY_V6, SPod(16))])

  function ToTree(ip: IPAddress): Tree {
    Tagged(if ip.IPv4? then FAMILY_V4 else FAMILY_V6, Pod(ip.native))
  }

  function FromTree(t: Tree): Option<IPAddress> {
    if t.Tagged? && t.body.Pod? then
      if t.tag == FAMILY_V4 && |t.body.raw| == 4 then Some(IPv4(t.body.raw))
      else if t.tag == FAMILY_V6 && |t.body.raw| == 16 then Some(IPv6(t.body.raw))
      else None
    else None
  }

  function ToTrees(ips: seq<IPAddress>): (r: seq<Tree>)
    ensures |r| == |ips|
  {
    seq(|ips|, i requires 0 <= i < |ips| => ToTree(ips[i]))
  }

  lemma SelectsFamily(tag: bytes)
    ensures Select(ADDRESS.arms, tag) == if tag == FAMILY_V4 then 0 else if tag == FAMILY_V6 then 1 else 2
  {
    var arms := ADDRESS.arms;
    assert arms[1..] == [Arm(FAMILY_V6, SPod(16))];
    assert arms[1..][1..] == [];
  }

  lemma AddressConforms(ip: IPAddress)
    ensures Conforms(ToTree(ip), ADDRESS)
  {
    SelectsFamily(ToTree(ip).tag);
    assert FAMILY_V4[0] != FAMILY_V6[0];
  }

  method SerializeAddress(ip: IPAddress, s: Serializer)
    requires s.Room(|Encode(ToTree(ip))|)
    modifies s`offset, s.buffer
    ensures s.Appended(Encode(ToTree(ip)), [])
  {
    var family := if ip.IPv4? then FAMILY_V4 else FAMILY_V6;
    s.PushRaw(family, 4);
    ghost var mid := s.Memory();
    s.PushRaw(ip.native, |ip.native|);
    assert family[..4] == family && ip.native[..|ip.native|] == ip.native;
    if s.buffer != null {
      StoredTwice(s.Memory(), mid, old(s.Memory()), old(s.offset), family, ip.native);
    }
  }

  /** Reading an address gives what the generic reader gives for its schema. */
  method DeserializeAddress(d: Deserializer) returns (ip: IPAddress)
    requires Decode(ADDRESS, d.archive, d.Position()).Some?
    modifies d
    ensures Decode(ADDRESS, d.archive, old(d.Position())) == Some((ToTree(ip), d.Position()))
  {
    ghost var start := d.Position();
    var family := d.PopRaw(4);
    SelectsFamily(family);
    if family == FAMILY_V4 {
      var native := d.PopRaw(4);
      ip := IPv4(native);
    } else {
      var native := d.PopRaw(16);
      ip := IPv6(native);
    }
    assert FAMILY_V4[0] != FAMILY_V6[0];
  }

  lemma ToTreeInjective(x: IPAddress, y: IPAddress)
    ensures FromTree(ToTree(x)) == Some(x)
    ensures ToTree(x) == ToTree(y) ==> x == y
  {
    assert FAMILY_V4[0] != FAMILY_V6[0];
  }

  /** Any mixed list of addresses written back to back is read back as exactly that list. */
  lemma AddressListRoundTrip(ips: seq<IPAddress>)
    ensures
      var data := EncodeAll(ToTrees(ips));
      && Decode(SArray(ADDRESS, |ips|), Archive(data, |data|, []), Cursor(0, 0))
         == Some((Array(ToTrees(ips)), Cursor(|data|, 0)))
      && forall i | 0 <= i < |ips| :: FromTree(ToTrees(ips)[i]) == Some(ips[i])
  {
    var ts := ToTrees(ips);
    var t, s := Array(ts), SArray(ADDRESS, |ips|);
    forall i | 0 <= i < |ips|
      ensures Conforms(ts[i], ADDRESS) && FromTree(ts[i]) == Some(ips[i])
    {
      AddressConforms(ips[i]);
      ToTreeInjective(ips[i], ips[i]);
    }
    NoDescriptors(ips);
    assert Encode(t) == EncodeAll(ts) && Fds(t) == [];
    ArchiveRoundTrip(t, s, Archive(EncodeAll(ts), |EncodeAll(ts)|, []));
  }

  lemma {:induction false} NoDescriptors(ips: seq<IPAddress>)
    ensures FdsAll(ToTrees(ips)) == []
  {
    if ips != [] {
      assert ToTrees(ips)[1..] == ToTrees(ips[1..]);
      NoDescriptors(ips[1..]);
      assert Fds(ToTree(ips[0])) == Fds(Pod(ips[0].native)) == [];
    }
  }

  /** The number a byte string denotes, least significant byte first. */
  function LittleEndian(b: bytes): nat {
    if b == [] then 0 else b[0] + 256 * LittleEndian(b[1..])
  }

  /**
   * The layout of an address: its family as a four-byte native integer, AF_INET (2) or AF_INET6 (10),
   * then the four or sixteen bytes of the native address, and no descriptors.
   */
  lemma AddressLayout(ip: IPAddress)
    ensures
      var data := Encode(ToTree(ip));
      && data == (if ip.IPv4? then [2, 0, 0, 0] else [10, 0, 0, 0]) + ip.native
      && |data| == (if ip.IPv4? then 8 else 20)
      && LittleEndian(data[..4]) == (if ip.IPv4? then 2 else 10)
      && data[4..] == ip.native && Fds(ToTree(ip)) == []
  {
    var data := Encode(ToTree(ip));
    assert data == ToTree(ip).tag + Encode(Pod(ip.native));
    assert Fds(ToTree(ip)) == Fds(Pod(ip.native));
    FamilyNumber(data[..4], if ip.IPv4? then 2 else 10);
  }

  lemma FamilyNumber(b: bytes, n: byte)
    requires b == [n, 0, 0, 0]
    ensures LittleEndian(b) == n
  {
    assert b[1..] == [0, 0, 0] && b[1..][1..] == [0, 0] && b[1..][1..][1..] == [0];
    assert LittleEndian([0]) == 0 && LittleEndian([0, 0]) == 0 && LittleEndian([0, 0, 0]) == 0;
  }

  /** Serializing one address, as the program does, writes that layout. */
  method SerializeOne(ip: IPAddress) returns (archive: Archive)
    ensures |archive.data| == archive.length == if ip.IPv4? then 8 else 20
    ensures LittleEndian(archive.data[..4]) == if ip.IPv4? then 2 else 10
    ensures archive.data[4..] == ip.native && archive.fds == []
  {
    AddressConforms(ip);
    archive := Serialize(ToTree(ip), ADDRESS);
    AddressLayout(ip);
  }

  /** An address is read at a position exactly if its layout lies there. */
  lemma AddressReadExactly(ip: IPAddress, a: Archive, c: Cursor)
    ensures
      (Decode(ADDRESS, a, c).Some? && Decode(ADDRESS, a, c).value.0 == ToTree(ip))
      <==> LiesAt((if ip.IPv4? then [2, 0, 0, 0] else [10, 0, 0, 0]) + ip.native, a.data, c.byteOffset)
  {
    hide Decode, Encode, Fds, Conforms, LiesAt;
    AddressConforms(ip);
    AddressLayout(ip);
    NothingLiesAnywhere(a.fds, c.fdOffset);
    if Decode(ADDRESS, a, c).Some? && Decode(ADDRESS, a, c).value.0 == ToTree(ip) {
      DecodeIsSound(ADDRESS, a, c);
    }
    if LiesAt(Encode(ToTree(ip)), a.data, c.byteOffset) {
      DecodeUndoesEncode(ToTree(ip), ADDRESS, a, c);
    }
  }

  lemma NothingLiesAnywhere(fds: seq<int>, at: nat)
    ensures LiesAt([], fds, at)
  {
  }

  /** No address's encoding begins another's. */
  lemma AddressPrefixFree(x: IPAddress, y: IPAddress, rest: bytes, rest': bytes)
    requires Encode(ToTree(x)) + rest == Encode(ToTree(y)) + rest'
    ensures x == y && rest == rest'
  {
    AddressConforms(x);
    AddressConforms(y);
    PrefixFree(ToTree(x), ToTree(y), ADDRESS, rest, rest', [], []);
    ToTreeInjective(x, y);
  }

  lemma EncodeAddressesUncons(ips: seq<IPAddress>)
    requires ips != []
    ensures EncodeAll(ToTrees(ips)) == Encode(ToTree(ips[0])) + EncodeAll(ToTrees(ips[1..]))
    ensures |EncodeAll(ToTrees(ips))| > 0
  {
    assert ToTrees(ips)[1..] == ToTrees(ips[1..]);
  }

  /** Two lists of addresses, of whatever lengths, with the same bytes are the same list. */
  lemma {:induction false} AddressListsInjective(xs: seq<IPAddress>, ys: seq<IPAddress>)
    requires EncodeAll(ToTrees(xs)) == EncodeAll(ToTrees(ys))
    ensures xs == ys
  {
    hide Encode;
    if xs == [] && ys != [] {
      EncodeAddressesUncons(ys);
    } else if xs != [] && ys == [] {
      EncodeAddressesUncons(xs);
    } else if xs != [] {
      EncodeAddressesUncons(xs);
      EncodeAddressesUncons(ys);
      AddressPrefixFree(xs[0], ys[0], EncodeAll(ToTrees(xs[1..])), EncodeAll(ToTrees(ys[1..])));
      AddressListsInjective(xs[1..], ys[1..]);
      assert xs == [xs[0]] + xs[1..] && ys == [ys[0]] + ys[1..];
    }
  }
}
