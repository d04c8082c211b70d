/**
 * The IPC archive: a two-pass writer, a reader that mirrors it, and the pure encoding both are
 * measured against. A value of a serializable C++ type is a `Tree`, the type itself a `Schema`.
 */
module Serialization {
  import opened Bytes

  datatype Tree =
    | Pod(raw: bytes)                           // memory image of a plain-old-data value
    | PodArray(size: nat, items: seq<bytes>)    // contiguous array of plain-old-data values
    | Fd(fd: int)                               // file descriptor, kept beside the bytes
    | Tagged(tag: bytes, body: Tree)            // discriminator and the part it selects
    | Node(parts: seq<Tree>)                    // what a user-defined `serialize` writes, in turn
    | Array(elems: seq<Tree>)                   // array of values that are not plain old data

  datatype Schema =
    | SPod(size: nat)
    | SPodArray(size: nat, count: nat)
    | SFd
    | SSwitch(size: nat, arms: seq<Arm>)
    | SNode(fields: seq<Schema>)
    | SArray(elem: Schema, count: nat)

  datatype Arm = Arm(tag: bytes, body: Schema)

  datatype Archive = Archive(data: bytes, length: nat, fds: seq<int>)

  datatype Cursor = Cursor(byteOffset: nat, fdOffset: nat)

  /** Position of the first arm for `tag`, or the number of arms. */
  function Select(arms: seq<Arm>, tag: bytes): (i: nat)
    ensures i <= |arms|
  {
    if arms == [] || arms[0].tag == tag then 0 else 1 + Select(arms[1..], tag)
  }

  /** `t` is a value of the type `s`. */
  ghost predicate Conforms(t: Tree, s: Schema)
    decreases t
  {
    match (t, s)
    case (Pod(raw), SPod(n)) => |raw| == n
    case (PodArray(m, items), SPodArray(n, count)) =>
      m == n && |items| == count && forall i | 0 <= i < |items| :: |items[i]| == n
    case (Fd(_), SFd) => true
    case (Tagged(tag, body), SSwitch(n, arms)) =>
      |tag| == n && Select(arms, tag) < |arms| && Conforms(body, arms[Select(arms, tag)].body)
    case (Node(parts), SNode(fields)) =>
      |parts| == |fields| && forall i | 0 <= i < |parts| :: Conforms(parts[i], fields[i])
    case (Array(elems), SArray(elem, count)) =>
      |elems| == count && forall i | 0 <= i < |elems| :: Conforms(elems[i], elem)
    case _ => false
  }

  ghost predicate ConformsAll(ts: seq<Tree>, fields: seq<Schema>) {
    |ts| == |fields| && forall i | 0 <= i < |ts| :: Conforms(ts[i], fields[i])
  }

  ghost predicate ConformsEach(ts: seq<Tree>, elem: Schema) {
    forall i | 0 <= i < |ts| :: Conforms(ts[i], elem)
  }

  // ---- The encoding ----

  function Encode(t: Tree): bytes
    decreases t
  {
    match t
    case Pod(raw) => raw
    case PodArray(_, items) => Flatten(items)
    case Fd(_) => []
    case Tagged(tag, body) => tag + Encode(body)
    case Node(parts) => EncodeAll(parts)
    case Array(elems) => EncodeAll(elems)
  }

  function EncodeAll(ts: seq<Tree>): bytes
    decreases ts
  {
    if ts == [] then [] else Encode(ts[0]) + EncodeAll(ts[1..])
  }

  function Fds(t: Tree): seq<int>
    decreases t
  {
    match t
    case Pod(_) => []
    case PodArray(_, _) => []
    case Fd(fd) => [fd]
    case Tagged(_, body) => Fds(body)
    case Node(parts) => FdsAll(parts)
    case Array(elems) => FdsAll(elems)
  }

  function FdsAll(ts: seq<Tree>): seq<int>
    decreases ts
  {
    if ts == [] then [] else Fds(ts[0]) + FdsAll(ts[1..])
  }

  lemma {:induction false} EncodeAllConcat(xs: seq<Tree>, ys: seq<Tree>)
    ensures EncodeAll(xs + ys) == EncodeAll(xs) + EncodeAll(ys)
    ensures FdsAll(xs + ys) == FdsAll(xs) + FdsAll(ys)
  {
    hide Encode, Fds;
    if xs == [] {
      assert xs + ys == ys;
    } else {
      assert (xs + ys)[1..] == xs[1..] + ys;
      EncodeAllConcat(xs[1..], ys);
    }
  }

  lemma EncodeAllSnoc(ts: seq<Tree>, i: nat)
    requires i < |ts|
    ensures EncodeAll(ts[..i + 1]) == EncodeAll(ts[..i]) + Encode(ts[i])
    ensures FdsAll(ts[..i + 1]) == FdsAll(ts[..i]) + Fds(ts[i])
    ensures |EncodeAll(ts[..i + 1])| <= |EncodeAll(ts)|
  {
    assert ts[..i + 1] == ts[..i] + [ts[i]];
    EncodeAllConcat(ts[..i], [ts[i]]);
    assert EncodeAll([ts[i]]) == Encode(ts[i]) + EncodeAll([]);
    assert FdsAll([ts[i]]) == Fds(ts[i]) + FdsAll([]);
    assert ts == ts[..i + 1] + ts[i + 1..];
    EncodeAllConcat(ts[..i + 1], ts[i + 1..]);
  }

  /** An array of `count` items of `size` bytes occupies `count * size` bytes. */
  lemma {:induction false} FlattenUniform(items: seq<bytes>, size: nat)
    requires forall i | 0 <= i < |items| :: |items[i]| == size
    ensures |Flatten(items)| == |items| * size
  {
    if items != [] {
      FlattenUniform(items[1..], size);
    }
  }

  function Pods(items: seq<bytes>): (r: seq<Tree>)
    ensures |r| == |items|
  {
    seq(|items|, i requires 0 <= i < |items| => Pod(items[i]))
  }

  lemma {:induction false} PodsFlatten(items: seq<bytes>)
    ensures EncodeAll(Pods(items)) == Flatten(items) && FdsAll(Pods(items)) == []
  {
    if items != [] {
      assert Pods(items)[1..] == Pods(items[1..]);
      PodsFlatten(items[1..]);
    }
  }

  /** The bulk copy of a plain-old-data array writes what writing its items one by one would. */
  lemma BulkCopyIsElementwise(size: nat, items: seq<bytes>)
    ensures Encode(PodArray(size, items)) == Encode(Array(Pods(items)))
    ensures Fds(PodArray(size, items)) == Fds(Array(Pods(items)))
  {
    PodsFlatten(items);
  }

  /** The memory images of the plain-old-data values in a tree, from left to right. */
  function Images(t: Tree): seq<bytes>
    decreases t, 0
  {
    match t
    case Pod(raw) => [raw]
    case PodArray(_, items) => items
    case Fd(_) => []
    case Tagged(tag, body) => [tag] + Images(body)
    case Node(parts) => ImagesAll(parts, |parts|)
    case Array(elems) => ImagesAll(elems, |elems|)
  }

  function ImagesAll(ts: seq<Tree>, n: nat): seq<bytes>
    requires n <= |ts|
    decreases ts, n
  {
    if n == 0 then [] else ImagesAll(ts, n - 1) + Images(ts[n - 1])
  }

  /** The data of an archive is those images one after the other, and nothing else: no lengths, no padding. */
  lemma {:induction false} EncodingIsMemoryImages(t: Tree)
    ensures Encode(t) == Flatten(Images(t))
    decreases t, 0
  {
    match t
    case Pod(raw) => FlattenFew(raw, []);
    case PodArray(_, items) =>
    case Fd(_) =>
    case Tagged(tag, body) =>
      EncodingIsMemoryImages(body);
      FlattenFew(tag, []);
      FlattenConcat([tag], Images(body));
    case Node(parts) => EncodingsAreMemoryImages(parts, |parts|);
    case Array(elems) => EncodingsAreMemoryImages(elems, |elems|);
  }

  lemma {:induction false} EncodingsAreMemoryImages(ts: seq<Tree>, n: nat)
    requires n <= |ts|
    ensures EncodeAll(ts[..n]) == Flatten(ImagesAll(ts, n))
    ensures n == |ts| ==> EncodeAll(ts) == Flatten(ImagesAll(ts, n))
    decreases ts, n
  {
    hide Encode, Images;
    if n > 0 {
      EncodingsAreMemoryImages(ts, n - 1);
      EncodingIsMemoryImages(ts[n - 1]);
      EncodeAllSnoc(ts, n - 1);
      FlattenConcat(ImagesAll(ts, n - 1), Images(ts[n - 1]));
    }
    if n == |ts| {
      assert ts[..n] == ts;
    }
  }

  // ---- The writer ----

  /** `now` is `was` with `data` stored at `from` and everything else untouched. */
  ghost predicate Stored(now: bytes, was: bytes, from: nat, data: bytes) {
    from + |data| <= |was| && now == was[..from] + data + was[from + |data|..]
  }

  lemma StoredTwice(now: bytes, mid: bytes, was: bytes, from: nat, d1: bytes, d2: bytes)
    requires Stored(mid, was, from, d1) && Stored(now, mid, from + |d1|, d2)
    ensures Stored(now, was, from, d1 + d2)
  {
    var end := from + |d1|;
    assert mid[..end] == was[..from] + d1;
    assert mid[end + |d2|..] == was[end + |d2|..];
    assert now == was[..from] + (d1 + d2) + was[from + |d1 + d2|..];
  }

  lemma StoredNothing(was: bytes, from: nat)
    requires from <= |was|
    ensures Stored(was, was, from, [])
  {
  }

  lemma StoredSoFar(ts: seq<Tree>, was: bytes, from: nat, writing: bool)
    requires writing ==> from <= |was|
    ensures EncodeAll(ts[..0]) == [] && FdsAll(ts[..0]) == []
    ensures writing ==> Stored(was, was, from, EncodeAll(ts[..0]))
  {
  }

  class Serializer {
    var buffer: array?<byte>
    var offset: nat
    var fds: seq<int>

    /** There is room for `more` bytes, or this is the measuring pass. */
    predicate Room(more: nat)
      reads this
    {
      buffer != null ==> offset + more <= buffer.Length
    }

    ghost function Memory(): bytes
      reads this, buffer
    {
      if buffer == null then [] else buffer[..]
    }

    /** Exactly `data` and `moreFds` were appended; bytes before and after are as they were. */
    twostate predicate Appended(data: bytes, moreFds: seq<int>)
      reads this, buffer
    {
      && buffer == old(buffer)
      && offset == old(offset) + |data|
      && fds == old(fds) + moreFds
      && (buffer != null ==> Stored(Memory(), old(Memory()), old(offset), data))
    }

    constructor ()
      ensures fds == []
    {
      fds := [];
    }

    method PushRaw(memory: bytes, length: nat)
      requires length <= |memory| && Room(length)
      modifies this`offset, buffer
      ensures Appended(memory[..length], [])
    {
      if buffer != null {
        CopyInto(buffer, offset, memory[..length]);
      }
      offset := offset + length;
    }

    method WriteFd(fd: int)
      requires Room(0)
      modifies this`fds
      ensures Appended([], [fd])
    {
      fds := fds + [fd];
      if buffer != null {
        StoredNothing(buffer[..], offset);
      }
    }

    /** One pass over a tree; `s` is its C++ type. */
    method Write(t: Tree, ghost s: Schema)
      requires Conforms(t, s) && Room(|Encode(t)|)
      modifies this`offset, this`fds, buffer
      ensures Appended(Encode(t), Fds(t))
      decreases t
    {
      match t
      case Pod(raw) =>
        PushRaw(raw, |raw|);
        assert raw[..|raw|] == raw;
      case PodArray(size, items) =>
        FlattenUniform(items, size);
        PushRaw(Flatten(items), |items| * size);
        assert Flatten(items)[..|items| * size] == Flatten(items);
      case Fd(fd) => WriteFd(fd);
      case Tagged(tag, body) =>
        PushRaw(tag, |tag|);
        assert tag[..|tag|] == tag;
        ghost var mid := Memory();
        Write(body, s.arms[Select(s.arms, tag)].body);
        if buffer != null {
          StoredTwice(Memory(), mid, old(Memory()), old(offset), tag, Encode(body));
        }
      case Node(parts) => WriteAll(parts, s.fields);
      case Array(elems) =>
        WriteAll(elems, seq(|elems|, _ => s.elem));
    }

    /** Element after element, as the loop over an array does and a `serialize` function's statements do. */
    method WriteAll(ts: seq<Tree>, ghost fields: seq<Schema>)
      requires ConformsAll(ts, fields) && Room(|EncodeAll(ts)|)
      modifies this`offset, this`fds, buffer
      ensures Appended(EncodeAll(ts), FdsAll(ts))
      decreases ts
    {
      hide Conforms, Encode, Fds, Stored;
      var idx, count := 0, |ts|;
      ghost var was, from := Memory(), offset;
      StoredSoFar(ts, was, from, buffer != null);
      while count > 0
        invariant idx + count == |ts| && count >= 0 && buffer == old(buffer)
        invariant offset == from + |EncodeAll(ts[..idx])|
        invariant fds == old(fds) + FdsAll(ts[..idx])
        invariant buffer != null ==> Stored(Memory(), was, from, EncodeAll(ts[..idx]))
      {
        EncodeAllSnoc(ts, idx);
        ghost var mid := Memory();
        Write(ts[idx], fields[idx]);
        if buffer != null {
          StoredTwice(Memory(), mid, was, from, EncodeAll(ts[..idx]), Encode(ts[idx]));
        }
        idx := idx + 1;
        count := count - 1;
      }
      assert ts[..idx] == ts;
    }

    /**
     * A measuring pass without a buffer, then a writing pass into a buffer of the measured size,
     * which it fills completely. The descriptor list is not cleared in between, so every
     * descriptor is recorded twice.
     */
    method Run(t: Tree, ghost s: Schema) returns (archive: Archive)
      requires Conforms(t, s) && fds == []
      modifies this
      ensures archive == Archive(Encode(t), |Encode(t)|, Fds(t) + Fds(t))
    {
      buffer := null;
      offset := 0;
      Write(t, s);
      assert fds == Fds(t);

      buffer := new byte[offset];
      offset := 0;
      ghost var blank := Memory();
      Write(t, s);
      assert Stored(Memory(), blank, 0, Encode(t));

      archive := Archive(buffer[..], offset, fds);
    }
  }

  method Serialize(t: Tree, ghost s: Schema) returns (archive: Archive)
    requires Conforms(t, s)
    ensures archive == Archive(Encode(t), |Encode(t)|, Fds(t) + Fds(t))
  {
    var serializer := new Serializer();
    archive := serializer.Run(t, s);
  }

  // ---- Reading ----

  /** Cuts `raw` into `count` items of `size` bytes. */
  function Chunks(raw: bytes, size: nat, count: nat): seq<bytes>
    requires |raw| == count * size
    decreases count
  {
    if count == 0 then []
    else
      assert |raw| == size + (count - 1) * size;
      [raw[..size]] + Chunks(raw[size..], size, count - 1)
  }

  lemma {:induction false} ChunksOfFlatten(items: seq<bytes>, size: nat)
    requires forall i | 0 <= i < |items| :: |items[i]| == size
    ensures |Flatten(items)| == |items| * size && Chunks(Flatten(items), size, |items|) == items
  {
    FlattenUniform(items, size);
    if items != [] {
      ChunksOfFlatten(items[1..], size);
      var raw := Flatten(items);
      assert raw[..size] == items[0] && raw[size..] == Flatten(items[1..]);
    }
  }

  /** Whether `n` bytes can be copied from `at`; copying none reads nothing, wherever that is. */
  predicate Readable(data: bytes, at: nat, n: nat) {
    n == 0 || at + n <= |data|
  }

  function Slice(data: bytes, at: nat, n: nat): (r: bytes)
    requires Readable(data, at, n)
    ensures |r| == n
  {
    if n == 0 then [] else data[at..at + n]
  }

  /**
   * Reads a value of type `s` at `c`, and moves the cursor past it. The code checks neither the
   * end of the data nor the discriminators; `None` is where it would run off the data, throw for
   * want of a descriptor, or leave its result uninitialised.
   */
  function Decode(s: Schema, a: Archive, c: Cursor): Option<(Tree, Cursor)>
    decreases s, 0
  {
    match s
    case SPod(n) =>
      if !Readable(a.data, c.byteOffset, n) then None
      else Some((Pod(Slice(a.data, c.byteOffset, n)), c.(byteOffset := c.byteOffset + n)))
    case SPodArray(n, count) =>
      var length: nat := count * n;
      if !Readable(a.data, c.byteOffset, length) then None
      else
        Some((PodArray(n, Chunks(Slice(a.data, c.byteOffset, length), n, count)),
              c.(byteOffset := c.byteOffset + length)))
    case SFd =>
      if c.fdOffset >= |a.fds| then None
      else Some((Fd(a.fds[c.fdOffset]), c.(fdOffset := c.fdOffset + 1)))
    case SSwitch(n, arms) =>
      if !Readable(a.data, c.byteOffset, n) then None
      else
        var tag := Slice(a.data, c.byteOffset, n);
        var i := Select(arms, tag);
        if i == |arms| then None
        else
          var (body, c') :- Decode(arms[i].body, a, c.(byteOffset := c.byteOffset + n));
          Some((Tagged(tag, body), c'))
    case SNode(fields) =>
      var (parts, c') :- DecodeFields(fields, a, c);
      Some((Node(parts), c'))
    case SArray(elem, count) =>
      var (elems, c') :- DecodeArray(elem, count, a, c);
      Some((Array(elems), c'))
  }

  function DecodeFields(fields: seq<Schema>, a: Archive, c: Cursor): Option<(seq<Tree>, Cursor)>
    decreases fields, 0
  {
    if fields == [] then Some(([], c))
    else
      var (t, c1) :- Decode(fields[0], a, c);
      var (ts, c2) :- DecodeFields(fields[1..], a, c1);
      Some(([t] + ts, c2))
  }

  function DecodeArray(elem: Schema, count: nat, a: Archive, c: Cursor): Option<(seq<Tree>, Cursor)>
    decreases elem, count + 1
  {
    if count == 0 then Some(([], c))
    else
      var (t, c1) :- Decode(elem, a, c);
      var (ts, c2) :- DecodeArray(elem, count - 1, a, c1);
      Some(([t] + ts, c2))
  }

  /** `part` lies in `whole` at position `at`; nothing at all lies everywhere. */
  ghost predicate LiesAt<T(!new)>(part: seq<T>, whole: seq<T>, at: nat) {
    part == [] || (at + |part| <= |whole| && whole[at..at + |part|] == part)
  }

  lemma LiesAtSplit<T(!new)>(x: seq<T>, y: seq<T>, whole: seq<T>, at: nat)
    requires LiesAt(x + y, whole, at)
    ensures LiesAt(x, whole, at) && LiesAt(y, whole, at + |x|)
  {
    if x + y != [] {
      var both := whole[at..at + |x + y|];
      assert both[..|x|] == x && both[|x|..] == y;
    }
  }

  /** Bytes and descriptors of `t` lie in the archive at the cursor. */
  ghost predicate Holds(data: bytes, fds: seq<int>, a: Archive, c: Cursor) {
    LiesAt(data, a.data, c.byteOffset) && LiesAt(fds, a.fds, c.fdOffset)
  }

  function Advance(c: Cursor, data: bytes, fds: seq<int>): Cursor {
    Cursor(c.byteOffset + |data|, c.fdOffset + |fds|)
  }

  lemma DecodesLeaf(t: Tree, s: Schema, a: Archive, c: Cursor)
    requires s.SPod? || s.SPodArray? || s.SFd?
    requires Conforms(t, s) && Holds(Encode(t), Fds(t), a, c)
    ensures Decode(s, a, c) == Some((t, Advance(c, Encode(t), Fds(t))))
  {
    match t
    case Pod(raw) => assert Slice(a.data, c.byteOffset, |raw|) == raw;
    case PodArray(size, items) =>
      ChunksOfFlatten(items, size);
      assert Slice(a.data, c.byteOffset, |items| * size) == Flatten(items);
    case Fd(fd) => assert a.fds[c.fdOffset..c.fdOffset + 1][0] == fd;
  }

  lemma HoldsTagged(tag: bytes, body: Tree, a: Archive, c: Cursor)
    requires Holds(Encode(Tagged(tag, body)), Fds(Tagged(tag, body)), a, c)
    ensures Readable(a.data, c.byteOffset, |tag|) && Slice(a.data, c.byteOffset, |tag|) == tag
    ensures Holds(Encode(body), Fds(body), a, c.(byteOffset := c.byteOffset + |tag|))
  {
    LiesAtSplit(tag, Encode(body), a.data, c.byteOffset);
  }

  /** Where the encodings of several values lie, the first lies there and the others lie after it. */
  lemma HoldsFirst(ts: seq<Tree>, a: Archive, c: Cursor)
    requires ts != [] && Holds(EncodeAll(ts), FdsAll(ts), a, c)
    ensures Holds(Encode(ts[0]), Fds(ts[0]), a, c)
    ensures
      var c' := Advance(c, Encode(ts[0]), Fds(ts[0]));
      && Holds(EncodeAll(ts[1..]), FdsAll(ts[1..]), a, c')
      && Advance(c, EncodeAll(ts), FdsAll(ts)) == Advance(c', EncodeAll(ts[1..]), FdsAll(ts[1..]))
  {
    hide Encode, Fds, LiesAt;
    LiesAtSplit(Encode(ts[0]), EncodeAll(ts[1..]), a.data, c.byteOffset);
    LiesAtSplit(Fds(ts[0]), FdsAll(ts[1..]), a.fds, c.fdOffset);
  }

  lemma AdvanceNothing(c: Cursor)
    ensures Advance(c, EncodeAll([]), FdsAll([])) == c
  {
  }

  lemma ConformsAllParts(ts: seq<Tree>, fields: seq<Schema>)
    requires ConformsAll(ts, fields)
    ensures |ts| == |fields|
    ensures ts != [] ==> Conforms(ts[0], fields[0]) && ConformsAll(ts[1..], fields[1..])
  {
    hide Conforms;
  }

  /** Wherever the encoding of a value lies in an archive, reading its type there yields it. */
  lemma {:induction false} DecodeUndoesEncode(t: Tree, s: Schema, a: Archive, c: Cursor)
    requires Conforms(t, s) && Holds(Encode(t), Fds(t), a, c)
    ensures Decode(s, a, c) == Some((t, Advance(c, Encode(t), Fds(t))))
    decreases t
  {
    hide LiesAt, Slice, Readable, Chunks;
    match t
    case Pod(_) => DecodesLeaf(t, s, a, c);
    case PodArray(_, _) => DecodesLeaf(t, s, a, c);
    case Fd(_) => DecodesLeaf(t, s, a, c);
    case Tagged(tag, body) =>
      HoldsTagged(tag, body, a, c);
      DecodeUndoesEncode(body, s.arms[Select(s.arms, tag)].body, a, c.(byteOffset := c.byteOffset + |tag|));
    case Node(parts) => DecodeFieldsUndoesEncode(parts, s.fields, a, c);
    case Array(elems) => DecodeArrayUndoesEncode(elems, s.elem, a, c);
  }

  lemma {:induction false} DecodeFieldsUndoesEncode(ts: seq<Tree>, fields: seq<Schema>, a: Archive, c: Cursor)
    requires ConformsAll(ts, fields) && Holds(EncodeAll(ts), FdsAll(ts), a, c)
    ensures DecodeFields(fields, a, c) == Some((ts, Advance(c, EncodeAll(ts), FdsAll(ts))))
    decreases ts
  {
    hide Decode, Conforms, ConformsAll, Encode, Fds, EncodeAll, FdsAll, Holds, Advance;
    ConformsAllParts(ts, fields);
    if ts == [] {
      AdvanceNothing(c);
    } else {
      HoldsFirst(ts, a, c);
      DecodeUndoesEncode(ts[0], fields[0], a, c);
      DecodeFieldsUndoesEncode(ts[1..], fields[1..], a, Advance(c, Encode(ts[0]), Fds(ts[0])));
      assert ts == [ts[0]] + ts[1..];
    }
  }

  lemma {:induction false} DecodeArrayUndoesEncode(ts: seq<Tree>, elem: Schema, a: Archive, c: Cursor)
    requires ConformsEach(ts, elem) && Holds(EncodeAll(ts), FdsAll(ts), a, c)
    ensures DecodeArray(elem, |ts|, a, c) == Some((ts, Advance(c, EncodeAll(ts), FdsAll(ts))))
    decreases ts
  {
    hide Decode, Conforms, Encode, Fds, EncodeAll, FdsAll, Holds, Advance;
    if ts == [] {
      AdvanceNothing(c);
    } else {
      HoldsFirst(ts, a, c);
      DecodeUndoesEncode(ts[0], elem, a, c);
      DecodeArrayUndoesEncode(ts[1..], elem, a, Advance(c, Encode(ts[0]), Fds(ts[0])));
      assert ts == [ts[0]] + ts[1..];
    }
  }

  lemma {:induction false} FlattenOfChunks(raw: bytes, size: nat, count: nat)
    requires |raw| == count * size
    ensures
      var items := Chunks(raw, size, count);
      && Flatten(items) == raw && |items| == count
      && forall i | 0 <= i < |items| :: |items[i]| == size
    decreases count
  {
    if count > 0 {
      assert |raw| == size + (count - 1) * size;
      FlattenOfChunks(raw[size..], size, count - 1);
      var rest := Chunks(raw[size..], size, count - 1);
      assert Chunks(raw, size, count) == [raw[..size]] + rest;
      assert ([raw[..size]] + rest)[1..] == rest;
      assert raw[..size] + raw[size..] == raw;
    }
  }

  lemma LiesAtJoin<T(!new)>(x: seq<T>, y: seq<T>, whole: seq<T>, at: nat)
    requires LiesAt(x, whole, at) && LiesAt(y, whole, at + |x|)
    ensures LiesAt(x + y, whole, at)
  {
    if x == [] {
      assert x + y == y;
    } else if y == [] {
      assert x + y == x;
    } else {
      assert whole[at..at + |x + y|] == whole[at..at + |x|] + whole[at + |x|..at + |x| + |y|];
    }
  }

  /** What a successful read at `c` that returns `t` and moves to `c'` must have found there. */
  ghost predicate Found(t: Tree, s: Schema, a: Archive, c: Cursor, c': Cursor) {
    Conforms(t, s) && Holds(Encode(t), Fds(t), a, c) && c' == Advance(c, Encode(t), Fds(t))
  }

  ghost predicate FoundAll(ts: seq<Tree>, a: Archive, c: Cursor, c': Cursor) {
    Holds(EncodeAll(ts), FdsAll(ts), a, c) && c' == Advance(c, EncodeAll(ts), FdsAll(ts))
  }

  lemma NoneFound(a: Archive, c: Cursor)
    ensures FoundAll([], a, c, c)
  {
  }

  lemma FoundMore(t: Tree, s: Schema, ts: seq<Tree>, a: Archive, c: Cursor, c1: Cursor, c2: Cursor)
    requires Found(t, s, a, c, c1) && FoundAll(ts, a, c1, c2)
    ensures FoundAll([t] + ts, a, c, c2)
  {
    hide Conforms, Encode, Fds, LiesAt;
    assert ([t] + ts)[1..] == ts;
    LiesAtJoin(Encode(t), EncodeAll(ts), a.data, c.byteOffset);
    LiesAtJoin(Fds(t), FdsAll(ts), a.fds, c.fdOffset);
  }

  lemma TaggedConforms(tag: bytes, body: Tree, n: nat, arms: seq<Arm>)
    requires |tag| == n && Select(arms, tag) < |arms| && Conforms(body, arms[Select(arms, tag)].body)
    ensures Conforms(Tagged(tag, body), SSwitch(n, arms))
  {
    hide Select;
  }

  lemma TaggedEncoding(tag: bytes, body: Tree)
    ensures Encode(Tagged(tag, body)) == tag + Encode(body) && Fds(Tagged(tag, body)) == Fds(body)
  {
  }

  lemma FoundTagged(tag: bytes, body: Tree, n: nat, arms: seq<Arm>, a: Archive, c: Cursor, c': Cursor)
    requires |tag| == n && Select(arms, tag) < |arms| && LiesAt(tag, a.data, c.byteOffset)
    requires Found(body, arms[Select(arms, tag)].body, a, c.(byteOffset := c.byteOffset + n), c')
    ensures Found(Tagged(tag, body), SSwitch(n, arms), a, c, c')
  {
    hide LiesAt, Conforms, Select, Encode, Fds;
    TaggedConforms(tag, body, n, arms);
    TaggedEncoding(tag, body);
    LiesAtJoin(tag, Encode(body), a.data, c.byteOffset);
  }

  lemma FoundNode(ts: seq<Tree>, fields: seq<Schema>, a: Archive, c: Cursor, c': Cursor)
    requires ConformsAll(ts, fields) && FoundAll(ts, a, c, c')
    ensures Found(Node(ts), SNode(fields), a, c, c')
  {
  }

  lemma FoundArray(ts: seq<Tree>, elem: Schema, a: Archive, c: Cursor, c': Cursor)
    requires ConformsEach(ts, elem) && FoundAll(ts, a, c, c')
    ensures Found(Array(ts), SArray(elem, |ts|), a, c, c')
  {
  }

  lemma FoundLeaf(s: Schema, a: Archive, c: Cursor)
    requires s.SPod? || s.SPodArray? || s.SFd?
    requires Decode(s, a, c).Some?
    ensures Found(Decode(s, a, c).value.0, s, a, c, Decode(s, a, c).value.1)
  {
    if s.SPodArray? {
      FlattenOfChunks(Slice(a.data, c.byteOffset, s.count * s.size), s.size, s.count);
    }
  }

  /** Whatever a successful read returns is a value of the type read, and its encoding lies there. */
  lemma {:induction false} DecodeIsSound(s: Schema, a: Archive, c: Cursor)
    requires Decode(s, a, c).Some?
    ensures Found(Decode(s, a, c).value.0, s, a, c, Decode(s, a, c).value.1)
    decreases s, 0
  {
    hide Found, FoundAll, Conforms;
    var (t, c') := Decode(s, a, c).value;
    match s
    case SPod(_) => FoundLeaf(s, a, c);
    case SPodArray(_, _) => FoundLeaf(s, a, c);
    case SFd => FoundLeaf(s, a, c);
    case SSwitch(n, arms) =>
      var tag := Slice(a.data, c.byteOffset, n);
      DecodeIsSound(arms[Select(arms, tag)].body, a, c.(byteOffset := c.byteOffset + n));
      FoundTagged(tag, t.body, n, arms, a, c, c');
    case SNode(fields) =>
      DecodeFieldsIsSound(fields, a, c);
      FoundNode(t.parts, fields, a, c, c');
    case SArray(elem, count) =>
      DecodeArrayIsSound(elem, count, a, c);
      FoundArray(t.elems, elem, a, c, c');
  }

  lemma {:induction false} DecodeFieldsIsSound(fields: seq<Schema>, a: Archive, c: Cursor)
    requires DecodeFields(fields, a, c).Some?
    ensures
      var (ts, c') := DecodeFields(fields, a, c).value;
      ConformsAll(ts, fields) && FoundAll(ts, a, c, c')
    decreases fields, 0
  {
    NoneFound(a, c);
    if fields != [] {
      hide Decode, Conforms, FoundAll, Encode, Fds;
      DecodeIsSound(fields[0], a, c);
      var (t, c1) := Decode(fields[0], a, c).value;
      DecodeFieldsIsSound(fields[1..], a, c1);
      var (ts, c2) := DecodeFields(fields[1..], a, c1).value;
      FoundMore(t, fields[0], ts, a, c, c1, c2);
    }
  }

  lemma {:induction false} DecodeArrayIsSound(elem: Schema, count: nat, a: Archive, c: Cursor)
    requires DecodeArray(elem, count, a, c).Some?
    ensures
      var (ts, c') := DecodeArray(elem, count, a, c).value;
      |ts| == count && ConformsEach(ts, elem) && FoundAll(ts, a, c, c')
    decreases elem, count + 1
  {
    NoneFound(a, c);
    if count > 0 {
      hide Decode, Conforms, FoundAll, Encode, Fds;
      DecodeIsSound(elem, a, c);
      var (t, c1) := Decode(elem, a, c).value;
      DecodeArrayIsSound(elem, count - 1, a, c1);
      var (ts, c2) := DecodeArray(elem, count - 1, a, c1).value;
      FoundMore(t, elem, ts, a, c, c1, c2);
    }
  }

  /**
   * Round trip: reading, from offset 0, the archive `Serialize` makes gives back the value, ends
   * exactly at the archive's length, and has used exactly the first half of the descriptor list.
   */
  lemma ArchiveRoundTrip(t: Tree, s: Schema, a: Archive)
    requires Conforms(t, s)
    requires a == Archive(Encode(t), |Encode(t)|, Fds(t) + Fds(t))
    ensures Decode(s, a, Cursor(0, 0)) == Some((t, Cursor(a.length, |a.fds| / 2)))
  {
    assert LiesAt(Encode(t), a.data, 0);
    assert LiesAt(Fds(t), a.fds, 0);
    DecodeUndoesEncode(t, s, a, Cursor(0, 0));
  }

  /**
   * The source leaves the reader's offsets unset. Whatever they happen to be, the value comes back
   * exactly if its bytes are read from offset 0, unless it has none, and its descriptors, if it has
   * any, are what the descriptor offset finds.
   */
  lemma RoundTripExactly(t: Tree, s: Schema, a: Archive, c: Cursor)
    requires Conforms(t, s)
    requires a == Archive(Encode(t), |Encode(t)|, Fds(t) + Fds(t))
    ensures
      (Decode(s, a, c).Some? && Decode(s, a, c).value.0 == t)
      <==> (Encode(t) == [] || c.byteOffset == 0) && LiesAt(Fds(t), Fds(t) + Fds(t), c.fdOffset)
  {
    hide Decode, Conforms, Encode, Fds;
    if Decode(s, a, c).Some? && Decode(s, a, c).value.0 == t {
      DecodeIsSound(s, a, c);
    }
    if (Encode(t) == [] || c.byteOffset == 0) && LiesAt(Fds(t), Fds(t) + Fds(t), c.fdOffset) {
      assert LiesAt(Encode(t), a.data, c.byteOffset);
      DecodeUndoesEncode(t, s, a, c);
    }
  }

  /** No value's encoding begins another value's of the same type. */
  lemma PrefixFree(t: Tree, u: Tree, s: Schema, rest: bytes, rest': bytes, fds: seq<int>, fds': seq<int>)
    requires Conforms(t, s) && Conforms(u, s)
    requires Encode(t) + rest == Encode(u) + rest' && Fds(t) + fds == Fds(u) + fds'
    ensures t == u && rest == rest' && fds == fds'
  {
    var a := Archive(Encode(t) + rest, 0, Fds(t) + fds);
    var c := Cursor(0, 0);
    DecodeUndoesEncode(t, s, a, c);
    DecodeUndoesEncode(u, s, a, c);
    assert rest == a.data[|Encode(t)|..] && fds == a.fds[|Fds(t)|..];
    assert rest' == a.data[|Encode(u)|..] && fds' == a.fds[|Fds(u)|..];
  }

  /** With `done` read and `count` elements to go at `c`, the whole array of `n` read from `start` is settled. */
  ghost predicate Midway(elem: Schema, n: nat, a: Archive, start: Cursor, done: seq<Tree>, count: nat, c: Cursor) {
    var rest := DecodeArray(elem, count, a, c);
    rest.Some? && DecodeArray(elem, n, a, start) == Some((done + rest.value.0, rest.value.1))
  }

  lemma MidwayStarts(elem: Schema, n: nat, a: Archive, start: Cursor)
    requires DecodeArray(elem, n, a, start).Some?
    ensures Midway(elem, n, a, start, [], n, start)
  {
    var ts := DecodeArray(elem, n, a, start).value.0;
    assert [] + ts == ts;
  }

  lemma MidwayAdvances(elem: Schema, n: nat, a: Archive, start: Cursor, done: seq<Tree>, count: nat, c: Cursor)
    requires Midway(elem, n, a, start, done, count, c) && count > 0
    ensures Decode(elem, a, c).Some?
    ensures
      var (t, c') := Decode(elem, a, c).value;
      Midway(elem, n, a, start, done + [t], count - 1, c')
  {
    hide Decode;
    var (t, c') := Decode(elem, a, c).value;
    var rest := DecodeArray(elem, count - 1, a, c').value.0;
    assert done + ([t] + rest) == (done + [t]) + rest;
  }

  lemma MidwayEnds(elem: Schema, n: nat, a: Archive, start: Cursor, done: seq<Tree>, c: Cursor)
    requires Midway(elem, n, a, start, done, 0, c)
    ensures DecodeArray(elem, n, a, start) == Some((done, c))
  {
    assert done + [] == done;
  }

  class Deserializer {
    const archive: Archive
    var byteOffset: nat
    var fdOffset: nat

    function Position(): Cursor
      reads this
    {
      Cursor(byteOffset, fdOffset)
    }

    /** Leaves both offsets unset, as the source does. */
    constructor (archive: Archive)
      ensures this.archive == archive
    {
      this.archive := archive;
    }

    method PopRaw(length: nat) returns (raw: bytes)
      requires Readable(archive.data, byteOffset, length)
      modifies this`byteOffset
      ensures byteOffset == old(byteOffset) + length
      ensures |raw| == length && LiesAt(raw, archive.data, old(byteOffset))
    {
      raw := Slice(archive.data, byteOffset, length);
      byteOffset := byteOffset + length;
    }

    method ReadFd() returns (fd: int)
      requires fdOffset < |archive.fds|
      modifies this`fdOffset
      ensures fdOffset == old(fdOffset) + 1 && fd == archive.fds[old(fdOffset)]
    {
      fd := archive.fds[fdOffset];
      fdOffset := fdOffset + 1;
    }

    method Read(s: Schema) returns (t: Tree)
      requires Decode(s, archive, Position()).Some?
      modifies this
      ensures Decode(s, archive, old(Position())) == Some((t, Position()))
      decreases s, 0
    {
      match s
      case SPod(n) =>
        var raw := PopRaw(n);
        t := Pod(raw);
      case SPodArray(n, count) =>
        var raw := PopRaw(count * n);
        t := PodArray(n, Chunks(raw, n, count));
      case SFd =>
        var fd := ReadFd();
        t := Fd(fd);
      case SSwitch(n, arms) =>
        var tag := PopRaw(n);
        var body := Read(arms[Select(arms, tag)].body);
        t := Tagged(tag, body);
      case SNode(fields) =>
        var parts := ReadFields(fields);
        t := Node(parts);
      case SArray(elem, count) =>
        var elems := ReadArray(elem, count);
        t := Array(elems);
    }

    method ReadFields(fields: seq<Schema>) returns (ts: seq<Tree>)
      requires DecodeFields(fields, archive, Position()).Some?
      modifies this
      ensures DecodeFields(fields, archive, old(Position())) == Some((ts, Position()))
      decreases fields, 0
    {
      if fields == [] {
        return [];
      }
      var t := Read(fields[0]);
      var rest := ReadFields(fields[1..]);
      ts := [t] + rest;
    }

    method ReadArray(elem: Schema, n: nat) returns (ts: seq<Tree>)
      requires DecodeArray(elem, n, archive, Position()).Some?
      modifies this
      ensures DecodeArray(elem, n, archive, old(Position())) == Some((ts, Position()))
      decreases elem, 1
    {
      ts := [];
      var count := n;
      ghost var start := Position();
      MidwayStarts(elem, n, archive, start);
      while count > 0
        invariant 0 <= count <= n && Midway(elem, n, archive, start, ts, count, Position())
      {
        MidwayAdvances(elem, n, archive, start, ts, count, Position());
        var t := Read(elem);
        ts := ts + [t];
        count := count - 1;
      }
      MidwayEnds(elem, n, archive, start, ts, Position());
    }

    /** The whole archive, provided the offsets happen to start at 0. */
    method Run(s: Schema) returns (t: Tree)
      requires Position() == Cursor(0, 0) && Decode(s, archive, Cursor(0, 0)).Some?
      modifies this
      ensures Decode(s, archive, Cursor(0, 0)) == Some((t, Position()))
    {
      t := Read(s);
    }
  }
}
