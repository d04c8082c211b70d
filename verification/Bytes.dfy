/** Machine-sized values shared by every other module. */
module Bytes {

  type byte = x: int | 0 <= x < 256

  type bytes = seq<byte>

  /** The number of values of a `uint32_t`; sequence numbers wrap at it. */
  const SEQ_MODULUS: int := 0x1_0000_0000

  type u32 = x: int | 0 <= x < 0x1_0000_0000

  /** `++` on a `uint32_t`. */
  function Increment(n: u32): (r: u32)
    ensures r == (n + 1) % SEQ_MODULUS
  {
    if n == 0xFFFF_FFFF then 0 else n + 1
  }

  datatype Option<+T> = None | Some(value: T) {
    predicate IsFailure() { None? }

    function PropagateFailure<U>(): Option<U>
      requires None?
    {
      None
    }

    function Extract(): T
      requires Some?
    {
      value
    }
  }

  function Min(a: nat, b: nat): nat {
    if a < b then a else b
  }

  /** The parts laid out one after the other. */
  function Flatten(parts: seq<bytes>): bytes {
    if parts == [] then [] else parts[0] + Flatten(parts[1..])
  }

  lemma {:induction false} FlattenConcat(xs: seq<bytes>, ys: seq<bytes>)
    ensures Flatten(xs + ys) == Flatten(xs) + Flatten(ys)
  {
    if xs == [] {
      assert xs + ys == ys;
    } else {
      assert (xs + ys)[1..] == xs[1..] + ys;
      FlattenConcat(xs[1..], ys);
    }
  }

  lemma FlattenSnoc(xs: seq<bytes>, y: bytes)
    ensures Flatten(xs + [y]) == Flatten(xs) + y
  {
    FlattenConcat(xs, [y]);
    assert Flatten([y]) == y + Flatten([]);
  }

  lemma FlattenFew(x: bytes, y: bytes)
    ensures Flatten([x]) == x && Flatten([x, y]) == x + y
  {
    FlattenSnoc([], x);
    FlattenSnoc([x], y);
    assert [] + [x] == [x] && [x] + [y] == [x, y];
  }

  /** `memcpy` of `src` to position `at` of `dst`: the only way bytes are stored into a buffer. */
  method CopyInto(dst: array<byte>, at: nat, src: bytes)
    requires at + |src| <= dst.Length
    modifies dst
    ensures dst[..] == old(dst[..at]) + src + old(dst[at + |src|..])
  {
    forall i | 0 <= i < |src| {
      dst[at + i] := src[i];
    }
  }
}
