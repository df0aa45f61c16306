/** Declarations of maze.h: terminal direction codes, the port byte, and the
    xorshift64 generator that advances a caller-owned 64-bit state. */
module MazeDefs {

  /** Terminal directions within a normal block. */
  const TDirE: int := 0
  const TDirW: int := 1
  const TDirN: int := 2
  const TDirS: int := 3

  /** One port of the port table is one byte (uint8_t). */
  type byte = b: int | 0 <= b < 256

  /** The value a setter stores: `val ? 1 : 0`. */
  function Norm(v: int): (b: byte)
    ensures b <= 1 && (b == 1 <==> v != 0)
  {
    if v != 0 then 1 else 0
  }

  /** Every port byte is 0 or 1. */
  predicate IsBinary(ports: seq<byte>) {
    forall i :: 0 <= i < |ports| ==> ports[i] <= 1
  }

  /** A table of k clear ports. */
  function Zeros(k: nat): (r: seq<byte>)
    ensures |r| == k && forall i :: 0 <= i < k ==> r[i] == 0
  {
    seq(k, _ => 0)
  }

  /** A table with every byte read as a truth value. */
  function Normalized(ports: seq<byte>): (r: seq<byte>)
    ensures |r| == |ports| && IsBinary(r)
    ensures forall i :: 0 <= i < |ports| ==> (r[i] == 1 <==> ports[i] != 0)
  {
    seq(|ports|, i requires 0 <= i < |ports| => Norm(ports[i]))
  }

  /** Normalizing leaves a 0/1 table as it is. */
  lemma NormalizedBinary(ports: seq<byte>)
    requires IsBinary(ports)
    ensures Normalized(ports) == ports
  {
  }

  /** The three shift-xor steps of xorshift64. */
  function ShiftXor13(x: bv64): bv64 { x ^ (x << 13) }
  function ShiftXor7(x: bv64): bv64 { x ^ (x >> 7) }
  function ShiftXor17(x: bv64): bv64 { x ^ (x << 17) }

  /** One step of xorshift64 (shifts 13, 7, 17). */
  function Xorshift(s: bv64): bv64 {
    ShiftXor17(ShiftXor7(ShiftXor13(s)))
  }

  /** The state after k steps. */
  function XorshiftIter(s: bv64, k: nat): bv64 {
    if k == 0 then s else Xorshift(XorshiftIter(s, k - 1))
  }

  /** Zero is a fixed point: a zero state would yield zeros forever. */
  lemma XorshiftZero()
    ensures Xorshift(0) == 0
  {
  }

  /** Each of the three shift-xor steps is injective, so a non-zero state
      never becomes zero. */
  lemma XorshiftNonZero(s: bv64)
    requires s != 0
    ensures Xorshift(s) != 0
  {
    ShiftXor13NonZero(s);
    ShiftXor7NonZero(ShiftXor13(s));
    ShiftXor17NonZero(ShiftXor7(ShiftXor13(s)));
  }

  lemma ShiftXor13NonZero(x: bv64)
    requires x != 0
    ensures ShiftXor13(x) != 0
  {
  }

  lemma ShiftXor7NonZero(x: bv64)
    requires x != 0
    ensures ShiftXor7(x) != 0
  {
  }

  lemma ShiftXor17NonZero(x: bv64)
    requires x != 0
    ensures ShiftXor17(x) != 0
  {
  }

  lemma {:induction false} XorshiftIterNonZero(s: bv64, k: nat)
    requires s != 0
    ensures XorshiftIter(s, k) != 0
  {
    if k > 0 {
      XorshiftIterNonZero(s, k - 1);
      XorshiftNonZero(XorshiftIter(s, k - 1));
    }
  }

  /** The uint64_t that rng_next receives by pointer. */
  class Rng {
    var state: bv64

    constructor (seed: bv64)
      ensures state == seed
    {
      state := seed;
    }

    /** rng_next: advances the state in place and returns the new state. */
    method Next() returns (x: bv64)
      modifies this
      ensures state == Xorshift(old(state))
      ensures x == state
    {
      x := Xorshift(state);
      state := x;
    }
  }
}
