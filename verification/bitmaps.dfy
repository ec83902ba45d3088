/** Bit tables, and the Bloom memory of destination ranges built on one. */
module Bitmaps {

  import opened Numerics

  /** The positions whose flag is set. */
  function Members(flags: seq<bool>): set<nat> {
    set p: nat | p < |flags| && flags[p]
  }

  lemma MembersAfterSet(flags: seq<bool>, p: nat)
    requires p < |flags|
    ensures Members(flags[p := true]) == Members(flags) + {p}
  {
  }

  const BLOOM_BITS: nat := 1024
  const BLOOM_HASHES: nat := 3

  /** The i-th probe of a hash: double hashing in wrapping 64-bit arithmetic, the stride
      forced odd so that it never collapses to zero. */
  function Position(h: Hash, i: nat): (p: nat)
    ensures p < BLOOM_BITS
  {
    var upper := h / TWO_TO_THE_32;
    var stride := if upper % 2 == 0 then upper + 1 else upper;
    (h + (i * stride) % TWO_TO_THE_64) % TWO_TO_THE_64 % BLOOM_BITS
  }

  /** The bits one hash occupies. */
  function Positions(h: Hash): set<nat> {
    {Position(h, 0), Position(h, 1), Position(h, 2)}
  }

  lemma WrapsAway(x: nat)
    ensures x % TWO_TO_THE_64 % BLOOM_BITS == x % BLOOM_BITS
  {
    var q, r := x / TWO_TO_THE_64, x % TWO_TO_THE_64;
    assert x == q * (TWO_TO_THE_64 / BLOOM_BITS) * BLOOM_BITS + r;
    AddMultiple(r, q * (TWO_TO_THE_64 / BLOOM_BITS));
  }

  lemma AddMultiple(r: nat, q: nat)
    ensures (q * BLOOM_BITS + r) % BLOOM_BITS == r % BLOOM_BITS
  {
    var d, m := r / BLOOM_BITS, r % BLOOM_BITS;
    assert q * BLOOM_BITS + r == (q + d) * BLOOM_BITS + m;
    UniqueRemainder(q * BLOOM_BITS + r, q + d, m);
  }

  lemma UniqueRemainder(x: nat, q: nat, m: nat)
    requires m < BLOOM_BITS && x == q * BLOOM_BITS + m
    ensures x % BLOOM_BITS == m
  {
  }

  lemma WrapsInside(h: nat, x: nat)
    ensures (h + x % TWO_TO_THE_64) % BLOOM_BITS == (h + x) % BLOOM_BITS
  {
    var q, r := x / TWO_TO_THE_64, x % TWO_TO_THE_64;
    assert h + x == q * (TWO_TO_THE_64 / BLOOM_BITS) * BLOOM_BITS + (h + r);
    AddMultiple(h + r, q * (TWO_TO_THE_64 / BLOOM_BITS));
  }

  lemma ShiftMoves(x: nat, d: nat)
    requires d % BLOOM_BITS != 0
    ensures (x + d) % BLOOM_BITS != x % BLOOM_BITS
  {
  }

  lemma OddTwice(stride: nat)
    requires stride % 2 == 1
    ensures stride % BLOOM_BITS != 0 && (2 * stride) % BLOOM_BITS != 0
  {
  }

  /** The three probes of a hash start at the hash and lie an odd stride apart, its upper half made
      odd, in spite of the wrap-around; so they are three different bits. */
  lemma ProbesAreApart(h: Hash, stride: nat)
    requires stride % 2 == 1 && h / TWO_TO_THE_32 <= stride <= h / TWO_TO_THE_32 + 1
    ensures Positions(h) == {h % 1024, (h + stride) % 1024, (h + 2 * stride) % 1024}
    ensures |Positions(h)| == 3
  {
    ProbeIs(h, stride, 0);
    ProbeIs(h, stride, 1);
    ProbeIs(h, stride, 2);
    hide Position;
    OddTwice(stride);
    ShiftMoves(h, stride);
    ShiftMoves(h + stride, stride);
    ShiftMoves(h, 2 * stride);
  }

  lemma ProbeIs(h: Hash, stride: nat, i: nat)
    requires stride % 2 == 1 && h / TWO_TO_THE_32 <= stride <= h / TWO_TO_THE_32 + 1
    ensures Position(h, i) == (h + i * stride) % 1024
  {
    WrapsAway(h + (i * stride) % TWO_TO_THE_64);
    WrapsInside(h, i * stride);
    OddOne(h / TWO_TO_THE_32, stride);
  }

  lemma OddOne(upper: nat, stride: nat)
    requires stride % 2 == 1 && upper <= stride <= upper + 1
    ensures stride == if upper % 2 == 0 then upper + 1 else upper
  {
  }

  /** A Bloom filter of 1,024 bits with three probes per hash. */
  class RangeBloom {
    const bits: array<bool>

    ghost predicate Valid() {
      bits.Length == BLOOM_BITS
    }

    ghost function Value(): set<nat>
      reads bits
    {
      Members(bits[..])
    }

    constructor ()
      ensures Valid() && Value() == {} && fresh(bits)
    {
      bits := new bool[BLOOM_BITS](_ => false);
    }

    method Clear()
      requires Valid()
      modifies bits
      ensures Value() == {}
    {
      for i := 0 to BLOOM_BITS
        invariant forall j :: 0 <= j < i ==> !bits[j]
      {
        bits[i] := false;
      }
    }

    /** Are all positions of `h` set? */
    method Contains(h: Hash) returns (found: bool)
      requires Valid()
      ensures found <==> Positions(h) <= Value()
    {
      hide Position;
      found := true;
      for i := 0 to BLOOM_HASHES
        invariant found <==> forall j :: 0 <= j < i ==> Position(h, j) in Value()
      {
        found := found && bits[Position(h, i)];
      }
    }

    /** Records `h`; nothing recorded before is lost. */
    method Insert(h: Hash)
      requires Valid()
      modifies bits
      ensures Value() == old(Value()) + Positions(h)
    {
      hide Position, Members;
      for i := 0 to BLOOM_HASHES
        invariant Value() == old(Value()) + set j | 0 <= j < i :: Position(h, j)
      {
        MembersAfterSet(bits[..], Position(h, i));
        ghost var before := bits[..];
        bits[Position(h, i)] := true;
        assert bits[..] == before[Position(h, i) := true];
      }
    }
  }
}
