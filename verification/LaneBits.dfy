/** Lanes on bits: the state as a string of bits and as lanes (FIPS 202 section 3.1), a conversion that
    the source leaves to the byte order of the machine. */
module LaneBits {
  import opened Fips202
  import opened Sponge
  import opened SpongePadding

  predicate Set(v: bv64, z: bv6) {
    Bit(v, z) == 1
  }

  /** The bits of a lane, bit 0 first. */
  function OfLane(v: bv64): (b: seq<bool>)
    ensures |b| == 64
  {
    [Set(v, 0), Set(v, 1), Set(v, 2), Set(v, 3), Set(v, 4), Set(v, 5), Set(v, 6), Set(v, 7)]
    + [Set(v, 8), Set(v, 9), Set(v, 10), Set(v, 11), Set(v, 12), Set(v, 13), Set(v, 14), Set(v, 15)]
    + [Set(v, 16), Set(v, 17), Set(v, 18), Set(v, 19), Set(v, 20), Set(v, 21), Set(v, 22), Set(v, 23)]
    + [Set(v, 24), Set(v, 25), Set(v, 26), Set(v, 27), Set(v, 28), Set(v, 29), Set(v, 30), Set(v, 31)]
    + [Set(v, 32), Set(v, 33), Set(v, 34), Set(v, 35), Set(v, 36), Set(v, 37), Set(v, 38), Set(v, 39)]
    + [Set(v, 40), Set(v, 41), Set(v, 42), Set(v, 43), Set(v, 44), Set(v, 45), Set(v, 46), Set(v, 47)]
    + [Set(v, 48), Set(v, 49), Set(v, 50), Set(v, 51), Set(v, 52), Set(v, 53), Set(v, 54), Set(v, 55)]
    + [Set(v, 56), Set(v, 57), Set(v, 58), Set(v, 59), Set(v, 60), Set(v, 61), Set(v, 62), Set(v, 63)]
  }

  lemma ByteBits0(v: bv64)
    ensures ByteBits((v & 0xff) as bv8) ==
            [Set(v, 0), Set(v, 1), Set(v, 2), Set(v, 3), Set(v, 4), Set(v, 5), Set(v, 6), Set(v, 7)]
  {
  }

  lemma ByteBits1(v: bv64)
    ensures ByteBits(((v >> 8) & 0xff) as bv8) ==
            [Set(v, 8), Set(v, 9), Set(v, 10), Set(v, 11), Set(v, 12), Set(v, 13), Set(v, 14), Set(v, 15)]
  {
  }

  lemma ByteBits2(v: bv64)
    ensures ByteBits(((v >> 16) & 0xff) as bv8) ==
            [Set(v, 16), Set(v, 17), Set(v, 18), Set(v, 19), Set(v, 20), Set(v, 21), Set(v, 22), Set(v, 23)]
  {
  }

  lemma ByteBits3(v: bv64)
    ensures ByteBits(((v >> 24) & 0xff) as bv8) ==
            [Set(v, 24), Set(v, 25), Set(v, 26), Set(v, 27), Set(v, 28), Set(v, 29), Set(v, 30), Set(v, 31)]
  {
  }

  lemma ByteBits4(v: bv64)
    ensures ByteBits(((v >> 32) & 0xff) as bv8) ==
            [Set(v, 32), Set(v, 33), Set(v, 34), Set(v, 35), Set(v, 36), Set(v, 37), Set(v, 38), Set(v, 39)]
  {
  }

  lemma ByteBits5(v: bv64)
    ensures ByteBits(((v >> 40) & 0xff) as bv8) ==
            [Set(v, 40), Set(v, 41), Set(v, 42), Set(v, 43), Set(v, 44), Set(v, 45), Set(v, 46), Set(v, 47)]
  {
  }

  lemma ByteBits6(v: bv64)
    ensures ByteBits(((v >> 48) & 0xff) as bv8) ==
            [Set(v, 48), Set(v, 49), Set(v, 50), Set(v, 51), Set(v, 52), Set(v, 53), Set(v, 54), Set(v, 55)]
  {
  }

  lemma ByteBits7(v: bv64)
    ensures ByteBits(((v >> 56) & 0xff) as bv8) ==
            [Set(v, 56), Set(v, 57), Set(v, 58), Set(v, 59), Set(v, 60), Set(v, 61), Set(v, 62), Set(v, 63)]
  {
  }

  lemma EightBytes(b: seq<bv8>)
    requires |b| == 8
    ensures Bits(b) == ByteBits(b[0]) + ByteBits(b[1]) + ByteBits(b[2]) + ByteBits(b[3])
                       + ByteBits(b[4]) + ByteBits(b[5]) + ByteBits(b[6]) + ByteBits(b[7])
  {
    hide ByteBits, Bits;
    BitsOfNone(b);
    BitsOfFirst(b, 0);
    BitsOfFirst(b, 1);
    BitsOfFirst(b, 2);
    BitsOfFirst(b, 3);
    BitsOfFirst(b, 4);
    BitsOfFirst(b, 5);
    BitsOfFirst(b, 6);
    BitsOfFirst(b, 7);
    assert b[..8] == b;
  }

  lemma BitsOfNone(b: seq<bv8>)
    ensures forall s: seq<bool> :: Bits(b[..0]) + s == s
  {
  }

  lemma BitsOfFirst(b: seq<bv8>, k: nat)
    requires k < |b|
    ensures Bits(b[..k + 1]) == Bits(b[..k]) + ByteBits(b[k])
  {
    hide ByteBits;
    assert b[..k + 1][..k] == b[..k];
  }

  lemma StoredBits(v: bv64)
    ensures Bits(Store64(v)) == OfLane(v)
  {
    hide Set, ByteBits, Bits;
    EightBytes(Store64(v));
    ByteBits0(v);
    ByteBits1(v);
    ByteBits2(v);
    ByteBits3(v);
    ByteBits4(v);
    ByteBits5(v);
    ByteBits6(v);
    ByteBits7(v);
  }

  /** The bits of some lanes one after another. */
  function OfLanes(l: seq<bv64>): (b: seq<bool>)
    ensures |b| == 64 * |l|
  {
    hide OfLane;
    if l == [] then [] else OfLanes(l[..|l| - 1]) + OfLane(l[|l| - 1])
  }

  lemma {:induction false} BitsOfBytes(l: seq<bv64>)
    ensures Bits(BytesOf(l)) == OfLanes(l)
  {
    hide OfLane, Store64, ByteBits;
    if l != [] {
      BitsOfBytes(l[..|l| - 1]);
      StoredBits(l[|l| - 1]);
      BitsConcat(BytesOf(l[..|l| - 1]), Store64(l[|l| - 1]));
    }
  }

  lemma {:induction false} OfLanesAt(l: seq<bv64>, i: nat, z: nat)
    requires i < |l| && z < 64
    ensures OfLanes(l)[64 * i + z] == OfLane(l[i])[z]
    decreases |l|
  {
    hide OfLane;
    if i < |l| - 1 {
      OfLanesAt(l[..|l| - 1], i, z);
    }
  }

  /** Bit z of lane i is bit 64 i + z of the state. */
  lemma BitOfLane(s: seq<bv8>, i: nat, z: nat)
    requires |s| % 8 == 0 && i < |s| / 8 && z < 64
    ensures Bits(s)[64 * i + z] == OfLane(LanesOf(s)[i])[z]
  {
    hide OfLane, Bits, BytesOf, LanesOf;
    BytesOfLanes(s);
    BitsOfBytes(LanesOf(s));
    OfLanesAt(LanesOf(s), i, z);
  }
}
