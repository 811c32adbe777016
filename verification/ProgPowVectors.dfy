/** The results published in the repository (test-vectors.md), computed by the functions here.

    Those for merge and math are published with the name of the operation that a random number
    selects. The operations agree, but ProgPow.cpp numbers its cases otherwise. */
module ProgPowVectors {
  import opened Kiss99
  import opened ProgPowWords

  // ----- fnv1a and kiss99

  lemma PublishedFnv1a()
    ensures Fnv1a(0x811c9dc5, 0xddd0a47b) == 0xd37ee61a
    ensures Fnv1a(0xd37ee61a, 0xee304846) == 0xdedc7ad4
    ensures Fnv1a(0xdedc7ad4, 0x00000000) == 0xa9155bbc
  {
  }

  /** The published words are those that seed the multiply-with-carry words; the other two follow. */
  lemma PublishedSeed()
    ensures Seeded(0xddd0a47b, 0xee304846) == State(0xd37ee61a, 0xdedc7ad4, 0x7c428d7d, 0xc5ac7be1)
  {
    PublishedFnv1a();
    assert Fnv1a(0xdedc7ad4, 0xddd0a47b) == 0x7c428d7d && Fnv1a(0x7c428d7d, 0xee304846) == 0xc5ac7be1;
    assert Number(0xd37ee61a) == 0xd37ee61a && Number(0xdedc7ad4) == 0xdedc7ad4 && Number(0xc5ac7be1) == 0xc5ac7be1;
    hide Fnv1a, Number;
  }

  lemma FirstCarries()
    ensures Mwc(Z_FACTOR, 362436069) == 812916871
    ensures Mwc(W_FACTOR, 521288629) == 275137954
  {
  }

  lemma FirstCongruence()
    ensures Jcong(380116160) == 3404176455
  {
  }

  lemma FirstJoin()
    ensures (812916871 * 65536 + 275137954) % WORD == 820856226
  {
  }

  lemma FirstRegister()
    ensures Jsr(123456789) == 869398011
  {
    assert ShiftA(123456789) == 2641480981 && ShiftB(2641480981) == 2641700507 && ShiftC(2641700507) == 869398011;
    hide ShiftA, ShiftB, ShiftC;
  }

  lemma FirstSum()
    ensures Combine(820856226, 3404176455, 869398011) == 769445856
  {
    assert Bits(820856226) == 820856226 && Bits(3404176455) == 3404176455;
    hide Bits;
  }

  lemma FirstCall(k: State)
    requires k == State(362436069, 521288629, 123456789, 380116160)
    ensures Next(k) == State(812916871, 275137954, 869398011, 3404176455) && Output(Next(k)) == 769445856
  {
    hide Mwc, Jsr, Jcong, Combine;
    FirstCarries();
    FirstCongruence();
    FirstJoin();
    FirstRegister();
    FirstSum();
  }

  lemma SecondCarries()
    ensures Mwc(Z_FACTOR, 812916871) == 307853267
    ensures Mwc(W_FACTOR, 275137954) == 320872198
  {
  }

  lemma SecondCongruence()
    ensures Jcong(3404176455) == 3670120034
  {
  }

  lemma SecondJoin()
    ensures (307853267 * 65536 + 320872198) % WORD == 2331188998
  {
  }

  lemma SecondRegister()
    ensures Jsr(869398011) == 3691490372
  {
    assert ShiftA(869398011) == 3626497531 && ShiftB(3626497531) == 3626054852 && ShiftC(3626054852) == 3691490372;
    hide ShiftA, ShiftB, ShiftC;
  }

  lemma SecondSum()
    ensures Combine(2331188998, 3670120034, 3691490372) == 742012328
  {
    assert Bits(2331188998) == 2331188998 && Bits(3670120034) == 3670120034;
    hide Bits;
  }

  lemma SecondCall(k: State)
    requires k == State(812916871, 275137954, 869398011, 3404176455)
    ensures Next(k) == State(307853267, 320872198, 3691490372, 3670120034) && Output(Next(k)) == 742012328
  {
    hide Mwc, Jsr, Jcong, Combine;
    SecondCarries();
    SecondCongruence();
    SecondJoin();
    SecondRegister();
    SecondSum();
  }

  /** The first two results from the published state. */
  lemma PublishedKiss99(k: State)
    requires k == State(362436069, 521288629, 123456789, 380116160)
    ensures Output(Iterate(k, 1)) == 769445856 && Output(Iterate(k, 2)) == 742012328
  {
    hide Next, Output;
    FirstCall(k);
    SecondCall(Next(k));
    assert Iterate(k, 0) == k;
    assert Iterate(k, 1) == Next(k);
    assert Iterate(k, 2) == Next(Iterate(k, 1));
  }

  // ----- merges

  /** The amount that a merge rotates by, for the published random numbers. */
  lemma PublishedAmounts()
    ensures MergeAmount(0x7fdbc2f2) == 27 && MergeAmount(0x8b6cd8c3) == 12
  {
  }

  lemma PublishedMerges()
    ensures Plus(Times33(0x3b0bb37d), 0xa0212004) == 0x3ca34321
    ensures Times33(Xor(0x10c02f0d, 0x870fa227)) == 0x91c1326a
    ensures Xor(Left(0x24d2bae4, 27), 0x0ffb4c9b) == 0x2eddd94c
    ensures Xor(Right(0xda39e821, 12), 0x089c4008) == 0x8a81e396
  {
  }

  // ----- math

  lemma PublishedMath()
    ensures Plus(0x8626bb1f, 0xbbdfbc4e) == 0x4206776d
    ensures Times(0x3f4bdfac, 0xd79e414f) == 0x4c5cb214
    ensures MulHi(0x6d175b7e, 0xc4e89d4c) == 0x53e9023f
    ensures Left(0x8a81e396, 0x3f4bdfac) == 0x1e3968a8
    ensures Right(0x8a81e396, 0x7e70cb54) == 0x1e3968a8
    ensures And(0xa7352f36, 0xa0eb7045) == 0xa0212004
    ensures Or(0xc89805af, 0x64291e2f) == 0xecb91faf
    ensures Xor(0x760726d3, 0x79fc6a48) == 0x0ffb4c9b
  {
  }

  lemma PublishedMinima()
    ensures Least(0x2eddd94c, 0x7e70cb54) == 0x2eddd94c && Least(0x61ae0e62, 0xe0596b32) == 0x61ae0e62
  {
  }

  /** The random number that is published with an addition selects a rotation here, and the one that is
      published with a multiplying merge selects a rotating one. */
  lemma CasesDiffer()
    ensures Mathed(0x8626bb1f, 0xbbdfbc4e, 0x883e5b49) == Left(0x8626bb1f, 0xbbdfbc4e) == 0xaec7e189 != 0x4206776d
    ensures Merged(0x3b0bb37d, 0xa0212004, 0x9bd26ab0) == 0x25f89e99 != 0x3ca34321
  {
    assert MergeAmount(0x9bd26ab0) == 25 && Literal(25) == 25;
    assert Select(0x883e5b49, 11) == 0 && Select(0x9bd26ab0, 4) == 0;
  }

  /** The cases in their order here, on operands for which they differ. */
  lemma MathInOrder()
    ensures Mathed(0x6d175b7e, 0xc4e89d4c, 0) == 0x75b7e6d1 && Mathed(0x6d175b7e, 0xc4e89d4c, 1) == 0x4400194c
    ensures Mathed(0x6d175b7e, 0xc4e89d4c, 2) == 0x31fff8ca && Mathed(0x6d175b7e, 0xc4e89d4c, 5) == 0xb7e6d175
    ensures Mathed(0x6d175b7e, 0xc4e89d4c, 6) == 0x53e9023f && Mathed(0x6d175b7e, 0xc4e89d4c, 7) == 0xedffdf7e
    ensures Mathed(0x6d175b7e, 0xc4e89d4c, 8) == 0x183b6f68 && Mathed(0x6d175b7e, 0xc4e89d4c, 9) == 0xa9ffc632
    ensures Mathed(0x6d175b7e, 0xc4e89d4c, 10) == 0x6d175b7e
  {
    hide Popcount, Clz;
  }

  lemma CountsInOrder(a: bv32, b: bv32)
    ensures Mathed(a, b, 3) == Plus(Popcount(a), Popcount(b)) && Mathed(a, b, 4) == Plus(Clz(a), Clz(b))
  {
    hide Popcount, Clz, Plus;
  }

  lemma AmountOfOne(r: word)
    requires r < 65536
    ensures Literal(MergeAmount(r)) == 1
  {
    assert MergeAmount(r) == 1;
  }

  lemma RotatingMerges()
    ensures Merged(0x6d175b7e, 0xc4e89d4c, 0) == 0xf26330f3 && Merged(0x6d175b7e, 0xc4e89d4c, 1) == 0x1ec62bb0
  {
    AmountOfOne(0);
    AmountOfOne(1);
    hide MergeAmount, Literal;
    assert Xor(Right(0x6d175b7e, 1), 0xc4e89d4c) == 0xf26330f3;
    assert Xor(Left(0x6d175b7e, 1), 0xc4e89d4c) == 0x1ec62bb0;
    hide Xor, Right, Left;
  }

  lemma MultiplyingMerges()
    ensures Merged(0x6d175b7e, 0xc4e89d4c, 2) == 0xd4eb688a && Merged(0x6d175b7e, 0xc4e89d4c, 3) == 0xe9f88c72
  {
    hide MergeAmount, Literal;
  }
}
