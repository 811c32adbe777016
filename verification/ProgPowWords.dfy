/** The 32-bit operations of generated ProgPoW kernels: what the CUDA and the OpenCL prelude make of
    them, and the merge and math tables (getKern, merge and math of libprogpow/ProgPow.cpp). */
module ProgPowWords {
  import opened CommonData
  import opened Halves
  import opened Kiss99

  const REGS: nat := 32

  // ----- rotations

  /** rotate of OpenCL, for an amount already reduced modulo 32. */
  function Rotate(x: bv32, s: bv32): bv32
    requires s < 32
  {
    (x << s) | (x >> (32 - s))
  }

  /** __funnelshift_l of CUDA: the high word of hi:lo shifted left. */
  function FunnelLeft(hi: bv32, lo: bv32, s: bv32): bv32
    requires s < 32
  {
    ((((hi as bv64 << 32) | lo as bv64) << s) >> 32) as bv32
  }

  /** __funnelshift_r of CUDA: the low word of hi:lo shifted right. */
  function FunnelRight(hi: bv32, lo: bv32, s: bv32): bv32
    requires s < 32
  {
    ((((hi as bv64 << 32) | lo as bv64) >> s) & 0xffff_ffff) as bv32
  }

  /** Every amount is taken modulo 32. */
  function Amount(n: bv32): (s: bv32)
    ensures s < 32
  {
    n & 31
  }

  function Back(s: bv32): (t: bv32)
    ensures t < 32
  {
    (32 - s) & 31
  }

  lemma AmountOfComplement(n: bv32)
    ensures Amount(32 - n) == Back(Amount(n))
  {
  }

  lemma BackTwice(s: bv32)
    requires s < 32
    ensures Back(Back(s)) == s
  {
  }

  // ----- one amount at a time

  lemma BackBy0(x: bv32) ensures Rotate(Rotate(x, 0), 0) == x {}
  lemma BackBy1(x: bv32) ensures Rotate(Rotate(x, 1), 31) == x {}
  lemma BackBy2(x: bv32) ensures Rotate(Rotate(x, 2), 30) == x {}
  lemma BackBy3(x: bv32) ensures Rotate(Rotate(x, 3), 29) == x {}
  lemma BackBy4(x: bv32) ensures Rotate(Rotate(x, 4), 28) == x {}
  lemma BackBy5(x: bv32) ensures Rotate(Rotate(x, 5), 27) == x {}
  lemma BackBy6(x: bv32) ensures Rotate(Rotate(x, 6), 26) == x {}
  lemma BackBy7(x: bv32) ensures Rotate(Rotate(x, 7), 25) == x {}
  lemma BackBy8(x: bv32) ensures Rotate(Rotate(x, 8), 24) == x {}
  lemma BackBy9(x: bv32) ensures Rotate(Rotate(x, 9), 23) == x {}
  lemma BackBy10(x: bv32) ensures Rotate(Rotate(x, 10), 22) == x {}
  lemma BackBy11(x: bv32) ensures Rotate(Rotate(x, 11), 21) == x {}
  lemma BackBy12(x: bv32) ensures Rotate(Rotate(x, 12), 20) == x {}
  lemma BackBy13(x: bv32) ensures Rotate(Rotate(x, 13), 19) == x {}
  lemma BackBy14(x: bv32) ensures Rotate(Rotate(x, 14), 18) == x {}
  lemma BackBy15(x: bv32) ensures Rotate(Rotate(x, 15), 17) == x {}
  lemma BackBy16(x: bv32) ensures Rotate(Rotate(x, 16), 16) == x {}
  lemma BackBy17(x: bv32) ensures Rotate(Rotate(x, 17), 15) == x {}
  lemma BackBy18(x: bv32) ensures Rotate(Rotate(x, 18), 14) == x {}
  lemma BackBy19(x: bv32) ensures Rotate(Rotate(x, 19), 13) == x {}
  lemma BackBy20(x: bv32) ensures Rotate(Rotate(x, 20), 12) == x {}
  lemma BackBy21(x: bv32) ensures Rotate(Rotate(x, 21), 11) == x {}
  lemma BackBy22(x: bv32) ensures Rotate(Rotate(x, 22), 10) == x {}
  lemma BackBy23(x: bv32) ensures Rotate(Rotate(x, 23), 9) == x {}
  lemma BackBy24(x: bv32) ensures Rotate(Rotate(x, 24), 8) == x {}
  lemma BackBy25(x: bv32) ensures Rotate(Rotate(x, 25), 7) == x {}
  lemma BackBy26(x: bv32) ensures Rotate(Rotate(x, 26), 6) == x {}
  lemma BackBy27(x: bv32) ensures Rotate(Rotate(x, 27), 5) == x {}
  lemma BackBy28(x: bv32) ensures Rotate(Rotate(x, 28), 4) == x {}
  lemma BackBy29(x: bv32) ensures Rotate(Rotate(x, 29), 3) == x {}
  lemma BackBy30(x: bv32) ensures Rotate(Rotate(x, 30), 2) == x {}
  lemma BackBy31(x: bv32) ensures Rotate(Rotate(x, 31), 1) == x {}

  lemma BackFrom0(x: bv32, s: bv32)
    requires s < 8
    ensures Rotate(Rotate(x, s), Back(s)) == x
  {
    BacksComputed0();
    hide *;
    BackBy0(x); BackBy1(x); BackBy2(x); BackBy3(x);
    BackBy4(x); BackBy5(x); BackBy6(x); BackBy7(x);
    Below32(s);
  }

  lemma BacksComputed0()
    ensures Back(0) == 0 && Back(1) == 31 && Back(2) == 30 && Back(3) == 29
    ensures Back(4) == 28 && Back(5) == 27 && Back(6) == 26 && Back(7) == 25
  {
  }

  lemma BackFrom8(x: bv32, s: bv32)
    requires 8 <= s < 16
    ensures Rotate(Rotate(x, s), Back(s)) == x
  {
    BacksComputed8();
    hide *;
    BackBy8(x); BackBy9(x); BackBy10(x); BackBy11(x);
    BackBy12(x); BackBy13(x); BackBy14(x); BackBy15(x);
    Below32(s);
  }

  lemma BacksComputed8()
    ensures Back(8) == 24 && Back(9) == 23 && Back(10) == 22 && Back(11) == 21
    ensures Back(12) == 20 && Back(13) == 19 && Back(14) == 18 && Back(15) == 17
  {
  }

  lemma BackFrom16(x: bv32, s: bv32)
    requires 16 <= s < 24
    ensures Rotate(Rotate(x, s), Back(s)) == x
  {
    BacksComputed16();
    hide *;
    BackBy16(x); BackBy17(x); BackBy18(x); BackBy19(x);
    BackBy20(x); BackBy21(x); BackBy22(x); BackBy23(x);
    Below32(s);
  }

  lemma BacksComputed16()
    ensures Back(16) == 16 && Back(17) == 15 && Back(18) == 14 && Back(19) == 13
    ensures Back(20) == 12 && Back(21) == 11 && Back(22) == 10 && Back(23) == 9
  {
  }

  lemma BackFrom24(x: bv32, s: bv32)
    requires 24 <= s < 32
    ensures Rotate(Rotate(x, s), Back(s)) == x
  {
    BacksComputed24();
    hide *;
    BackBy24(x); BackBy25(x); BackBy26(x); BackBy27(x);
    BackBy28(x); BackBy29(x); BackBy30(x); BackBy31(x);
    Below32(s);
  }

  lemma BacksComputed24()
    ensures Back(24) == 8 && Back(25) == 7 && Back(26) == 6 && Back(27) == 5
    ensures Back(28) == 4 && Back(29) == 3 && Back(30) == 2 && Back(31) == 1
  {
  }

  lemma RotateBack(x: bv32, s: bv32)
    requires s < 32
    ensures Rotate(Rotate(x, s), Back(s)) == x
  {
    hide *;
    if s < 8 {
      BackFrom0(x, s);
    } else if s < 16 {
      BackFrom8(x, s);
    } else if s < 24 {
      BackFrom16(x, s);
    } else {
      BackFrom24(x, s);
    }
  }

  lemma FunnelLeftFrom0(x: bv32)
    ensures FunnelLeft(x, x, 0) == Rotate(x, 0)
    ensures FunnelLeft(x, x, 1) == Rotate(x, 1)
    ensures FunnelLeft(x, x, 2) == Rotate(x, 2)
    ensures FunnelLeft(x, x, 3) == Rotate(x, 3)
    ensures FunnelLeft(x, x, 4) == Rotate(x, 4)
    ensures FunnelLeft(x, x, 5) == Rotate(x, 5)
    ensures FunnelLeft(x, x, 6) == Rotate(x, 6)
    ensures FunnelLeft(x, x, 7) == Rotate(x, 7)
  {
  }

  lemma FunnelLeftFrom8(x: bv32)
    ensures FunnelLeft(x, x, 8) == Rotate(x, 8)
    ensures FunnelLeft(x, x, 9) == Rotate(x, 9)
    ensures FunnelLeft(x, x, 10) == Rotate(x, 10)
    ensures FunnelLeft(x, x, 11) == Rotate(x, 11)
    ensures FunnelLeft(x, x, 12) == Rotate(x, 12)
    ensures FunnelLeft(x, x, 13) == Rotate(x, 13)
    ensures FunnelLeft(x, x, 14) == Rotate(x, 14)
    ensures FunnelLeft(x, x, 15) == Rotate(x, 15)
  {
  }

  lemma FunnelLeftFrom16(x: bv32)
    ensures FunnelLeft(x, x, 16) == Rotate(x, 16)
    ensures FunnelLeft(x, x, 17) == Rotate(x, 17)
    ensures FunnelLeft(x, x, 18) == Rotate(x, 18)
    ensures FunnelLeft(x, x, 19) == Rotate(x, 19)
    ensures FunnelLeft(x, x, 20) == Rotate(x, 20)
    ensures FunnelLeft(x, x, 21) == Rotate(x, 21)
    ensures FunnelLeft(x, x, 22) == Rotate(x, 22)
    ensures FunnelLeft(x, x, 23) == Rotate(x, 23)
  {
  }

  lemma FunnelLeftFrom24(x: bv32)
    ensures FunnelLeft(x, x, 24) == Rotate(x, 24)
    ensures FunnelLeft(x, x, 25) == Rotate(x, 25)
    ensures FunnelLeft(x, x, 26) == Rotate(x, 26)
    ensures FunnelLeft(x, x, 27) == Rotate(x, 27)
    ensures FunnelLeft(x, x, 28) == Rotate(x, 28)
    ensures FunnelLeft(x, x, 29) == Rotate(x, 29)
    ensures FunnelLeft(x, x, 30) == Rotate(x, 30)
    ensures FunnelLeft(x, x, 31) == Rotate(x, 31)
  {
  }

  /** Shifting a doubled word left is rotating it left. */
  lemma FunnelLeftIsRotate(x: bv32, s: bv32)
    requires s < 32
    ensures FunnelLeft(x, x, s) == Rotate(x, s)
  {
    hide FunnelLeft, Rotate;
    FunnelLeftFrom0(x);
    FunnelLeftFrom8(x);
    FunnelLeftFrom16(x);
    FunnelLeftFrom24(x);
    Below32(s);
  }

  lemma FunnelRightFrom0(x: bv32)
    ensures FunnelRight(x, x, 0) == Rotate(x, 0)
    ensures FunnelRight(x, x, 1) == Rotate(x, 31)
    ensures FunnelRight(x, x, 2) == Rotate(x, 30)
    ensures FunnelRight(x, x, 3) == Rotate(x, 29)
    ensures FunnelRight(x, x, 4) == Rotate(x, 28)
    ensures FunnelRight(x, x, 5) == Rotate(x, 27)
    ensures FunnelRight(x, x, 6) == Rotate(x, 26)
    ensures FunnelRight(x, x, 7) == Rotate(x, 25)
  {
  }

  lemma FunnelRightFrom8(x: bv32)
    ensures FunnelRight(x, x, 8) == Rotate(x, 24)
    ensures FunnelRight(x, x, 9) == Rotate(x, 23)
    ensures FunnelRight(x, x, 10) == Rotate(x, 22)
    ensures FunnelRight(x, x, 11) == Rotate(x, 21)
    ensures FunnelRight(x, x, 12) == Rotate(x, 20)
    ensures FunnelRight(x, x, 13) == Rotate(x, 19)
    ensures FunnelRight(x, x, 14) == Rotate(x, 18)
    ensures FunnelRight(x, x, 15) == Rotate(x, 17)
  {
  }

  lemma FunnelRightFrom16(x: bv32)
    ensures FunnelRight(x, x, 16) == Rotate(x, 16)
    ensures FunnelRight(x, x, 17) == Rotate(x, 15)
    ensures FunnelRight(x, x, 18) == Rotate(x, 14)
    ensures FunnelRight(x, x, 19) == Rotate(x, 13)
    ensures FunnelRight(x, x, 20) == Rotate(x, 12)
    ensures FunnelRight(x, x, 21) == Rotate(x, 11)
    ensures FunnelRight(x, x, 22) == Rotate(x, 10)
    ensures FunnelRight(x, x, 23) == Rotate(x, 9)
  {
  }

  lemma FunnelRightFrom24(x: bv32)
    ensures FunnelRight(x, x, 24) == Rotate(x, 8)
    ensures FunnelRight(x, x, 25) == Rotate(x, 7)
    ensures FunnelRight(x, x, 26) == Rotate(x, 6)
    ensures FunnelRight(x, x, 27) == Rotate(x, 5)
    ensures FunnelRight(x, x, 28) == Rotate(x, 4)
    ensures FunnelRight(x, x, 29) == Rotate(x, 3)
    ensures FunnelRight(x, x, 30) == Rotate(x, 2)
    ensures FunnelRight(x, x, 31) == Rotate(x, 1)
  {
  }

  /** Shifting a doubled word right is rotating it left by the rest. */
  lemma FunnelRightIsRotate(x: bv32, s: bv32)
    requires s < 32
    ensures FunnelRight(x, x, s) == Rotate(x, Back(s))
  {
    hide FunnelRight, Rotate;
    FunnelRightFrom0(x);
    FunnelRightFrom8(x);
    FunnelRightFrom16(x);
    FunnelRightFrom24(x);
    Below32(s);
  }

  lemma Below32(s: bv32)
    requires s < 32
    ensures (s < 8 ==> s == 0 || s == 1 || s == 2 || s == 3 || s == 4 || s == 5 || s == 6 || s == 7)
    ensures (8 <= s < 16 ==> s == 8 || s == 9 || s == 10 || s == 11 || s == 12 || s == 13 || s == 14 || s == 15)
    ensures (16 <= s < 24 ==> s == 16 || s == 17 || s == 18 || s == 19 || s == 20 || s == 21 || s == 22 || s == 23)
    ensures (24 <= s ==> s == 24 || s == 25 || s == 26 || s == 27 || s == 28 || s == 29 || s == 30 || s == 31)
  {
  }

  // ----- preludes

  datatype Prelude = Cuda | OpenCl

  function Rotl(p: Prelude, x: bv32, n: bv32): bv32 {
    match p
    case Cuda => FunnelLeft(x, x, Amount(n))
    case OpenCl => Rotate(x, Amount(n))
  }

  /** The OpenCL prelude turns it into a rotation to the left by 32 - n, which may wrap. */
  function Rotr(p: Prelude, x: bv32, n: bv32): bv32 {
    match p
    case Cuda => FunnelRight(x, x, Amount(n))
    case OpenCl => Rotate(x, Amount(32 - n))
  }

  /** A macro in the CUDA prelude, a built-in of OpenCL. */
  function Min(p: Prelude, a: bv32, b: bv32): bv32 {
    match p
    case Cuda => if Number(a) < Number(b) then a else b
    case OpenCl => if Number(b) < Number(a) then b else a
  }

  // ----- what they should mean

  function Left(x: bv32, n: bv32): bv32 {
    Rotate(x, Amount(n))
  }

  function Right(x: bv32, n: bv32): bv32 {
    Rotate(x, Back(Amount(n)))
  }

  function Least(a: bv32, b: bv32): bv32 {
    if Number(a) <= Number(b) then a else b
  }

  /** For all operands each prelude gives each operation its meaning, so the two agree. */
  lemma PreludesAgree(p: Prelude, x: bv32, n: bv32)
    ensures Rotl(p, x, n) == Left(x, n)
    ensures Rotr(p, x, n) == Right(x, n)
    ensures Min(p, x, n) == Least(x, n)
  {
    hide FunnelLeft, FunnelRight, Rotate, Amount, Back, Min, Least;
    FunnelLeftIsRotate(x, Amount(n));
    FunnelRightIsRotate(x, Amount(n));
    AmountOfComplement(n);
    MinIsLeast(p, x, n);
  }

  lemma MinIsLeast(p: Prelude, a: bv32, b: bv32)
    ensures Min(p, a, b) == Least(a, b)
  {
    hide Number;
    NumberInjective(a, b);
  }

  lemma RotationsUndo(x: bv32, n: bv32)
    ensures Left(Right(x, n), n) == x && Right(Left(x, n), n) == x
  {
    hide Rotate, Amount, Back;
    var s := Amount(n);
    BackTwice(s);
    RotateBack(x, s);
    RotateBack(x, Back(s));
  }

  // ----- the other operations, which both preludes take from their language

  function Plus(a: bv32, b: bv32): bv32 {
    a + b
  }

  function Times(a: bv32, b: bv32): bv32 {
    a * b
  }

  function Times33(a: bv32): bv32 {
    a * 33
  }

  function Xor(a: bv32, b: bv32): bv32 {
    a ^ b
  }

  function And(a: bv32, b: bv32): bv32 {
    a & b
  }

  function Or(a: bv32, b: bv32): bv32 {
    a | b
  }

  /** The high word of the 64-bit product. */
  function MulHi(a: bv32, b: bv32): bv32 {
    ((a as bv64 * b as bv64) >> 32) as bv32
  }

  /** The number of ones among the low bits of n. */
  function Ones(n: nat, bits: nat): (r: nat)
    ensures r <= bits
  {
    if bits == 0 then 0 else n % 2 + Ones(n / 2, bits - 1)
  }

  /** The number of zeros in front of n, written with the given number of bits. */
  function LeadingZeros(n: nat, bits: nat): (r: nat)
    ensures r <= bits
  {
    if n == 0 then bits else if bits == 0 then 0 else LeadingZeros(n / 2, bits - 1)
  }

  function Popcount(a: bv32): bv32 {
    var n := Ones(Number(a), 32);
    Literal(n)
  }

  function Clz(a: bv32): bv32 {
    var n := LeadingZeros(Number(a), 32);
    Literal(n)
  }

  /** A number written into the kernel text. */
  function Literal(k: nat): bv32
    requires k < WORD
  {
    Bits(k)
  }

  // ----- what these operations are, apart from how they are written

  /** Amounts count modulo 32. */
  lemma AmountCycles(n: bv32)
    ensures n < 32 ==> Amount(n) == n
    ensures Amount(n + 32) == Amount(n)
  {
  }

  /** Adding one more to an operand adds one to the sum, from nothing on. */
  lemma PlusCounts(a: bv32, b: bv32)
    ensures Plus(a, 0) == a && Plus(a, b + 1) == Plus(a, b) + 1
  {
  }

  /** The bits of exactly one operand, of both, and of at least one. */
  lemma XorByBits(a: bv32, b: bv32)
    ensures Xor(a, b) == (a | b) & !(a & b)
  {
  }

  lemma AndByBits(a: bv32, b: bv32)
    ensures And(a, b) == !(!a | !b)
  {
  }

  lemma OrByBits(a: bv32, b: bv32)
    ensures Or(a, b) == !(!a & !b)
  {
  }

  /** The two product operations are the halves of the 64-bit product. */
  lemma ProductHalves(a: bv32, b: bv32)
    ensures Wide(Times(a, b), MulHi(a, b)) == a as bv64 * b as bv64
  {
  }

  /** Binary digit k of a number. */
  function Digit(n: nat, k: nat): nat
    decreases k
  {
    if k == 0 then n % 2 else Digit(n / 2, k - 1)
  }

  function OnePositions(n: nat, bits: nat): set<nat> {
    set k: nat | k < bits && Digit(n, k) == 1
  }

  /** Counting ones is counting the positions that hold one. */
  lemma {:induction false} OnesByPosition(n: nat, bits: nat)
    ensures Ones(n, bits) == |OnePositions(n, bits)|
    decreases bits
  {
    if bits == 0 {
      assert OnePositions(n, bits) == {};
    } else {
      OnesByPosition(n / 2, bits - 1);
      PositionsShift(n, bits);
      ShiftedSize(OnePositions(n / 2, bits - 1));
    }
  }

  function Shifted(s: set<nat>): set<nat> {
    set k | k in s :: k + 1
  }

  lemma InShifted(s: set<nat>, k: nat)
    ensures k in Shifted(s) <==> k > 0 && k - 1 in s
  {
    if k > 0 && k - 1 in s {
      assert k - 1 + 1 in Shifted(s);
    }
  }

  lemma PositionsShift(n: nat, bits: nat)
    requires bits > 0
    ensures OnePositions(n, bits) == (if n % 2 == 1 then {0} else {}) + Shifted(OnePositions(n / 2, bits - 1))
  {
    hide Shifted;
    forall k: nat
      ensures k in OnePositions(n, bits) <==>
              k in (if n % 2 == 1 then {0} else {}) + Shifted(OnePositions(n / 2, bits - 1))
    {
      InShifted(OnePositions(n / 2, bits - 1), k);
    }
  }

  lemma {:induction false} ShiftedSize(s: set<nat>)
    ensures |Shifted(s)| == |s|
  {
    hide Shifted;
    if s == {} {
      assert forall k :: k !in Shifted(s) by {
        forall k: nat ensures k !in Shifted(s) {
          InShifted(s, k);
        }
      }
    } else {
      var x :| x in s;
      ShiftedSize(s - {x});
      forall k: nat ensures k in Shifted(s) <==> k in Shifted(s - {x}) + {x + 1} {
        InShifted(s, k);
        InShifted(s - {x}, k);
      }
      InShifted(s - {x}, x + 1);
      assert Shifted(s) == Shifted(s - {x}) + {x + 1};
    }
  }

  function Pow2(k: nat): (p: nat)
    ensures p > 0
  {
    if k == 0 then 1 else 2 * Pow2(k - 1)
  }

  /** The leading zeros of a number that fits tell between which powers of two it lies. */
  lemma {:induction false} LeadingZerosByPosition(n: nat, bits: nat)
    requires n < Pow2(bits)
    ensures var z := LeadingZeros(n, bits);
            n < Pow2(bits - z) && (z < bits ==> Pow2(bits - z - 1) <= n)
    decreases bits
  {
    if bits > 0 && n > 0 {
      LeadingZerosByPosition(n / 2, bits - 1);
    }
  }

  lemma Pow2Of32(k: nat)
    requires k == 32
    ensures Pow2(k) == WORD
  {
    assert Pow2(8) == 256;
    assert Pow2(16) == 256 * Pow2(8);
    assert Pow2(24) == 256 * Pow2(16);
    assert Pow2(32) == 256 * Pow2(24);
  }

  /** popcount and clz of a word. */
  lemma CountsByPosition(a: bv32)
    ensures |OnePositions(Number(a), 32)| <= 32 && Popcount(a) == |OnePositions(Number(a), 32)| as bv32
    ensures var z := LeadingZeros(Number(a), 32);
            && z <= 32 && Clz(a) == z as bv32
            && Number(a) < Pow2(32 - z) && (z < 32 ==> Pow2(31 - z) <= Number(a))
  {
    hide Number, Ones, LeadingZeros, OnePositions, Pow2;
    OnesByPosition(Number(a), 32);
    Pow2Of32(32);
    LeadingZerosByPosition(Number(a), 32);
  }

  // ----- the tables

  /** The selector of a switch is the remainder, the amount of a merge comes from the upper half. */
  lemma SelectorAndAmount(r: word, n: nat, q: nat, c: nat)
    requires n > 0 && r == n * q + c && c < n
    ensures Select(r, n) == c
    ensures n == 65536 ==> MergeAmount(r) == q % 31 + 1
  {
    DivModUnique(r, n, q, c);
  }

  /** The selector of a switch on a random number. */
  function Select(r: word, n: nat): (k: nat)
    requires n > 0
    ensures k < n
  {
    r % n
  }

  /** The rotation of a merge is never by zero. */
  function MergeAmount(r: word): (k: nat)
    ensures 1 <= k <= 31
  {
    r / 65536 % 31 + 1
  }

  function Merged(a: bv32, b: bv32, r: word): bv32 {
    var k := Literal(MergeAmount(r));
    match Select(r, 4)
    case 0 => Xor(Right(a, k), b)
    case 1 => Xor(Left(a, k), b)
    case 2 => Plus(Times33(a), b)
    case _ => Times33(Xor(a, b))
  }

  function Mathed(a: bv32, b: bv32, r: word): bv32 {
    match Select(r, 11)
    case 0 => Left(a, b)
    case 1 => And(a, b)
    case 2 => Plus(a, b)
    case 3 => Plus(Popcount(a), Popcount(b))
    case 4 => Plus(Clz(a), Clz(b))
    case 5 => Right(a, b)
    case 6 => MulHi(a, b)
    case 7 => Or(a, b)
    case 8 => Times(a, b)
    case 9 => Xor(a, b)
    case _ => Least(a, b)
  }

  // ----- merging loses nothing

  function Minus(a: bv32, b: bv32): bv32 {
    a - b
  }

  /** The inverse of 33 modulo 2^32. */
  function Over33(x: bv32): bv32 {
    x * 1041204193
  }

  lemma Times33Undone(x: bv32)
    ensures Over33(Times33(x)) == x && Times33(Over33(x)) == x
  {
    calc {
      Over33(Times33(x));
      Over33(x * 33);
      (x * 33) * 1041204193;
      x;
    }
    calc {
      Times33(Over33(x));
      Times33(x * 1041204193);
      (x * 1041204193) * 33;
      x;
    }
  }

  lemma XorUndone(x: bv32, b: bv32)
    ensures Xor(Xor(x, b), b) == x
  {
    calc {
      Xor(Xor(x, b), b);
      Xor(x ^ b, b);
      (x ^ b) ^ b;
      x;
    }
  }

  lemma PlusUndone(x: bv32, b: bv32)
    ensures Minus(Plus(x, b), b) == x && Plus(Minus(x, b), b) == x
  {
    calc {
      Minus(Plus(x, b), b);
      Minus(x + b, b);
      (x + b) - b;
      x;
    }
    calc {
      Plus(Minus(x, b), b);
      Plus(x - b, b);
      (x - b) + b;
      x;
    }
  }

  /** The old value that a merge of b turned into v. */
  function Unmerged(v: bv32, b: bv32, r: word): bv32 {
    var k := Literal(MergeAmount(r));
    match Select(r, 4)
    case 0 => Left(Xor(v, b), k)
    case 1 => Right(Xor(v, b), k)
    case 2 => Over33(Minus(v, b))
    case _ => Xor(Over33(v), b)
  }

  /** For every merged word and every random number, merging is a bijection on the old value. */
  lemma MergeLosesNothing(a: bv32, b: bv32, r: word)
    ensures Unmerged(Merged(a, b, r), b, r) == a
    ensures Merged(Unmerged(a, b, r), b, r) == a
  {
    hide Left, Right, Times33, Over33, Plus, Minus, Xor, Literal;
    var k := Literal(MergeAmount(r));
    RotationsUndo(a, k);
    RotationsUndo(Xor(a, b), k);
    XorUndone(Right(a, k), b);
    XorUndone(Left(a, k), b);
    XorUndone(a, b);
    PlusUndone(Times33(a), b);
    PlusUndone(a, b);
    Times33Undone(a);
    Times33Undone(Minus(a, b));
    Times33Undone(Xor(a, b));
    XorUndone(Over33(a), b);
  }

  /** Nor does a merge lose the merged word: different words lead to different values. */
  lemma MergeDistinguishes(a: bv32, b: bv32, c: bv32, r: word)
    ensures Merged(a, b, r) == Merged(a, c, r) ==> b == c
  {
    hide Left, Right, Times33, Plus, Xor, Literal;
    var k := Literal(MergeAmount(r));
    XorDistinguishes(Right(a, k), b, c);
    XorDistinguishes(Left(a, k), b, c);
    XorDistinguishes(a, b, c);
    PlusDistinguishes(Times33(a), b, c);
    Times33Undone(Xor(a, b));
    Times33Undone(Xor(a, c));
  }

  lemma XorDistinguishes(x: bv32, b: bv32, c: bv32)
    ensures Xor(x, b) == Xor(x, c) ==> b == c
  {
    XorUndoneLeft(x, b);
    XorUndoneLeft(x, c);
    hide Xor;
  }

  lemma XorUndoneLeft(x: bv32, b: bv32)
    ensures Xor(x, Xor(x, b)) == b
  {
    calc {
      Xor(x, Xor(x, b));
      Xor(x, x ^ b);
      x ^ (x ^ b);
      b;
    }
  }

  lemma PlusDistinguishes(x: bv32, b: bv32, c: bv32)
    ensures Plus(x, b) == Plus(x, c) ==> b == c
  {
    PlusUndoneLeft(x, b);
    PlusUndoneLeft(x, c);
    hide Plus, Minus;
  }

  lemma PlusUndoneLeft(x: bv32, b: bv32)
    ensures Minus(Plus(x, b), x) == b
  {
    calc {
      Minus(Plus(x, b), x);
      Minus(x + b, x);
      (x + b) - x;
      b;
    }
  }

  // ----- two different registers from one random number

  function Sources(n: nat): (s: (nat, nat))
    requires n < (REGS - 1) * REGS
    ensures s.0 < REGS && s.1 < REGS && s.0 != s.1
  {
    var src1, src2 := n % REGS, n / REGS;
    (src1, if src2 >= src1 then src2 + 1 else src2)
  }

  function SourceNumber(src1: nat, src2: nat): (n: nat)
    requires src1 < REGS && src2 < REGS && src1 != src2
    ensures n < (REGS - 1) * REGS
  {
    (if src2 > src1 then src2 - 1 else src2) * REGS + src1
  }

  /** The numbers from 0 to 991 are one to one with the ordered pairs of different registers. */
  lemma SourcesBijective(n: nat, src1: nat, src2: nat)
    requires n < (REGS - 1) * REGS && src1 < REGS && src2 < REGS && src1 != src2
    ensures Sources(n) == (src1, src2) <==> n == SourceNumber(src1, src2)
  {
  }
}
