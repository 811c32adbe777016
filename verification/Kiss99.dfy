/** The random numbers of the program generator (fnv1a and kiss99 of libprogpow/ProgPow.cpp).

    Words that are only added and multiplied are numbers below 2^32, and every sum or product is
    reduced modulo 2^32 as in the source; the shift register is a bit vector. */
module Kiss99 {
  import opened CommonData

  const WORD: nat := 0x1_0000_0000

  type word = x: int | 0 <= x < WORD

  const Z_FACTOR: nat := 36969
  const W_FACTOR: nat := 18000

  datatype State = State(z: word, w: word, jsr: bv32, jcong: word)

  // ----- multiply with carry

  /** a * (x & 65535) + (x >> 16) in 32 bits. */
  function Mwc(a: nat, x: word): word {
    (a * (x % 65536) + x / 65536) % WORD
  }

  predicate IsFactor(a: nat) {
    a == Z_FACTOR || a == W_FACTOR
  }

  /** The values that a multiply-with-carry word can have after its second step. */
  predicate Proper(a: nat, x: word) {
    x < a * 65536
  }

  /** A step never overflows, and it divides by 2^16 modulo a 2^16 - 1. */
  lemma MwcDivides(a: nat, x: word)
    requires IsFactor(a)
    ensures a * (x % 65536) + x / 65536 < WORD
    ensures 65536 * Mwc(a, x) == x + (x % 65536) * (a * 65536 - 1)
  {
  }

  /** From any word, the second step and all later ones are below a 2^16. */
  lemma MwcBecomesProper(a: nat, x: word)
    requires IsFactor(a)
    ensures Proper(a, Mwc(a, Mwc(a, x)))
    ensures Proper(a, x) ==> Proper(a, Mwc(a, x))
  {
  }

  lemma CarryIsQuotient(a: nat, lo: nat, hi: nat)
    requires hi < a
    ensures (a * lo + hi) / a == lo && (a * lo + hi) % a == hi
  {
    DivModUnique(a * lo + hi, a, lo, hi);
  }

  lemma ProperCarry(a: nat, x: word)
    requires IsFactor(a) && Proper(a, x)
    ensures x / 65536 < a && Mwc(a, x) == a * (x % 65536) + x / 65536
  {
    if a == Z_FACTOR {
    } else {
    }
  }

  lemma MwcInjective(a: nat, x: word, y: word)
    requires IsFactor(a) && Proper(a, x) && Proper(a, y) && Mwc(a, x) == Mwc(a, y)
    ensures x == y
  {
    hide Mwc, Proper;
    ProperCarry(a, x);
    ProperCarry(a, y);
    CarryIsQuotient(a, x % 65536, x / 65536);
    CarryIsQuotient(a, y % 65536, y / 65536);
  }

  /** The only words below a 2^16 that a step leaves alone are zero and the modulus. */
  lemma MwcFixedIff(a: nat, x: word)
    requires IsFactor(a) && Proper(a, x)
    ensures Mwc(a, x) == x <==> x == 0 || x == a * 65536 - 1
  {
    hide Mwc;
    ProperCarry(a, x);
    OnlyFixedPoints(a, x % 65536, x / 65536);
    assert x == 65536 * (x / 65536) + x % 65536;
  }

  lemma OnlyFixedPoints(a: nat, lo: nat, hi: nat)
    requires IsFactor(a) && hi < a && lo < 65536
    ensures a * lo + hi == 65536 * hi + lo <==> (lo == 0 && hi == 0) || (lo == 65535 && hi == a - 1)
  {
    if a * lo + hi == 65536 * hi + lo {
      if a == Z_FACTOR {
        assert 36968 * lo == 65535 * hi;
        assert lo == 65535 * (61892 * hi - 34913 * lo);
      } else {
        assert 17999 * lo == 65535 * hi;
        assert lo == 65535 * (18704 * hi - 5137 * lo);
      }
      assert lo == 0 || lo == 65535;
    }
  }

  // ----- the shift register

  function ShiftA(x: bv32): bv32 {
    x ^ (x << 17)
  }

  function ShiftB(x: bv32): bv32 {
    x ^ (x >> 13)
  }

  function ShiftC(x: bv32): bv32 {
    x ^ (x << 5)
  }

  function Jsr(x: bv32): bv32 {
    ShiftC(ShiftB(ShiftA(x)))
  }

  function ShiftB2(x: bv32): bv32 {
    x ^ (x >> 26)
  }

  function ShiftC2(x: bv32): bv32 {
    x ^ (x << 10)
  }

  function ShiftC3(x: bv32): bv32 {
    x ^ (x << 20)
  }

  lemma ShiftATwice(x: bv32)
    ensures ShiftA(ShiftA(x)) == x
  {
    calc {
      ShiftA(ShiftA(x));
      ShiftA(x ^ (x << 17));
      (x ^ (x << 17)) ^ ((x ^ (x << 17)) << 17);
      x;
    }
  }

  lemma ShiftBTwice(x: bv32)
    ensures ShiftB(ShiftB(x)) == ShiftB2(x)
  {
    calc {
      ShiftB(ShiftB(x));
      ShiftB(x ^ (x >> 13));
      (x ^ (x >> 13)) ^ ((x ^ (x >> 13)) >> 13);
      x ^ (x >> 26);
      ShiftB2(x);
    }
  }

  lemma ShiftB2Twice(x: bv32)
    ensures ShiftB2(ShiftB2(x)) == x
  {
    calc {
      ShiftB2(ShiftB2(x));
      ShiftB2(x ^ (x >> 26));
      (x ^ (x >> 26)) ^ ((x ^ (x >> 26)) >> 26);
      x;
    }
  }

  lemma ShiftCTwice(x: bv32)
    ensures ShiftC(ShiftC(x)) == ShiftC2(x)
  {
    calc {
      ShiftC(ShiftC(x));
      ShiftC(x ^ (x << 5));
      (x ^ (x << 5)) ^ ((x ^ (x << 5)) << 5);
      x ^ (x << 10);
      ShiftC2(x);
    }
  }

  lemma ShiftC2Twice(x: bv32)
    ensures ShiftC2(ShiftC2(x)) == ShiftC3(x)
  {
    calc {
      ShiftC2(ShiftC2(x));
      ShiftC2(x ^ (x << 10));
      (x ^ (x << 10)) ^ ((x ^ (x << 10)) << 10);
      x ^ (x << 20);
      ShiftC3(x);
    }
  }

  lemma ShiftC3Twice(x: bv32)
    ensures ShiftC3(ShiftC3(x)) == x
  {
    calc {
      ShiftC3(ShiftC3(x));
      ShiftC3(x ^ (x << 20));
      (x ^ (x << 20)) ^ ((x ^ (x << 20)) << 20);
      x;
    }
  }

  /** Undoing the three shifts from the last to the first. */
  function JsrBack(y: bv32): bv32 {
    ShiftA(ShiftB2(ShiftB(ShiftC3(ShiftC2(ShiftC(y))))))
  }

  lemma JsrUndone(x: bv32)
    ensures JsrBack(Jsr(x)) == x
  {
    hide ShiftA, ShiftB, ShiftC, ShiftB2, ShiftC2, ShiftC3;
    var a := ShiftA(x);
    var b := ShiftB(a);
    ShiftCTwice(b);
    ShiftC2Twice(b);
    ShiftC3Twice(b);
    ShiftBTwice(a);
    ShiftB2Twice(a);
    ShiftATwice(x);
  }

  /** The register step loses nothing, and only zero becomes zero. */
  lemma JsrInjective(x: bv32, y: bv32)
    ensures Jsr(x) == Jsr(y) <==> x == y
    ensures Jsr(x) == 0 <==> x == 0
  {
    hide Jsr, JsrBack;
    JsrUndone(x);
    JsrUndone(y);
    JsrUndone(0);
    JsrOfZero();
  }

  lemma JsrOfZero()
    ensures Jsr(0) == 0
  {
  }

  // ----- the congruential generator

  function Jcong(x: word): word {
    (69069 * x + 1234567) % WORD
  }

  lemma JcongInjective(x: word, y: word)
    ensures Jcong(x) == Jcong(y) <==> x == y
  {
    if Jcong(x) == Jcong(y) {
      var qx, qy := (69069 * x + 1234567) / WORD, (69069 * y + 1234567) / WORD;
      assert 69069 * (x - y) == WORD * (qx - qy);
      assert 2783094533 * 69069 == 1 + 44756 * WORD;
      var t := 2783094533 * (qx - qy) - 44756 * (x - y);
      assert x - y == WORD * t;
    }
  }

  // ----- the generator

  function Next(k: State): State {
    State(Mwc(Z_FACTOR, k.z), Mwc(W_FACTOR, k.w), Jsr(k.jsr), Jcong(k.jcong))
  }

  function Bits(x: word): bv32 {
    x as bv32
  }

  function Number(x: bv32): word {
    x as int
  }

  function Combine(mwc: word, jcong: word, jsr: bv32): word {
    Number((Bits(mwc) ^ Bits(jcong)) + jsr)
  }

  /** The number returned with a new state. */
  function Output(k: State): word {
    Combine((k.z * 65536 + k.w) % WORD, k.jcong, k.jsr)
  }

  /** Equal words cancel, so that only the register is left; and a number is the word it stands for. */
  lemma CombineEqual(x: word, j: bv32)
    ensures Combine(x, x, j) == Number(j)
  {
    assert (Bits(x) ^ Bits(x)) + j == j;
  }

  lemma NumberIsWord(x: bv32)
    ensures Number(x) as bv32 == x && Bits(Number(x)) == x
  {
  }

  function Iterate(k: State, n: nat): State {
    if n == 0 then k else Next(Iterate(k, n - 1))
  }

  /** From any seed, all states after the first two stay in range for ever, and the register is zero
      exactly if it was zero to begin with. */
  lemma {:induction false} HealthyForEver(k: State, n: nat)
    requires n >= 2
    ensures Proper(Z_FACTOR, Iterate(k, n).z) && Proper(W_FACTOR, Iterate(k, n).w)
    ensures Iterate(k, n).jsr == 0 <==> k.jsr == 0
  {
    hide Mwc, Jsr, Jcong, Proper;
    if n == 2 {
      assert Iterate(k, 2) == Next(Iterate(k, 1)) && Iterate(k, 1) == Next(Iterate(k, 0)) && Iterate(k, 0) == k;
      MwcBecomesProper(Z_FACTOR, k.z);
      MwcBecomesProper(W_FACTOR, k.w);
      JsrInjective(k.jsr, 0);
      JsrInjective(Jsr(k.jsr), 0);
    } else {
      var p := Iterate(k, n - 1);
      HealthyForEver(k, n - 1);
      MwcBecomesProper(Z_FACTOR, p.z);
      MwcBecomesProper(W_FACTOR, p.w);
      JsrInjective(p.jsr, 0);
    }
  }

  /** On states in range the four-word step is one-to-one: two generators that differ never meet. */
  lemma NextInjective(k: State, l: State)
    requires Proper(Z_FACTOR, k.z) && Proper(W_FACTOR, k.w) && Proper(Z_FACTOR, l.z) && Proper(W_FACTOR, l.w)
    ensures Next(k) == Next(l) <==> k == l
  {
    hide Mwc, Jsr, Jcong, Proper;
    if Next(k) == Next(l) {
      MwcInjective(Z_FACTOR, k.z, l.z);
      MwcInjective(W_FACTOR, k.w, l.w);
      JsrInjective(k.jsr, l.jsr);
      JcongInjective(k.jcong, l.jcong);
    }
  }

  // ----- seeding

  function Fnv1a(h: bv32, d: bv32): bv32 {
    FnvTimes(h ^ d)
  }

  function FnvTimes(x: bv32): bv32 {
    x * 0x1000193
  }

  function FnvBack(x: bv32): bv32 {
    x * 0x359c449b
  }

  lemma Fnv1aInjective(h: bv32, d: bv32, e: bv32)
    ensures Fnv1a(h, d) == Fnv1a(h, e) <==> d == e
  {
    hide FnvTimes, FnvBack;
    FnvUndone(h ^ d);
    FnvUndone(h ^ e);
    if h ^ d == h ^ e {
      XorCancels(h, d, e);
    }
  }

  lemma XorCancels(h: bv32, d: bv32, e: bv32)
    requires h ^ d == h ^ e
    ensures d == e
  {
  }

  lemma FnvUndone(x: bv32)
    ensures FnvBack(FnvTimes(x)) == x
  {
    calc {
      FnvBack(FnvTimes(x));
      FnvBack(x * 0x1000193);
      (x * 0x1000193) * 0x359c449b;
      x;
    }
  }

  /** The state for the two halves of a period number. */
  function Seeded(seed0: bv32, seed1: bv32): State {
    var z := Fnv1a(0x811c9dc5, seed0);
    var w := Fnv1a(z, seed1);
    var jsr := Fnv1a(w, seed0);
    var jcong := Fnv1a(jsr, seed1);
    State(Number(z), Number(w), jsr, Number(jcong))
  }

  /** Different periods never share a generator state to start from. */
  lemma SeededInjective(a0: bv32, a1: bv32, b0: bv32, b1: bv32)
    ensures Seeded(a0, a1) == Seeded(b0, b1) <==> a0 == b0 && a1 == b1
  {
    hide Fnv1a, Number;
    if Seeded(a0, a1) == Seeded(b0, b1) {
      var za, zb := Fnv1a(0x811c9dc5, a0), Fnv1a(0x811c9dc5, b0);
      NumberInjective(za, zb);
      Fnv1aInjective(0x811c9dc5, a0, b0);
      NumberInjective(Fnv1a(za, a1), Fnv1a(zb, b1));
      Fnv1aInjective(za, a1, b1);
    }
  }

  lemma NumberInjective(x: bv32, y: bv32)
    ensures Number(x) == Number(y) <==> x == y
  {
    assert Number(x) as bv32 == x && Number(y) as bv32 == y;
  }
}
