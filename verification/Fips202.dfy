/** KECCAK-f[1600] as FIPS 202 section 3 defines it, on 25 lanes of 64 bits.

    Lane (x, y) is element x + 5 y. Offsets and round constants are computed by the algorithms of
    the standard, not taken from tables. */
module Fips202 {

  type Lanes = s: seq<bv64> | |s| == 25 witness seq(25, _ => 0)

  /** The coordinates (x, y) of lane i = x + 5 y. */
  function X(i: nat): (x: nat)
    ensures x < 5 && x + 5 * Y(i) == i
  {
    i % 5
  }

  function Y(i: nat): nat {
    i / 5
  }

  /** Coordinates are taken modulo 5; k is at most 4. */
  function Plus(x: nat, k: nat): (r: nat)
    requires x < 5 && k < 5
    ensures r < 5
  {
    if x + k < 5 then x + k else x + k - 5
  }

  /** Rotation of a lane; RolMovesBits states what it does to each bit. */
  function Rol(v: bv64, n: bv6): bv64 {
    (v << n) | (v >> (64 - n as bv7))
  }

  function Bit(v: bv64, z: bv6): bv64 {
    (v >> z) & 1
  }

  /** Bit z of the rotated lane is bit z - n, modulo 64, of the lane. */
  lemma RolMovesBits(v: bv64, n: bv6, z: bv6)
    ensures Bit(Rol(v, n), z) == Bit(v, z - n)
  {
    if z >= n {
      BitOfShiftLeft(v, n, z);
      BitAboveShiftRight(v, n, z);
    } else {
      BitBelowShiftLeft(v, n, z);
      BitOfShiftRight(v, n, z);
    }
    hide Bit;
    OneSideIsZero(v << n, v >> (64 - n as bv7), z, Bit(v, z - n));
  }

  lemma OneSideIsZero(v: bv64, w: bv64, z: bv6, bit: bv64)
    requires (Bit(v, z) == bit && Bit(w, z) == 0) || (Bit(v, z) == 0 && Bit(w, z) == bit)
    ensures Bit(v | w, z) == bit
  {
  }

  lemma LeftThenRight0(v: bv64, n: bv6, z: bv6)
    requires z >= n && n < 8
    ensures ((v << n) >> z) & 1 == (v >> (z - n)) & 1
  {
  }

  lemma LeftThenRight8(v: bv64, n: bv6, z: bv6)
    requires z >= n && 8 <= n < 16
    ensures ((v << n) >> z) & 1 == (v >> (z - n)) & 1
  {
  }

  lemma LeftThenRight16(v: bv64, n: bv6, z: bv6)
    requires z >= n && 16 <= n < 32
    ensures ((v << n) >> z) & 1 == (v >> (z - n)) & 1
  {
  }

  lemma LeftThenRight32(v: bv64, n: bv6, z: bv6)
    requires z >= n && 32 <= n
    ensures ((v << n) >> z) & 1 == (v >> (z - n)) & 1
  {
  }

  lemma LeftThenRight(v: bv64, n: bv6, z: bv6)
    requires z >= n
    ensures ((v << n) >> z) & 1 == (v >> (z - n)) & 1
  {
    if n < 8 {
      LeftThenRight0(v, n, z);
    } else if n < 16 {
      LeftThenRight8(v, n, z);
    } else if n < 32 {
      LeftThenRight16(v, n, z);
    } else {
      LeftThenRight32(v, n, z);
    }
  }

  lemma RightTwice0(v: bv64, n: bv6, z: bv6)
    requires z < n && n < 16
    ensures ((v >> (64 - n as bv7)) >> z) & 1 == (v >> (z - n)) & 1
  {
  }

  lemma RightTwice16(v: bv64, n: bv6, z: bv6)
    requires z < n && 16 <= n < 32
    ensures ((v >> (64 - n as bv7)) >> z) & 1 == (v >> (z - n)) & 1
  {
  }

  lemma RightTwice32(v: bv64, n: bv6, z: bv6)
    requires z < n && 32 <= n < 48
    ensures ((v >> (64 - n as bv7)) >> z) & 1 == (v >> (z - n)) & 1
  {
  }

  lemma RightTwice48(v: bv64, n: bv6, z: bv6)
    requires z < n && 48 <= n
    ensures ((v >> (64 - n as bv7)) >> z) & 1 == (v >> (z - n)) & 1
  {
  }

  lemma RightTwice(v: bv64, n: bv6, z: bv6)
    requires z < n
    ensures ((v >> (64 - n as bv7)) >> z) & 1 == (v >> (z - n)) & 1
  {
    if n < 16 {
      RightTwice0(v, n, z);
    } else if n < 32 {
      RightTwice16(v, n, z);
    } else if n < 48 {
      RightTwice32(v, n, z);
    } else {
      RightTwice48(v, n, z);
    }
  }

  lemma BitOfShiftLeft(v: bv64, n: bv6, z: bv6)
    requires z >= n
    ensures Bit(v << n, z) == Bit(v, z - n)
  {
    calc {
      Bit(v << n, z);
      ((v << n) >> z) & 1;
    == { LeftThenRight(v, n, z); }
      (v >> (z - n)) & 1;
    }
  }

  lemma BitBelowShiftLeft(v: bv64, n: bv6, z: bv6)
    requires z < n
    ensures Bit(v << n, z) == 0
  {
  }

  lemma BitOfShiftRight(v: bv64, n: bv6, z: bv6)
    requires z < n
    ensures Bit(v >> (64 - n as bv7), z) == Bit(v, z - n)
  {
    calc {
      Bit(v >> (64 - n as bv7), z);
      ((v >> (64 - n as bv7)) >> z) & 1;
    == { RightTwice(v, n, z); }
      (v >> (z - n)) & 1;
    }
  }

  lemma BitAboveShiftRight(v: bv64, n: bv6, z: bv6)
    requires z >= n
    ensures Bit(v >> (64 - n as bv7), z) == 0
  {
  }

  /** Rotation by an offset given as a number. */
  function Turn(v: bv64, n: nat): bv64
    requires n < 64
  {
    Rol(v, Amount(n))
  }

  function Amount(n: nat): bv6
    requires n < 64
  {
    n as bv6
  }

  lemma TurnByZero(v: bv64)
    ensures Turn(v, 0) == v
  {
  }

  function Xor(v: bv64, w: bv64): bv64 {
    v ^ w
  }

  /** The bits of exactly one of the two lanes. */
  lemma XorLaneByBits(v: bv64, w: bv64)
    ensures Xor(v, w) == (v | w) & !(v & w)
  {
  }

  lemma XorZero(v: bv64)
    ensures Xor(0, v) == v
  {
  }

  // ----- theta, section 3.2.1

  function Column(a: Lanes, x: nat): bv64
    requires x < 5
  {
    Xor(Xor(Xor(Xor(a[x], a[x + 5]), a[x + 10]), a[x + 15]), a[x + 20])
  }

  function ThetaEffect(a: Lanes, x: nat): bv64
    requires x < 5
  {
    Xor(Column(a, Plus(x, 4)), Turn(Column(a, Plus(x, 1)), 1))
  }

  function Theta(a: Lanes): Lanes {
    seq(25, i requires 0 <= i < 25 => Xor(a[i], ThetaEffect(a, X(i))))
  }

  // ----- rho, section 3.2.2: the offsets follow a walk over the lanes

  function Next(lane: nat): nat
    requires lane < 25
    ensures Next(lane) < 25
  {
    var x, y := X(lane), Y(lane);
    y + 5 * ((2 * x + 3 * y) % 5)
  }

  /** The lane of step t of the walk from (1, 0). */
  function WalkLane(t: nat): (lane: nat)
    ensures lane < 25
  {
    if t == 0 then 1 else Next(WalkLane(t - 1))
  }

  function WalkOffset(t: nat): (n: nat)
    ensures n < 64
  {
    (t + 1) * (t + 2) / 2 % 64
  }

  /** The offset of a lane, found by following the walk from step t on; lane 0 is not on it. */
  function OffsetFrom(lane: nat, t: nat): (n: nat)
    requires t <= 24
    ensures n < 64
    decreases 24 - t
  {
    if t == 24 then 0
    else if WalkLane(t) == lane then WalkOffset(t)
    else OffsetFrom(lane, t + 1)
  }

  function Offset(lane: nat): (n: nat)
    ensures n < 64
  {
    OffsetFrom(lane, 0)
  }

  function Rho(a: Lanes): Lanes {
    seq(25, i requires 0 <= i < 25 => Turn(a[i], Offset(i)))
  }

  // ----- pi, section 3.2.3

  /** The lane that pi moves to lane i. */
  function PiSource(i: nat): nat
    requires i < 25
    ensures PiSource(i) < 25
  {
    var x, y := X(i), Y(i);
    (x + 3 * y) % 5 + 5 * x
  }

  function Pi(a: Lanes): Lanes {
    seq(25, i requires 0 <= i < 25 => a[PiSource(i)])
  }

  // ----- chi, section 3.2.4

  function ChiBits(u: bv64, v: bv64, w: bv64): bv64 {
    u ^ (!v & w)
  }

  function ChiLane(a: Lanes, i: nat): bv64
    requires i < 25
  {
    var x, row := X(i), 5 * Y(i);
    ChiBits(a[i], a[row + Plus(x, 1)], a[row + Plus(x, 2)])
  }

  function Chi(a: Lanes): Lanes {
    seq(25, i requires 0 <= i < 25 => ChiLane(a, i))
  }

  // ----- iota, section 3.2.5: the round constants come from a shift register

  /** One step of algorithm 5 on the eight bits of R, bit 0 lowest: a zero enters in front, and the
      bit that falls out at the end is added to bits 0, 4, 5 and 6. */
  function Clock(r: bv8): bv8 {
    (r << 1) ^ (if r >= 0x80 then 0x71 else 0)
  }

  function RegisterAt(t: nat): bv8 {
    if t == 0 then 1 else Clock(RegisterAt(t - 1))
  }

  function Rc(t: nat): bool {
    RegisterAt(t % 255) & 1 == 1
  }

  function BitAt(b: bool, z: bv6): bv64 {
    if b then 1 << z else 0
  }

  /** Bit rc(7 r + j) at position 2^j - 1, for j from 0 to 6. */
  function ConstantOf(r0: bool, r1: bool, r2: bool, r3: bool, r4: bool, r5: bool, r6: bool): bv64 {
    BitAt(r0, 0) | BitAt(r1, 1) | BitAt(r2, 3) | BitAt(r3, 7) | BitAt(r4, 15) | BitAt(r5, 31) | BitAt(r6, 63)
  }

  function RoundConstant(r: nat): bv64 {
    ConstantOf(Rc(7 * r), Rc(7 * r + 1), Rc(7 * r + 2), Rc(7 * r + 3), Rc(7 * r + 4), Rc(7 * r + 5), Rc(7 * r + 6))
  }

  function Iota(a: Lanes, r: nat): Lanes {
    a[0 := Xor(a[0], RoundConstant(r))]
  }

  // ----- rounds, section 3.3

  function Round(a: Lanes, r: nat): Lanes {
    Iota(Chi(Pi(Rho(Theta(a)))), r)
  }

  function Rounds(a: Lanes, n: nat): Lanes {
    if n == 0 then a else Round(Rounds(a, n - 1), n - 1)
  }

  function KeccakF(a: Lanes): Lanes {
    Rounds(a, 24)
  }
}
