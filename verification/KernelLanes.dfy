/** 64-bit lanes as pairs of 32-bit words (uint2 in libethash-cl/CLMiner_kernel.cl). */
module KernelLanes {
  import opened Fips202
  import opened Halves

  /** A uint2: x is the low word. */
  datatype U2 = U2(x: bv32, y: bv32)

  function Join(v: U2): bv64 {
    Wide(v.x, v.y)
  }

  function Xor2(v: U2, w: U2): U2 {
    U2(v.x ^ w.x, v.y ^ w.y)
  }

  /** bitselect: bits of b where c is set, bits of a elsewhere. */
  function BitSelect(a: bv32, b: bv32, c: bv32): bv32 {
    (a & !c) | (b & c)
  }

  function BitSelect2(a: U2, b: U2, c: U2): U2 {
    U2(BitSelect(a.x, b.x, c.x), BitSelect(a.y, b.y, c.y))
  }

  lemma JoinXor(v: U2, w: U2)
    ensures Join(Xor2(v, w)) == Xor(Join(v), Join(w))
  {
  }

  lemma SelectIsChi(u: bv32, v: bv32, w: bv32)
    ensures BitSelect(u ^ w, u, v) == u ^ (!v & w)
  {
  }

  lemma JoinOfChi(u: U2, v: U2, w: U2)
    ensures Wide(u.x ^ (!v.x & w.x), u.y ^ (!v.y & w.y)) == ChiBits(Join(u), Join(v), Join(w))
  {
  }

  /** Selecting between a row's neighbours is chi: the selected difference flips the lane's own bits. */
  lemma JoinChi(u: U2, v: U2, w: U2)
    ensures Join(BitSelect2(Xor2(u, w), u, v)) == ChiBits(Join(u), Join(v), Join(w))
  {
    SelectIsChi(u.x, v.x, w.x);
    SelectIsChi(u.y, v.y, w.y);
    JoinOfChi(u, v, w);
    hide BitSelect, Wide, ChiBits;
  }

  // ----- rotation: shift counts of 32-bit words count modulo 32

  function Shl(v: bv32, n: bv6): bv32 {
    v << (n & 31)
  }

  function Shr(v: bv32, n: bv6): bv32 {
    v >> (n & 31)
  }

  /** ROL2, the branch for platforms without a rotation of their own; 0 - n is 64 - n modulo 64. */
  function Rol2(v: U2, n: bv6): U2 {
    if n <= 32 then U2(Shl(v.x, n) | Shr(v.y, 32 - n), Shl(v.y, n) | Shr(v.x, 32 - n))
    else U2(Shl(v.y, n - 32) | Shr(v.x, 0 - n), Shl(v.x, n - 32) | Shr(v.y, 0 - n))
  }
}
