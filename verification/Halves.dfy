/** 64-bit words and their two 32-bit halves. */
module Halves {
  function Wide(low: bv32, high: bv32): bv64 {
    (high as bv64 << 32) | low as bv64
  }

  function Low(v: bv64): bv32 {
    (v & 0xffff_ffff) as bv32
  }

  function High(v: bv64): bv32 {
    (v >> 32) as bv32
  }

  lemma HalvesOfWide(low: bv32, high: bv32)
    ensures Low(Wide(low, high)) == low && High(Wide(low, high)) == high
  {
  }

  lemma WideOfHalves(v: bv64)
    ensures Wide(Low(v), High(v)) == v
  {
  }

  lemma HalvesDecide(v: bv64, w: bv64)
    ensures Low(v) == Low(w) && High(v) == High(w) <==> v == w
  {
    hide Low, High, Wide;
    WideOfHalves(v);
    WideOfHalves(w);
  }
}
