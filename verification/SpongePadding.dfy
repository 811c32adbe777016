/** The padding of the sponge on bits: domain suffix and pad10*1 of FIPS 202 section 5.1. */
module SpongePadding {
  import opened Sponge
  import CommonData

  /** The bits of a byte string, lowest bit of each byte first (FIPS 202 appendix B.1). */
  function Bits(m: seq<bv8>): (b: seq<bool>)
    ensures |b| == 8 * |m|
  {
    if |m| == 0 then [] else Bits(m[..|m| - 1]) + ByteBits(m[|m| - 1])
  }

  function ByteBits(v: bv8): (b: seq<bool>)
    ensures |b| == 8
  {
    [v & 1 != 0, v & 2 != 0, v & 4 != 0, v & 8 != 0, v & 16 != 0, v & 32 != 0, v & 64 != 0, v & 128 != 0]
  }

  function Falses(n: nat): (b: seq<bool>)
    ensures |b| == n && forall i :: 0 <= i < n ==> !b[i]
  {
    if n == 0 then [] else Falses(n - 1) + [false]
  }

  /** pad10*1(x, m): a one, as few zeros as reach a multiple of x, and a one. */
  predicate IsPad101(b: seq<bool>, x: nat, m: nat)
    requires 0 < x
  {
    2 <= |b| && |b| - 2 < x && (m + |b|) % x == 0 && b == [true] + Falses(|b| - 2) + [true]
  }

  lemma {:induction false} BitsConcat(a: seq<bv8>, b: seq<bv8>)
    ensures Bits(a + b) == Bits(a) + Bits(b)
  {
    if |b| == 0 {
      assert a + b == a;
    } else {
      assert (a + b)[..|a + b| - 1] == a + b[..|b| - 1];
      BitsConcat(a, b[..|b| - 1]);
    }
  }

  lemma {:induction false} BitsOfZeros(n: nat)
    ensures Bits(ZeroBytes(n)) == Falses(8 * n)
  {
    hide Bits, ByteBits, Falses;
    if n > 0 {
      assert ZeroBytes(n) == ZeroBytes(n - 1) + [0];
      BitsOfZeros(n - 1);
      BitsConcat(ZeroBytes(n - 1), [0]);
      BitsOfOne(0);
      NoBits();
      FalsesConcat(8 * (n - 1), 8);
    }
  }

  lemma NoBits()
    ensures ByteBits(0) == Falses(8)
  {
  }

  /** The delimiter bytes of the source carry these suffix bits before the first bit of the padding. */
  function Suffix(delim: bv8): (b: seq<bool>)
    requires delim == 0x01 || delim == 0x1f
    ensures |b| <= 4
  {
    if delim == 0x01 then [] else [true, true, true, true]
  }

  lemma DelimiterBits(delim: bv8)
    requires delim == 0x01 || delim == 0x1f
    ensures ByteBits(delim) == Suffix(delim) + [true] + Falses(7 - |Suffix(delim)|)
    ensures ByteBits(XorByte(delim, 0x80)) == Suffix(delim) + [true] + Falses(6 - |Suffix(delim)|) + [true]
    ensures ByteBits(0x80) == Falses(7) + [true]
  {
    hide Bits;
    if delim == 0x01 {
      assert ByteBits(0x01) == [true, false, false, false, false, false, false, false];
      assert ByteBits(0x81) == [true, false, false, false, false, false, false, true];
      assert XorByte(0x01, 0x80) == 0x81;
    } else {
      assert ByteBits(0x1f) == [true, true, true, true, true, false, false, false];
      assert ByteBits(0x9f) == [true, true, true, true, true, false, false, true];
      assert XorByte(0x1f, 0x80) == 0x9f;
    }
    assert ByteBits(0x80) == [false, false, false, false, false, false, false, true];
  }

  lemma BitsOfOne(v: bv8)
    ensures Bits([v]) == ByteBits(v)
  {
    hide ByteBits;
    assert Bits([v][..0]) == [];
  }

  lemma Regroup(s: seq<bool>, a: seq<bool>, z: seq<bool>, f: seq<bool>)
    ensures ((s + [true] + a) + z) + (f + [true]) == s + [true] + ((a + z) + f) + [true]
  {
  }

  lemma LongPaddingBits(missing: nat, delim: bv8)
    requires 1 < missing
    ensures Bits(Padding(missing, delim)) == (ByteBits(delim) + Falses(8 * (missing - 2))) + ByteBits(0x80)
  {
    hide ByteBits, Falses, ZeroBytes;
    var zeros := ZeroBytes(missing - 2);
    BitsOfOne(delim);
    BitsOfOne(0x80);
    BitsOfZeros(missing - 2);
    BitsConcat([delim], zeros);
    BitsConcat([delim] + zeros, [0x80]);
    hide Bits;
  }

  /** The bits that the padding bytes stand for. */
  lemma PaddingBits(missing: nat, delim: bv8)
    requires 0 < missing && (delim == 0x01 || delim == 0x1f)
    ensures Bits(Padding(missing, delim))
         == Suffix(delim) + [true] + Falses(8 * missing - 2 - |Suffix(delim)|) + [true]
  {
    hide ByteBits, XorByte, Bits, Falses;
    DelimiterBits(delim);
    var k := |Suffix(delim)|;
    if missing == 1 {
      BitsOfOne(XorByte(delim, 0x80));
    } else {
      LongPaddingBits(missing, delim);
      hide Padding, Suffix;
      Regroup(Suffix(delim), Falses(7 - k), Falses(8 * (missing - 2)), Falses(7));
      FalsesConcat(7 - k, 8 * (missing - 2));
      FalsesConcat(7 - k + 8 * (missing - 2), 7);
    }
  }

  lemma {:induction false} FalsesConcat(m: nat, n: nat)
    ensures Falses(m) + Falses(n) == Falses(m + n)
  {
    if n > 0 {
      FalsesConcat(m, n - 1);
      assert Falses(m) + (Falses(n - 1) + [false]) == (Falses(m) + Falses(n - 1)) + [false];
    }
  }

  lemma EightTimes(n: nat, rate: nat)
    requires 0 < rate && n % rate == 0
    ensures 8 * n % (8 * rate) == 0
  {
    var q := n / rate;
    assert n == rate * q;
    assert 8 * n == (8 * rate) * q;
    CommonData.DivModUnique(8 * n, 8 * rate, q, 0);
  }

  /** The bits after message and suffix, when the last block lacks some bytes and the suffix has k bits. */
  function PadBits(missing: nat, k: nat): seq<bool>
    requires 0 < missing && k <= 4
  {
    [true] + Falses(8 * missing - 2 - k) + [true]
  }

  lemma WholePad(n: nat, missing: nat, rate: nat, k: nat)
    requires 0 < missing <= rate && k <= 4 && (n + missing) % rate == 0
    ensures IsPad101(PadBits(missing, k), 8 * rate, 8 * n + k)
  {
    EightTimes(n + missing, rate);
    assert |PadBits(missing, k)| == 8 * missing - k;
    assert 8 * n + k + |PadBits(missing, k)| == 8 * (n + missing);
  }

  lemma Assemble(whole: seq<bool>, m: seq<bool>, padding: seq<bool>, suffix: seq<bool>, missing: nat)
    requires 0 < missing && |suffix| <= 4 && whole == m + padding
    requires padding == suffix + [true] + Falses(8 * missing - 2 - |suffix|) + [true]
    ensures whole == m + suffix + PadBits(missing, |suffix|)
  {
    hide Falses;
  }

  /** On bits, the padded message is the message, the domain suffix and pad10*1, for every length. */
  lemma PadIsStandard(m: seq<bv8>, rate: nat, delim: bv8)
    requires 0 < rate && (delim == 0x01 || delim == 0x1f)
    ensures exists pad :: IsPad101(pad, 8 * rate, |Bits(m) + Suffix(delim)|)
                       && Bits(Pad(m, rate, delim)) == Bits(m) + Suffix(delim) + pad
  {
    hide Padding, Suffix, PadBits, IsPad101;
    var missing := Missing(|m|, rate);
    BitsConcat(m, Padding(missing, delim));
    PaddingBits(missing, delim);
    Assemble(Bits(Pad(m, rate, delim)), Bits(m), Bits(Padding(missing, delim)), Suffix(delim), missing);
    PadFillsBlocks(|m|, rate);
    WholePad(|m|, missing, rate, |Suffix(delim)|);
  }
}
