/** The sponge of libethash/sha3.c and libdevcore/SHA3.cpp, against FIPS 202 sections 4 and 5.1. */
module Sponge {
  import opened Fips202
  import opened Keccak
  import CommonData

  // ----- lanes in memory: eight bytes each, lowest first

  function Load64(b: seq<bv8>): bv64
    requires |b| == 8
  {
    b[0] as bv64 | (b[1] as bv64 << 8) | (b[2] as bv64 << 16) | (b[3] as bv64 << 24)
    | (b[4] as bv64 << 32) | (b[5] as bv64 << 40) | (b[6] as bv64 << 48) | (b[7] as bv64 << 56)
  }

  function Store64(v: bv64): (b: seq<bv8>)
    ensures |b| == 8
  {
    [(v & 0xff) as bv8, ((v >> 8) & 0xff) as bv8, ((v >> 16) & 0xff) as bv8, ((v >> 24) & 0xff) as bv8,
     ((v >> 32) & 0xff) as bv8, ((v >> 40) & 0xff) as bv8, ((v >> 48) & 0xff) as bv8, ((v >> 56) & 0xff) as bv8]
  }

  lemma LoadStored(v: bv64)
    ensures Load64(Store64(v)) == v
  {
  }

  /** Eight bytes as a lane, of which each byte can be taken back. */
  function Pack(b0: bv8, b1: bv8, b2: bv8, b3: bv8, b4: bv8, b5: bv8, b6: bv8, b7: bv8): bv64 {
    b0 as bv64 | (b1 as bv64 << 8) | (b2 as bv64 << 16) | (b3 as bv64 << 24)
    | (b4 as bv64 << 32) | (b5 as bv64 << 40) | (b6 as bv64 << 48) | (b7 as bv64 << 56)
  }

  lemma LoadPacks(b: seq<bv8>)
    requires |b| == 8
    ensures Load64(b) == Pack(b[0], b[1], b[2], b[3], b[4], b[5], b[6], b[7])
  {
  }

  lemma Byte0(b0: bv8, b1: bv8, b2: bv8, b3: bv8, b4: bv8, b5: bv8, b6: bv8, b7: bv8)
    ensures (Pack(b0, b1, b2, b3, b4, b5, b6, b7) & 0xff) as bv8 == b0
  {
  }

  lemma Byte1(b0: bv8, b1: bv8, b2: bv8, b3: bv8, b4: bv8, b5: bv8, b6: bv8, b7: bv8)
    ensures ((Pack(b0, b1, b2, b3, b4, b5, b6, b7) >> 8) & 0xff) as bv8 == b1
  {
  }

  lemma Byte2(b0: bv8, b1: bv8, b2: bv8, b3: bv8, b4: bv8, b5: bv8, b6: bv8, b7: bv8)
    ensures ((Pack(b0, b1, b2, b3, b4, b5, b6, b7) >> 16) & 0xff) as bv8 == b2
  {
  }

  lemma Byte3(b0: bv8, b1: bv8, b2: bv8, b3: bv8, b4: bv8, b5: bv8, b6: bv8, b7: bv8)
    ensures ((Pack(b0, b1, b2, b3, b4, b5, b6, b7) >> 24) & 0xff) as bv8 == b3
  {
  }

  lemma Byte4(b0: bv8, b1: bv8, b2: bv8, b3: bv8, b4: bv8, b5: bv8, b6: bv8, b7: bv8)
    ensures ((Pack(b0, b1, b2, b3, b4, b5, b6, b7) >> 32) & 0xff) as bv8 == b4
  {
  }

  lemma Byte5(b0: bv8, b1: bv8, b2: bv8, b3: bv8, b4: bv8, b5: bv8, b6: bv8, b7: bv8)
    ensures ((Pack(b0, b1, b2, b3, b4, b5, b6, b7) >> 40) & 0xff) as bv8 == b5
  {
  }

  lemma Byte6(b0: bv8, b1: bv8, b2: bv8, b3: bv8, b4: bv8, b5: bv8, b6: bv8, b7: bv8)
    ensures ((Pack(b0, b1, b2, b3, b4, b5, b6, b7) >> 48) & 0xff) as bv8 == b6
  {
  }

  lemma Byte7(b0: bv8, b1: bv8, b2: bv8, b3: bv8, b4: bv8, b5: bv8, b6: bv8, b7: bv8)
    ensures ((Pack(b0, b1, b2, b3, b4, b5, b6, b7) >> 56) & 0xff) as bv8 == b7
  {
  }

  lemma StoreLoaded(b: seq<bv8>)
    requires |b| == 8
    ensures Store64(Load64(b)) == b
  {
    hide Pack, Store64, Load64;
    LoadPacks(b);
    PackedBack(b[0], b[1], b[2], b[3], b[4], b[5], b[6], b[7]);
    assert b == [b[0], b[1], b[2], b[3], b[4], b[5], b[6], b[7]];
  }

  lemma PackedBack(b0: bv8, b1: bv8, b2: bv8, b3: bv8, b4: bv8, b5: bv8, b6: bv8, b7: bv8)
    ensures Store64(Pack(b0, b1, b2, b3, b4, b5, b6, b7)) == [b0, b1, b2, b3, b4, b5, b6, b7]
  {
    hide Pack;
    Byte0(b0, b1, b2, b3, b4, b5, b6, b7);
    Byte1(b0, b1, b2, b3, b4, b5, b6, b7);
    Byte2(b0, b1, b2, b3, b4, b5, b6, b7);
    Byte3(b0, b1, b2, b3, b4, b5, b6, b7);
    Byte4(b0, b1, b2, b3, b4, b5, b6, b7);
    Byte5(b0, b1, b2, b3, b4, b5, b6, b7);
    Byte6(b0, b1, b2, b3, b4, b5, b6, b7);
    Byte7(b0, b1, b2, b3, b4, b5, b6, b7);
  }

  function LanesOf(s: seq<bv8>): (l: seq<bv64>)
    ensures |l| == |s| / 8
  {
    if |s| < 8 then [] else LanesOf(s[..|s| - 8]) + [Load64(s[|s| - 8..])]
  }

  function BytesOf(l: seq<bv64>): (s: seq<bv8>)
    ensures |s| == 8 * |l|
  {
    if |l| == 0 then [] else BytesOf(l[..|l| - 1]) + Store64(l[|l| - 1])
  }

  /** Eight more bytes are one more lane. */
  lemma LanesAppend(s: seq<bv8>, b: seq<bv8>)
    requires |b| == 8
    ensures LanesOf(s + b) == LanesOf(s) + [Load64(b)]
  {
    hide Load64;
    assert (s + b)[..|s|] == s && (s + b)[|s|..] == b;
  }

  lemma {:induction false} LanesOfBytes(l: seq<bv64>)
    ensures LanesOf(BytesOf(l)) == l
  {
    hide Load64, Store64, LanesOf;
    if |l| > 0 {
      var front, last := l[..|l| - 1], l[|l| - 1];
      LanesOfBytes(front);
      LoadStored(last);
      LanesAppend(BytesOf(front), Store64(last));
      assert l == front + [last];
    }
  }

  lemma NoLanes(s: seq<bv8>)
    requires s == []
    ensures LanesOf(s) == []
  {
  }

  lemma {:induction false} BytesOfLanes(s: seq<bv8>)
    requires |s| % 8 == 0
    ensures BytesOf(LanesOf(s)) == s
  {
    hide Load64, Store64, LanesOf;
    if |s| == 0 {
      NoLanes(s);
    } else {
      var front, last := s[..|s| - 8], s[|s| - 8..];
      BytesOfLanes(front);
      StoreLoaded(last);
      LanesAppend(front, last);
      assert s == front + last;
      assert LanesOf(s)[..|LanesOf(s)| - 1] == LanesOf(front);
    }
  }

  type Block = s: seq<bv8> | |s| == 200 witness seq(200, _ => 0)

  /** The permutation on 1600 bits held as 200 bytes. */
  function Permutation(s: Block): Block {
    BytesOf(KeccakF(LanesOf(s)))
  }

  method LoadLanes(a: array<bv8>, lanes: array<bv64>)
    requires a.Length == 200 && lanes.Length == 25
    modifies lanes
    ensures lanes[..] == LanesOf(a[..])
  {
    hide Load64;
    for i := 0 to 25
      invariant lanes[..i] == LanesOf(a[..8 * i])
    {
      ghost var s := a[..8 * i + 8];
      assert s[..|s| - 8] == a[..8 * i] && s[|s| - 8..] == a[8 * i..8 * i + 8];
      lanes[i] := Load64(a[8 * i..8 * i + 8]);
    }
    assert a[..200] == a[..] && lanes[..25] == lanes[..];
  }

  method StoreLanes(lanes: array<bv64>, a: array<bv8>)
    requires a.Length == 200 && lanes.Length == 25
    modifies a
    ensures a[..] == BytesOf(lanes[..])
  {
    hide Store64;
    ghost var l := lanes[..];
    for i := 0 to 25
      invariant lanes[..] == l && a[..8 * i] == BytesOf(l[..i])
    {
      var b := Store64(lanes[i]);
      ghost var done := a[..8 * i];
      for k := 0 to 8
        invariant lanes[..] == l && a[..8 * i + k] == done + b[..k]
      {
        a[8 * i + k] := b[k];
      }
      assert l[..i + 1][..i] == l[..i] && b[..8] == b;
      assert a[..8 * (i + 1)] == done + b;
    }
    assert l[..25] == l && a[..200] == a[..];
  }

  /** P(a): the bytes are used as lanes, permuted in place, and seen as bytes again. */
  method Permute(a: array<bv8>)
    requires a.Length == 200
    modifies a
    ensures a[..] == Permutation(old(a[..]))
  {
    hide LanesOf, BytesOf, KeccakF;
    var lanes := new bv64[25];
    LoadLanes(a, lanes);
    KeccakfInPlace(lanes);
    StoreLanes(lanes, a);
  }

  // ----- the sponge, sections 4 and 5.1

  function XorByte(v: bv8, w: bv8): bv8 {
    v ^ w
  }

  /** The bits of exactly one of the two bytes. */
  lemma XorByteByBits(v: bv8, w: bv8)
    ensures XorByte(v, w) == (v | w) & !(v & w)
  {
  }

  /** The block added to the front of the state. */
  function XorBlock(s: Block, block: seq<bv8>): Block
    requires |block| <= 200
  {
    seq(200, i requires 0 <= i < 200 => if i < |block| then XorByte(s[i], block[i]) else s[i])
  }

  function ZeroBytes(n: nat): (z: seq<bv8>)
    ensures |z| == n && forall i :: 0 <= i < n ==> z[i] == 0
  {
    if n == 0 then [] else ZeroBytes(n - 1) + [0]
  }

  const ZERO: Block := ZeroBytes(200)

  /** How many bytes the last block of an n-byte message lacks; a full block lacks another one. */
  function Missing(n: nat, rate: nat): (k: nat)
    requires 0 < rate
    ensures 0 < k <= rate
  {
    if n >= rate then Missing(n - rate, rate) else rate - n
  }

  /** Suffix bits and the first bit of the padding, zeros, and its last bit in the top of the last
      byte; when only one byte is missing, both ends of the padding share it. */
  function Padding(missing: nat, delim: bv8): (p: seq<bv8>)
    requires 0 < missing
    ensures |p| == missing
  {
    if missing == 1 then [XorByte(delim, 0x80)] else [delim] + ZeroBytes(missing - 2) + [0x80]
  }

  function Pad(m: seq<bv8>, rate: nat, delim: bv8): seq<bv8>
    requires 0 < rate
  {
    m + Padding(Missing(|m|, rate), delim)
  }

  /** A padded message is a whole number of blocks. */
  lemma {:induction false} PadFillsBlocks(n: nat, rate: nat)
    requires 0 < rate
    ensures (n + Missing(n, rate)) % rate == 0
    decreases n
  {
    if n >= rate {
      PadFillsBlocks(n - rate, rate);
      CommonData.AddMultiple(n - rate + Missing(n - rate, rate), rate, 1);
    }
  }

  function Absorb(s: Block, p: seq<bv8>, rate: nat): Block
    requires 0 < rate < 200
    decreases |p|
  {
    if |p| < rate then s else Absorb(Permutation(XorBlock(s, p[..rate])), p[rate..], rate)
  }

  function Squeeze(s: Block, d: nat, rate: nat): (z: seq<bv8>)
    requires 0 < rate < 200
    ensures |z| == d
    decreases d
  {
    if d <= rate then s[..d] else s[..rate] + Squeeze(Permutation(s), d - rate, rate)
  }

  /** SPONGE of section 4 with KECCAK-f[1600], on whole bytes. */
  function SpongeOf(m: seq<bv8>, d: nat, rate: nat, delim: bv8): (z: seq<bv8>)
    requires 0 < rate < 200
    ensures |z| == d
  {
    Squeeze(Absorb(ZERO, Pad(m, rate, delim), rate), d, rate)
  }

  // ----- the loops

  lemma PadStep(m: seq<bv8>, rate: nat, delim: bv8)
    requires 0 < rate <= |m|
    ensures Pad(m, rate, delim)[..rate] == m[..rate]
    ensures Pad(m, rate, delim)[rate..] == Pad(m[rate..], rate, delim)
  {
    hide Padding;
  }

  /** xorin: adds len bytes of the source to the front of the destination. */
  method XorIn(dst: array<bv8>, src: array<bv8>, offset: nat, len: nat)
    requires dst.Length == 200 && dst != src && len <= 200 && offset + len <= src.Length
    modifies dst
    ensures dst[..] == XorBlock(old(dst[..]), src[offset..offset + len])
  {
    hide XorByte;
    for i := 0 to len
      invariant forall k :: i <= k < 200 ==> dst[k] == old(dst[k])
      invariant forall k :: 0 <= k < i ==> dst[k] == XorByte(old(dst[k]), src[offset + k])
    {
      dst[i] := XorByte(dst[i], src[offset + i]);
    }
  }

  /** setout: copies the first len bytes of the state to the output. */
  method SetOut(src: array<bv8>, dst: array<bv8>, offset: nat, len: nat)
    requires src != dst && len <= src.Length && offset + len <= dst.Length
    modifies dst
    ensures dst[..] == old(dst[..offset]) + src[..len] + old(dst[offset + len..])
  {
    for i := 0 to len
      invariant forall k :: 0 <= k < dst.Length && !(offset <= k < offset + i) ==> dst[k] == old(dst[k])
      invariant forall k :: 0 <= k < i ==> dst[offset + k] == src[k]
    {
      dst[offset + i] := src[i];
    }
    forall k | 0 <= k < dst.Length
      ensures dst[k] == (old(dst[..offset]) + src[..len] + old(dst[offset + len..]))[k]
    {
      if offset <= k < offset + len {
        assert dst[offset + (k - offset)] == src[k - offset];
      }
    }
  }

  lemma XorByteRules(u: bv8, v: bv8, w: bv8)
    ensures XorByte(XorByte(u, v), w) == XorByte(u, XorByte(v, w)) == XorByte(XorByte(u, w), v)
    ensures XorByte(u, 0) == u
  {
  }

  /** Byte i of the last block: delimiter, frame bit and message byte, each where it belongs. */
  function LastByte(v: bv8, i: nat, rest: seq<bv8>, rate: nat, delim: bv8): bv8 {
    var v1 := if i == |rest| then XorByte(v, delim) else v;
    var v2 := if i == rate - 1 then XorByte(v1, 0x80) else v1;
    if i < |rest| then XorByte(v2, rest[i]) else v2
  }

  lemma XorBlockAt(s: Block, block: seq<bv8>, i: nat)
    requires |block| <= 200 && i < 200
    ensures XorBlock(s, block)[i] == if i < |block| then XorByte(s[i], block[i]) else s[i]
  {
    hide XorByte;
  }

  lemma LastBlockAt(before: Block, i: nat, rest: seq<bv8>, rate: nat, delim: bv8)
    requires |rest| < rate < 200 && i < 200
    ensures XorBlock(before, rest + Padding(rate - |rest|, delim))[i] == LastByte(before[i], i, rest, rate, delim)
  {
    hide XorByte;
    XorByteRules(before[i], delim, 0x80);
    XorByteRules(before[i], 0, 0);
  }

  /** The last block: delimiter, frame bit and remaining bytes added one after another. */
  method XorLastBlock(a: array<bv8>, input: array<bv8>, offset: nat, len: nat, rate: nat, delim: bv8)
    requires a.Length == 200 && a != input && len < rate < 200 && offset + len <= input.Length
    modifies a
    ensures a[..] == XorBlock(old(a[..]), input[offset..offset + len] + Padding(rate - len, delim))
  {
    hide XorByte, XorBlock, Padding;
    ghost var before: Block := a[..];
    ghost var rest := input[offset..offset + len];
    a[len] := XorByte(a[len], delim);
    a[rate - 1] := XorByte(a[rate - 1], 0x80);
    ghost var framed: Block := a[..];
    XorIn(a, input, offset, len);
    forall i | 0 <= i < 200 ensures a[i] == XorBlock(before, rest + Padding(rate - len, delim))[i] {
      XorBlockAt(framed, rest, i);
      LastBlockAt(before, i, rest, rate, delim);
    }
  }

  /** foldP with xorin, and the padded last block: the whole absorbing phase. */
  method AbsorbInput(a: array<bv8>, input: array<bv8>, inlen: nat, rate: nat, delim: bv8)
    requires a.Length == 200 && a != input && inlen <= input.Length && 0 < rate < 200
    modifies a
    ensures a[..] == Absorb(old(a[..]), Pad(input[..inlen], rate, delim), rate)
  {
    hide Permutation, XorBlock, Padding;
    var offset: nat, left: nat := 0, inlen;
    ghost var whole := Absorb(a[..], Pad(input[..inlen], rate, delim), rate);
    while left >= rate
      invariant offset + left == inlen
      invariant Absorb(a[..], Pad(input[offset..inlen], rate, delim), rate) == whole
    {
      ghost var m := input[offset..inlen];
      PadStep(m, rate, delim);
      assert m[..rate] == input[offset..offset + rate] && m[rate..] == input[offset + rate..inlen];
      XorIn(a, input, offset, rate);
      Permute(a);
      offset, left := offset + rate, left - rate;
    }
    ghost var last := Pad(input[offset..inlen], rate, delim);
    assert |last| == rate && last[..rate] == last && last[rate..] == [];
    XorLastBlock(a, input, offset, left, rate, delim);
    Permute(a);
  }

  /** foldP with setout, and the shorter rest: the squeezing phase. */
  method SqueezeOutput(a: array<bv8>, out: array<bv8>, outlen: nat, rate: nat)
    requires a.Length == 200 && a != out && outlen <= out.Length && 0 < rate < 200
    modifies a, out
    ensures out[..] == Squeeze(old(a[..]), outlen, rate) + old(out[outlen..])
  {
    hide Permutation, Squeeze;
    var offset: nat, left: nat := 0, outlen;
    ghost var whole := Squeeze(a[..], outlen, rate);
    ghost var after := out[outlen..];
    while left >= rate
      invariant offset + left == outlen
      invariant out[..offset] + Squeeze(a[..], left, rate) == whole
      invariant out[outlen..] == after
    {
      SqueezeProgress(out[..offset], a[..], left, rate);
      ghost var emitted := out[..offset] + a[..rate];
      SetOut(a, out, offset, rate);
      assert out[..offset + rate] == emitted;
      Permute(a);
      offset, left := offset + rate, left - rate;
    }
    SqueezeRest(a[..], left, rate);
    SetOut(a, out, offset, left);
  }

  /** Emitting one block moves it from what is to come to what is done. */
  lemma SqueezeProgress(done: seq<bv8>, s: Block, d: nat, rate: nat)
    requires 0 < rate < 200 && d >= rate
    ensures done + Squeeze(s, d, rate) == (done + s[..rate]) + Squeeze(Permutation(s), d - rate, rate)
  {
    hide Permutation, Squeeze;
    SqueezeStep(s, d, rate);
  }

  lemma SqueezeRest(s: Block, d: nat, rate: nat)
    requires 0 < rate < 200 && d < rate
    ensures Squeeze(s, d, rate) == s[..d]
  {
    hide Permutation;
  }

  /** Emitting a full block and permuting is right also when nothing is left to emit. */
  lemma SqueezeStep(s: Block, d: nat, rate: nat)
    requires 0 < rate < 200 && d >= rate
    ensures Squeeze(s, d, rate) == s[..rate] + Squeeze(Permutation(s), d - rate, rate)
  {
    hide Permutation;
    if d == rate {
      assert s[..rate] + [] == s[..rate];
    }
  }

  /** hash: refuses null buffers and too large a rate; otherwise the output is that of the sponge,
      also when output and input are the same memory. */
  method Hash(out: array?<bv8>, outlen: nat, input: array?<bv8>, inlen: nat, rate: nat, delim: bv8)
    returns (code: int)
    requires 0 < rate
    requires out != null ==> outlen <= out.Length
    requires input != null ==> inlen <= input.Length
    modifies out
    ensures code == if out == null || (input == null && inlen != 0) || rate >= 200 then -1 else 0
    ensures code == -1 && out != null ==> out[..] == old(out[..])
    ensures code == 0 ==>
      out[..] == SpongeOf(if input == null then [] else old(input[..inlen]), outlen, rate, delim) + old(out[outlen..])
  {
    hide Absorb, Pad, Squeeze;
    if out == null || (input == null && inlen != 0) || rate >= 200 {
      return -1;
    }
    var a := new bv8[200](_ => 0);
    assert a[..] == ZERO;
    var source := input;
    if source == null {
      source := new bv8[0];
    }
    AbsorbInput(a, source, inlen, rate, delim);
    SqueezeOutput(a, out, outlen, rate);
    return 0;
  }

  /** sha3_bits: the output must not be longer than the digest. */
  method Sha3(bits: nat, out: array<bv8>, outlen: nat, input: array<bv8>, inlen: nat) returns (code: int)
    requires bits == 224 || bits == 256 || bits == 384 || bits == 512
    requires outlen <= out.Length && inlen <= input.Length
    modifies out
    ensures code == if outlen > bits / 8 then -1 else 0
    ensures code == 0 ==>
      out[..] == SpongeOf(old(input[..inlen]), outlen, 200 - bits / 4, 0x01) + old(out[outlen..])
    ensures code == -1 ==> out[..] == old(out[..])
  {
    hide SpongeOf;
    if outlen > bits / 8 {
      return -1;
    }
    code := Hash(out, outlen, input, inlen, 200 - bits / 4, 0x01);
  }

  /** shake_bits: any output length. */
  method Shake(bits: nat, out: array<bv8>, outlen: nat, input: array<bv8>, inlen: nat) returns (code: int)
    requires bits == 128 || bits == 256
    requires outlen <= out.Length && inlen <= input.Length
    modifies out
    ensures code == 0
    ensures out[..] == SpongeOf(old(input[..inlen]), outlen, 200 - bits / 4, 0x1f) + old(out[outlen..])
  {
    hide SpongeOf;
    code := Hash(out, outlen, input, inlen, 200 - bits / 4, 0x1f);
  }
}
