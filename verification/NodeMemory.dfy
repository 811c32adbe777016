/** Nodes of 16 words, and their bytes and lanes: the unions of libethash/internal.h and of
    libethash-cl/CLMiner_kernel.cl on a little-endian machine. */
module NodeMemory {
  import opened Fips202
  import opened Halves
  import opened Sponge

  type Node = s: seq<bv32> | |s| == 16 witness seq(16, _ => 0)

  function Store32(w: bv32): (b: seq<bv8>)
    ensures |b| == 4
  {
    [(w & 0xff) as bv8, ((w >> 8) & 0xff) as bv8, ((w >> 16) & 0xff) as bv8, ((w >> 24) & 0xff) as bv8]
  }

  function Load32(b: seq<bv8>): bv32
    requires |b| == 4
  {
    b[0] as bv32 | (b[1] as bv32 << 8) | (b[2] as bv32 << 16) | (b[3] as bv32 << 24)
  }

  /** The bytes of some words. */
  function WordBytes(w: seq<bv32>): (s: seq<bv8>)
    ensures |s| == 4 * |w|
  {
    if |w| == 0 then [] else WordBytes(w[..|w| - 1]) + Store32(w[|w| - 1])
  }

  function WordsOf(s: seq<bv8>): (w: seq<bv32>)
    ensures |w| == |s| / 4
  {
    if |s| < 4 then [] else WordsOf(s[..|s| - 4]) + [Load32(s[|s| - 4..])]
  }

  lemma LoadStored32(w: bv32)
    ensures Load32(Store32(w)) == w
  {
  }

  /** Four more bytes are one more word. */
  lemma WordsAppend(s: seq<bv8>, b: seq<bv8>)
    requires |b| == 4
    ensures WordsOf(s + b) == WordsOf(s) + [Load32(b)]
  {
    hide Load32;
    assert (s + b)[..|s|] == s && (s + b)[|s|..] == b;
  }

  lemma {:induction false} WordsOfBytes(w: seq<bv32>)
    ensures WordsOf(WordBytes(w)) == w
  {
    hide Load32, Store32, WordsOf;
    if |w| > 0 {
      var front, last := w[..|w| - 1], w[|w| - 1];
      WordsOfBytes(front);
      LoadStored32(last);
      WordsAppend(WordBytes(front), Store32(last));
      assert w == front + [last];
    }
  }

  lemma StoreLoaded32(b: seq<bv8>)
    requires |b| == 4
    ensures Store32(Load32(b)) == b
  {
  }

  lemma NoWords(s: seq<bv8>)
    requires s == []
    ensures WordsOf(s) == []
  {
  }

  lemma {:induction false} BytesOfWords(s: seq<bv8>)
    requires |s| % 4 == 0
    ensures WordBytes(WordsOf(s)) == s
  {
    hide Load32, Store32, WordsOf;
    if |s| == 0 {
      NoWords(s);
    } else {
      var front, last := s[..|s| - 4], s[|s| - 4..];
      BytesOfWords(front);
      StoreLoaded32(last);
      WordsAppend(front, last);
      assert s == front + last;
      assert WordsOf(s)[..|WordsOf(s)| - 1] == WordsOf(front);
    }
  }

  // ----- two words make a lane

  /** Consecutive words joined in pairs, the low word first. */
  function JoinWords(w: seq<bv32>): (l: seq<bv64>)
    ensures |l| == |w| / 2
  {
    if |w| < 2 then [] else JoinWords(w[..|w| - 2]) + [Wide(w[|w| - 2], w[|w| - 1])]
  }

  lemma JoinAppend(w: seq<bv32>, x: bv32, y: bv32)
    ensures JoinWords(w + [x, y]) == JoinWords(w) + [Wide(x, y)]
  {
    hide Wide;
    assert (w + [x, y])[..|w|] == w;
  }

  function LaneWords(l: seq<bv64>): (w: seq<bv32>)
    ensures |w| == 2 * |l|
  {
    if |l| == 0 then [] else LaneWords(l[..|l| - 1]) + [Low(l[|l| - 1]), High(l[|l| - 1])]
  }

  lemma LoadTwoWords(x: bv32, y: bv32)
    ensures Load64(Store32(x) + Store32(y)) == Wide(x, y)
  {
  }

  lemma LoadHalves(v: bv64)
    ensures Load32(Store64(v)[..4]) == Low(v) && Load32(Store64(v)[4..]) == High(v)
  {
  }

  lemma WordBytesTwo(w: seq<bv32>, x: bv32, y: bv32)
    ensures WordBytes(w + [x, y]) == WordBytes(w) + (Store32(x) + Store32(y))
  {
    hide Store32;
    var all, middle := w + [x, y], w + [x];
    assert all[..|all| - 1] == middle && middle[..|middle| - 1] == w;
  }

  lemma {:induction false} LanesOfWordBytes(w: seq<bv32>)
    requires |w| % 2 == 0
    ensures LanesOf(WordBytes(w)) == JoinWords(w)
  {
    hide Load64, Store32, Wide, LanesOf, WordBytes, JoinWords;
    if |w| > 0 {
      var front, x, y := w[..|w| - 2], w[|w| - 2], w[|w| - 1];
      assert w == front + [x, y];
      LanesOfWordBytes(front);
      LoadTwoWords(x, y);
      WordBytesTwo(front, x, y);
      LanesAppend(WordBytes(front), Store32(x) + Store32(y));
      JoinAppend(front, x, y);
    }
  }

  lemma {:induction false} WordsOfLaneBytes(l: seq<bv64>)
    ensures WordsOf(BytesOf(l)) == LaneWords(l)
  {
    hide Load32, Store64, Low, High, WordsOf;
    if |l| > 0 {
      var front, v := l[..|l| - 1], l[|l| - 1];
      var b := Store64(v);
      WordsOfLaneBytes(front);
      LoadHalves(v);
      WordsAppend(BytesOf(front), b[..4]);
      WordsAppend(BytesOf(front) + b[..4], b[4..]);
      assert BytesOf(l) == BytesOf(front) + b[..4] + b[4..];
    }
  }

  // ----- SHA3_512 of a node is one application of the permutation

  /** SHA3_512 of any message, read as a node. */
  function Sha512(m: seq<bv8>): Node {
    hide SpongeOf;
    WordsOf(SpongeOf(m, 64, 72, 0x01))
  }

  /** The lanes that an absorbed node occupies: eight of data, one of padding, the capacity zero. */
  function AbsorbedLanes(w: Node): Lanes {
    JoinWords(w) + [0x8000000000000001] + seq(16, _ => 0)
  }

  lemma {:induction false} LanesOfConcat(a: seq<bv8>, b: seq<bv8>)
    requires |a| % 8 == 0 && |b| % 8 == 0
    ensures LanesOf(a + b) == LanesOf(a) + LanesOf(b)
  {
    hide Load64;
    if |b| == 0 {
      assert a + b == a;
    } else {
      var front, last := b[..|b| - 8], b[|b| - 8..];
      assert (a + b)[..|a + b| - 8] == a + front && (a + b)[|a + b| - 8..] == last;
      LanesOfConcat(a, front);
    }
  }

  lemma {:induction false} LanesOfZeros(n: nat)
    ensures LanesOf(ZeroBytes(8 * n)) == seq(n, _ => 0)
  {
    if n > 0 {
      hide Load64, ZeroBytes;
      var z := ZeroBytes(8 * n);
      LanesOfZeros(n - 1);
      ZeroPrefix(8 * n, 8 * (n - 1));
      LoadZeros(z[|z| - 8..]);
    }
  }

  lemma LoadZeros(b: seq<bv8>)
    requires |b| == 8 && forall i :: 0 <= i < 8 ==> b[i] == 0
    ensures Load64(b) == 0
  {
  }

  lemma ZeroPrefix(n: nat, k: nat)
    requires k <= n
    ensures ZeroBytes(n)[..k] == ZeroBytes(k)
  {
  }

  lemma {:induction false} BytesOfPrefix(l: seq<bv64>, k: nat)
    requires k <= |l|
    ensures BytesOf(l)[..8 * k] == BytesOf(l[..k])
    decreases |l| - k
  {
    hide Store64;
    if k < |l| {
      BytesOfPrefix(l, k + 1);
      assert l[..k + 1][..k] == l[..k];
      assert BytesOf(l[..k + 1]) == BytesOf(l[..k]) + Store64(l[k]);
      assert BytesOf(l)[..8 * k] == BytesOf(l)[..8 * (k + 1)][..8 * k];
    } else {
      assert l[..k] == l;
    }
  }

  lemma PaddingOfNode()
    ensures Missing(64, 72) == 8
    ensures LanesOf(Padding(8, 0x01)) == [0x8000000000000001]
  {
    var p := Padding(8, 0x01);
    assert p[0] == 1 && p[7] == 0x80;
    assert p[1] == p[2] == p[3] == p[4] == p[5] == p[6] == 0;
    assert p[..|p| - 8] == [] && p[|p| - 8..] == p;
    assert Load64(p) == 0x8000000000000001;
  }

  lemma XorIntoZero(p: seq<bv8>)
    requires |p| <= 200
    ensures XorBlock(ZERO, p) == p + ZeroBytes(200 - |p|)
  {
    hide ZeroBytes, XorByte;
    forall i | 0 <= i < 200 ensures XorBlock(ZERO, p)[i] == (p + ZeroBytes(200 - |p|))[i] {
      assert ZERO[i] == 0;
      if i < |p| {
        XorByteZero(p[i]);
      }
    }
  }

  lemma XorByteZero(v: bv8)
    ensures XorByte(0, v) == v
  {
  }

  /** A message that with its padding fills one block is absorbed and squeezed with one permutation. */
  lemma OneBlock(m: seq<bv8>)
    requires |m| == 64
    ensures SpongeOf(m, 64, 72, 0x01) == Permutation(XorBlock(ZERO, m + Padding(8, 0x01)))[..64]
  {
    hide Permutation, XorBlock, Padding;
    PaddingOfNode();
    hide Missing;
    var p := m + Padding(8, 0x01);
    assert p == Pad(m, 72, 0x01);
    assert p[..72] == p && p[72..] == [];
    var s := Permutation(XorBlock(ZERO, p));
    assert Absorb(s, [], 72) == s;
    assert Absorb(ZERO, p, 72) == s;
  }

  lemma AbsorbedBytes(w: Node)
    ensures LanesOf(XorBlock(ZERO, WordBytes(w) + Padding(8, 0x01))) == AbsorbedLanes(w)
  {
    hide Padding, XorBlock, Load64;
    var m, p := WordBytes(w), Padding(8, 0x01);
    XorIntoZero(m + p);
    LanesOfConcat(m + p, ZeroBytes(8 * 16));
    LanesOfConcat(m, p);
    LanesOfWordBytes(w);
    PaddingOfNode();
    LanesOfZeros(16);
  }

  /** Hashing a node is permuting the lanes it is absorbed into and keeping the first eight. */
  lemma Sha512IsOnePermutation(w: Node)
    ensures Sha512(WordBytes(w)) == LaneWords(KeccakF(AbsorbedLanes(w))[..8])
  {
    hide KeccakF, Padding, SpongeOf, XorBlock, AbsorbedLanes, BytesOf, WordsOf, LaneWords, LanesOf, WordBytes;
    OneBlock(WordBytes(w));
    AbsorbedBytes(w);
    var l := KeccakF(AbsorbedLanes(w));
    BytesOfPrefix(l, 8);
    WordsOfLaneBytes(l[..8]);
  }
}
