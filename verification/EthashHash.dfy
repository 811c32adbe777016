/** The Ethash hash, with or without the full data set (ethash_hash of libethash/internal.c). */
module EthashHash {
  import opened NodeMemory
  import opened Sponge
  import opened Ethash
  import opened Wrappers

  datatype Answer = Answer(result: seq<bv8>, mixHash: seq<bv8>)

  type Mix = s: seq<bv32> | |s| == 32 witness seq(32, _ => 0)

  /** The full data set: item i for every index i. */
  function DagOf(cache: Cache, n: nat): (dag: seq<Node>)
    requires n <= 0x1_0000_0000
    ensures |dag| == n && forall i :: 0 <= i < n ==> dag[i] == DagItem(cache, Counter(i))
  {
    hide DagItem, Counter;
    seq(n, i requires 0 <= i < n => DagItem(cache, Counter(i)))
  }

  function PageIndex(first: bv32, mix: Mix, i: nat, pages: nat): (p: nat)
    requires i < ACCESSES && 0 < pages
    ensures p < pages
  {
    Pick(Fnv(XorWord(first, Counter(i)), mix[i % MIX_WORDS]), pages)
  }

  /** There are 64 accesses; where the first word is the number of the access, the mix alone decides on
      the page, by the word of that number modulo 32. */
  lemma PageOfAccess(mix: Mix, other: Mix, i: nat, pages: nat)
    requires i < 64 && 0 < pages
    ensures i < ACCESSES
    ensures PageIndex(Counter(i), mix, i, pages) == AsNat(mix[i % 32]) % pages
    ensures mix[i % 32] == other[i % 32] ==>
              forall first :: PageIndex(first, mix, i, pages) == PageIndex(first, other, i, pages)
  {
    hide Counter, XorWord, Fnv, AsNat;
    XorWordByBits(Counter(i), 0);
    FnvLaws(0, mix[i % 32], 0);
  }

  lemma Accesses(dag: seq<Node>, first: bv32, mix: Mix)
    requires |dag| >= 2
    ensures AllAccesses(dag, first, mix) == Accessed(dag, first, mix, 64)
  {
    hide Accessed;
  }

  function FnvMix(mix: Mix, a: Node, b: Node): (m: Mix)
    ensures forall w :: 0 <= w < 32 ==> m[w] == Fnv(mix[w], (a + b)[w])
  {
    hide Fnv;
    seq(32, w requires 0 <= w < 32 => Fnv(mix[w], (a + b)[w]))
  }

  /** The mix after n accesses to pages of two nodes. */
  function Accessed(dag: seq<Node>, first: bv32, mix: Mix, n: nat): Mix
    requires n <= ACCESSES && |dag| >= 2
  {
    if n == 0 then mix
    else
      var m := Accessed(dag, first, mix, n - 1);
      var p := PageIndex(first, m, n - 1, |dag| / 2);
      FnvMix(m, dag[2 * p], dag[2 * p + 1])
  }

  function AllAccesses(dag: seq<Node>, first: bv32, mix: Mix): Mix
    requires |dag| >= 2
  {
    Accessed(dag, first, mix, ACCESSES)
  }

  function Reduction(mix: Mix, k: nat): bv32
    requires k < 8
  {
    Fnv(Fnv(Fnv(mix[4 * k], mix[4 * k + 1]), mix[4 * k + 2]), mix[4 * k + 3])
  }

  function Compressed(mix: Mix): (c: seq<bv32>)
    ensures |c| == 8 && forall k :: 0 <= k < 8 ==> c[k] == Reduction(mix, k)
  {
    hide Reduction;
    seq(8, k requires 0 <= k < 8 => Reduction(mix, k))
  }

  function Keccak256(m: seq<bv8>): (h: seq<bv8>)
    ensures |h| == 32
  {
    hide SpongeOf;
    SpongeOf(m, 32, 136, 0x01)
  }

  /** The hash as a function of the data set. */
  function HashOf(dag: seq<Node>, header: seq<bv8>, nonce: bv64): Answer
    requires |dag| >= 2
  {
    hide Sha512, Keccak256, AllAccesses, Compressed;
    var s := Sha512(header + Store64(nonce));
    var c := Compressed(AllAccesses(dag, s[0], s + s));
    Answer(Keccak256(WordBytes(s) + WordBytes(c)), WordBytes(c))
  }

  // ----- the loops

  lemma ReductionOf(mix: Mix, k: nat)
    requires k < 8
    ensures Compressed(mix)[k] == Fnv(Fnv(Fnv(mix[4 * k], mix[4 * k + 1]), mix[4 * k + 2]), mix[4 * k + 3])
  {
    hide Fnv;
  }

  /** The four-to-one reduction in place: a result never overwrites a word that is still to be read. */
  method CompressInPlace(mix: array<bv32>)
    requires mix.Length == 32
    modifies mix
    ensures mix[..8] == Compressed(old(mix[..]))
  {
    hide Fnv, Reduction, Compressed;
    ghost var before: Mix := mix[..];
    var w := 0;
    ghost var n := 0;
    while w != MIX_WORDS
      invariant 0 <= n <= 8 && w == 4 * n
      invariant mix[..n] == Compressed(before)[..n]
      invariant forall k :: w <= k < 32 ==> mix[k] == before[k]
      decreases 32 - w
    {
      var reduction := mix[w];
      reduction := Fnv(reduction, mix[w + 1]);
      reduction := Fnv(reduction, mix[w + 2]);
      reduction := Fnv(reduction, mix[w + 3]);
      ReductionOf(before, n);
      mix[w / 4] := reduction;
      w := w + 4;
      n := n + 1;
    }
    assert Compressed(before)[..8] == Compressed(before);
  }

  /** One node of a page, from the full data set if there is one, else computed from the cache. */
  method LookUp(full: Option<seq<Node>>, cache: Cache, i: nat) returns (node: Node)
    requires i < 0x1_0000_0000
    requires full.Some? ==> i < |full.value|
    ensures node == if full.Some? then full.value[i] else DagItem(cache, Counter(i))
  {
    hide DagItem, Counter;
    match full
    case Some(nodes) => node := nodes[i];
    case None =>
      var tmp := new bv32[16](_ => 0);
      CalculateDagItem(tmp, Counter(i), cache);
      node := tmp[..];
  }

  /** Mixing one node into its half of the mix. */
  method FnvIntoMix(mix: array<bv32>, n: nat, node: Node)
    requires mix.Length == 32 && n < 2
    modifies mix
    ensures forall k :: 0 <= k < 32 ==>
      mix[k] == if 16 * n <= k < 16 * n + 16 then Fnv(old(mix[k]), node[k - 16 * n]) else old(mix[k])
  {
    hide Fnv;
    for w := 0 to 16
      invariant forall k :: 0 <= k < 32 ==>
        mix[k] == if 16 * n <= k < 16 * n + w then Fnv(old(mix[k]), node[k - 16 * n]) else old(mix[k])
    {
      mix[16 * n + w] := Fnv(mix[16 * n + w], node[w]);
    }
  }

  ghost function DataSet(full: Option<seq<Node>>, cache: Cache, n: nat): seq<Node>
    requires n <= 0x1_0000_0000
  {
    if full.Some? then full.value else DagOf(cache, n)
  }

  method AccessPage(mix: array<bv32>, full: Option<seq<Node>>, cache: Cache, index: nat, pages: nat)
    requires mix.Length == 32 && index < pages && 2 * pages <= 0x1_0000_0000
    requires full.Some? ==> |full.value| == 2 * pages
    modifies mix
    ensures var dag := DataSet(full, cache, 2 * pages);
            mix[..] == FnvMix(old(mix[..]), dag[2 * index], dag[2 * index + 1])
  {
    hide Fnv, DagItem, DagOf, Counter;
    ghost var m: Mix := mix[..];
    var a := LookUp(full, cache, 2 * index);
    FnvIntoMix(mix, 0, a);
    var b := LookUp(full, cache, 2 * index + 1);
    FnvIntoMix(mix, 1, b);
    assert mix[..] == FnvMix(m, a, b);
  }

  /** The access loop: every page index is in range whichever way the nodes are obtained. */
  method AccessLoop(mix: array<bv32>, first: bv32, full: Option<seq<Node>>, cache: Cache, pages: nat)
    requires mix.Length == 32 && 0 < 2 * pages <= 0x1_0000_0000
    requires full.Some? ==> |full.value| == 2 * pages
    modifies mix
    ensures mix[..] == AllAccesses(DataSet(full, cache, 2 * pages), first, old(mix[..]))
  {
    hide Fnv, Pick, XorWord, Counter, DataSet, FnvMix;
    ghost var dag := DataSet(full, cache, 2 * pages);
    DataSetLength(full, cache, pages);
    for i := 0 to ACCESSES
      invariant mix[..] == Accessed(dag, first, old(mix[..]), i)
    {
      var index := Pick(Fnv(XorWord(first, Counter(i)), mix[i % MIX_WORDS]), pages);
      AccessPage(mix, full, cache, index, pages);
    }
  }

  lemma DataSetLength(full: Option<seq<Node>>, cache: Cache, pages: nat)
    requires 2 * pages <= 0x1_0000_0000 && (full.Some? ==> |full.value| == 2 * pages)
    ensures |DataSet(full, cache, 2 * pages)| == 2 * pages
  {
    hide DagOf;
  }

  /** The seed node and the compressed mix behind it. */
  method PackWords(s: array<bv32>, mix: array<bv32>) returns (words: array<bv32>)
    requires s.Length == 16 && mix.Length == 32
    ensures fresh(words) && words[..] == s[..] + mix[..8]
  {
    words := new bv32[24](_ => 0);
    for w := 0 to 24
      invariant words[..w] == (s[..] + mix[..8])[..w]
    {
      words[w] := if w < 16 then s[w] else mix[w - 16];
    }
    assert words[..] == words[..24];
  }

  /** The final SHA3_256 over the seed node and the compressed mix. */
  method FinalHash(s: array<bv32>, mix: array<bv32>) returns (answer: Answer)
    requires s.Length == 16 && mix.Length == 32
    ensures answer == Answer(Keccak256(WordBytes(s[..]) + WordBytes(mix[..8])), WordBytes(mix[..8]))
  {
    hide SpongeOf, WordBytes;
    var words := PackWords(s, mix);
    var bytes := new bv8[96](_ => 0);
    StoreWords(words, bytes);
    WordBytesConcat(s[..], mix[..8]);
    ghost var m := bytes[..];
    assert bytes[..96] == m;
    var out := new bv8[32](_ => 0);
    var code := Sha3(256, out, 32, bytes, 96);
    assert out[..] == Keccak256(m) + [] == Keccak256(m);
    answer := Answer(out[..], bytes[64..]);
  }

  lemma {:induction false} WordBytesConcat(v: seq<bv32>, w: seq<bv32>)
    ensures WordBytes(v + w) == WordBytes(v) + WordBytes(w)
  {
    hide Store32;
    if |w| == 0 {
      assert v + w == v;
    } else {
      assert (v + w)[..|v + w| - 1] == v + w[..|w| - 1];
      WordBytesConcat(v, w[..|w| - 1]);
    }
  }

  /** ethash_hash: refuses a size that is not a multiple of 32; the answer is that of the data set, be
      it given or computed item by item. A size below one page would divide by zero. */
  method Hash(full: Option<seq<Node>>, cache: Cache, fullSize: nat, header: seq<bv8>, nonce: bv64)
    returns (answer: Option<Answer>)
    requires |header| == 32 && fullSize / 128 <= 0x8000_0000
    requires fullSize % MIX_WORDS == 0 ==> fullSize >= 128
    requires full.Some? ==> |full.value| == 2 * (fullSize / 128)
    ensures answer.None? <==> fullSize % 32 != 0
    ensures answer.Some? ==>
      answer.value == HashOf(DataSet(full, cache, 2 * (fullSize / 128)), header, nonce)
  {
    hide HashOf, DataSet;
    if fullSize % MIX_WORDS != 0 {
      return None;
    }
    var a := HashPages(full, cache, fullSize / 128, header, nonce);
    return Some(a);
  }

  method HashPages(full: Option<seq<Node>>, cache: Cache, pages: nat, header: seq<bv8>, nonce: bv64)
    returns (answer: Answer)
    requires |header| == 32 && 0 < pages <= 0x8000_0000
    requires full.Some? ==> |full.value| == 2 * pages
    ensures |DataSet(full, cache, 2 * pages)| >= 2
    ensures answer == HashOf(DataSet(full, cache, 2 * pages), header, nonce)
  {
    hide Sha512, DataSet, AllAccesses, Compressed, Keccak256;
    DataSetLength(full, cache, pages);
    var s := new bv32[16](_ => 0);
    SeedNode(s, header, nonce);
    var mix := new bv32[32](_ => 0);
    Replicate(s, mix);
    AccessLoop(mix, s[0], full, cache, pages);
    CompressInPlace(mix);
    answer := FinalHash(s, mix);
  }

  method Replicate(s: array<bv32>, mix: array<bv32>)
    requires s.Length == 16 && mix.Length == 32 && s != mix
    modifies mix
    ensures mix[..] == s[..] + s[..]
  {
    for w := 0 to MIX_WORDS
      invariant mix[..w] == (s[..] + s[..])[..w]
    {
      mix[w] := s[w % 16];
    }
    assert mix[..32] == mix[..];
  }

  /** The seed node: SHA3_512 of the 32 header bytes and the 8 nonce bytes in front of the node. */
  method SeedNode(s: array<bv32>, header: seq<bv8>, nonce: bv64)
    requires s.Length == 16 && |header| == 32
    modifies s
    ensures s[..] == Sha512(header + Store64(nonce))
  {
    hide SpongeOf, Store64;
    var packed := header + Store64(nonce);
    var bytes := new bv8[64](i requires 0 <= i < 64 => if i < 40 then packed[i] else 0);
    assert bytes[..40] == packed;
    ghost var digest := SpongeOf(packed, 64, 72, 0x01);
    var code := Sha3(512, bytes, 64, bytes, 40);
    assert bytes[..] == digest + [] == digest;
    LoadWords(bytes, s);
  }

  /** Both ways of finding nodes give one data set exactly when the given nodes are the computed items. */
  lemma SameDataSetIff(cache: Cache, nodes: seq<Node>)
    requires |nodes| <= 0x1_0000_0000
    ensures DataSet(Some(nodes), cache, |nodes|) == DataSet(None, cache, |nodes|) <==>
            forall i :: 0 <= i < |nodes| ==> nodes[i] == DagItem(cache, Counter(i))
  {
    hide DagItem, Counter;
    if forall i :: 0 <= i < |nodes| ==> nodes[i] == DagItem(cache, Counter(i)) {
      assert nodes == DagOf(cache, |nodes|);
    }
  }

  /** A light run and a full run of ethash_hash, for every size, header and nonce: they return the same
      answer, or the same refusal, whenever the full array holds the computed items. */
  method LightAndFull(cache: Cache, nodes: seq<Node>, fullSize: nat, header: seq<bv8>, nonce: bv64)
    returns (light: Option<Answer>, full: Option<Answer>)
    requires |header| == 32 && fullSize / 128 <= 0x8000_0000
    requires fullSize % MIX_WORDS == 0 ==> fullSize >= 128
    requires |nodes| == 2 * (fullSize / 128)
    requires forall i :: 0 <= i < |nodes| ==> nodes[i] == DagItem(cache, Counter(i))
    ensures light == full
    ensures light.None? <==> fullSize % 32 != 0
  {
    hide HashOf, DataSet, DagItem, Counter;
    SameDataSetIff(cache, nodes);
    light := Hash(None, cache, fullSize, header, nonce);
    full := Hash(Some(nodes), cache, fullSize, header, nonce);
  }
}
