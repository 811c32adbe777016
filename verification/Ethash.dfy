/** DAG items and the Ethash hash on the host (libethash/internal.c). */
module Ethash {
  import opened CommonData
  import opened NodeMemory
  import opened Sponge

  const DATASET_PARENTS: nat := 256
  const ACCESSES: nat := 64
  const MIX_WORDS: nat := 32

  function Fnv(x: bv32, y: bv32): bv32 {
    (x * 0x01000193) ^ y
  }

  function XorWord(x: bv32, y: bv32): bv32 {
    x ^ y
  }

  /** Reduction of a 32-bit number to an index. */
  function Pick(v: bv32, n: nat): (i: nat)
    requires 0 < n
    ensures i < n
  {
    hide AsNat;
    AsNat(v) % n
  }

  function AsNat(v: bv32): nat {
    v as nat
  }

  /** A loop counter or index as the 32-bit number that the source mixes in. */
  function Counter(i: nat): bv32
    requires i < 0x1_0000_0000
  {
    i as bv32
  }

  // ----- what these operations are, apart from how they are written

  /** FNV-1: from zero the second word is left, the second word is added without carry, and one more
      in the first word is one more prime. No other function is like this. */
  lemma FnvLaws(x: bv32, y: bv32, z: bv32)
    ensures Fnv(0, y) == y
    ensures Fnv(x, y ^ z) == Fnv(x, y) ^ z
    ensures Fnv(x + 1, 0) == Fnv(x, 0) + 0x01000193
  {
    FnvAdds(x, y, z);
    FnvMultiplies(x);
    assert Fnv(0, y) == y;
    hide Fnv;
  }

  lemma FnvAdds(x: bv32, y: bv32, z: bv32)
    ensures Fnv(x, y ^ z) == Fnv(x, y) ^ z
  {
  }

  lemma FnvMultiplies(x: bv32)
    ensures Fnv(x + 1, 0) == Fnv(x, 0) + 0x01000193
  {
  }

  lemma XorWordByBits(x: bv32, y: bv32)
    ensures XorWord(x, y) == (x | y) & !(x & y)
    ensures XorWord(x, x) == 0 && XorWord(x, 0) == x
  {
  }

  /** Numbers and words stand for each other, and an index is a remainder. */
  lemma NumbersOfWords(v: bv32)
    ensures AsNat(v) < 0x1_0000_0000 && AsNat(v) as bv32 == v && Counter(AsNat(v)) == v
  {
  }

  lemma PickIsRemainder(v: bv32, n: nat, q: nat, r: nat)
    requires AsNat(v) == n * q + r && r < n
    ensures Pick(v, n) == r
  {
    hide AsNat;
    DivModUnique(AsNat(v), n, q, r);
  }

  function FnvNode(a: Node, b: Node): (c: Node)
    ensures forall w :: 0 <= w < 16 ==> c[w] == Fnv(a[w], b[w])
  {
    hide Fnv;
    seq(16, w requires 0 <= w < 16 => Fnv(a[w], b[w]))
  }

  const ZERO_NODE: Node := seq(16, _ => 0)

  /** The light cache. */
  type Cache = c: seq<Node> | 0 < |c| < 0x1_0000_0000 witness [ZERO_NODE]

  // ----- what a DAG item is

  function Parent(cache: Cache, index: bv32, mix: Node, i: nat): Node
    requires i < DATASET_PARENTS
  {
    cache[Pick(Fnv(XorWord(index, Counter(i)), mix[i % 16]), |cache|)]
  }

  /** The item after mixing in its first n parents; each parent depends on the mix so far. */
  function MixParents(cache: Cache, index: bv32, start: Node, n: nat): Node
    requires n <= DATASET_PARENTS
  {
    if n == 0 then start
    else
      var mix := MixParents(cache, index, start, n - 1);
      FnvNode(mix, Parent(cache, index, mix, n - 1))
  }

  function InitialNode(cache: Cache, index: bv32): Node {
    var init := cache[Pick(index, |cache|)];
    init[0 := XorWord(init[0], index)]
  }

  function DagItem(cache: Cache, index: bv32): Node {
    var start := Sha512(WordBytes(InitialNode(cache, index)));
    Sha512(WordBytes(MixParents(cache, index, start, DATASET_PARENTS)))
  }

  /** The number of parents, and where a parent comes from: at its own index the mix alone decides, by
      the word of that number modulo 16. */
  lemma ParentsOfItem(cache: Cache, index: bv32, mix: Node, i: nat)
    requires i < 256
    ensures DagItem(cache, index) ==
            var start := Sha512(WordBytes(InitialNode(cache, index)));
            Sha512(WordBytes(MixParents(cache, index, start, 256)))
    ensures Parent(cache, Counter(i), mix, i) == cache[Pick(mix[i % 16], |cache|)]
  {
    hide Sha512, WordBytes, MixParents, InitialNode, Pick, Counter, XorWord, Fnv;
    XorWordByBits(Counter(i), 0);
    FnvLaws(0, mix[i % 16], 0);
  }

  /** The node that an item starts from is the cache node of that number, with the index in word 0. */
  lemma StartOfItem(cache: Cache, index: bv32, w: nat)
    requires w < 16
    ensures var node := cache[Pick(index, |cache|)];
            InitialNode(cache, index)[w] == if w == 0 then (node[0] | index) & !(node[0] & index) else node[w]
  {
    hide Pick;
    XorWordByBits(cache[Pick(index, |cache|)][0], index);
    hide XorWord;
  }

  // ----- the node as bytes

  method StoreWords(words: array<bv32>, bytes: array<bv8>)
    requires bytes.Length == 4 * words.Length
    modifies bytes
    ensures bytes[..] == WordBytes(words[..])
  {
    hide Store32;
    ghost var w := words[..];
    for i := 0 to words.Length
      invariant words[..] == w && bytes[..4 * i] == WordBytes(w[..i])
    {
      var b := Store32(words[i]);
      ghost var done := bytes[..4 * i];
      for k := 0 to 4
        invariant words[..] == w && bytes[..4 * i + k] == done + b[..k]
      {
        bytes[4 * i + k] := b[k];
      }
      assert w[..i + 1][..i] == w[..i] && b[..4] == b;
      assert bytes[..4 * (i + 1)] == done + b;
    }
    assert w[..words.Length] == w && bytes[..bytes.Length] == bytes[..];
  }

  method LoadWords(bytes: array<bv8>, words: array<bv32>)
    requires bytes.Length == 4 * words.Length
    modifies words
    ensures words[..] == WordsOf(bytes[..])
  {
    hide Load32;
    for i := 0 to words.Length
      invariant words[..i] == WordsOf(bytes[..4 * i])
    {
      ghost var s := bytes[..4 * i + 4];
      assert s[..|s| - 4] == bytes[..4 * i] && s[|s| - 4..] == bytes[4 * i..4 * i + 4];
      words[i] := Load32(bytes[4 * i..4 * i + 4]);
    }
    assert bytes[..4 * words.Length] == bytes[..] && words[..words.Length] == words[..];
  }

  /** SHA3_512 of the first size bytes of a node, back into the same node. */
  method HashNode(node: array<bv32>, size: nat)
    requires node.Length == 16 && size <= 64
    modifies node
    ensures node[..] == Sha512(WordBytes(old(node[..]))[..size])
  {
    hide SpongeOf;
    var bytes := new bv8[64](_ => 0);
    StoreWords(node, bytes);
    ghost var message := bytes[..size];
    ghost var digest := SpongeOf(message, 64, 72, 0x01);
    var code := Sha3(512, bytes, 64, bytes, size);
    assert bytes[..] == digest + [] == digest;
    LoadWords(bytes, node);
  }

  /** The inner loop on words. */
  method FnvInto(ret: array<bv32>, parent: Node)
    requires ret.Length == 16
    modifies ret
    ensures ret[..] == FnvNode(old(ret[..]), parent)
  {
    hide Fnv;
    for w := 0 to 16
      invariant forall k :: 0 <= k < w ==> ret[k] == Fnv(old(ret[k]), parent[k])
      invariant forall k :: w <= k < 16 ==> ret[k] == old(ret[k])
    {
      ret[w] := Fnv(ret[w], parent[w]);
    }
  }

  /** ethash_calculate_dag_item. */
  method CalculateDagItem(ret: array<bv32>, index: bv32, cache: Cache)
    requires ret.Length == 16
    modifies ret
    ensures ret[..] == DagItem(cache, index)
  {
    hide Fnv, Pick, Counter, XorWord, Sha512, WordBytes, FnvNode;
    var init := cache[Pick(index, |cache|)];
    for w := 0 to 16
      invariant ret[..w] == init[..w]
    {
      ret[w] := init[w];
    }
    assert ret[..] == ret[..16] == init;
    ret[0] := XorWord(ret[0], index);
    assert ret[..] == InitialNode(cache, index);
    WordBytesWhole(ret[..]);
    HashNode(ret, 64);
    ghost var start: Node := ret[..];
    for i := 0 to DATASET_PARENTS
      invariant ret[..] == MixParents(cache, index, start, i)
    {
      var parent := cache[Pick(Fnv(XorWord(index, Counter(i)), ret[i % 16]), |cache|)];
      FnvInto(ret, parent);
    }
    WordBytesWhole(ret[..]);
    HashNode(ret, 64);
  }

  lemma WordBytesWhole(w: Node)
    ensures WordBytes(w)[..64] == WordBytes(w)
  {
    hide WordBytes;
  }
}
