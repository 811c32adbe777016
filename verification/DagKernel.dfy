/** The DAG kernel (ethash_calculate_dag_item of libethash-cl/CLMiner_kernel.cl), against the host. */
module DagKernel {
  import opened Fips202
  import opened Halves
  import opened KernelLanes
  import opened KernelRound
  import opened NodeMemory
  import opened Ethash

  /** Word k of the union, through its pairs. */
  function WordAt(s: Pairs, k: nat): bv32
    requires k < 16
  {
    if k % 2 == 0 then s[k / 2].x else s[k / 2].y
  }

  /** The first 16 words of the union. */
  function Words(s: Pairs): (w: Node)
    ensures forall k :: 0 <= k < 16 ==> w[k] == WordAt(s, k)
  {
    seq(16, k requires 0 <= k < 16 => WordAt(s, k))
  }

  lemma JoinOfWords(s: Pairs)
    ensures JoinAll(s)[..8] == JoinWords(Words(s))
  {
    var w := Words(s);
    forall j: nat | j <= 8 ensures JoinWords(w[..2 * j]) == JoinAll(s)[..j] {
      JoinOfWordsPrefix(s, j);
    }
    assert w[..16] == w;
  }

  lemma {:induction false} JoinOfWordsPrefix(s: Pairs, j: nat)
    requires j <= 8
    ensures JoinWords(Words(s)[..2 * j]) == JoinAll(s)[..j]
  {
    hide Wide, Words, JoinWords;
    if j > 0 {
      var v := s[j - 1];
      JoinOfWordsPrefix(s, j - 1);
      NextTwoWords(s, j - 1);
      JoinAppend(Words(s)[..2 * (j - 1)], v.x, v.y);
      assert JoinAll(s)[..j] == JoinAll(s)[..j - 1] + [Wide(v.x, v.y)];
    }
  }

  lemma {:induction false} LaneWordsPrefix(s: Pairs, j: nat)
    requires j <= 8
    ensures LaneWords(JoinAll(s)[..j]) == Words(s)[..2 * j]
  {
    hide Wide, JoinAll, Low, High, Words;
    if j > 0 {
      LaneWordsPrefix(s, j - 1);
      var l, v := JoinAll(s)[..j], s[j - 1];
      assert l[..|l| - 1] == JoinAll(s)[..j - 1] && l[|l| - 1] == Wide(v.x, v.y);
      HalvesOfWide(v.x, v.y);
      assert LaneWords(l) == LaneWords(JoinAll(s)[..j - 1]) + [v.x, v.y];
      NextTwoWords(s, j - 1);
    }
  }

  lemma NextTwoWords(s: Pairs, j: nat)
    requires j < 8
    ensures Words(s)[..2 * (j + 1)] == Words(s)[..2 * j] + [s[j].x, s[j].y]
  {
  }

  /** keccak_f1600_no_absorb: isolate only keeps the compiler from unrolling, and must not be zero. */
  method NoAbsorb(a: array<U2>, isolate: bv32)
    requires a.Length == 25 && isolate != 0
    modifies a
    ensures JoinAll(a[..]) == KeccakF(JoinAll(old(a[..])))
  {
    hide Round, JoinAll;
    var r := 0;
    while r < 24
      invariant r <= 24 && JoinAll(a[..]) == Rounds(JoinAll(old(a[..])), r)
      decreases 24 - r
    {
      if isolate != 0 {
        RoundKernel(a, r);
        r := r + 1;
      }
    }
  }

  /** SHA3_512: 64 bytes of data are in place; padding and capacity are written by hand. */
  method Sha512Kernel(s: array<U2>, isolate: bv32)
    requires s.Length == 25 && isolate != 0
    modifies s
    ensures Words(s[..]) == Sha512(WordBytes(Words(old(s[..]))))
  {
    hide KeccakF, WordBytes, Sha512, JoinAll, Words, AbsorbedLanes;
    ghost var before: Pairs := s[..];
    for i := 8 to 25
      invariant forall k :: 0 <= k < 8 ==> s[k] == before[k]
      invariant forall k :: 8 <= k < i ==> s[k] == U2(0, 0)
    {
      s[i] := U2(0, 0);
    }
    s[8] := U2(0x00000001, s[8].y);
    s[8] := U2(s[8].x, 0x80000000);
    AbsorbedByHand(before, s[..]);
    ghost var absorbed: Pairs := s[..];
    NoAbsorb(s, isolate);
    Sha512IsOnePermutation(Words(before));
    LaneWordsPrefix(s[..], 8);
    assert Words(s[..])[..16] == Words(s[..]);
  }

  lemma AbsorbedByHand(before: Pairs, s: Pairs)
    requires forall k :: 0 <= k < 8 ==> s[k] == before[k]
    requires s[8] == U2(0x00000001, 0x80000000)
    requires forall k :: 9 <= k < 25 ==> s[k] == U2(0, 0)
    ensures JoinAll(s) == AbsorbedLanes(Words(before))
  {
    JoinOfWords(before);
    assert Join(U2(0x00000001, 0x80000000)) == 0x8000000000000001;
    assert Join(U2(0, 0)) == 0;
    hide Join, JoinWords, Words;
    assert JoinAll(s)[..8] == JoinAll(before)[..8];
    assert JoinAll(s) == JoinAll(s)[..8] + [JoinAll(s)[8]] + JoinAll(s)[9..];
  }

  /** fnv4 on the four uint4 of the node, two pairs each. */
  method Fnv4(s: array<U2>, parent: Node)
    requires s.Length == 25
    modifies s
    ensures Words(s[..]) == FnvNode(Words(old(s[..])), parent)
  {
    hide Fnv;
    ghost var before: Pairs := s[..];
    for w := 0 to 4
      invariant forall k :: 0 <= k < 25 ==>
        s[k] == if k < 2 * w then U2(Fnv(before[k].x, parent[2 * k]), Fnv(before[k].y, parent[2 * k + 1]))
                else before[k]
    {
      var p, q := 2 * w, 2 * w + 1;
      s[p] := U2(Fnv(s[p].x, parent[2 * p]), Fnv(s[p].y, parent[2 * p + 1]));
      s[q] := U2(Fnv(s[q].x, parent[2 * q]), Fnv(s[q].y, parent[2 * q + 1]));
    }
    forall k | 0 <= k < 16 ensures WordAt(s[..], k) == Fnv(WordAt(before, k), parent[k]) {
      assert s[k / 2].x == Fnv(before[k / 2].x, parent[2 * (k / 2)]);
    }
  }

  /** The item as the kernel computes it, in the union that is also the permutation's state. */
  method ComputeItem(node: array<U2>, index: bv32, light: Cache, isolate: bv32)
    requires node.Length == 25 && isolate != 0
    modifies node
    ensures Words(node[..]) == DagItem(light, index)
  {
    hide Sha512, WordBytes, Words, MixParents, Pick, XorWord;
    LoadInitial(node, index, light);
    Sha512Kernel(node, isolate);
    MixKernel(node, index, light);
    Sha512Kernel(node, isolate);
  }

  method LoadInitial(node: array<U2>, index: bv32, light: Cache)
    requires node.Length == 25
    modifies node
    ensures Words(node[..]) == InitialNode(light, index)
  {
    hide Pick, XorWord, Words, InitialNode;
    CopyIn(node, light[Pick(index, |light|)]);
    ghost var copied: Pairs := node[..];
    node[0] := U2(XorWord(node[0].x, index), node[0].y);
    FirstWordUpdated(light, index, copied, node[..]);
  }

  /** The loop over the parents. */
  method MixKernel(node: array<U2>, index: bv32, light: Cache)
    requires node.Length == 25
    modifies node
    ensures Words(node[..]) == MixParents(light, index, Words(old(node[..])), DATASET_PARENTS)
  {
    hide Fnv, Pick, Counter, XorWord, FnvNode, Words, WordAt;
    for i := 0 to DATASET_PARENTS
      invariant Words(node[..]) == MixParents(light, index, Words(old(node[..])), i)
    {
      ghost var mix := Words(node[..]);
      assert mix[i % 16] == WordAt(node[..], i % 16);
      var parent := Pick(Fnv(XorWord(index, Counter(i)), WordAt(node[..], i % 16)), |light|);
      Fnv4(node, light[parent]);
    }
  }

  /** copy of four uint4 into the front of the union. */
  method CopyIn(s: array<U2>, node: Node)
    requires s.Length == 25
    modifies s
    ensures Words(s[..]) == node
  {
    for w := 0 to 4
      invariant forall k :: 0 <= k < 2 * w ==> s[k] == U2(node[2 * k], node[2 * k + 1])
    {
      var p, q := 2 * w, 2 * w + 1;
      s[p] := U2(node[2 * p], node[2 * p + 1]);
      s[q] := U2(node[2 * q], node[2 * q + 1]);
    }
    forall k | 0 <= k < 16 ensures WordAt(s[..], k) == node[k] {
      assert s[k / 2] == U2(node[2 * (k / 2)], node[2 * (k / 2) + 1]);
    }
  }

  lemma FirstWordUpdated(light: Cache, index: bv32, before: Pairs, s: Pairs)
    requires Words(before) == light[Pick(index, |light|)]
    requires s == before[0 := U2(XorWord(before[0].x, index), before[0].y)]
    ensures Words(s) == InitialNode(light, index)
  {
    hide Pick, XorWord;
    forall k | 0 <= k < 16 ensures Words(s)[k] == InitialNode(light, index)[k] {
      assert Words(before)[k] == WordAt(before, k);
    }
  }

  /** The kernel for one work item, with indices and the size of the DAG as unsigned numbers: it writes
      exactly the node that the host computes for the same index, and nothing else, or nothing at all
      past the given size. */
  method Kernel(start: nat, globalId: nat, light: Cache, dag: array<Node>, dagBytes: nat, isolate: bv32)
    requires isolate != 0 && dagBytes <= 64 * dag.Length
    modifies dag
    ensures var index := (start + globalId) % 0x1_0000_0000;
            forall k :: 0 <= k < dag.Length ==>
              dag[k] == if k == index && 64 * k < dagBytes then DagItem(light, Counter(index)) else old(dag[k])
  {
    hide Pick, XorWord, DagItem, Counter;
    var index := (start + globalId) % 0x1_0000_0000;
    if 64 * index >= dagBytes {
      return;
    }
    var node := new U2[25](_ => U2(0, 0));
    ComputeItem(node, Counter(index), light, isolate);
    dag[index] := Words(node[..]);
  }
}
