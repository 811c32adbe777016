/** How the host fills the DAG on the device (libethash-cl/CLMiner.cpp): one launch of the kernel after
    another, each with its work items in any order. */
module DagBuild {
  import opened CommonData
  import opened Ethash
  import opened EthashHash
  import opened DagKernel
  import opened NodeMemory
  import opened Wrappers

  /** An unsigned has 32 bits. addDefinition passes PROGPOW_DAG_BYTES through one. */
  const UNSIGNED: nat := 0x1_0000_0000

  /** Work item j of a launch has this index. */
  function IndexAt(start: nat, gids: seq<nat>, j: nat): nat
    requires j < |gids|
  {
    (start + gids[j]) % UNSIGNED
  }

  predicate Reached(k: nat, start: nat, gids: seq<nat>) {
    exists j :: 0 <= j < |gids| && IndexAt(start, gids, j) == k
  }

  /** One launch: the nodes that a work item reaches and that lie below the size are computed. */
  method Launch(start: nat, gids: seq<nat>, light: Cache, dag: array<Node>, dagBytes: nat, isolate: bv32)
    requires isolate != 0 && dagBytes <= 64 * dag.Length
    modifies dag
    ensures forall k :: 0 <= k < dag.Length ==>
      dag[k] == if Reached(k, start, gids) && 64 * k < dagBytes then DagItem(light, Counter(k)) else old(dag[k])
  {
    hide DagItem, Counter;
    for i := 0 to |gids|
      invariant forall k :: 0 <= k < dag.Length ==>
        dag[k] == if Reached(k, start, gids[..i]) && 64 * k < dagBytes then DagItem(light, Counter(k)) else old(dag[k])
    {
      ReachedOne(start, gids, i);
      Kernel(start, gids[i], light, dag, dagBytes, isolate);
    }
    assert gids[..|gids|] == gids;
  }

  lemma ReachedOne(start: nat, gids: seq<nat>, i: nat)
    requires i < |gids|
    ensures forall k :: Reached(k, start, gids[..i + 1]) <==>
              Reached(k, start, gids[..i]) || k == IndexAt(start, gids, i)
  {
    forall k ensures Reached(k, start, gids[..i + 1]) <==>
                     Reached(k, start, gids[..i]) || k == IndexAt(start, gids, i)
    {
      if Reached(k, start, gids[..i]) {
        var j :| 0 <= j < i && IndexAt(start, gids[..i], j) == k;
        assert IndexAt(start, gids[..i + 1], j) == k;
      }
      if k == IndexAt(start, gids, i) {
        assert IndexAt(start, gids[..i + 1], i) == k;
      }
      if Reached(k, start, gids[..i + 1]) {
        var j :| 0 <= j < i + 1 && IndexAt(start, gids[..i + 1], j) == k;
        if j < i {
          assert IndexAt(start, gids[..i], j) == k;
        }
      }
    }
  }

  /** Every work item of a launch has its turn. */
  predicate AllItems(gids: seq<nat>, groupSize: nat) {
    forall g: nat :: g < groupSize ==> g in gids
  }

  /** Any order that has every work item once will do, as the plain one. */
  lemma PlainOrder(groupSize: nat)
    ensures AllItems(seq(groupSize, i => i), groupSize)
  {
    var gids := seq(groupSize, i => i);
    forall g: nat | g < groupSize ensures g in gids {
      assert gids[g] == g;
    }
  }

  lemma AllReached(start: nat, gids: seq<nat>, groupSize: nat)
    requires AllItems(gids, groupSize)
    ensures forall k :: start <= k < start + groupSize && k < UNSIGNED ==> Reached(k, start, gids)
  {
    forall k | start <= k < start + groupSize && k < UNSIGNED ensures Reached(k, start, gids) {
      assert k - start in gids;
      var j :| 0 <= j < |gids| && gids[j] == k - start;
      assert IndexAt(start, gids, j) == k;
    }
  }

  function FullRuns(work: nat, globalWorkSize: nat): nat
    requires globalWorkSize > 0
  {
    work / globalWorkSize + if work % globalWorkSize > 0 then 1 else 0
  }

  lemma RunsCover(work: nat, globalWorkSize: nat)
    requires globalWorkSize > 0
    ensures globalWorkSize * FullRuns(work, globalWorkSize) >= work
  {
    var q := work / globalWorkSize;
    assert work == globalWorkSize * q + work % globalWorkSize;
    assert globalWorkSize * (q + 1) == globalWorkSize * q + globalWorkSize;
  }

  /** A start index does not wrap before the last launch. */
  lemma StartsInRange(i: nat, work: nat, globalWorkSize: nat)
    requires globalWorkSize > 0 && i < FullRuns(work, globalWorkSize)
    ensures globalWorkSize * i < work
  {
    var q := work / globalWorkSize;
    assert work == globalWorkSize * q + work % globalWorkSize;
    if i < q {
      MulMonotone(i + 1, q, globalWorkSize);
      assert globalWorkSize * (i + 1) == globalWorkSize * i + globalWorkSize;
    }
  }

  /** The nodes after all launches: those below the size that the kernel was told are computed. */
  ghost function Built(cache: Cache, before: seq<Node>, told: nat): (after: seq<Node>)
    requires |before| <= UNSIGNED
    ensures |after| == |before|
  {
    hide DagItem, Counter;
    seq(|before|, k requires 0 <= k < |before| =>
      if 64 * k < told then DagItem(cache, Counter(k)) else before[k])
  }

  /** All launches. The size that the kernel is told is the true one reduced to 32 bits. */
  method BuildDag(
    light: Cache, dag: array<Node>, dagBytes: nat, globalWorkSize: nat, orders: seq<seq<nat>>, isolate: bv32)
    requires isolate != 0 && 0 < globalWorkSize && dagBytes == 64 * dag.Length && dag.Length <= UNSIGNED
    requires |orders| == FullRuns(dag.Length, globalWorkSize)
    requires forall i :: 0 <= i < |orders| ==> AllItems(orders[i], globalWorkSize)
    modifies dag
    ensures dag[..] == Built(light, old(dag[..]), dagBytes % UNSIGNED)
  {
    hide DagItem, Counter, Reached, AllItems, FullRuns;
    var told, work := dagBytes % UNSIGNED, dagBytes / 64;
    var start := 0;
    for i := 0 to |orders|
      invariant start == globalWorkSize * i
      invariant forall k :: 0 <= k < dag.Length ==>
        dag[k] == old(dag[k]) || (64 * k < told && dag[k] == DagItem(light, Counter(k)))
      invariant forall k :: 0 <= k < dag.Length && k < start && 64 * k < told ==> dag[k] == DagItem(light, Counter(k))
    {
      StartsInRange(i, work, globalWorkSize);
      DivModUnique(start, UNSIGNED, 0, start);
      AllReached(start, orders[i], globalWorkSize);
      Launch(start % UNSIGNED, orders[i], light, dag, told, isolate);
      start := start + globalWorkSize;
    }
    RunsCover(work, globalWorkSize);
  }

  /** The device ends up with the whole data set, whatever it held before, exactly if the size fits an
      unsigned; otherwise the nodes from the reduced size on are left as they were. */
  lemma WholeIff(cache: Cache, nodes: nat)
    requires 0 < nodes <= UNSIGNED
    ensures (forall before: seq<Node> :: |before| == nodes ==>
               Built(cache, before, 64 * nodes % UNSIGNED) == DagOf(cache, nodes))
            <==> 64 * nodes < 0x1_0000_0000
  {
    hide DagItem, Counter;
    var told := 64 * nodes % UNSIGNED;
    if 64 * nodes < UNSIGNED {
      forall before: seq<Node> | |before| == nodes ensures Built(cache, before, told) == DagOf(cache, nodes) {
      }
    } else {
      var last := nodes - 1;
      var other := Different(DagItem(cache, Counter(last)));
      var before := DagOf(cache, nodes)[last := other];
      assert Built(cache, before, told)[last] == other;
    }
  }

  lemma BuiltIsWhole(cache: Cache, before: seq<Node>, dagBytes: nat)
    requires dagBytes == 64 * |before| < UNSIGNED
    ensures forall k :: 0 <= k < |before| ==> Built(cache, before, dagBytes % UNSIGNED)[k] == DagItem(cache, Counter(k))
  {
    hide DagItem, Counter;
  }

  function Different(n: Node): (m: Node)
    ensures m != n
  {
    var m: Node := n[0 := if n[0] == 0 then 1 else 0];
    assert m[0] != n[0];
    m
  }

  /** With a size that fits, a search on the DAG that the device built answers what the light client
      answers. */
  method BuildAndHash(
    light: Cache, dag: array<Node>, dagBytes: nat, globalWorkSize: nat, orders: seq<seq<nat>>, isolate: bv32,
    header: seq<bv8>, nonce: bv64)
    returns (onDevice: Option<Answer>, onHost: Option<Answer>)
    requires isolate != 0 && 0 < globalWorkSize && dagBytes == 64 * dag.Length
    requires 128 <= dagBytes < UNSIGNED && dagBytes % 128 == 0
    requires |orders| == FullRuns(dag.Length, globalWorkSize)
    requires forall i :: 0 <= i < |orders| ==> AllItems(orders[i], globalWorkSize)
    requires |header| == 32
    modifies dag
    ensures onDevice.Some? && onDevice == onHost
  {
    hide DagItem, Counter, HashOf, DataSet, FullRuns, AllItems, Built;
    WholePages(dag.Length, dagBytes);
    BuiltIsWhole(light, dag[..], dagBytes);
    BuildDag(light, dag, dagBytes, globalWorkSize, orders, isolate);
    onHost, onDevice := LightAndFull(light, dag[..], dagBytes, header, nonce);
  }

  lemma WholePages(nodes: nat, dagBytes: nat)
    requires dagBytes == 64 * nodes && dagBytes < UNSIGNED && dagBytes % 128 == 0
    ensures nodes <= UNSIGNED && nodes == 2 * (dagBytes / 128) && dagBytes / 128 <= 0x8000_0000
    ensures dagBytes % 32 == 0
  {
    var pages := dagBytes / 128;
    assert dagBytes == 128 * pages;
    DivModUnique(dagBytes, 32, 4 * pages, 0);
  }
}
