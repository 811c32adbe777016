/** How the work items of a group fill the cached portion of the DAG (the first loop of
    ethash_search, libethash-cl/CLMiner_kernel.cl). */
module ProgPowCacheLoad {
  import opened CommonData
  import opened ProgPow

  /** The words of the first entries, in order: what c_dag is meant to hold. */
  function CachedWord(gDag: seq<Words>, w: nat): bv32
    requires w < DAG_LOADS * |gDag|
  {
    gDag[w / DAG_LOADS][w % DAG_LOADS]
  }

  /** The work item that loads an entry. */
  function Loader(entry: nat, groupSize: nat): (lid: nat)
    requires groupSize > 0
    ensures lid < groupSize
  {
    entry % groupSize
  }

  /** From one entry of a work item to its next, groupSize further on, there is no other. */
  lemma LoaderIsPeriodic(entry: nat, step: nat, groupSize: nat)
    requires groupSize > 0 && step <= groupSize
    ensures Loader(entry + step, groupSize) == Loader(entry, groupSize) <==> step == 0 || step == groupSize
  {
    var q, r := entry / groupSize, entry % groupSize;
    assert entry == groupSize * q + r;
    if r + step < groupSize {
      DivModUnique(entry + step, groupSize, q, r + step);
    } else {
      assert groupSize * (q + 1) == groupSize * q + groupSize;
      DivModUnique(entry + step, groupSize, q + 1, r + step - groupSize);
    }
  }

  lemma LoaderOfSmall(entry: nat, groupSize: nat)
    requires entry < groupSize
    ensures Loader(entry, groupSize) == entry
  {
    DivModUnique(entry, groupSize, 0, entry);
  }

  /** The loop of one work item. It writes the words of its own entries and no others; word does not
      wrap for any group that fits the counters. */
  method LoadShare(lid: nat, groupSize: nat, gDag: seq<Words>, cDag: array<bv32>)
    requires lid < groupSize && cDag.Length == CACHE_WORDS <= DAG_LOADS * |gDag|
    modifies cDag
    ensures forall w :: 0 <= w < CACHE_WORDS ==>
      cDag[w] == if Loader(w / DAG_LOADS, groupSize) == lid then CachedWord(gDag, w) else old(cDag[w])
  {
    hide Loader;
    var word := lid * DAG_LOADS;
    ghost var entry := lid;
    LoaderOfSmall(lid, groupSize);
    forall e: nat | e < lid ensures Loader(e, groupSize) != lid {
      LoaderOfSmall(e, groupSize);
    }
    while word < CACHE_WORDS
      invariant word == entry * DAG_LOADS && Loader(entry, groupSize) == lid
      invariant forall w :: 0 <= w < CACHE_WORDS ==>
        cDag[w] == if w < word && Loader(w / DAG_LOADS, groupSize) == lid then CachedWord(gDag, w) else old(cDag[w])
      decreases CACHE_WORDS - word
    {
      var load := gDag[word / DAG_LOADS];
      ghost var before := cDag[..];
      for i := 0 to DAG_LOADS
        invariant forall w :: 0 <= w < CACHE_WORDS ==>
          cDag[w] == if word <= w < word + i then CachedWord(gDag, w) else before[w]
      {
        assert (word + i) / DAG_LOADS == entry && (word + i) % DAG_LOADS == i;
        cDag[word + i] := load[i];
      }
      NextEntry(entry, groupSize);
      word := word + groupSize * DAG_LOADS;
      entry := entry + groupSize;
    }
  }

  lemma NextEntry(entry: nat, groupSize: nat)
    requires groupSize > 0
    ensures Loader(entry + groupSize, groupSize) == Loader(entry, groupSize)
    ensures forall e :: entry < e < entry + groupSize ==> Loader(e, groupSize) != Loader(entry, groupSize)
  {
    LoaderIsPeriodic(entry, groupSize, groupSize);
    forall e | entry < e < entry + groupSize ensures Loader(e, groupSize) != Loader(entry, groupSize) {
      LoaderIsPeriodic(entry, e - entry, groupSize);
    }
  }

  /** Each word has one writer, so the work items can be taken one after another, in any order: the
      cache ends up holding the first words of the DAG. */
  method LoadCache(order: seq<nat>, groupSize: nat, gDag: seq<Words>, cDag: array<bv32>)
    requires groupSize > 0 && cDag.Length == CACHE_WORDS <= DAG_LOADS * |gDag|
    requires forall lid: nat :: lid in order <==> lid < groupSize
    modifies cDag
    ensures forall w :: 0 <= w < CACHE_WORDS ==> cDag[w] == CachedWord(gDag, w)
  {
    hide Loader;
    for i := 0 to |order|
      invariant forall w :: 0 <= w < CACHE_WORDS && Loader(w / DAG_LOADS, groupSize) in order[..i] ==>
        cDag[w] == CachedWord(gDag, w)
    {
      assert order[i] in order;
      LoadShare(order[i], groupSize, gDag, cDag);
      assert order[..i + 1] == order[..i] + [order[i]];
    }
    assert order[..|order|] == order;
  }
}
