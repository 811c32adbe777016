/** Epoch numbers and seed hashes: ethash_get_seedhash (libethash/internal.c) and the memoised
    inverse search EthashAux::toEpoch (libethcore/EthashAux.cpp). */
module EthashAux {
  import opened Wrappers
  import opened EthashHash
  import opened Sponge

  const EPOCH_LENGTH: nat := 8000
  const MAX_EPOCH: nat := 2048

  /** The seed hash of an epoch: the zero hash, hashed once per epoch. */
  function SeedChain(epoch: nat): (h: seq<bv8>)
    ensures |h| == 32
  {
    hide Keccak256;
    if epoch == 0 then ZeroBytes(32) else Keccak256(SeedChain(epoch - 1))
  }

  /** SHA3_256 of a hash, in place. */
  method HashInPlace(h: array<bv8>)
    requires h.Length == 32
    modifies h
    ensures h[..] == Keccak256(old(h[..]))
  {
    hide SpongeOf;
    ghost var before := h[..];
    assert h[..32] == before;
    var code := Sha3(256, h, 32, h, 32);
    assert h[..] == Keccak256(before) + [] == Keccak256(before);
  }

  /** ethash_get_seedhash. The counter has 32 bits, so the loop ends only for epochs below 2^32. */
  method GetSeedHash(blockNumber: nat) returns (ret: array<bv8>)
    requires blockNumber / EPOCH_LENGTH < 0x1_0000_0000
    ensures fresh(ret) && ret.Length == 32
    ensures ret[..] == SeedChain(blockNumber / 8000)
  {
    hide Keccak256;
    var zeros := ZeroBytes(32);
    ret := new bv8[32](i requires 0 <= i < 32 => zeros[i]);
    assert ret[..] == zeros;
    var epochs := blockNumber / EPOCH_LENGTH;
    for i := 0 to epochs
      invariant fresh(ret) && ret.Length == 32
      invariant ret[..] == SeedChain(i)
    {
      HashInPlace(ret);
    }
  }

  /** The first epoch from the given one on whose seed hash is seed. */
  function FirstEpoch(seed: seq<bv8>, from: nat): Option<nat>
    decreases MAX_EPOCH - from, seed
  {
    if from >= MAX_EPOCH then None
    else if SeedChain(from) == seed then Some(from)
    else FirstEpoch(seed, from + 1)
  }

  lemma {:induction false} FirstEpochIsLeast(seed: seq<bv8>, from: nat)
    ensures FirstEpoch(seed, from).Some? ==>
              var e := FirstEpoch(seed, from).value;
              from <= e < 2048 && SeedChain(e) == seed && forall k :: from <= k < e ==> SeedChain(k) != seed
    ensures FirstEpoch(seed, from).None? ==> forall k :: from <= k < 2048 ==> SeedChain(k) != seed
    decreases MAX_EPOCH - from
  {
    hide SeedChain;
    if from < MAX_EPOCH && SeedChain(from) != seed {
      FirstEpochIsLeast(seed, from + 1);
    }
  }

  predicate ChainDistinct() {
    forall i, j :: 0 <= i < j < MAX_EPOCH ==> SeedChain(i) != SeedChain(j)
  }

  class Memo {
    var cachedEpoch: nat
    var cachedSeed: seq<bv8>

    /** The memo holds an answer of the plain search. */
    ghost predicate Valid()
      reads this
    {
      FirstEpoch(cachedSeed, 0) == Some(cachedEpoch)
    }

    constructor ()
      ensures Valid()
    {
      cachedEpoch, cachedSeed := 0, ZeroBytes(32);
    }

    /** toEpoch: for every history of earlier calls the answer is that of the plain search, and a
        call that throws leaves the memo as it was. */
    method ToEpoch(seed: seq<bv8>) returns (r: Option<nat>)
      requires Valid()
      modifies this
      ensures Valid() && r == FirstEpoch(seed, 0)
      ensures r.None? ==> cachedEpoch == old(cachedEpoch) && cachedSeed == old(cachedSeed)
    {
      hide Keccak256;
      if seed != cachedSeed {
        var epoch, h := 0, ZeroBytes(32);
        while h != seed && epoch < MAX_EPOCH
          invariant epoch <= MAX_EPOCH && h == SeedChain(epoch)
          invariant FirstEpoch(seed, epoch) == FirstEpoch(seed, 0)
          invariant cachedEpoch == old(cachedEpoch) && cachedSeed == old(cachedSeed)
          decreases MAX_EPOCH - epoch
        {
          epoch, h := epoch + 1, Keccak256(h);
        }
        if epoch == MAX_EPOCH {
          return None;
        }
        cachedSeed, cachedEpoch := seed, epoch;
      }
      return Some(cachedEpoch);
    }
  }

  /** toEpoch undoes ethash_get_seedhash on all epochs below 2048 exactly when their seeds are distinct. */
  lemma InverseIffDistinct()
    ensures (forall e: nat :: e < MAX_EPOCH ==> FirstEpoch(SeedChain(e), 0) == Some(e)) <==> ChainDistinct()
  {
    hide SeedChain, FirstEpoch;
    if forall e: nat :: e < MAX_EPOCH ==> FirstEpoch(SeedChain(e), 0) == Some(e) {
      forall i: nat, j: nat | i < j < MAX_EPOCH ensures SeedChain(i) != SeedChain(j) {
        assert FirstEpoch(SeedChain(i), 0) == Some(i) && FirstEpoch(SeedChain(j), 0) == Some(j);
      }
    }
    if ChainDistinct() {
      forall e: nat | e < MAX_EPOCH ensures FirstEpoch(SeedChain(e), 0) == Some(e) {
        FirstEpochIsLeast(SeedChain(e), 0);
      }
    }
  }
}
