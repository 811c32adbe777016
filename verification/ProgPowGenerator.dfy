/** getKern as it runs (libprogpow/ProgPow.cpp): it updates the random state, shuffles two arrays in
    place, and appends statements. It is proved equal to Kernel, about which the rest is proved. */
module ProgPowGenerator {
  import opened Halves
  import opened Kiss99
  import opened ProgPow
  import opened ProgPowGroup
  import opened ProgPowKernel
  import opened ProgPowWords
  import opened Shuffle

  /** kiss99_t. */
  class Kiss {
    var z: word
    var w: word
    var jsr: bv32
    var jcong: word

    function State(): Kiss99.State
      reads this
    {
      Kiss99.State(z, w, jsr, jcong)
    }

    constructor (z: word, w: word, jsr: bv32, jcong: word)
      ensures State() == Kiss99.State(z, w, jsr, jcong)
    {
      this.z, this.w, this.jsr, this.jcong := z, w, jsr, jcong;
    }

    /** kiss99. */
    method Rnd() returns (r: word)
      modifies this
      ensures State() == Next(old(State())) && r == Output(State())
    {
      hide Combine, ShiftA, ShiftB, ShiftC, Jcong;
      StepZ();
      StepW();
      hide Mwc;
      var mwc: word := (z * 65536 + w) % WORD;
      jsr := ShiftA(jsr);
      jsr := ShiftB(jsr);
      jsr := ShiftC(jsr);
      StepJcong();
      r := Combine(mwc, jcong, jsr);
    }

    method StepZ()
      modifies this`z
      ensures z == Mwc(Z_FACTOR, old(z))
    {
      z := (36969 * (z % 65536) + z / 65536) % WORD;
    }

    method StepW()
      modifies this`w
      ensures w == Mwc(W_FACTOR, old(w))
    {
      w := (18000 * (w % 65536) + w / 65536) % WORD;
    }

    method StepJcong()
      modifies this`jcong
      ensures jcong == Jcong(old(jcong))
    {
      jcong := (69069 * jcong + 1234567) % WORD;
    }
  }

  /** fnv1a updates the hash and returns it: four times, each on the last result. */
  method Seed(seed0: bv32, seed1: bv32) returns (rnd: Kiss)
    ensures fresh(rnd) && rnd.State() == Seeded(seed0, seed1)
  {
    hide Fnv1a, Number;
    var hash: bv32 := 0x811c9dc5;
    hash := Fnv1a(hash, seed0);
    var z := Number(hash);
    hash := Fnv1a(hash, seed1);
    var w := Number(hash);
    hash := Fnv1a(hash, seed0);
    var jsr := hash;
    hash := Fnv1a(hash, seed1);
    var jcong := Number(hash);
    rnd := new Kiss(z, w, jsr, jcong);
  }

  /** What the variables of getKern stand for. */
  ghost predicate Holds(d: Source, rnd: Kiss, dst: array<nat>, cache: array<nat>, dstCnt: nat, cacheCnt: nat)
    reads rnd, dst, cache
  {
    && d.gen == rnd.State() && d.dst == dst[..] && d.cache == cache[..]
    && d.dstCnt == dstCnt && d.cacheCnt == cacheCnt
  }

  /** Both arrays, from the last position down. */
  method ShuffleArrays(rnd: Kiss, dst: array<nat>, cache: array<nat>, ghost start: Source) returns (ghost d: Source)
    requires Holds(start, rnd, dst, cache, 0, 0) && dst != cache
    modifies rnd, dst, cache
    ensures d == ShuffleBoth(REGS - 1, start)
    ensures Holds(d, rnd, dst, cache, 0, 0)
  {
    hide Next, Output, Swapped, ShuffleBoth, SwapPair, PairOfChoices, Kiss.State, Choice;
    d := start;
    var i: nat := REGS - 1;
    while i > 0
      invariant i < REGS
      invariant Holds(d, rnd, dst, cache, 0, 0)
      invariant ShuffleBoth(i, d) == ShuffleBoth(REGS - 1, start)
    {
      var j := rnd.Rnd();
      Swap(dst, i, Choice(j, i));
      var k := rnd.Rnd();
      Swap(cache, i, Choice(k, i));
      NextSwaps(i, d);
      d := SwapPair(i, d);
      i := i - 1;
    }
    NothingToShuffle(i, d);
  }

  lemma NothingToShuffle(i: nat, d: Source)
    requires i == 0
    ensures ShuffleBoth(i, d) == d
  {
  }

  lemma NextSwaps(i: nat, d: Source)
    requires 0 < i < REGS
    ensures ShuffleBoth(i, d) == ShuffleBoth(i - 1, SwapPair(i, d))
    ensures PairOfChoices(i, d) == (Choice(Output(Next(d.gen)), i), Choice(Output(Next(Next(d.gen))), i))
  {
    hide SwapPair, Next, Output, Choice;
  }

  /** One cached access. */
  method EmitCache(rnd: Kiss, dst: array<nat>, cache: array<nat>, dstCnt: nat, cacheCnt: nat, ghost d: Source)
    returns (code: seq<Stmt>)
    requires Holds(d, rnd, dst, cache, dstCnt, cacheCnt)
    modifies rnd
    ensures code == CacheCode(DrawCache(d).0)
    ensures Holds(DrawCache(d).1, rnd, dst, cache, dstCnt + 1, cacheCnt + 1)
  {
    hide Next, Output, Merge;
    var src := cache[cacheCnt % REGS];
    var dest := dst[dstCnt % REGS];
    var r := rnd.Rnd();
    code := [LoadCache(src)];
    code := code + [Merge(dest, Data, r)];
  }

  /** One math operation. */
  method EmitMath(rnd: Kiss, dst: array<nat>, cache: array<nat>, dstCnt: nat, cacheCnt: nat, ghost d: Source)
    returns (code: seq<Stmt>)
    requires Holds(d, rnd, dst, cache, dstCnt, cacheCnt)
    modifies rnd
    ensures code == MathCode(DrawMath(d).0)
    ensures Holds(DrawMath(d).1, rnd, dst, cache, dstCnt + 1, cacheCnt)
  {
    hide Next, Output, Merge, MathExpr;
    var x := rnd.Rnd();
    var srcRnd := x % ((REGS - 1) * REGS);
    var src1 := srcRnd % REGS;
    var src2 := srcRnd / REGS;
    if src2 >= src1 {
      src2 := src2 + 1;
    }
    var r1 := rnd.Rnd();
    var dest := dst[dstCnt % REGS];
    var r2 := rnd.Rnd();
    code := [SetData(MathExpr(Mix(src1), Mix(src2), r1))];
    code := code + [Merge(dest, Data, r2)];
  }

  /** The main loop. */
  method EmitSteps(rnd: Kiss, dst: array<nat>, cache: array<nat>, ghost start: Source)
    returns (ret: seq<Stmt>, dstCnt: nat, cacheCnt: nat)
    requires Holds(start, rnd, dst, cache, 0, 0)
    modifies rnd
    ensures ret == Steps(0, start).0 && Holds(Steps(0, start).1, rnd, dst, cache, dstCnt, cacheCnt)
  {
    hide CacheCode, MathCode, DrawCache, DrawMath, Steps, CodeFits, Kiss.State, WithRest;
    ret, dstCnt, cacheCnt := [], 0, 0;
    NothingBefore(0, start);
    var i := 0;
    ghost var d := start;
    while i < CNT_CACHE || i < CNT_MATH
      invariant Holds(d, rnd, dst, cache, dstCnt, cacheCnt)
      invariant WithRest(ret, i, d) == Steps(0, start)
      decreases CNT_MATH - i
    {
      OnePass(ret, i, d);
      if i < CNT_CACHE {
        var code := EmitCache(rnd, dst, cache, dstCnt, cacheCnt, d);
        ret := ret + code;
        d, dstCnt, cacheCnt := DrawCache(d).1, dstCnt + 1, cacheCnt + 1;
      }
      if i < CNT_MATH {
        var code := EmitMath(rnd, dst, cache, dstCnt, cacheCnt, d);
        ret := ret + code;
        d, dstCnt := DrawMath(d).1, dstCnt + 1;
      }
      i := i + 1;
    }
    NothingAfter(ret, i, d);
  }

  /** What has been emitted, followed by the steps from i on. */
  ghost function WithRest(ret: seq<Stmt>, i: nat, d: Source): (seq<Stmt>, Source) {
    (ret + Steps(i, d).0, Steps(i, d).1)
  }

  lemma NothingBefore(i: nat, d: Source)
    ensures WithRest([], i, d) == Steps(i, d)
  {
    hide Steps;
    assert [] + Steps(i, d).0 == Steps(i, d).0;
  }

  lemma NothingAfter(ret: seq<Stmt>, i: nat, d: Source)
    requires i >= CNT_CACHE && i >= CNT_MATH
    ensures WithRest(ret, i, d) == (ret, d)
  {
    assert ret + [] == ret;
  }

  /** Emitting the code of one pass leaves the steps from i + 1 on. */
  lemma OnePass(ret: seq<Stmt>, i: nat, d: Source)
    requires i < CNT_CACHE || i < CNT_MATH
    ensures var ret1, d1 := if i < CNT_CACHE then ret + CacheCode(DrawCache(d).0) else ret,
                            if i < CNT_CACHE then DrawCache(d).1 else d;
            var ret2, d2 := if i < CNT_MATH then ret1 + MathCode(DrawMath(d1).0) else ret1,
                            if i < CNT_MATH then DrawMath(d1).1 else d1;
            WithRest(ret, i, d) == WithRest(ret2, i + 1, d2)
  {
    hide CacheCode, MathCode, DrawCache, DrawMath, CodeFits;
    var (c, d1) := CacheStep(i, d);
    var (m, d2) := MathStep(i, d1);
    var rest := Steps(i + 1, d2).0;
    assert ret + (c + m + rest) == (ret + c) + m + rest;
    assert ret + [] == ret && (ret + c) + [] == ret + c;
  }

  /** Consuming the global load. */
  method EmitConsume(rnd: Kiss, dst: array<nat>, cache: array<nat>, dstCnt: nat, cacheCnt: nat, ghost start: Source)
    returns (ret: seq<Stmt>)
    requires Holds(start, rnd, dst, cache, dstCnt, cacheCnt)
    modifies rnd
    ensures ret == Consume(0, start).0
  {
    hide Next, Output, Merge, CodeFits, Kiss.State;
    var r := rnd.Rnd();
    ret := [Merge(0, Loaded(0), r)];
    var cnt: nat := dstCnt;
    ghost var d := ProgPowKernel.Rnd(start).1;
    for i := 1 to DAG_LOADS
      invariant Holds(d, rnd, dst, cache, cnt, cacheCnt)
      invariant Consume(0, start).0 == ret + Consume(i, d).0
    {
      var dest := dst[cnt % REGS];
      cnt := cnt + 1;
      r := rnd.Rnd();
      ConsumeOne(ret, i, d);
      ret := ret + [Merge(dest, Loaded(i), r)];
      d := ProgPowKernel.Rnd(MixDst(d).1).1;
    }
    assert ret + [] == ret;
  }

  lemma ConsumeOne(ret: seq<Stmt>, i: nat, d: Source)
    requires 1 <= i < DAG_LOADS
    ensures var (dst, d1) := MixDst(d);
            var (x, d2) := ProgPowKernel.Rnd(d1);
            ret + Consume(i, d).0 == ret + [Merge(dst, Loaded(i), x)] + Consume(i + 1, d2).0
  {
    hide Next, Output, Merge, CodeFits;
  }

  /** Statements written for every lane to carry out. */
  method EmitLocals(code: seq<Stmt>) returns (ret: seq<GroupStmt>)
    requires CodeFits(code)
    ensures ret == Locals(code)
  {
    ret := [];
    for i := 0 to |code|
      invariant ret == Locals(code)[..i]
    {
      ret := ret + [Local(code[i])];
    }
  }

  /** The global load, whose first part depends on the prelude. */
  method EmitGlobalLoad(p: Prelude) returns (ret: seq<GroupStmt>)
    ensures ret == Exchange(p) + LoadCode()
  {
    ret := [];
    if p == Cuda {
      ret := ret + [Shuffle];
    } else {
      ret := ret + [Share];
      ret := ret + [Barrier];
      ret := ret + [LoadShare];
    }
    assert ret == Exchange(p);
    ret := ret + [SetOffset(Modulo(Offset, DagElements))];
    ret := ret + [SetOffset(Sum(Product(Offset, Literally(LANES)),
                                Modulo(Exclusive(LaneId, LoopNumber), Literally(LANES))))];
    ret := ret + [LoadDag];
    ret := ret + [Fence];
  }

  /** getKern emits exactly Kernel. */
  method GetKern(blockNumber: bv64, p: Prelude) returns (ret: seq<GroupStmt>)
    ensures ret == Kernel(p, blockNumber)
  {
    hide Steps, Consume, ShuffleBoth, Low, High, Seeded, Kiss.State, CodeFits, Locals, LoadCode, Exchange,
         GroupCodeFits, Identity;
    var progSeed := blockNumber / PERIOD;
    var rnd := Seed(Low(progSeed), High(progSeed));
    var dst, cache := Ascending();
    ghost var d := Draws(rnd.State(), Identity(REGS), Identity(REGS), 0, 0);
    d := ShuffleArrays(rnd, dst, cache, d);
    ret := EmitGlobalLoad(p);
    var body, dstCnt, cacheCnt := EmitSteps(rnd, dst, cache, d);
    var tail := EmitConsume(rnd, dst, cache, dstCnt, cacheCnt, Steps(0, d).1);
    var locals := EmitLocals(body);
    ret := ret + locals + [Fence];
    locals := EmitLocals(tail);
    ret := ret + locals;
    RestOf(p, d);
  }

  lemma RestOf(p: Prelude, d: Source)
    ensures var (body, d') := Steps(0, d);
            Exchange(p) + LoadCode() + Locals(body) + [Fence] + Locals(Consume(0, d').0) == Exchange(p) + Rest(d)
  {
    hide Steps, Consume, Locals, LoadCode, Exchange, GroupCodeFits, CodeFits;
  }

  /** The two arrays before they are shuffled. */
  method Ascending() returns (dst: array<nat>, cache: array<nat>)
    ensures fresh(dst) && fresh(cache) && dst != cache
    ensures dst[..] == Identity(REGS) && cache[..] == Identity(REGS)
  {
    dst, cache := new nat[REGS](_ => 0), new nat[REGS](_ => 0);
    for i := 0 to REGS
      invariant forall k :: 0 <= k < i ==> dst[k] == k && cache[k] == k
    {
      dst[i], cache[i] := i, i;
    }
  }
}
