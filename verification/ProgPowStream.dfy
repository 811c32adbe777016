/** Which random number of the generator decides what (getKern of libprogpow/ProgPow.cpp).

    Number n of a block is the result of the n-th call of kiss99 on the state seeded for its period.
    The program is given here by position, without a state that is passed along: numbers 1 to 62
    shuffle, 63 to 133 make the steps, and 134 to 137 consume the load. */
module ProgPowStream {
  import opened Halves
  import opened Kiss99
  import opened ProgPow
  import opened ProgPowCoverage
  import opened ProgPowGroup
  import opened ProgPowKernel
  import opened ProgPowWords
  import opened Shuffle

  /** The result of call n, from 1 on. */
  function Result(seed: Kiss99.State, n: nat): word {
    hide Output, Iterate;
    Output(Iterate(seed, n))
  }

  lemma ResultOfNext(seed: Kiss99.State, n: nat, d: Source)
    requires d.gen == Iterate(seed, n)
    ensures Rnd(d).0 == Result(seed, n + 1) && Rnd(d).1 == d.(gen := Iterate(seed, n + 1))
  {
    hide Output, Next;
  }

  // ----- the shuffles

  /** The choices for positions i, i - 1 and so on of the destinations, if n numbers are used up. */
  function DstChoices(seed: Kiss99.State, n: nat, i: nat): (js: seq<nat>)
    ensures AreChoices(js, i)
  {
    hide Result;
    seq(i, k requires 0 <= k < i => Result(seed, n + 2 * k + 1) % (i - k + 1))
  }

  /** Those of the cache sources lie between them. */
  function CacheChoices(seed: Kiss99.State, n: nat, i: nat): (js: seq<nat>)
    ensures AreChoices(js, i)
  {
    hide Result;
    seq(i, k requires 0 <= k < i => Result(seed, n + 2 * k + 2) % (i - k + 1))
  }

  lemma ChoicesOfNext(seed: Kiss99.State, n: nat, i: nat, d: Source)
    requires 0 < i < REGS && d.gen == Iterate(seed, n)
    ensures PairOfChoices(i, d) == (Result(seed, n + 1) % (i + 1), Result(seed, n + 2) % (i + 1))
    ensures SwapPair(i, d).gen == Iterate(seed, n + 2)
  {
    hide Output, Next, Result, Rnd, Iterate;
    ResultOfNext(seed, n, d);
    ResultOfNext(seed, n + 1, Rnd(d).1);
    TwoNext(seed, n);
  }

  lemma TwoNext(seed: Kiss99.State, n: nat)
    ensures Iterate(seed, n + 2) == Next(Next(Iterate(seed, n)))
  {
    hide Next;
    assert Iterate(seed, n + 2) == Next(Iterate(seed, n + 1));
    assert Iterate(seed, n + 1) == Next(Iterate(seed, n));
  }

  lemma FirstChoices(seed: Kiss99.State, n: nat, i: nat)
    requires i > 0
    ensures DstChoices(seed, n, i) == [Result(seed, n + 1) % (i + 1)] + DstChoices(seed, n + 2, i - 1)
    ensures CacheChoices(seed, n, i) == [Result(seed, n + 2) % (i + 1)] + CacheChoices(seed, n + 2, i - 1)
  {
    hide Result;
  }

  lemma {:induction false} ChoicesByNumber(seed: Kiss99.State, n: nat, i: nat, d: Source)
    requires i < REGS && d.gen == Iterate(seed, n)
    ensures Choices(i, d) == (DstChoices(seed, n, i), CacheChoices(seed, n, i))
    decreases i
  {
    hide SwapPair, PairOfChoices, Result, Iterate, DstChoices, CacheChoices, AreChoices, Sequences;
    if i > 0 {
      ChoicesOfNext(seed, n, i, d);
      ChoicesByNumber(seed, n + 2, i - 1, SwapPair(i, d));
      FirstChoices(seed, n, i);
    } else {
      NoChoices(seed, n, i);
    }
  }

  lemma {:induction false} ShuffleUses(seed: Kiss99.State, n: nat, i: nat, d: Source)
    requires i < REGS && d.gen == Iterate(seed, n)
    ensures ShuffleBoth(i, d).gen == Iterate(seed, n + 2 * i)
    decreases i
  {
    hide SwapPair, PairOfChoices, Result, Iterate, Sequences;
    if i > 0 {
      ChoicesOfNext(seed, n, i, d);
      ShuffleUses(seed, n + 2, i - 1, SwapPair(i, d));
    }
  }

  lemma NoChoices(seed: Kiss99.State, n: nat, i: nat)
    requires i == 0
    ensures DstChoices(seed, n, i) == [] && CacheChoices(seed, n, i) == []
  {
  }

  /** The state seeded for a period. */
  function SeedOf(period: bv64): Kiss99.State {
    hide Low, High, Seeded;
    Seeded(Low(period), High(period))
  }

  /** The destinations in the order of use, and the cache sources. */
  function Destinations(seed: Kiss99.State): (dst: seq<nat>)
    ensures |dst| == 32
  {
    hide DstChoices, Shuffled, Identity;
    Shuffled(Identity(32), 31, DstChoices(seed, 0, 31))
  }

  function CacheOrder(seed: Kiss99.State): (cache: seq<nat>)
    ensures |cache| == 32
  {
    hide CacheChoices, Shuffled, Identity;
    Shuffled(Identity(32), 31, CacheChoices(seed, 0, 31))
  }

  lemma PreparedByNumber(blockNumber: bv64)
    ensures var d, seed := Prepared(blockNumber), SeedOf(blockNumber / PERIOD);
            && d.dst == Destinations(seed) && d.cache == CacheOrder(seed)
            && d.gen == Iterate(seed, 62) && d.dstCnt == d.cacheCnt == 0
  {
    hide Low, High, Seeded, ShuffleBoth, Identity, Destinations, CacheOrder, Iterate;
    var seed := SeedOf(blockNumber / PERIOD);
    ShuffledByNumber(seed, REGS - 1, Draws(seed, Identity(REGS), Identity(REGS), 0, 0));
  }

  lemma ShuffledByNumber(seed: Kiss99.State, i: nat, d: Source)
    requires i == 31 && d == Draws(seed, Identity(32), Identity(32), 0, 0)
    ensures var r := ShuffleBoth(i, d);
            && r.dst == Destinations(seed) && r.cache == CacheOrder(seed) && r.gen == Iterate(seed, 62)
            && r.dstCnt == r.cacheCnt == 0
  {
    hide ShuffleBoth, Shuffled, Choices, Identity, DstChoices, CacheChoices, Iterate, AreChoices;
    NoneUsed(seed, 0);
    ChoicesByNumber(seed, 0, i, d);
    ShuffleUses(seed, 0, i, d);
    ShuffleBothIsShuffled(i, d);
  }

  lemma NoneUsed(seed: Kiss99.State, n: nat)
    requires n == 0
    ensures Iterate(seed, n) == seed
  {
  }

  // ----- the steps

  ghost predicate AreRegisters(s: seq<nat>) {
    |s| == 32 && forall k :: 0 <= k < 32 ==> s[k] < 32
  }

  /** A cached access uses one number, a math operation three. */
  function CacheForm(seed: Kiss99.State, dst: seq<nat>, cache: seq<nat>, i: nat): (code: seq<Stmt>)
    requires AreRegisters(dst) && AreRegisters(cache) && i < 11
    ensures CodeFits(code)
  {
    hide Result, Merge;
    [LoadCache(cache[i]),
     Merge(dst[2 * i], Data, Result(seed, 63 + 4 * i))]
  }

  function MathForm(seed: Kiss99.State, n: nat, dst: nat): (code: seq<Stmt>)
    requires dst < 32
    ensures CodeFits(code)
  {
    hide Result, Merge, MathExpr, Sources;
    var (src1, src2) := Sources(Result(seed, n) % 992);
    [SetData(MathExpr(Mix(src1), Mix(src2), Result(seed, n + 1))),
     Merge(dst, Data, Result(seed, n + 2))]
  }

  /** Step i: the first eleven have a cached access in front of the math operation. */
  ghost function StepForm(seed: Kiss99.State, dst: seq<nat>, cache: seq<nat>, i: nat): (code: seq<Stmt>)
    requires AreRegisters(dst) && AreRegisters(cache) && i < 20
    ensures CodeFits(code)
  {
    hide CacheForm, MathForm;
    if i < 11 then CacheForm(seed, dst, cache, i) + MathForm(seed, 64 + 4 * i, dst[2 * i + 1])
    else MathForm(seed, 107 + 3 * (i - 11), dst[11 + i])
  }

  ghost function StepsForm(seed: Kiss99.State, dst: seq<nat>, cache: seq<nat>, i: nat): (code: seq<Stmt>)
    requires AreRegisters(dst) && AreRegisters(cache)
    ensures CodeFits(code)
    decreases 20 - i
  {
    hide StepForm;
    if i >= 20 then [] else StepForm(seed, dst, cache, i) + StepsForm(seed, dst, cache, i + 1)
  }

  /** What has been used when step i begins. */
  ghost predicate UsedUp(seed: Kiss99.State, i: nat, d: Source) {
    && i <= 20
    && d.gen == Iterate(seed, if i <= 11 then 62 + 4 * i else 106 + 3 * (i - 11))
    && d.dstCnt == (if i <= 11 then 2 * i else 11 + i)
    && d.cacheCnt == if i <= 11 then i else 11
  }

  lemma RegistersOfSource(d: Source)
    ensures AreRegisters(d.dst) && AreRegisters(d.cache)
  {
  }

  lemma CacheByNumber(seed: Kiss99.State, n: nat, d: Source)
    requires d.gen == Iterate(seed, n)
    ensures DrawCache(d) == (CacheDraw(d.cache[d.cacheCnt % 32], d.dst[d.dstCnt % 32], Result(seed, n + 1)),
                             d.(gen := Iterate(seed, n + 1), dstCnt := d.dstCnt + 1, cacheCnt := d.cacheCnt + 1))
  {
    hide Result, Iterate, Rnd;
    ResultOfNext(seed, n, MixDst(MixCache(d).1).1);
  }

  lemma MathByNumber(seed: Kiss99.State, n: nat, d: Source)
    requires d.gen == Iterate(seed, n)
    ensures var s := Sources(Result(seed, n + 1) % 992);
            DrawMath(d) == (MathDraw(s.0, s.1, Result(seed, n + 2), d.dst[d.dstCnt % 32], Result(seed, n + 3)),
                            d.(gen := Iterate(seed, n + 3), dstCnt := d.dstCnt + 1))
  {
    hide Result, Iterate, Rnd, Sources;
    var d1 := Rnd(d).1;
    var d2 := Rnd(d1).1;
    ResultOfNext(seed, n, d);
    ResultOfNext(seed, n + 1, d1);
    ResultOfNext(seed, n + 2, MixDst(d2).1);
  }

  ghost predicate IsStep(seed: Kiss99.State, i: nat, d: Source)
    requires i < 20
  {
    hide CacheStep, MathStep, StepForm, UsedUp, AreRegisters;
    var (c, d1) := CacheStep(i, d);
    var (m, d2) := MathStep(i, d1);
    && AreRegisters(d.dst) && AreRegisters(d.cache)
    && c + m == StepForm(seed, d.dst, d.cache, i) && UsedUp(seed, i + 1, d2)
    && d2.dst == d.dst && d2.cache == d.cache
  }

  lemma CacheStepByNumber(seed: Kiss99.State, i: nat, d: Source)
    requires i < 11 && UsedUp(seed, i, d)
    ensures AreRegisters(d.dst) && AreRegisters(d.cache)
    ensures CacheStep(i, d) == (CacheForm(seed, d.dst, d.cache, i),
                                d.(gen := Iterate(seed, 63 + 4 * i), dstCnt := 2 * i + 1, cacheCnt := i + 1))
  {
    hide Result, Iterate, DrawCache, Merge, CodeFits, Sequences, AreRegisters;
    RegistersOfSource(d);
    CacheByNumber(seed, 62 + 4 * i, d);
  }

  lemma MathStepByNumber(seed: Kiss99.State, n: nat, i: nat, d: Source)
    requires i < 20 && d.gen == Iterate(seed, n)
    ensures MathStep(i, d) == (MathForm(seed, n + 1, d.dst[d.dstCnt % 32]),
                               d.(gen := Iterate(seed, n + 3), dstCnt := d.dstCnt + 1))
  {
    hide Result, Iterate, DrawMath, Sources, Merge, MathExpr, CodeFits, Sequences;
    MathByNumber(seed, n, d);
  }

  lemma EarlyStep(seed: Kiss99.State, i: nat, d: Source)
    requires i < 11 && UsedUp(seed, i, d)
    ensures IsStep(seed, i, d)
  {
    hide Iterate, CacheStep, MathStep, CacheForm, MathForm, CodeFits, Sequences, AreRegisters;
    CacheStepByNumber(seed, i, d);
    MathStepByNumber(seed, 63 + 4 * i, i, CacheStep(i, d).1);
  }

  lemma LateStep(seed: Kiss99.State, i: nat, d: Source)
    requires 11 <= i < 20 && UsedUp(seed, i, d)
    ensures IsStep(seed, i, d)
  {
    hide Iterate, MathStep, MathForm, CodeFits, Sequences, AreRegisters;
    RegistersOfSource(d);
    MathStepByNumber(seed, 106 + 3 * (i - 11), i, d);
    var m := MathStep(i, d).0;
    assert [] + m == m;
  }

  lemma {:induction false} StepsByNumber(seed: Kiss99.State, i: nat, d: Source)
    requires UsedUp(seed, i, d)
    ensures AreRegisters(d.dst) && AreRegisters(d.cache)
    ensures var (code, d') := Steps(i, d);
            code == StepsForm(seed, d.dst, d.cache, i) && UsedUp(seed, 20, d') && d'.dst == d.dst
    decreases 20 - i
  {
    hide CacheStep, MathStep, StepForm, Iterate, CodeFits, AreRegisters;
    RegistersOfSource(d);
    if i < 20 {
      if i < 11 {
        EarlyStep(seed, i, d);
      } else {
        LateStep(seed, i, d);
      }
      var d1 := CacheStep(i, d).1;
      StepsByNumber(seed, i + 1, MathStep(i, d1).1);
    }
  }

  // ----- the load

  /** The four words of the load, the first of them always into register 0. */
  ghost function LoadForm(seed: Kiss99.State, dst: seq<nat>): (code: seq<Stmt>)
    requires AreRegisters(dst)
    ensures CodeFits(code)
  {
    hide Result, Merge;
    [Merge(0, Loaded(0), Result(seed, 134)),
     Merge(dst[31], Loaded(1), Result(seed, 135)),
     Merge(dst[0], Loaded(2), Result(seed, 136)),
     Merge(dst[1], Loaded(3), Result(seed, 137))]
  }

  lemma ConsumeFirst(zero: nat, d: Source)
    requires zero == 0
    ensures var (x, d1) := Rnd(d);
            Consume(zero, d).0 == [Merge(0, Loaded(0), x)] + Consume(zero + 1, d1).0
  {
    hide Rnd, Merge;
  }

  lemma ConsumeByNumber(seed: Kiss99.State, n: nat, i: nat, d: Source)
    requires d.gen == Iterate(seed, n) && 1 <= i < DAG_LOADS
    ensures var d1 := d.(gen := Iterate(seed, n + 1), dstCnt := d.dstCnt + 1);
            Consume(i, d).0 == [Merge(d.dst[d.dstCnt % 32], Loaded(i), Result(seed, n + 1))] + Consume(i + 1, d1).0
  {
    hide Rnd, Merge, Result, Iterate, Consume;
    ConsumeUnfolds(i, d);
    ResultOfNext(seed, n, MixDst(d).1);
  }

  lemma LoadByNumber(seed: Kiss99.State, zero: nat, d: Source)
    requires zero == 0 && UsedUp(seed, 20, d)
    ensures AreRegisters(d.dst)
    ensures Consume(zero, d).0 == LoadForm(seed, d.dst)
  {
    hide Rnd, Merge, Result, Iterate, Consume, CodeFits;
    RegistersOfSource(d);
    var d1 := d.(gen := Iterate(seed, 134));
    var d2 := d1.(gen := Iterate(seed, 135), dstCnt := 32);
    var d3 := d2.(gen := Iterate(seed, 136), dstCnt := 33);
    var d4 := d3.(gen := Iterate(seed, 137), dstCnt := 34);
    ConsumeFirst(zero, d);
    ResultOfNext(seed, 133, d);
    ConsumeByNumber(seed, 134, 1, d1);
    ConsumeByNumber(seed, 135, 2, d2);
    ConsumeByNumber(seed, 136, 3, d3);
    NothingConsumed(4, d4);
  }

  // ----- the kernel

  /** The parameters of libprogpow/ProgPow.h in terms of which the rest is written. */
  lemma Parameters()
    ensures PERIOD == 10 && LANES == 16 && REGS == 32 && DAG_LOADS == 4
    ensures 4 * CACHE_WORDS == 16 * 1024 && CNT_CACHE == 11 && CNT_MATH == 20
  {
  }

  ghost predicate IsForm(p: Prelude, blockNumber: bv64, seed: Kiss99.State) {
    hide Destinations, CacheOrder, StepsForm, LoadForm, Kernel, Exchange, Locals;
    var dst, cache := Destinations(seed), CacheOrder(seed);
    && AreRegisters(dst) && AreRegisters(cache)
    && Kernel(p, blockNumber) ==
       Exchange(p) + LoadCode() + Locals(StepsForm(seed, dst, cache, 0)) + [Fence] + Locals(LoadForm(seed, dst))
  }

  /** Every emitted kernel by position: which number of the period's generator, which entry of which
      shuffled array stands where. */
  lemma KernelByNumber(p: Prelude, blockNumber: bv64)
    ensures IsForm(p, blockNumber, SeedOf(blockNumber / PERIOD))
  {
    hide SeedOf, Prepared, Iterate, Steps, Consume, Destinations, CacheOrder, StepsForm, LoadForm, Locals, LoadCode,
         Exchange, AreRegisters, CodeFits, GroupCodeFits;
    var d, seed := Prepared(blockNumber), SeedOf(blockNumber / PERIOD);
    PreparedByNumber(blockNumber);
    StepsByNumber(seed, 0, d);
    var (body, d') := Steps(0, d);
    LoadByNumber(seed, 0, d');
    var tail := Consume(0, d').0;
    assert Exchange(p) + (LoadCode() + Locals(body) + [Fence] + Locals(tail)) ==
           Exchange(p) + LoadCode() + Locals(body) + [Fence] + Locals(tail);
  }
}
