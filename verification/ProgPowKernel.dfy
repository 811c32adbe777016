/** What getKern of libprogpow/ProgPow.cpp draws and emits for a block number, as functions: the
    shuffled sequences, the draws of each step, and the statements that each lane carries out. */
module ProgPowKernel {
  import opened Halves
  import opened Kiss99
  import opened ProgPow
  import opened ProgPowWords
  import opened Shuffle

  const PERIOD: bv64 := 10

  // ----- the draws

  /** The state of the generator: the random numbers, the two shuffled arrays and their counters. */
  datatype Draws = Draws(gen: Kiss99.State, dst: seq<nat>, cache: seq<nat>, dstCnt: nat, cacheCnt: nat)

  predicate Sequences(d: Draws) {
    && |d.dst| == REGS && |d.cache| == REGS
    && (forall k :: 0 <= k < REGS ==> d.dst[k] < REGS && d.cache[k] < REGS)
  }

  type Source = d: Draws | Sequences(d) witness Draws(Kiss99.State(0, 0, 0, 0), Identity(REGS), Identity(REGS), 0, 0)

  function Rnd(d: Source): (r: (word, Source))
    ensures r.1 == d.(gen := r.1.gen)
  {
    hide Next, Output;
    var k := Next(d.gen);
    (Output(k), d.(gen := k))
  }

  function MixDst(d: Source): (r: (nat, Source))
    ensures r.0 < REGS && r.0 == d.dst[d.dstCnt % REGS] && r.1 == d.(dstCnt := d.dstCnt + 1)
  {
    (d.dst[d.dstCnt % REGS], d.(dstCnt := d.dstCnt + 1))
  }

  function MixCache(d: Source): (r: (nat, Source))
    ensures r.0 < REGS && r.0 == d.cache[d.cacheCnt % REGS] && r.1 == d.(cacheCnt := d.cacheCnt + 1)
  {
    (d.cache[d.cacheCnt % REGS], d.(cacheCnt := d.cacheCnt + 1))
  }

  /** What one cached access draws, and what one math step draws. */
  datatype CacheDraw = CacheDraw(src: nat, dst: nat, r: word)
  datatype MathDraw = MathDraw(src1: nat, src2: nat, r1: word, dst: nat, r2: word)

  function DrawCache(d: Source): (r: (CacheDraw, Source))
    ensures r.0.src < REGS && r.0.dst < REGS
    ensures r.0.src == d.cache[d.cacheCnt % REGS] && r.0.dst == d.dst[d.dstCnt % REGS]
    ensures r.1 == d.(gen := r.1.gen, dstCnt := d.dstCnt + 1, cacheCnt := d.cacheCnt + 1)
  {
    hide Rnd;
    var (src, d1) := MixCache(d);
    var (dst, d2) := MixDst(d1);
    var (x, d3) := Rnd(d2);
    (CacheDraw(src, dst, x), d3)
  }

  function DrawMath(d: Source): (r: (MathDraw, Source))
    ensures r.0.src1 < REGS && r.0.src2 < REGS && r.0.src1 != r.0.src2
    ensures r.0.dst < REGS && r.0.dst == d.dst[d.dstCnt % REGS]
    ensures r.1 == d.(gen := r.1.gen, dstCnt := d.dstCnt + 1)
  {
    hide Rnd, Sources;
    var (n, d1) := Rnd(d);
    var s := Sources(n % ((REGS - 1) * REGS));
    var (x, d2) := Rnd(d1);
    var (dst, d3) := MixDst(d2);
    var (y, d4) := Rnd(d3);
    (MathDraw(s.0, s.1, x, dst, y), d4)
  }

  // ----- the emitted code

  function CacheCode(c: CacheDraw): (code: seq<Stmt>)
    requires c.src < REGS && c.dst < REGS
    ensures CodeFits(code)
  {
    hide Merge;
    [LoadCache(c.src), Merge(c.dst, Data, c.r)]
  }

  function MathCode(m: MathDraw): (code: seq<Stmt>)
    requires m.src1 < REGS && m.src2 < REGS && m.dst < REGS
    ensures CodeFits(code)
  {
    hide Merge, MathExpr;
    [SetData(MathExpr(Mix(m.src1), Mix(m.src2), m.r1)), Merge(m.dst, Data, m.r2)]
  }

  /** The steps from i on. */
  function Steps(i: nat, d: Source): (r: (seq<Stmt>, Source))
    ensures CodeFits(r.0)
    decreases CNT_MATH - i
  {
    hide DrawCache, DrawMath, CacheCode, MathCode;
    if i >= CNT_CACHE && i >= CNT_MATH then ([], d)
    else
      var (c, d1) := CacheStep(i, d);
      var (m, d2) := MathStep(i, d1);
      var (rest, d3) := Steps(i + 1, d2);
      (c + m + rest, d3)
  }

  function CacheStep(i: nat, d: Source): (r: (seq<Stmt>, Source))
    ensures CodeFits(r.0)
  {
    if i < CNT_CACHE then
      var (c, d') := DrawCache(d);
      (CacheCode(c), d')
    else ([], d)
  }

  function MathStep(i: nat, d: Source): (r: (seq<Stmt>, Source))
    ensures CodeFits(r.0)
  {
    if i < CNT_MATH then
      var (m, d') := DrawMath(d);
      (MathCode(m), d')
    else ([], d)
  }

  /** Consuming words i and later of the global load; word 0 always goes to register 0. */
  function Consume(i: nat, d: Source): (r: (seq<Stmt>, Source))
    ensures CodeFits(r.0)
    decreases DAG_LOADS - i
  {
    hide Merge, Rnd;
    if i >= DAG_LOADS then ([], d)
    else if i == 0 then
      var (x, d1) := Rnd(d);
      var (rest, d2) := Consume(1, d1);
      ([Merge(0, Loaded(0), x)] + rest, d2)
    else
      var (dst, d1) := MixDst(d);
      var (x, d2) := Rnd(d1);
      var (rest, d3) := Consume(i + 1, d2);
      ([Merge(dst, Loaded(i), x)] + rest, d3)
  }

  function Emit(d: Source): (code: seq<Stmt>)
    ensures CodeFits(code)
  {
    hide Steps, Consume;
    var (body, d') := Steps(0, d);
    body + Consume(0, d').0
  }

  // ----- shuffling both arrays

  /** rnd() % (i + 1). */
  function Choice(x: word, i: nat): (j: nat)
    ensures j <= i
  {
    x % (i + 1)
  }

  /** The two choices drawn for position i. */
  function PairOfChoices(i: nat, d: Source): (c: (nat, nat))
    ensures c.0 <= i && c.1 <= i
  {
    hide Rnd, Choice;
    var (x, d1) := Rnd(d);
    var y := Rnd(d1).0;
    (Choice(x, i), Choice(y, i))
  }

  /** Both swaps at position i. */
  function SwapPair(i: nat, d: Source): (r: Source)
    requires i < REGS
    ensures r.dst == Swapped(d.dst, i, PairOfChoices(i, d).0)
    ensures r.cache == Swapped(d.cache, i, PairOfChoices(i, d).1)
    ensures r.gen == Next(Next(d.gen)) && r.dstCnt == d.dstCnt && r.cacheCnt == d.cacheCnt
  {
    hide Swapped, PairOfChoices, Next, Output;
    var c := PairOfChoices(i, d);
    var d2 := Rnd(Rnd(d).1).1;
    d2.(dst := Swapped(d.dst, i, c.0), cache := Swapped(d.cache, i, c.1))
  }

  /** Position i of both arrays, then position i - 1, down to position 1. */
  function ShuffleBoth(i: nat, d: Source): (r: Source)
    requires i < REGS
    ensures r.dstCnt == d.dstCnt && r.cacheCnt == d.cacheCnt
    decreases i
  {
    hide SwapPair;
    if i == 0 then d else ShuffleBoth(i - 1, SwapPair(i, d))
  }

  /** The generator seeded for the period of a block and the arrays shuffled. */
  function Prepared(blockNumber: bv64): Source {
    hide Low, High, Seeded, ShuffleBoth;
    var p := blockNumber / PERIOD;
    ShuffleBoth(REGS - 1, Draws(Seeded(Low(p), High(p)), Identity(REGS), Identity(REGS), 0, 0))
  }

  function Program(blockNumber: bv64): (code: seq<Stmt>)
    ensures CodeFits(code)
  {
    hide Prepared, Emit;
    Emit(Prepared(blockNumber))
  }
}
