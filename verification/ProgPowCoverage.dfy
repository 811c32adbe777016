/** What every generated ProgPoW program does to the registers, whatever the random numbers
    (libprogpow/ProgPow.cpp): all are merged, and no cache source is used twice. */
module ProgPowCoverage {
  import opened Halves
  import opened Kiss99
  import opened ProgPow
  import opened ProgPowGroup
  import opened ProgPowKernel
  import opened ProgPowWords
  import opened Shuffle

  // ----- the shuffle on drawn numbers

  /** The choices drawn for the two arrays. */
  function Choices(i: nat, d: Source): (r: (seq<nat>, seq<nat>))
    requires i < REGS
    ensures AreChoices(r.0, i) && AreChoices(r.1, i)
    decreases i
  {
    hide SwapPair, PairOfChoices;
    if i == 0 then ([], [])
    else
      var c := PairOfChoices(i, d);
      var (xs, ys) := Choices(i - 1, SwapPair(i, d));
      ([c.0] + xs, [c.1] + ys)
  }

  lemma {:induction false} ShuffleBothIsShuffled(i: nat, d: Source)
    requires i < REGS
    ensures ShuffleBoth(i, d).dst == Shuffled(d.dst, i, Choices(i, d).0)
    ensures ShuffleBoth(i, d).cache == Shuffled(d.cache, i, Choices(i, d).1)
    decreases i
  {
    hide SwapPair, PairOfChoices, Swapped, AreChoices;
    if i > 0 {
      var c := PairOfChoices(i, d);
      var d' := SwapPair(i, d);
      ShuffleBothIsShuffled(i - 1, d');
      var (xs, ys) := Choices(i - 1, d');
      assert ([c.0] + xs)[1..] == xs && ([c.1] + ys)[1..] == ys;
    }
  }

  /** Whatever is drawn, both arrays end as permutations of the registers. */
  lemma PreparedIsPermutation(blockNumber: bv64)
    ensures var d := Prepared(blockNumber);
            && IsPermutation(d.dst, REGS) && IsPermutation(d.cache, REGS) && d.dstCnt == 0 && d.cacheCnt == 0
  {
    hide Low, High, Seeded, ShuffleBoth, Shuffled, Choices, Identity;
    var p := blockNumber / PERIOD;
    var d := Draws(Seeded(Low(p), High(p)), Identity(REGS), Identity(REGS), 0, 0);
    ShuffleBothIsShuffled(REGS - 1, d);
    ShuffledIsPermutation(Identity(REGS), REGS - 1, Choices(REGS - 1, d).0);
    ShuffledIsPermutation(Identity(REGS), REGS - 1, Choices(REGS - 1, d).1);
  }

  // ----- destinations and cache sources of a program

  function Target(s: Stmt): seq<nat> {
    if s.SetMix? then [s.dst] else []
  }

  function CacheSource(s: Stmt): seq<nat> {
    if s.LoadCache? then [s.src] else []
  }

  function Targets(code: seq<Stmt>): seq<nat> {
    if code == [] then [] else Target(code[0]) + Targets(code[1..])
  }

  function CacheSources(code: seq<Stmt>): seq<nat> {
    if code == [] then [] else CacheSource(code[0]) + CacheSources(code[1..])
  }

  lemma TargetsConcat(a: seq<Stmt>, b: seq<Stmt>)
    ensures Targets(a + b) == Targets(a) + Targets(b)
    ensures CacheSources(a + b) == CacheSources(a) + CacheSources(b)
  {
    OnlyTargetsConcat(a, b);
    SourcesConcat(a, b);
  }

  lemma {:induction false} OnlyTargetsConcat(a: seq<Stmt>, b: seq<Stmt>)
    ensures Targets(a + b) == Targets(a) + Targets(b)
  {
    hide Target;
    if a == [] {
      assert a + b == b;
    } else {
      assert (a + b)[1..] == a[1..] + b && (a + b)[0] == a[0];
      OnlyTargetsConcat(a[1..], b);
    }
  }

  lemma {:induction false} SourcesConcat(a: seq<Stmt>, b: seq<Stmt>)
    ensures CacheSources(a + b) == CacheSources(a) + CacheSources(b)
  {
    hide CacheSource;
    if a == [] {
      assert a + b == b;
    } else {
      assert (a + b)[1..] == a[1..] + b && (a + b)[0] == a[0];
      SourcesConcat(a[1..], b);
    }
  }

  /** n entries of an array from position k on, cyclically. */
  function Cyclic(s: seq<nat>, k: nat, n: nat): (r: seq<nat>)
    requires |s| == REGS
    ensures |r| == n
  {
    seq(n, i requires 0 <= i < n => s[(k + i) % REGS])
  }

  lemma CyclicAt(s: seq<nat>, k: nat, n: nat, i: nat)
    requires |s| == REGS && i < n
    ensures Cyclic(s, k, n)[i] == s[(k + i) % REGS]
  {
  }

  function CacheStepsFrom(i: nat): nat {
    if i < CNT_CACHE then CNT_CACHE - i else 0
  }

  function MergesFrom(i: nat): nat {
    CacheStepsFrom(i) + if i < CNT_MATH then CNT_MATH - i else 0
  }

  lemma OneStatement(s: Stmt)
    ensures Targets([s]) == if s.SetMix? then [s.dst] else []
    ensures CacheSources([s]) == if s.LoadCache? then [s.src] else []
  {
    assert [s][1..] == [];
  }

  lemma TwoStatements(s: Stmt, t: Stmt)
    ensures Targets([s, t]) == Targets([s]) + Targets([t])
    ensures CacheSources([s, t]) == CacheSources([s]) + CacheSources([t])
  {
    TargetsConcat([s], [t]);
    assert [s] + [t] == [s, t];
  }

  lemma CacheCodeTargets(c: CacheDraw)
    requires c.src < REGS && c.dst < REGS
    ensures Targets(CacheCode(c)) == [c.dst] && CacheSources(CacheCode(c)) == [c.src]
  {
    hide Merge, Targets, CacheSources;
    var s, t := LoadCache(c.src), Merge(c.dst, Data, c.r);
    OneStatement(s);
    OneStatement(t);
    TwoStatements(s, t);
  }

  lemma MathCodeTargets(m: MathDraw)
    requires m.src1 < REGS && m.src2 < REGS && m.dst < REGS
    ensures Targets(MathCode(m)) == [m.dst] && CacheSources(MathCode(m)) == []
  {
    hide Merge, MathExpr, Targets, CacheSources;
    var s, t := SetData(MathExpr(Mix(m.src1), Mix(m.src2), m.r1)), Merge(m.dst, Data, m.r2);
    OneStatement(s);
    OneStatement(t);
    TwoStatements(s, t);
  }

  lemma CyclicConcat(s: seq<nat>, k: nat, m: nat, n: nat)
    requires |s| == REGS
    ensures Cyclic(s, k, m) + Cyclic(s, k + m, n) == Cyclic(s, k, m + n)
  {
  }

  /** One pass of the loop: n1 cached accesses and n2 math operations, each zero or one. */
  lemma OnePassTargets(i: nat, d: Source)
    ensures var (c, d1) := CacheStep(i, d);
            var (m, d2) := MathStep(i, d1);
            var n1, n2 := if i < CNT_CACHE then 1 else 0, if i < CNT_MATH then 1 else 0;
            && Targets(c + m) == Cyclic(d.dst, d.dstCnt, n1 + n2)
            && CacheSources(c + m) == Cyclic(d.cache, d.cacheCnt, n1)
            && d2 == d.(gen := d2.gen, dstCnt := d.dstCnt + n1 + n2, cacheCnt := d.cacheCnt + n1)
  {
    hide CacheStep, MathStep, Targets, CacheSources, Cyclic, CodeFits;
    var (c, d1) := CacheStep(i, d);
    var m := MathStep(i, d1).0;
    CacheStepTargets(i, d);
    MathStepTargets(i, d1);
    TargetsConcat(c, m);
    CyclicConcat(d.dst, d.dstCnt, if i < CNT_CACHE then 1 else 0, if i < CNT_MATH then 1 else 0);
  }

  /** The steps from i on merge into consecutive entries of one array and load from consecutive
      entries of the other. */
  lemma {:induction false} StepsTargets(i: nat, d: Source)
    ensures var (code, d') := Steps(i, d);
            && Targets(code) == Cyclic(d.dst, d.dstCnt, MergesFrom(i))
            && CacheSources(code) == Cyclic(d.cache, d.cacheCnt, CacheStepsFrom(i))
            && d'.dst == d.dst && d'.dstCnt == d.dstCnt + MergesFrom(i)
    decreases CNT_MATH - i
  {
    hide CacheStep, MathStep, Targets, CacheSources, Cyclic, CodeFits;
    if i >= CNT_CACHE && i >= CNT_MATH {
      NoTargets(d.dst, d.dstCnt);
      NoTargets(d.cache, d.cacheCnt);
    } else {
      var (c, d1) := CacheStep(i, d);
      var (m, d2) := MathStep(i, d1);
      var (rest, d3) := Steps(i + 1, d2);
      var n1, n2 := if i < CNT_CACHE then 1 else 0, if i < CNT_MATH then 1 else 0;
      OnePassTargets(i, d);
      StepsTargets(i + 1, d2);
      TargetsConcat(c + m, rest);
      CyclicConcat(d.dst, d.dstCnt, n1 + n2, MergesFrom(i + 1));
      CyclicConcat(d.cache, d.cacheCnt, n1, CacheStepsFrom(i + 1));
    }
  }

  lemma NoTargets(s: seq<nat>, k: nat)
    requires |s| == REGS
    ensures Targets([]) == [] == Cyclic(s, k, 0) && CacheSources([]) == []
  {
  }

  lemma CacheStepTargets(i: nat, d: Source)
    ensures var (code, d') := CacheStep(i, d);
            var n := if i < CNT_CACHE then 1 else 0;
            && Targets(code) == Cyclic(d.dst, d.dstCnt, n) && CacheSources(code) == Cyclic(d.cache, d.cacheCnt, n)
            && d' == d.(gen := d'.gen, dstCnt := d.dstCnt + n, cacheCnt := d.cacheCnt + n)
  {
    hide DrawCache, CacheCode, Targets, CacheSources, Cyclic;
    if i < CNT_CACHE {
      CacheCodeTargets(DrawCache(d).0);
      FirstOfCyclic(d.dst, d.dstCnt);
      FirstOfCyclic(d.cache, d.cacheCnt);
    } else {
      NoTargets(d.dst, d.dstCnt);
      NoTargets(d.cache, d.cacheCnt);
    }
  }

  lemma MathStepTargets(i: nat, d: Source)
    ensures var (code, d') := MathStep(i, d);
            var n := if i < CNT_MATH then 1 else 0;
            && Targets(code) == Cyclic(d.dst, d.dstCnt, n) && CacheSources(code) == []
            && d' == d.(gen := d'.gen, dstCnt := d.dstCnt + n)
  {
    hide DrawMath, MathCode, Targets, CacheSources, Cyclic;
    if i < CNT_MATH {
      MathCodeTargets(DrawMath(d).0);
      FirstOfCyclic(d.dst, d.dstCnt);
    } else {
      NoTargets(d.dst, d.dstCnt);
    }
  }

  lemma ConsumeUnfolds(i: nat, d: Source)
    requires 1 <= i < DAG_LOADS
    ensures var (dst, d1) := MixDst(d);
            var (x, d2) := Rnd(d1);
            Consume(i, d).0 == [Merge(dst, Loaded(i), x)] + Consume(i + 1, d2).0
  {
    hide Rnd, Merge;
  }

  lemma NothingConsumed(i: nat, d: Source)
    requires i == DAG_LOADS
    ensures Consume(i, d).0 == []
  {
  }

  /** A merge into the next entry, in front of merges into the entries after it. */
  lemma OneMoreTarget(s: seq<nat>, k: nat, first: Stmt, rest: seq<Stmt>, n: nat)
    requires |s| == REGS && first.SetMix? && first.dst == s[k % REGS]
    requires Targets(rest) == Cyclic(s, k + 1, n) && CacheSources(rest) == []
    ensures Targets([first] + rest) == Cyclic(s, k, n + 1) && CacheSources([first] + rest) == []
  {
    hide Targets, CacheSources, Cyclic;
    OneStatement(first);
    TargetsConcat([first], rest);
    FirstOfCyclic(s, k);
    CyclicConcat(s, k, 1, n);
  }

  lemma {:induction false} ConsumeTargets(i: nat, d: Source)
    requires 1 <= i <= DAG_LOADS
    ensures Targets(Consume(i, d).0) == Cyclic(d.dst, d.dstCnt, DAG_LOADS - i)
    ensures CacheSources(Consume(i, d).0) == []
    decreases DAG_LOADS - i
  {
    hide Rnd, MergeExpr, Targets, CacheSources, Cyclic, CodeFits, Consume;
    if i == DAG_LOADS {
      NothingConsumed(i, d);
      NoTargets(d.dst, d.dstCnt);
    } else {
      var (dst, d1) := MixDst(d);
      var (x, d2) := Rnd(d1);
      ConsumeUnfolds(i, d);
      ConsumeTargets(i + 1, d2);
      OneMoreTarget(d.dst, d.dstCnt, Merge(dst, Loaded(i), x), Consume(i + 1, d2).0, DAG_LOADS - i - 1);
    }
  }

  lemma FirstOfCyclic(s: seq<nat>, k: nat)
    requires |s| == REGS
    ensures Cyclic(s, k, 1) == [s[k % REGS]]
  {
  }

  /** The global load goes to register 0 and to the next three entries. */
  lemma ConsumeAllTargets(zero: nat, d: Source)
    requires zero == 0
    ensures Targets(Consume(zero, d).0) == [0] + Cyclic(d.dst, d.dstCnt, 3)
    ensures CacheSources(Consume(zero, d).0) == []
  {
    hide Rnd, Merge, Targets, CacheSources, Cyclic, CodeFits;
    var (x, d1) := Rnd(d);
    var one := zero + 1;
    var rest := Consume(one, d1).0;
    assert Consume(zero, d).0 == [Merge(0, Loaded(0), x)] + rest;
    OneStatement(Merge(0, Loaded(0), x));
    TargetsConcat([Merge(0, Loaded(0), x)], rest);
    ConsumeTargets(one, d1);
  }

  /** The destinations of a whole program: 31 entries of the shuffled array, register 0, and three more. */
  ghost predicate HasTargets(code: seq<Stmt>, d: Source) {
    && Targets(code) == Cyclic(d.dst, d.dstCnt, 31) + ([0] + Cyclic(d.dst, d.dstCnt + 31, 3))
    && CacheSources(code) == Cyclic(d.cache, d.cacheCnt, CNT_CACHE)
  }

  lemma EmitTargets(d: Source)
    ensures HasTargets(Emit(d), d)
  {
    hide Targets, CacheSources, Cyclic, Steps, Consume, CodeFits;
    var (body, d') := Steps(0, d);
    StepsTargets(0, d);
    ConsumeAllTargets(0, d');
    TargetsConcat(body, Consume(0, d').0);
  }

  // ----- the emitted kernel

  /** What each lane carries out for itself. */
  function LocalsOf(code: seq<GroupStmt>): seq<Stmt> {
    if code == [] then []
    else (if code[0].Local? then [code[0].s] else []) + LocalsOf(code[1..])
  }

  lemma {:induction false} LocalsOfConcat(a: seq<GroupStmt>, b: seq<GroupStmt>)
    ensures LocalsOf(a + b) == LocalsOf(a) + LocalsOf(b)
  {
    if a == [] {
      assert a + b == b;
    } else {
      assert (a + b)[0] == a[0] && (a + b)[1..] == a[1..] + b;
      LocalsOfConcat(a[1..], b);
    }
  }

  lemma {:induction false} LocalsOfLocals(code: seq<Stmt>)
    requires CodeFits(code)
    ensures LocalsOf(Locals(code)) == code
  {
    if code != [] {
      assert Locals(code)[0] == Local(code[0]) && Locals(code)[1..] == Locals(code[1..]);
      LocalsOfLocals(code[1..]);
    }
  }

  lemma {:induction false} NoLocals(code: seq<GroupStmt>)
    requires forall s :: s in code ==> !s.Local?
    ensures LocalsOf(code) == []
  {
    if code != [] {
      assert code[0] in code;
      NoLocals(code[1..]);
    }
  }

  lemma LocalsOfRest(d: Source)
    ensures LocalsOf(Rest(d)) == Emit(d)
  {
    hide LocalsOf, Locals, Steps, Consume, CodeFits, GroupCodeFits;
    var (body, d') := Steps(0, d);
    var tail := Consume(0, d').0;
    NoLocals(LoadCode());
    NoLocals([Fence]);
    LocalsOfLocals(body);
    LocalsOfLocals(tail);
    LocalsOfConcat(LoadCode(), Locals(body));
    LocalsOfConcat(LoadCode() + Locals(body), [Fence]);
    LocalsOfConcat(LoadCode() + Locals(body) + [Fence], Locals(tail));
  }

  lemma LocalsOfKernel(p: Prelude, blockNumber: bv64)
    ensures LocalsOf(Kernel(p, blockNumber)) == Program(blockNumber)
  {
    hide LocalsOf, Rest, Emit, Prepared, CodeFits, GroupCodeFits;
    var d := Prepared(blockNumber);
    NoLocals(Exchange(p));
    LocalsOfRest(d);
    LocalsOfConcat(Exchange(p), Rest(d));
  }

  /** Under either prelude, every emitted kernel merges 35 times, into every register at least once,
      and reads the cache through eleven different registers. */
  lemma EveryRegisterIsMerged(p: Prelude, blockNumber: bv64)
    ensures var code := LocalsOf(Kernel(p, blockNumber));
            && |Targets(code)| == 35 && (forall v: nat :: v < REGS ==> v in Targets(code))
            && |CacheSources(code)| == 11 && Distinct(CacheSources(code))
  {
    hide Prepared, Emit, Targets, CacheSources, Cyclic, IsPermutation, CodeFits, LocalsOf, Kernel;
    LocalsOfKernel(p, blockNumber);
    var d := Prepared(blockNumber);
    PreparedIsPermutation(blockNumber);
    PermutationCovers(d.dst, REGS);
    PermutationCovers(d.cache, REGS);
    EmitTargets(d);
    var first, last, sources := Cyclic(d.dst, 0, 31), Cyclic(d.dst, 31, 3), Cyclic(d.cache, 0, CNT_CACHE);
    forall i, j | 0 <= i < j < CNT_CACHE ensures sources[i] != sources[j] {
      CyclicAt(d.cache, 0, CNT_CACHE, i);
      CyclicAt(d.cache, 0, CNT_CACHE, j);
    }
    forall v: nat | v < REGS ensures v in Targets(Program(blockNumber)) {
      assert v in d.dst;
      var k :| 0 <= k < |d.dst| && d.dst[k] == v;
      if k < 31 {
        CyclicAt(d.dst, 0, 31, k);
        assert first[k] == v;
      } else {
        CyclicAt(d.dst, 31, 3, 0);
        assert last[0] == v;
      }
    }
  }

  // ----- periods

  /** Two blocks get the same seed exactly if they are in the same period of ten. */
  lemma PeriodDecides(a: bv64, b: bv64)
    ensures Seeded(Low(a / PERIOD), High(a / PERIOD)) == Seeded(Low(b / PERIOD), High(b / PERIOD))
            <==> a / PERIOD == b / PERIOD
  {
    hide Seeded, Low, High;
    SeededInjective(Low(a / PERIOD), High(a / PERIOD), Low(b / PERIOD), High(b / PERIOD));
    HalvesDecide(a / PERIOD, b / PERIOD);
  }
}
