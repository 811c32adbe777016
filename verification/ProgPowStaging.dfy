/** The interpreter of the ProgPoW inner loop (libprogpow/ProgPow.cpp), which draws the random numbers
    while it runs and takes all lanes through one operation at a time, and what it has in common with
    the emitted program once each lane has loaded its entry of the DAG. */
module ProgPowStaging {
  import opened CommonData
  import opened Kiss99
  import opened ProgPow
  import opened ProgPowGroup
  import opened ProgPowKernel
  import opened ProgPowWords

  // ----- the global load

  /** (lane_id ^ loop) % PROGPOW_LANES. */
  function Column(lane: nat, loop: word): (c: nat)
    ensures c < LANES
  {
    XorNumbers(lane, loop) % LANES
  }

  /** The row that all lanes load from: the first register of one lane, modulo the number of rows. */
  function Row(mixes: seq<Registers>, loop: word, gDag: seq<Words>): (r: nat)
    requires |mixes| == LANES && LANES <= |gDag|
    ensures r < Rows(gDag) && (r + 1) * LANES <= |gDag|
  {
    hide Number;
    Number(mixes[loop % LANES][0]) % Rows(gDag)
  }

  /** The entry that each lane loads. */
  function GlobalLoad(mixes: seq<Registers>, loop: word, gDag: seq<Words>): (ws: seq<Words>)
    requires |mixes| == LANES && LANES <= |gDag|
    ensures |ws| == LANES
  {
    hide Column, Row, Rows;
    var row := Row(mixes, loop, gDag);
    seq(LANES, l requires 0 <= l < LANES => gDag[row * LANES + Column(l, loop)])
  }

  /** Entries behind the last whole row are never loaded. */
  lemma TailIsNeverLoaded(mixes: seq<Registers>, loop: word, gDag: seq<Words>, other: seq<Words>)
    requires |mixes| == LANES && LANES <= |gDag| == |other|
    requires gDag[..LANES * Rows(gDag)] == other[..LANES * Rows(gDag)]
    ensures GlobalLoad(mixes, loop, gDag) == GlobalLoad(mixes, loop, other)
  {
    hide Column, Row, Number;
    var row, n := Row(mixes, loop, gDag), LANES * Rows(gDag);
    assert row == Row(mixes, loop, other) by { SameRow(mixes, loop, gDag, other); }
    forall l | 0 <= l < LANES ensures gDag[row * LANES + Column(l, loop)] == other[row * LANES + Column(l, loop)] {
      assert gDag[..n][row * LANES + Column(l, loop)] == other[..n][row * LANES + Column(l, loop)];
    }
  }

  lemma SameRow(mixes: seq<Registers>, loop: word, gDag: seq<Words>, other: seq<Words>)
    requires |mixes| == LANES && LANES <= |gDag| == |other|
    ensures Row(mixes, loop, gDag) == Row(mixes, loop, other)
  {
  }

  lemma DoubleMod(q: nat, r: nat, m: nat)
    requires m > 0 && r < 2
    ensures (2 * q + r) % (2 * m) == 2 * (q % m) + r
  {
    var k := q / m;
    assert q == m * k + q % m;
    assert 2 * q + r == (2 * m) * k + (2 * (q % m) + r);
    DivModUnique(2 * q + r, 2 * m, k, 2 * (q % m) + r);
  }

  predicate PowerOfTwo(m: nat) {
    m == 1 || (m > 1 && m % 2 == 0 && PowerOfTwo(m / 2))
  }

  /** The low digits of an exclusive or determine the low digits of an operand. */
  lemma {:induction false} SameDigits(a: nat, b: nat, c: nat, m: nat)
    requires PowerOfTwo(m) && XorNumbers(a, c) % m == XorNumbers(b, c) % m
    ensures a % m == b % m
    decreases m
  {
    XorUnfolds(a, c);
    XorUnfolds(b, c);
    hide XorNumbers;
    if m > 1 {
      var n := m / 2;
      DoubleMod(XorNumbers(a / 2, c / 2), if a % 2 == c % 2 then 0 else 1, n);
      DoubleMod(XorNumbers(b / 2, c / 2), if b % 2 == c % 2 then 0 else 1, n);
      SameDigits(a / 2, b / 2, c / 2, n);
      DoubleMod(a / 2, a % 2, n);
      DoubleMod(b / 2, b % 2, n);
    }
  }

  /** In every loop the sixteen lanes load the sixteen entries of one row, each entry once. */
  lemma LanesShareRow(l: nat, m: nat, loop: word)
    requires l < m < LANES
    ensures Column(l, loop) != Column(m, loop)
  {
    hide XorNumbers;
    if Column(l, loop) == Column(m, loop) {
      assert PowerOfTwo(2) && PowerOfTwo(8) && PowerOfTwo(16);
      SameDigits(l, m, loop, LANES);
    }
  }

  // ----- the interpreter

  /** One cached access on every lane. */
  function CacheAll(c: CacheDraw, ms: seq<Registers>, cDag: CacheDag): (r: seq<Registers>)
    requires c.src < REGS && c.dst < REGS
    ensures |r| == |ms|
  {
    hide Merged, CacheWord;
    seq(|ms|, l requires 0 <= l < |ms| =>
      var m: Registers := ms[l]; m[c.dst := Merged(m[c.dst], CacheWord(cDag, m[c.src]), c.r)])
  }

  /** One math operation on every lane. */
  function MathAll(x: MathDraw, ms: seq<Registers>): (r: seq<Registers>)
    requires x.src1 < REGS && x.src2 < REGS && x.dst < REGS
    ensures |r| == |ms|
  {
    hide Merged, Mathed;
    seq(|ms|, l requires 0 <= l < |ms| =>
      var m: Registers := ms[l]; m[x.dst := Merged(m[x.dst], Mathed(m[x.src1], m[x.src2], x.r1), x.r2)])
  }

  /** Word i of the load merged on every lane. */
  function ConsumeAll(i: nat, dst: nat, r: word, ms: seq<Registers>, loaded: seq<Words>): (res: seq<Registers>)
    requires i < DAG_LOADS && dst < REGS && |ms| == |loaded|
    ensures |res| == |ms|
  {
    hide Merged;
    seq(|ms|, l requires 0 <= l < |ms| => var m: Registers := ms[l]; m[dst := Merged(m[dst], loaded[l][i], r)])
  }

  /** The steps from i on: draw, then act on all lanes, then draw again. */
  function InterpretSteps(i: nat, d: Source, ms: seq<Registers>, cDag: CacheDag): (r: (seq<Registers>, Source))
    ensures |r.0| == |ms|
    decreases CNT_MATH - i
  {
    hide DrawCache, DrawMath, CacheAll, MathAll;
    if i >= CNT_CACHE && i >= CNT_MATH then (ms, d)
    else
      var (c, d1) := DrawCache(d);
      var (ms1, e1) := if i < CNT_CACHE then (CacheAll(c, ms, cDag), d1) else (ms, d);
      var (x, d2) := DrawMath(e1);
      var (ms2, e2) := if i < CNT_MATH then (MathAll(x, ms1), d2) else (ms1, e1);
      InterpretSteps(i + 1, e2, ms2, cDag)
  }

  function InterpretConsume(i: nat, d: Source, ms: seq<Registers>, loaded: seq<Words>): (r: seq<Registers>)
    requires |ms| == |loaded|
    ensures |r| == |ms|
    decreases DAG_LOADS - i
  {
    hide Rnd, ConsumeAll;
    if i >= DAG_LOADS then ms
    else if i == 0 then
      var (x, d1) := Rnd(d);
      InterpretConsume(1, d1, ConsumeAll(0, 0, x, ms, loaded), loaded)
    else
      var (dst, d1) := MixDst(d);
      var (x, d2) := Rnd(d1);
      InterpretConsume(i + 1, d2, ConsumeAll(i, dst, x, ms, loaded), loaded)
  }

  /** The draws from d on, interpreted on lanes that hold any words of the DAG. */
  function InterpretEmit(d: Source, ms: seq<Registers>, loaded: seq<Words>, cDag: CacheDag): (r: seq<Registers>)
    requires |ms| == |loaded|
    ensures |r| == |ms|
  {
    hide InterpretSteps, InterpretConsume;
    var (ms', d') := InterpretSteps(0, d, ms, cDag);
    InterpretConsume(0, d', ms', loaded)
  }

  function Interpret(d: Source, ms: seq<Registers>, loop: word, gDag: seq<Words>, cDag: CacheDag)
    : (r: seq<Registers>)
    requires |ms| == LANES && LANES <= |gDag|
    ensures |r| == LANES
  {
    hide InterpretEmit, GlobalLoad;
    InterpretEmit(d, ms, GlobalLoad(ms, loop, gDag), cDag)
  }

  // ----- the kernel

  predicate LanesFit(ls: seq<Lane>) {
    forall l :: 0 <= l < |ls| ==> LaneFits(ls[l])
  }

  function RegistersOf(ls: seq<Lane>): (ms: seq<Registers>)
    requires LanesFit(ls)
    ensures |ms| == |ls|
  {
    seq(|ls|, l requires 0 <= l < |ls| => var m: Registers := ls[l].mix; m)
  }

  function LoadsOf(ls: seq<Lane>): (ws: seq<Words>)
    requires LanesFit(ls)
    ensures |ws| == |ls|
  {
    seq(|ls|, l requires 0 <= l < |ls| => var w: Words := ls[l].loaded; w)
  }

  /** Every lane runs the whole code. */
  function RunLanes(p: Prelude, code: seq<Stmt>, ls: seq<Lane>, cDag: CacheDag): (r: seq<Lane>)
    requires CodeFits(code) && LanesFit(ls)
    ensures |r| == |ls| && LanesFit(r)
  {
    hide ExecAll;
    seq(|ls|, l requires 0 <= l < |ls| => ExecAll(p, code, ls[l], cDag))
  }

  lemma RunLanesKeepsLoads(p: Prelude, code: seq<Stmt>, ls: seq<Lane>, cDag: CacheDag)
    requires CodeFits(code) && LanesFit(ls)
    ensures LoadsOf(RunLanes(p, code, ls, cDag)) == LoadsOf(ls)
  {
    hide ExecAll;
  }

  lemma RunNothing(p: Prelude, ls: seq<Lane>, cDag: CacheDag)
    requires LanesFit(ls)
    ensures RunLanes(p, [], ls, cDag) == ls
  {
  }

  lemma RunConcat(p: Prelude, a: seq<Stmt>, b: seq<Stmt>, ls: seq<Lane>, cDag: CacheDag)
    requires CodeFits(a) && CodeFits(b) && LanesFit(ls)
    ensures CodeFits(a + b)
    ensures RunLanes(p, a + b, ls, cDag) == RunLanes(p, b, RunLanes(p, a, ls, cDag), cDag)
  {
    hide ExecAll, CodeFits;
    CodeConcat(a, b);
    forall l | 0 <= l < |ls|
      ensures ExecAll(p, a + b, ls[l], cDag) == ExecAll(p, b, ExecAll(p, a, ls[l], cDag), cDag)
    {
      ExecConcat(p, a, b, ls[l], cDag);
    }
  }

  lemma CodeConcat(a: seq<Stmt>, b: seq<Stmt>)
    requires CodeFits(a) && CodeFits(b)
    ensures CodeFits(a + b)
  {
  }

  // ----- one emitted piece is one step of the interpreter

  lemma ExecOne(p: Prelude, s: Stmt, l: Lane, cDag: CacheDag)
    requires LaneFits(l) && StmtFits(s)
    ensures CodeFits([s]) && ExecAll(p, [s], l, cDag) == Exec(p, s, l, cDag)
  {
    hide Exec;
    assert [s][1..] == [];
  }

  lemma ExecTwo(p: Prelude, s: Stmt, t: Stmt, l: Lane, cDag: CacheDag)
    requires LaneFits(l) && StmtFits(s) && StmtFits(t)
    ensures CodeFits([s, t]) && ExecAll(p, [s, t], l, cDag) == Exec(p, t, Exec(p, s, l, cDag), cDag)
  {
    hide Exec, ExecAll;
    ExecOne(p, s, l, cDag);
    ExecOne(p, t, Exec(p, s, l, cDag), cDag);
    ExecConcat(p, [s], [t], l, cDag);
    assert [s] + [t] == [s, t];
  }

  /** Running an emitted merge merges, under either prelude and for any operand. */
  lemma ExecMerge(p: Prelude, dst: nat, b: Expr, r: word, l: Lane, cDag: CacheDag)
    requires dst < REGS && ExprFits(b) && LaneFits(l)
    ensures Exec(p, Merge(dst, b, r), l, cDag) ==
            l.(mix := l.mix[dst := Merged(l.mix[dst], Eval(p, b, l), r)])
  {
    hide MergeExpr, Merged;
    MergeExprMeans(p, Mix(dst), b, r, l);
  }

  lemma CacheCodeRuns(p: Prelude, c: CacheDraw, l: Lane, cDag: CacheDag)
    requires c.src < REGS && c.dst < REGS && LaneFits(l)
    ensures ExecAll(p, CacheCode(c), l, cDag).mix ==
            l.mix[c.dst := Merged(l.mix[c.dst], CacheWord(cDag, l.mix[c.src]), c.r)]
  {
    hide Merge, Merged, CacheWord, ExecAll;
    ExecTwo(p, LoadCache(c.src), Merge(c.dst, Data, c.r), l, cDag);
    ExecMerge(p, c.dst, Data, c.r, Exec(p, LoadCache(c.src), l, cDag), cDag);
  }

  lemma MathCodeRuns(p: Prelude, x: MathDraw, l: Lane, cDag: CacheDag)
    requires x.src1 < REGS && x.src2 < REGS && x.dst < REGS && LaneFits(l)
    ensures ExecAll(p, MathCode(x), l, cDag).mix ==
            l.mix[x.dst := Merged(l.mix[x.dst], Mathed(l.mix[x.src1], l.mix[x.src2], x.r1), x.r2)]
  {
    hide Merge, MathExpr, Merged, Mathed, ExecAll;
    var e := MathExpr(Mix(x.src1), Mix(x.src2), x.r1);
    ExecTwo(p, SetData(e), Merge(x.dst, Data, x.r2), l, cDag);
    MathExprMeans(p, Mix(x.src1), Mix(x.src2), x.r1, l);
    ExecMerge(p, x.dst, Data, x.r2, Exec(p, SetData(e), l, cDag), cDag);
  }

  lemma ConsumeRuns(p: Prelude, i: nat, dst: nat, r: word, l: Lane, cDag: CacheDag)
    requires i < DAG_LOADS && dst < REGS && LaneFits(l)
    ensures CodeFits([Merge(dst, Loaded(i), r)])
    ensures ExecAll(p, [Merge(dst, Loaded(i), r)], l, cDag).mix == l.mix[dst := Merged(l.mix[dst], l.loaded[i], r)]
  {
    hide Merge, Merged, Exec, ExecAll;
    ExecMerge(p, dst, Loaded(i), r, l, cDag);
    ExecOne(p, Merge(dst, Loaded(i), r), l, cDag);
  }

  lemma CacheOnLanes(p: Prelude, c: CacheDraw, ls: seq<Lane>, cDag: CacheDag)
    requires c.src < REGS && c.dst < REGS && LanesFit(ls)
    ensures RegistersOf(RunLanes(p, CacheCode(c), ls, cDag)) == CacheAll(c, RegistersOf(ls), cDag)
  {
    hide ExecAll, CacheCode, Merged, CacheWord;
    forall l | 0 <= l < |ls|
      ensures RegistersOf(RunLanes(p, CacheCode(c), ls, cDag))[l] == CacheAll(c, RegistersOf(ls), cDag)[l]
    {
      CacheCodeRuns(p, c, ls[l], cDag);
    }
  }

  lemma MathOnLanes(p: Prelude, x: MathDraw, ls: seq<Lane>, cDag: CacheDag)
    requires x.src1 < REGS && x.src2 < REGS && x.dst < REGS && LanesFit(ls)
    ensures RegistersOf(RunLanes(p, MathCode(x), ls, cDag)) == MathAll(x, RegistersOf(ls))
  {
    hide ExecAll, MathCode, Merged, Mathed;
    forall l | 0 <= l < |ls|
      ensures RegistersOf(RunLanes(p, MathCode(x), ls, cDag))[l] == MathAll(x, RegistersOf(ls))[l]
    {
      MathCodeRuns(p, x, ls[l], cDag);
    }
  }

  lemma ConsumeOnLanes(p: Prelude, i: nat, dst: nat, r: word, ls: seq<Lane>, cDag: CacheDag)
    requires i < DAG_LOADS && dst < REGS && LanesFit(ls)
    ensures CodeFits([Merge(dst, Loaded(i), r)])
    ensures RegistersOf(RunLanes(p, [Merge(dst, Loaded(i), r)], ls, cDag)) ==
            ConsumeAll(i, dst, r, RegistersOf(ls), LoadsOf(ls))
  {
    hide ExecAll, Merge, Merged;
    forall l | 0 <= l < |ls|
      ensures RegistersOf(RunLanes(p, [Merge(dst, Loaded(i), r)], ls, cDag))[l] ==
              ConsumeAll(i, dst, r, RegistersOf(ls), LoadsOf(ls))[l]
    {
      ConsumeRuns(p, i, dst, r, ls[l], cDag);
    }
  }

  // ----- staging

  /** Running the steps emitted from i on is interpreting them. */
  lemma {:induction false} StepsAreInterpreted(p: Prelude, i: nat, d: Source, ls: seq<Lane>, cDag: CacheDag)
    requires LanesFit(ls)
    ensures var (code, d') := Steps(i, d);
            InterpretSteps(i, d, RegistersOf(ls), cDag) == (RegistersOf(RunLanes(p, code, ls, cDag)), d')
    decreases CNT_MATH - i
  {
    hide DrawCache, DrawMath, CacheAll, MathAll, CacheCode, MathCode, RunLanes, RegistersOf, LanesFit, CodeFits;
    if i >= CNT_CACHE && i >= CNT_MATH {
      RunNothing(p, ls, cDag);
    } else {
      var (c, d1) := CacheStep(i, d);
      var (m, d2) := MathStep(i, d1);
      var (rest, d3) := Steps(i + 1, d2);
      var ls1 := RunLanes(p, c, ls, cDag);
      var ls2 := RunLanes(p, m, ls1, cDag);
      CacheStepRuns(p, i, d, ls, cDag);
      MathStepRuns(p, i, d1, ls1, cDag);
      StepsAreInterpreted(p, i + 1, d2, ls2, cDag);
      RunConcat(p, c, m, ls, cDag);
      RunConcat(p, c + m, rest, ls, cDag);
    }
  }

  lemma CacheStepRuns(p: Prelude, i: nat, d: Source, ls: seq<Lane>, cDag: CacheDag)
    requires LanesFit(ls)
    ensures RegistersOf(RunLanes(p, CacheStep(i, d).0, ls, cDag)) ==
            if i < CNT_CACHE then CacheAll(DrawCache(d).0, RegistersOf(ls), cDag) else RegistersOf(ls)
  {
    hide DrawCache, CacheAll, CacheCode, RunLanes, RegistersOf;
    if i < CNT_CACHE {
      CacheOnLanes(p, DrawCache(d).0, ls, cDag);
    } else {
      RunNothing(p, ls, cDag);
    }
  }

  lemma MathStepRuns(p: Prelude, i: nat, d: Source, ls: seq<Lane>, cDag: CacheDag)
    requires LanesFit(ls)
    ensures RegistersOf(RunLanes(p, MathStep(i, d).0, ls, cDag)) ==
            if i < CNT_MATH then MathAll(DrawMath(d).0, RegistersOf(ls)) else RegistersOf(ls)
  {
    hide DrawMath, MathAll, MathCode, RunLanes, RegistersOf;
    if i < CNT_MATH {
      MathOnLanes(p, DrawMath(d).0, ls, cDag);
    } else {
      RunNothing(p, ls, cDag);
    }
  }

  lemma {:induction false} ConsumeIsInterpreted(p: Prelude, i: nat, d: Source, ls: seq<Lane>, cDag: CacheDag)
    requires LanesFit(ls)
    ensures InterpretConsume(i, d, RegistersOf(ls), LoadsOf(ls)) ==
            RegistersOf(RunLanes(p, Consume(i, d).0, ls, cDag))
    decreases DAG_LOADS - i
  {
    hide Rnd, ConsumeAll, Merge, RunLanes, RegistersOf, LoadsOf, LanesFit, CodeFits;
    if i >= DAG_LOADS {
      RunNothing(p, ls, cDag);
    } else {
      var dst := if i == 0 then 0 else MixDst(d).0;
      var (x, d1) := if i == 0 then Rnd(d) else Rnd(MixDst(d).1);
      var first := [Merge(dst, Loaded(i), x)];
      ConsumeOnLanes(p, i, dst, x, ls, cDag);
      var ls1 := RunLanes(p, first, ls, cDag);
      RunLanesKeepsLoads(p, first, ls, cDag);
      ConsumeIsInterpreted(p, i + 1, d1, ls1, cDag);
      RunConcat(p, first, Consume(i + 1, d1).0, ls, cDag);
    }
  }

  /** Running the whole program on lanes that hold any words is interpreting it with these words. */
  lemma EmitIsInterpreted(p: Prelude, d: Source, ls: seq<Lane>, cDag: CacheDag)
    requires LanesFit(ls)
    ensures RegistersOf(RunLanes(p, Emit(d), ls, cDag)) == InterpretEmit(d, RegistersOf(ls), LoadsOf(ls), cDag)
  {
    hide Steps, Consume, InterpretSteps, InterpretConsume, RunLanes, RegistersOf, LoadsOf, LanesFit, CodeFits;
    var (body, d') := Steps(0, d);
    var ls1 := RunLanes(p, body, ls, cDag);
    StepsAreInterpreted(p, 0, d, ls, cDag);
    RunLanesKeepsLoads(p, body, ls, cDag);
    ConsumeIsInterpreted(p, 0, d', ls1, cDag);
    RunConcat(p, body, Consume(0, d').0, ls, cDag);
  }

  /** If each lane holds the entry that the global load gives it, that is Interpret. */
  lemma ProgramIsInterpreted(
    p: Prelude, blockNumber: bv64, loop: word, ls: seq<Lane>, gDag: seq<Words>, cDag: CacheDag)
    requires LanesFit(ls) && |ls| == LANES && LANES <= |gDag|
    requires LoadsOf(ls) == GlobalLoad(RegistersOf(ls), loop, gDag)
    ensures RegistersOf(RunLanes(p, Program(blockNumber), ls, cDag)) ==
            Interpret(Prepared(blockNumber), RegistersOf(ls), loop, gDag, cDag)
  {
    hide Prepared, Emit, InterpretEmit, GlobalLoad, RunLanes, RegistersOf, LoadsOf, LanesFit,
         CodeFits;
    EmitIsInterpreted(p, Prepared(blockNumber), ls, cDag);
  }
}
