/** A run in which the race between consecutive loops of ProgPowLoops shows, for every block number. */
module ProgPowSlowLane {
  import opened Kiss99
  import opened ProgPow
  import opened ProgPowCorrect
  import opened ProgPowGroup
  import opened ProgPowKernel
  import opened ProgPowLoops
  import opened ProgPowStaging
  import opened ProgPowWords
  import opened Shuffle

  // ----- what a lane loads can be told from its registers

  /** One merge of a loaded word keeps different registers different. */
  lemma ConsumeOneKeeps(i: nat, dst: nat, r: word, m: Registers, n: Registers, v: Words, w: Words)
    requires i < DAG_LOADS && dst < REGS && m != n && v[i] == w[i]
    ensures ConsumeAll(i, dst, r, [m], [v])[0] != ConsumeAll(i, dst, r, [n], [w])[0]
  {
    hide Merged;
    MergeLosesNothing(m[dst], v[i], r);
    MergeLosesNothing(n[dst], v[i], r);
    var k :| 0 <= k < REGS && m[k] != n[k];
    assert m[dst := Merged(m[dst], v[i], r)][k] != n[dst := Merged(n[dst], w[i], r)][k];
  }

  lemma ConsumeUnfold(i: nat, d: Source, m: Registers, w: Words)
    requires 1 <= i < DAG_LOADS
    ensures var (dst, d1) := MixDst(d);
            var (x, d2) := Rnd(d1);
            var next := ConsumeAll(i, dst, x, [m], [w]);
            && |next| == 1 && next == [next[0]]
            && InterpretConsume(i, d, [m], [w]) == InterpretConsume(i + 1, d2, next, [w])
  {
    hide Rnd, ConsumeAll;
  }

  lemma {:induction false} ConsumeKeeps(i: nat, d: Source, m: Registers, n: Registers, v: Words, w: Words)
    requires 1 <= i <= DAG_LOADS && m != n && v[1..] == w[1..]
    ensures InterpretConsume(i, d, [m], [v])[0] != InterpretConsume(i, d, [n], [w])[0]
    decreases DAG_LOADS - i
  {
    hide Rnd, ConsumeAll;
    if i < DAG_LOADS {
      var (dst, d1) := MixDst(d);
      var (x, d2) := Rnd(d1);
      assert v[i] == v[1..][i - 1] == w[1..][i - 1] == w[i];
      ConsumeOneKeeps(i, dst, x, m, n, v, w);
      ConsumeUnfold(i, d, m, v);
      ConsumeUnfold(i, d, n, w);
      ConsumeKeeps(i + 1, d2, ConsumeAll(i, dst, x, [m], [v])[0], ConsumeAll(i, dst, x, [n], [w])[0], v, w);
    }
  }

  /** Entries that differ in their first word alone leave different registers. */
  lemma ConsumeTells(zero: nat, d: Source, m: Registers, v: Words, w: Words)
    requires zero == 0 && v[0] != w[0] && v[1..] == w[1..]
    ensures InterpretConsume(zero, d, [m], [v])[0] != InterpretConsume(zero, d, [m], [w])[0]
  {
    hide Rnd, Merged;
    var (x, d1) := Rnd(d);
    var a: Registers := m[0 := Merged(m[0], v[0], x)];
    var b: Registers := m[0 := Merged(m[0], w[0], x)];
    MergeDistinguishes(m[0], v[0], w[0], x);
    assert a[0] != b[0];
    assert ConsumeAll(zero, 0, x, [m], [v]) == [a] && ConsumeAll(zero, 0, x, [m], [w]) == [b];
    ConsumeKeeps(1, d1, a, b, v, w);
  }

  function MixAfter(p: Prelude, d: Source, l: Lane, w: Words, cDag: CacheDag): Registers
    requires LaneFits(l)
  {
    hide Emit, ExecAll, CodeFits;
    ExecAll(p, Emit(d), l.(loaded := w), cDag).mix
  }

  /** So a lane ends differently if only the first word of what it loads is different. */
  lemma EmitTells(p: Prelude, d: Source, l: Lane, v: Words, w: Words, cDag: CacheDag)
    requires LaneFits(l) && v[0] != w[0] && v[1..] == w[1..]
    ensures MixAfter(p, d, l, v, cDag) != MixAfter(p, d, l, w, cDag)
  {
    hide Emit, ExecAll, InterpretSteps, InterpretConsume, CodeFits;
    var m: Registers := l.mix;
    var lv, lw := l.(loaded := v), l.(loaded := w);
    EmitIsInterpreted(p, d, [lv], cDag);
    EmitIsInterpreted(p, d, [lw], cDag);
    assert RegistersOf([lv]) == RegistersOf([lw]) == [m] && LoadsOf([lv]) == [v] && LoadsOf([lw]) == [w];
    var (ms, d') := InterpretSteps(0, d, [m], cDag);
    assert ms == [ms[0]];
    ConsumeTells(0, d', ms[0], v, w);
    assert RunLanes(p, Emit(d), [lv], cDag) == [ExecAll(p, Emit(d), lv, cDag)];
    assert RunLanes(p, Emit(d), [lw], cDag) == [ExecAll(p, Emit(d), lw, cDag)];
  }

  // ----- the run

  const NO_WORDS: Words := [0, 0, 0, 0]
  const ONE_WORD: Words := [1, 0, 0, 0]

  /** A DAG of two rows that differ in one word, in the entry that lane 0 loads in loop 0. */
  function TwoRows(): (gDag: seq<Words>)
    ensures |gDag| == 2 * LANES
    ensures forall i :: 0 <= i < 2 * LANES ==> gDag[i] == if i == LANES then ONE_WORD else NO_WORDS
  {
    seq(2 * LANES, i => if i == LANES then ONE_WORD else NO_WORDS)
  }

  /** What lane 0 loads in loop 0: its entry of the row that the word modulo 2 says. */
  function RowOf(word0: nat): Words {
    if word0 % 2 == 1 then ONE_WORD else NO_WORDS
  }

  /** Lane 1 loads the same from either row. */
  lemma EntriesOfTwoRows(word0: nat, cDag: CacheDag)
    ensures var env := Env(TwoRows(), cDag);
            && Entry(env.gDag, Target(0, word0, 0, env)) == RowOf(word0)
            && Entry(env.gDag, Target(1, word0, 0, env)) == NO_WORDS
  {
    assert XorNumbers(0, 0) == 0;
    assert XorNumbers(1, 0) == 2 * XorNumbers(0, 0) + 1;
    hide XorNumbers;
  }

  /** Lane 1, which writes for loop 1, comes first, and lane 0 second. */
  function Hasty(): (order: seq<nat>)
    ensures |order| == LANES && AreLanes(order) && order[0] == 1 && order[1] == 0 && order[LANES - 1] == LANES - 1
  {
    Swapped(Identity(LANES), 0, 1)
  }

  lemma HastyIsOrder()
    ensures IsOrder(Hasty()) && HastyOrders([Identity(LANES), Hasty()])
  {
    hide Identity;
    SwapKeepsContents(Identity(LANES), 0, 1);
  }

  /** Lane 0 goes on with the word for the next loop. */
  ghost predicate IsLate(blockNumber: bv64, g: Group, env: Env)
    requires GroupFits(g) && LANES <= |env.gDag|
  {
    hide IntoNext, Interpreted, Number, Emitted, Prepared;
    var early := Number(Turned(Interpreted(blockNumber, MixOf(g), 0, env), 1));
    IntoNext(blockNumber, Hasty(), g, env).members[0].lane ==
    Emitted(OpenCl, Prepared(blockNumber), 0, g.members[0], early, env)
  }

  lemma LateLane(blockNumber: bv64, g: Group, env: Env)
    requires GroupFits(g) && InStep(g, 0) && g.share == FirstWord(g, 0) && LANES <= |env.gDag| < WORD
    ensures IsLate(blockNumber, g, env)
  {
    hide RunStretch, LaneRun, Turn, Emitted, GroupCodeFits, IsPermutation, Distinct, Interpreted, Number, Prepared,
         IntoNext,
         GoesOn;
    var d, order := Prepared(blockNumber), Hasty();
    var q := Turn(OpenCl, d);
    HastyIsOrder();
    OrderCovers(order);
    TurnIsApart(OpenCl, d);
    IntoNextUnfolds(blockNumber, order, g, env);
    EachRunsOnce(OpenCl, q + [Share], order, g, 0, env);
    var g1 := RunStretch(OpenCl, q + [Share], [order[0]], g, env);
    FoundByLate(OpenCl, q + [Share], order, g, env);
    StretchOfOne(OpenCl, q + [Share], 1, g, env);
    TurnGoesOn(d, 1, g.members[1], env);
    LaneThenShare(OpenCl, q, 1, g.members[1], g.share, 1, env);
    TurnRun(OpenCl, d, 1, g.members[1], g.share, env);
    LaneIsInterpreted(OpenCl, blockNumber, g, 1, 0, env);
    TurnGoesOn(d, 0, g.members[0], env);
    LaneThenShare(OpenCl, q, 0, g.members[0], g1.share, 1, env);
    TurnRun(OpenCl, d, 0, g.members[0], g1.share, env);
  }

  lemma FoundByLate(p: Prelude, code: seq<GroupStmt>, order: seq<nat>, g: Group, env: Env)
    requires GroupFits(g) && GroupCodeFits(code) && order == Hasty()
    ensures Finds(p, code, order, g, 0, env) == RunStretch(p, code, [1], g, env).share
  {
    hide RunStretch, GroupCodeFits;
    assert order[1..][0] == 0;
  }

  lemma EmittedLoads(p: Prelude, d: Source, id: nat, m: Member, word0: nat, env: Env)
    requires LaneFits(m.lane)
    ensures Emitted(p, d, id, m, word0, env).mix ==
            MixAfter(p, d, m.lane, Entry(env.gDag, Target(id, word0, m.loop, env)), env.cDag)
  {
    hide Emit, ExecAll, Target, CodeFits;
  }

  /** On these two rows lane 1 ends the loop with the same register whatever the word, and lane 0 with
      different registers for words of different parity. */
  lemma OnTwoRows(blockNumber: bv64, g: Group, cDag: CacheDag)
    requires GroupFits(g) && InStep(g, 0) && g.share == FirstWord(g, 0)
    ensures ParityShows(blockNumber, g, cDag)
  {
    hide IntoNext, Interpreted, Number, Emitted, Prepared, MixAfter, Turned, FirstWord;
    var d, env := Prepared(blockNumber), Env(TwoRows(), cDag);
    var word0 := Number(FirstWord(g, 0));
    var early := Number(Turned(Interpreted(blockNumber, MixOf(g), 0, env), 1));
    LateLane(blockNumber, g, env);
    LaneIsInterpreted(OpenCl, blockNumber, g, 0, 0, env);
    LaneIsInterpreted(OpenCl, blockNumber, g, 1, 0, env);
    EmittedLoads(OpenCl, d, 0, g.members[0], word0, env);
    EmittedLoads(OpenCl, d, 0, g.members[0], early, env);
    EmittedLoads(OpenCl, d, 1, g.members[1], word0, env);
    EntriesOfTwoRows(word0, cDag);
    EntriesOfTwoRows(early, cDag);
  }

  ghost predicate ParityShows(blockNumber: bv64, g: Group, cDag: CacheDag)
    requires GroupFits(g)
  {
    hide IntoNext, Interpreted, Number, Emitted, Prepared, MixAfter, Turned;
    var d, env := Prepared(blockNumber), Env(TwoRows(), cDag);
    var after := Interpreted(blockNumber, MixOf(g), 0, env);
    && after[1] == MixAfter(OpenCl, d, g.members[1].lane, NO_WORDS, cDag)
    && after[0] == MixAfter(OpenCl, d, g.members[0].lane, RowOf(Number(FirstWord(g, 0))), cDag)
    && IntoNext(blockNumber, Hasty(), g, env).members[0].lane.mix ==
       MixAfter(OpenCl, d, g.members[0].lane, RowOf(Number(Turned(after, 1))), cDag)
  }

  /** The lanes with another first register in lane 0. */
  function WithFirst(g: Group, x: bv32): (r: Group)
    requires GroupFits(g)
    ensures GroupFits(r)
  {
    var m := g.members[0];
    g.(members := g.members[0 := m.(lane := m.lane.(mix := m.lane.mix[0 := x]))])
  }

  /** The first two stretches of a run of n loops, the second with the hasty writer. */
  ghost predicate HastyOrders(orders: seq<seq<nat>>) {
    AreOrders(orders) && |orders| == 2 && orders[1] == Hasty()
  }

  ghost function HastyRun(blockNumber: bv64, n: nat, orders: seq<seq<nat>>, g: Group, env: Env): (r: Group)
    requires GroupFits(g) && HastyOrders(orders)
    ensures GroupFits(r)
  {
    hide Loops, RunGroup, IsOrder, Hasty;
    RunGroup(OpenCl, Loops(OpenCl, blockNumber, n), orders, g, env)
  }

  lemma HastyRunUnfolds(blockNumber: bv64, n: nat, orders: seq<seq<nat>>, g: Group, env: Env)
    requires GroupFits(g) && HastyOrders(orders)
    ensures HastyRun(blockNumber, n, orders, g, env) ==
            RunGroup(OpenCl, Loops(OpenCl, blockNumber, n), orders, g, env)
  {
    hide Loops, RunStretch, Meet, Stretch, IsOrder, Hasty;
  }

  lemma HastyRunIsIntoNext(blockNumber: bv64, n: nat, orders: seq<seq<nat>>, g: Group, g1: Group, env: Env)
    requires n > 1 && GroupFits(g) && InStep(g, 0) && HastyOrders(orders)
    requires g1 == RunStretch(OpenCl, [Share], orders[0], g, env)
    ensures g1.share == FirstWord(g, 0) && LanesOf(g1) == LanesOf(g) && InStep(g1, 0)
    ensures HastyRun(blockNumber, n, orders, g, env) == IntoNext(blockNumber, Hasty(), g1, env)
  {
    hide RunGroup, RunStretch, Onward, Loops, Turn, Prepared, Apart, GroupCodeFits, IsPermutation, Hasty, HastyRun,
         IntoNext;
    HastyRunUnfolds(blockNumber, n, orders, g, env);
    LoopsUnfold(OpenCl, blockNumber, n);
    BeforeIsApart(OpenCl);
    ExchangeHands(OpenCl, orders[0], g, 0, env);
    RunSegment(OpenCl, [Share], Barrier, Onward(OpenCl, blockNumber, n), orders, g, env);
    var q := Turn(OpenCl, Prepared(blockNumber));
    TurnIsApart(OpenCl, Prepared(blockNumber));
    OnwardUnfolds(OpenCl, blockNumber, n);
    var rest, second := Onward(OpenCl, blockNumber, n - 1), orders[1..];
    assert second == [Hasty()] && |second[1..]| == 0;
    RunSegment(OpenCl, q + [Share], Barrier, rest, second, g1, env);
    IntoNextUnfolds(blockNumber, Hasty(), g1, env);
    RunEnds(rest, IntoNext(blockNumber, Hasty(), g1, env), env);
  }

  lemma RunEnds(code: seq<GroupStmt>, g: Group, env: Env)
    requires GroupFits(g) && GroupCodeFits(code)
    ensures RunGroup(OpenCl, code, [], g, env) == g
  {
  }

  /** Lane 0 does not hold the registers of the interpreter after that run, because some lane has not
      read its own loop's word. */
  ghost predicate GoesWrong(blockNumber: bv64, n: nat, orders: seq<seq<nat>>, g: Group, env: Env)
    requires GroupFits(g) && HastyOrders(orders) && LANES <= |env.gDag|
  {
    hide HastyRun, Interpreted, ReadsOwn, RunStretch, IsPermutation, Hasty;
    && MixOf(HastyRun(blockNumber, n, orders, g, env))[0] != Interpreted(blockNumber, MixOf(g), 0, env)[0]
    && !ReadsOwn(blockNumber, Hasty(), RunStretch(OpenCl, [Share], orders[0], g, env), env)
  }

  /** For every block number, number of loops, cache and registers of the lanes there is a first register
      of lane 0 with which it goes wrong in the first loop when lane 1 is ahead of it. */
  lemma SlowLaneGoesWrong(blockNumber: bv64, n: nat, orders: seq<seq<nat>>, g0: Group, cDag: CacheDag)
    returns (x: bv32)
    requires n > 1 && GroupFits(g0) && InStep(g0, 0) && HastyOrders(orders)
    ensures GoesWrong(blockNumber, n, orders, WithFirst(g0, x), Env(TwoRows(), cDag))
  {
    hide HastyRun, IntoNext, Interpreted, Number, Prepared, MixAfter, IsPermutation, ReadsOwn, InTime, RowOf, Hasty,
         TwoRows;
    var d, env := Prepared(blockNumber), Env(TwoRows(), cDag);
    var early := MixAfter(OpenCl, d, g0.members[1].lane, NO_WORDS, cDag)[0];
    x := if Number(early) % 2 == 0 then 1 else 0;
    var g := WithFirst(g0, x);
    var g1 := RunStretch(OpenCl, [Share], orders[0], g, env);
    HastyRunIsIntoNext(blockNumber, n, orders, g, g1, env);
    assert g1.members[1].lane == g0.members[1].lane && FirstWord(g1, 0) == x by {
      assert LanesOf(g1)[1] == LanesOf(g)[1] && LanesOf(g1)[0] == LanesOf(g)[0];
    }
    OnTwoRows(blockNumber, g1, cDag);
    ParityOfChoice(Number(early), x);
    RowsDiffer(Number(early), Number(x));
    EmitTells(OpenCl, d, g1.members[0].lane, RowOf(Number(early)), RowOf(Number(x)), cDag);
    IntoNextIff(blockNumber, Hasty(), g1, 0, env);
  }

  lemma RowsDiffer(m: nat, n: nat)
    requires m % 2 != n % 2
    ensures RowOf(m)[0] != RowOf(n)[0] && RowOf(m)[1..] == RowOf(n)[1..]
  {
  }

  lemma ParityOfChoice(n: nat, x: bv32)
    requires x == if n % 2 == 0 then 1 else 0
    ensures n % 2 != Number(x) % 2
  {
  }
}
