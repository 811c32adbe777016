/** Staged compilation of the whole loop body is correct (libprogpow/ProgPow.cpp): the exchange
    between lanes and the 32-bit address arithmetic load what the interpreter loads, in whatever
    order the lanes run, and what follows computes what the interpreter computes. */
module ProgPowCorrect {
  import opened CommonData
  import opened Kiss99
  import opened ProgPow
  import opened ProgPowGroup
  import opened ProgPowKernel
  import opened ProgPowStaging
  import opened ProgPowWords
  import opened Shuffle

  function LanesOf(g: Group): (ls: seq<Lane>)
    requires GroupFits(g)
    ensures |ls| == LANES && LanesFit(ls)
  {
    seq(LANES, l requires 0 <= l < LANES => g.members[l].lane)
  }

  function MixOf(g: Group): (ms: seq<Registers>)
    requires GroupFits(g)
    ensures |ms| == LANES
  {
    RegistersOf(LanesOf(g))
  }

  // ----- the address

  /** offset after the two assignments, from the word that the exchange delivered. */
  function Target(id: nat, offset: nat, loop: word, env: Env): nat {
    Wrap(Wrap(Remainder(offset, Rows(env.gDag)) * LANES) + Remainder(XorNumbers(id, loop), LANES))
  }

  /** The 32-bit arithmetic does not wrap and ends on the entry that the lane is meant to load. */
  lemma TargetIsEntry(ms: seq<Registers>, id: nat, loop: word, env: Env)
    requires |ms| == LANES && id < LANES && LANES <= |env.gDag| < WORD
    ensures Entry(env.gDag, Target(id, Number(ms[loop % LANES][0]), loop, env)) == GlobalLoad(ms, loop, env.gDag)[id]
  {
    hide Number, XorNumbers;
    var row, column := Row(ms, loop, env.gDag), Column(id, loop);
    assert Remainder(Number(ms[loop % LANES][0]), Rows(env.gDag)) == row;
    assert Remainder(XorNumbers(id, loop), LANES) == column;
    DivModUnique(row * LANES, WORD, 0, row * LANES);
    DivModUnique(row * LANES + column, WORD, 0, row * LANES + column);
  }

  // ----- one lane after the exchange

  lemma LoadRun(p: Prelude, id: nat, m: Member, share: bv32, env: Env)
    requires LaneFits(m.lane)
    ensures var t := Target(id, m.offset, m.loop, env);
            LaneRun(p, LoadCode(), id, m, share, env) ==
            (m.(lane := m.lane.(loaded := Entry(env.gDag, t)), offset := t), share)
  {
    hide LaneRun, Compute;
    var e1 := Modulo(Offset, DagElements);
    var e2 := Sum(Product(Offset, Literally(LANES)), Modulo(Exclusive(LaneId, LoopNumber), Literally(LANES)));
    var s1, s2 := SetOffset(e1), SetOffset(e2);
    AddressesCompute(id, m.offset, m.loop, env);
    var m1 := m.(offset := Compute(e1, id, m.offset, m.loop, env));
    var m2 := m1.(offset := Compute(e2, id, m1.offset, m.loop, env));
    var m3 := m2.(lane := m2.lane.(loaded := Entry(env.gDag, m2.offset)));
    LaneRunOne(p, s1, id, m, share, env);
    LaneRunOne(p, s2, id, m1, share, env);
    LaneRunOne(p, LoadDag, id, m2, share, env);
    LaneRunOne(p, Fence, id, m3, share, env);
    LaneRunConcat(p, [s1], [s2], id, m, share, env);
    LaneRunConcat(p, [s1] + [s2], [LoadDag], id, m, share, env);
    LaneRunConcat(p, [s1] + [s2] + [LoadDag], [Fence], id, m, share, env);
    assert LoadCode() == [s1] + [s2] + [LoadDag] + [Fence];
  }

  lemma AddressesCompute(id: nat, offset: nat, loop: word, env: Env)
    ensures var first := Compute(Modulo(Offset, DagElements), id, offset, loop, env);
            && first == Remainder(offset, Rows(env.gDag))
            && Compute(Sum(Product(Offset, Literally(LANES)), Modulo(Exclusive(LaneId, LoopNumber), Literally(LANES))),
                       id, first, loop, env) == Target(id, offset, loop, env)
  {
    hide XorNumbers, Wrap, Remainder, Rows;
    var first := Remainder(offset, Rows(env.gDag));
    assert Compute(Product(Offset, Literally(LANES)), id, first, loop, env) == Wrap(first * LANES);
    assert Compute(Exclusive(LaneId, LoopNumber), id, first, loop, env) == XorNumbers(id, loop);
  }

  /** What Emit leaves on a lane that loads the entry to which an exchanged word leads. */
  function Emitted(p: Prelude, d: Source, id: nat, m: Member, word0: nat, env: Env): Lane
    requires LaneFits(m.lane)
  {
    hide Emit, ExecAll, Target, CodeFits;
    ExecAll(p, Emit(d), m.lane.(loaded := Entry(env.gDag, Target(id, word0, m.loop, env))), env.cDag)
  }

  /** A lane that has the exchanged word as its offset does that. */
  lemma RestRun(p: Prelude, d: Source, id: nat, m: Member, share: bv32, env: Env)
    requires LaneFits(m.lane)
    ensures var r := LaneRun(p, Rest(d), id, m, share, env).0;
            r.lane == Emitted(p, d, id, m, m.offset, env) && r.loop == m.loop
  {
    hide LaneRun, LoadCode, Locals, Steps, Consume, ExecAll, Target, GroupCodeFits, CodeFits;
    var (body, d') := Steps(0, d);
    var tail := Consume(0, d').0;
    var (m1, _) := LaneRun(p, LoadCode(), id, m, share, env);
    LoadRun(p, id, m, share, env);
    var m2 := m1.(lane := ExecAll(p, body, m1.lane, env.cDag));
    LocalsRun(p, body, id, m1, share, env);
    LaneRunConcat(p, LoadCode(), Locals(body), id, m, share, env);
    LaneRunOne(p, Fence, id, m2, share, env);
    LaneRunConcat(p, LoadCode() + Locals(body), [Fence], id, m, share, env);
    LocalsRun(p, tail, id, m2, share, env);
    LaneRunConcat(p, LoadCode() + Locals(body) + [Fence], Locals(tail), id, m, share, env);
    ExecConcat(p, body, tail, m1.lane, env.cDag);
  }

  /** What follows the meeting point in a loop body. */
  function Body(p: Prelude, d: Source): (code: seq<GroupStmt>)
    ensures GroupCodeFits(code)
  {
    hide Rest;
    After(p) + Rest(d)
  }

  /** The word that a lane goes on with: in OpenCL the shared one, in CUDA it has it as its offset. */
  function WordOf(p: Prelude, m: Member, share: bv32): nat {
    hide Number;
    if p == Cuda then m.offset else Number(share)
  }

  lemma BodyRun(p: Prelude, d: Source, id: nat, m: Member, share: bv32, env: Env)
    requires LaneFits(m.lane)
    ensures var r := LaneRun(p, Body(p, d), id, m, share, env).0;
            r.lane == Emitted(p, d, id, m, WordOf(p, m, share), env) && r.loop == m.loop
  {
    hide LaneRun, Rest, Emitted, Number, GroupCodeFits;
    if p == Cuda {
      assert [] + Rest(d) == Rest(d);
      RestRun(p, d, id, m, share, env);
    } else {
      LaneRunOne(p, LoadShare, id, m, share, env);
      LaneRunConcat(p, [LoadShare], Rest(d), id, m, share, env);
      var m1 := m.(offset := Number(share));
      RestRun(p, d, id, m1, share, env);
      OffsetIsOverwritten(p, d, id, m, m1, Number(share), env);
    }
  }

  lemma OffsetIsOverwritten(p: Prelude, d: Source, id: nat, m: Member, m1: Member, word0: nat, env: Env)
    requires LaneFits(m.lane) && m1.lane == m.lane && m1.loop == m.loop
    ensures Emitted(p, d, id, m, word0, env) == Emitted(p, d, id, m1, word0, env)
  {
    hide Emit, ExecAll, Target, CodeFits;
  }

  // ----- stretches of a run

  /** Code in which the lanes do not meet. */
  predicate Apart(code: seq<GroupStmt>) {
    forall i :: 0 <= i < |code| ==> !Meets(code[i])
  }

  lemma BodyIsApart(p: Prelude, d: Source)
    ensures Apart(Body(p, d)) && Share !in Body(p, d)
  {
    hide Steps, Consume;
  }

  lemma {:induction false} StretchOfApart(code: seq<GroupStmt>, rest: seq<GroupStmt>)
    requires Apart(code) && (rest != [] ==> Meets(rest[0]))
    ensures Stretch(code + rest) == |code|
  {
    if code == [] {
      assert code + rest == rest;
    } else {
      assert (code + rest)[1..] == code[1..] + rest && (code + rest)[0] == code[0];
      StretchOfApart(code[1..], rest);
    }
  }

  /** A run up to the first meeting point and on from there. */
  lemma RunSegment(
    p: Prelude, code: seq<GroupStmt>, s: GroupStmt, rest: seq<GroupStmt>, orders: seq<seq<nat>>, g: Group, env: Env)
    requires GroupFits(g) && AreOrders(orders) && orders != []
    requires GroupCodeFits(code) && GroupStmtFits(s) && GroupCodeFits(rest) && Apart(code) && Meets(s)
    ensures GroupCodeFits(code + [s] + rest) && AreLanes(orders[0])
    ensures RunGroup(p, code + [s] + rest, orders, g, env) ==
            RunGroup(p, rest, orders[1..], Meet(s, RunStretch(p, code, orders[0], g, env)), env)
  {
    hide RunStretch, Meet, IsPermutation, GroupStmtFits;
    var whole := code + [s] + rest;
    assert IsOrder(orders[0]);
    assert whole == code + ([s] + rest);
    StretchOfApart(code, [s] + rest);
    assert whole[..|code|] == code && whole[|code|] == s && whole[|code| + 1..] == rest;
  }

  lemma RunLast(p: Prelude, code: seq<GroupStmt>, orders: seq<seq<nat>>, g: Group, env: Env)
    requires GroupFits(g) && AreOrders(orders) && orders != [] && GroupCodeFits(code) && Apart(code)
    ensures AreLanes(orders[0])
    ensures RunGroup(p, code, orders, g, env) == RunStretch(p, code, orders[0], g, env)
  {
    hide RunStretch, IsPermutation, GroupCodeFits;
    assert IsOrder(orders[0]);
    StretchOfApart(code, []);
    assert code + [] == code && code[..|code|] == code;
  }

  lemma OrderCovers(order: seq<nat>)
    requires IsOrder(order)
    ensures Distinct(order) && forall l: nat :: l < LANES ==> l in order
  {
    hide IsPermutation, Distinct;
    PermutationCovers(order, LANES);
  }

  // ----- the exchange

  /** Every lane is about to go on with the same word. */
  ghost predicate Handed(p: Prelude, g: Group, word0: bv32)
    requires GroupFits(g)
  {
    if p == Cuda then forall l :: 0 <= l < LANES ==> g.members[l].offset == Number(word0) else g.share == word0
  }

  function FirstWord(g: Group, loop: word): bv32
    requires GroupFits(g)
  {
    MixOf(g)[loop % LANES][0]
  }

  /** Under either prelude and in any order, each lane goes on with the first register of the lane
      whose turn it is, and nothing else has changed. */
  lemma ExchangeHands(p: Prelude, order: seq<nat>, g: Group, loop: word, env: Env)
    requires GroupFits(g) && InStep(g, loop) && IsOrder(order)
    ensures var r := Meet(Point(p), RunStretch(p, Before(p), order, g, env));
            && Handed(p, r, FirstWord(g, loop)) && LanesOf(r) == LanesOf(g) && InStep(r, loop)
  {
    hide LaneRun, IsPermutation, Distinct, Number, RunStretch;
    OrderCovers(order);
    match p
    case Cuda => NothingRuns(p, order, g, env);
    case OpenCl => ShareStretch(p, order, g, loop, env);
  }

  lemma {:induction false} NothingRuns(p: Prelude, order: seq<nat>, g: Group, env: Env)
    requires GroupFits(g) && AreLanes(order)
    ensures RunStretch(p, [], order, g, env) == g
    decreases |order|
  {
    if order != [] {
      assert g.members[order[0] := g.members[order[0]]] == g.members;
      NothingRuns(p, order[1..], g, env);
    }
  }

  // ----- one body

  /** What all lanes hold if each went on with the word of the lane whose turn it is. */
  ghost predicate AllEmitted(p: Prelude, d: Source, g: Group, r: Group, loop: word, env: Env)
    requires GroupFits(g) && GroupFits(r)
  {
    forall l: nat :: l < LANES ==> r.members[l].lane == Emitted(p, d, l, g.members[l], Number(FirstWord(g, loop)), env)
  }

  lemma EmittedIsInterpreted(p: Prelude, blockNumber: bv64, g: Group, r: Group, loop: word, env: Env)
    requires GroupFits(g) && GroupFits(r) && InStep(g, loop) && LANES <= |env.gDag| < WORD
    requires AllEmitted(p, Prepared(blockNumber), g, r, loop, env)
    ensures MixOf(r) == Interpret(Prepared(blockNumber), MixOf(g), loop, env.gDag, env.cDag)
  {
    hide Prepared, Emit, Interpret, GlobalLoad, Number, Target, ExecAll, CodeFits;
    var d := Prepared(blockNumber);
    var loaded := GlobalLoad(MixOf(g), loop, env.gDag);
    var ls := seq(LANES, l requires 0 <= l < LANES => g.members[l].lane.(loaded := loaded[l]));
    forall l: nat | l < LANES ensures r.members[l].lane == ExecAll(p, Emit(d), ls[l], env.cDag) {
      TargetIsEntry(MixOf(g), l, loop, env);
    }
    assert RegistersOf(ls) == MixOf(g) && LoadsOf(ls) == loaded;
    ProgramIsInterpreted(p, blockNumber, loop, ls, env.gDag, env.cDag);
    assert MixOf(r) == RegistersOf(RunLanes(p, Program(blockNumber), ls, env.cDag));
  }

  /** A last stretch that only one body is in: every lane runs it once. */
  lemma BodyStretch(p: Prelude, d: Source, order: seq<nat>, g: Group, loop: word, env: Env)
    requires GroupFits(g) && InStep(g, loop) && IsOrder(order) && Handed(p, g, FirstWord(g, loop))
    ensures AllEmitted(p, d, g, RunStretch(p, Body(p, d), order, g, env), loop, env)
  {
    hide LaneRun, RunStretch, Body, Emitted, FirstWord, Number, IsPermutation, Distinct;
    OrderCovers(order);
    BodyIsApart(p, d);
    QuietStretch(p, Body(p, d), order, g, env);
    forall l: nat | l < LANES
      ensures LaneRun(p, Body(p, d), l, g.members[l], g.share, env).0.lane ==
              Emitted(p, d, l, g.members[l], Number(FirstWord(g, loop)), env)
    {
      BodyRun(p, d, l, g.members[l], g.share, env);
    }
  }

  /** For every block number, loop, registers, DAG, prelude and order of the lanes: running the whole
      emitted loop body on sixteen lanes leaves the registers that the interpreter leaves, which draws
      the same random numbers as it goes. What the other variables and the shared word held before
      does not matter. */
  lemma StagingIsCorrect(p: Prelude, blockNumber: bv64, orders: seq<seq<nat>>, g: Group, loop: word, env: Env)
    requires GroupFits(g) && InStep(g, loop) && AreOrders(orders) && |orders| >= 2 && LANES <= |env.gDag| < WORD
    ensures MixOf(RunGroup(p, Kernel(p, blockNumber), orders, g, env)) ==
            Interpret(Prepared(blockNumber), MixOf(g), loop, env.gDag, env.cDag)
  {
    hide Prepared, Rest, Interpret, Number, RunGroup, RunStretch, Meet, GroupCodeFits, Apart, IsPermutation, AllEmitted,
         Emitted, Handed;
    var d := Prepared(blockNumber);
    assert IsOrder(orders[0]) && IsOrder(orders[1]);
    BodyIsApart(p, d);
    BeforeIsApart(p);
    assert Kernel(p, blockNumber) == Before(p) + [Point(p)] + Body(p, d);
    RunSegment(p, Before(p), Point(p), Body(p, d), orders, g, env);
    var g1 := Meet(Point(p), RunStretch(p, Before(p), orders[0], g, env));
    ExchangeHands(p, orders[0], g, loop, env);
    RunLast(p, Body(p, d), orders[1..], g1, env);
    BodyStretch(p, d, orders[1], g1, loop, env);
    EmittedIsInterpreted(p, blockNumber, g1, RunStretch(p, Body(p, d), orders[1], g1, env), loop, env);
  }

  lemma BeforeIsApart(p: Prelude)
    ensures Apart(Before(p))
  {
  }
}
