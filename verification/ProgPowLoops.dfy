/** Consecutive loop bodies (the loop over progPowLoop in ethash_search, libethash-cl/CLMiner_kernel.cl).

    After the last meeting point of one body a lane goes on into the next, up to the next meeting
    point. In OpenCL that stretch begins with reading the shared word and ends with one of the lanes
    writing it for the next loop, so a lane that comes after the writer reads the wrong word. In CUDA
    there is no such word. */
module ProgPowLoops {
  import opened Kiss99
  import opened ProgPow
  import opened ProgPowCorrect
  import opened ProgPowGroup
  import opened ProgPowKernel
  import opened ProgPowStaging
  import opened ProgPowWords
  import opened Shuffle

  /** The registers after one interpreted loop of a block's program. */
  function Interpreted(blockNumber: bv64, ms: seq<Registers>, loop: word, env: Env): (r: seq<Registers>)
    requires |ms| == LANES && LANES <= |env.gDag|
    ensures |r| == LANES
  {
    hide Interpret, Prepared;
    Interpret(Prepared(blockNumber), ms, loop, env.gDag, env.cDag)
  }

  /** n loops, each interpreted. */
  function InterpretedLoops(n: nat, blockNumber: bv64, ms: seq<Registers>, loop: word, env: Env): seq<Registers>
    requires |ms| == LANES && LANES <= |env.gDag|
  {
    hide Interpreted;
    if n == 0 then ms
    else InterpretedLoops(n - 1, blockNumber, Interpreted(blockNumber, ms, loop, env), Following(loop), env)
  }

  // ----- the shared word during a stretch

  /** What lane l finds in the shared word when it begins the stretch. */
  function Finds(p: Prelude, code: seq<GroupStmt>, order: seq<nat>, g: Group, l: nat, env: Env): bv32
    requires GroupFits(g) && GroupCodeFits(code) && AreLanes(order)
    decreases |order|
  {
    hide RunStretch, GroupCodeFits;
    if order == [] || order[0] == l then g.share
    else Finds(p, code, order[1..], RunStretch(p, code, [order[0]], g, env), l, env)
  }

  /** Lane l finds what the stretch began with. */
  ghost predicate FindsFirst(p: Prelude, code: seq<GroupStmt>, order: seq<nat>, g: Group, l: nat, env: Env)
    requires GroupFits(g) && GroupCodeFits(code) && AreLanes(order)
  {
    hide GroupCodeFits;
    Finds(p, code, order, g, l, env) == g.share
  }

  lemma FindsMeans(p: Prelude, code: seq<GroupStmt>, order: seq<nat>, g: Group, l: nat, env: Env)
    requires GroupFits(g) && GroupCodeFits(code) && AreLanes(order)
    ensures FindsFirst(p, code, order, g, l, env) ==> Finds(p, code, order, g, l, env) == g.share
  {
    hide GroupCodeFits;
  }

  lemma StretchOfOne(p: Prelude, code: seq<GroupStmt>, l: nat, g: Group, env: Env)
    requires GroupFits(g) && GroupCodeFits(code) && l < LANES
    ensures var (m, share) := LaneRun(p, code, l, g.members[l], g.share, env);
            RunStretch(p, code, [l], g, env) == Group(g.members[l := m], share)
  {
    hide LaneRun, GroupCodeFits;
    var (m, share) := LaneRun(p, code, l, g.members[l], g.share, env);
    assert [l][1..] == [];
    assert RunStretch(p, code, [], Group(g.members[l := m], share), env) == Group(g.members[l := m], share);
  }

  /** Every lane runs the stretch once, from the word that it finds. */
  lemma {:induction false} EachRunsOnce(
    p: Prelude, code: seq<GroupStmt>, order: seq<nat>, g: Group, l: nat, env: Env)
    requires GroupFits(g) && GroupCodeFits(code) && AreLanes(order) && Distinct(order) && l < LANES
    ensures RunStretch(p, code, order, g, env).members[l] ==
            if l in order then LaneRun(p, code, l, g.members[l], Finds(p, code, order, g, l, env), env).0
            else g.members[l]
    decreases |order|
  {
    hide LaneRun, GroupCodeFits;
    if order != [] {
      StretchOfOne(p, code, order[0], g, env);
      EachRunsOnce(p, code, order[1..], RunStretch(p, code, [order[0]], g, env), l, env);
    }
  }

  /** Whatever lane l finds, q leaves it in the next loop. */
  ghost predicate GoesOn(p: Prelude, q: seq<GroupStmt>, l: nat, m: Member, next: word, env: Env)
    requires LaneFits(m.lane) && GroupCodeFits(q)
  {
    forall s :: LaneRun(p, q, l, m, s, env).0.loop == next
  }

  /** Running q and then sharing: the word changes exactly if it is this lane's turn. */
  lemma LaneThenShare(p: Prelude, q: seq<GroupStmt>, l: nat, m: Member, share: bv32, next: word, env: Env)
    requires LaneFits(m.lane) && GroupCodeFits(q) && Share !in q && GoesOn(p, q, l, m, next, env)
    ensures GroupCodeFits(q + [Share])
    ensures var after := LaneRun(p, q, l, m, share, env).0;
            LaneRun(p, q + [Share], l, m, share, env) ==
            (after, if l == next % LANES then after.lane.mix[0] else share)
  {
    hide LaneRun;
    var after := LaneRun(p, q, l, m, share, env).0;
    KeepsShare(p, q, l, m, share, env);
    LaneRunOne(p, Share, l, after, share, env);
    LaneRunConcat(p, q, [Share], l, m, share, env);
  }

  /** Whoever comes first finds the first word, and the others what they find in the rest. */
  lemma FirstFinds(p: Prelude, code: seq<GroupStmt>, order: seq<nat>, g: Group, l: nat, env: Env)
    requires GroupFits(g) && GroupCodeFits(code) && AreLanes(order) && order != []
    ensures var g1 := RunStretch(p, code, [order[0]], g, env);
            && (l == order[0] ==> FindsFirst(p, code, order, g, l, env))
            && (l != order[0] && g1.share == g.share ==>
                  (FindsFirst(p, code, order, g, l, env) <==> FindsFirst(p, code, order[1..], g1, l, env)))
            && (l != order[0] && g1.share != g.share && FindsFirst(p, code, order[1..], g1, l, env) ==>
                  !FindsFirst(p, code, order, g, l, env))
  {
    hide LaneRun, GroupCodeFits;
  }

  /** All lanes of an order find what the stretch began with. */
  ghost predicate AllFindFirst(p: Prelude, code: seq<GroupStmt>, order: seq<nat>, g: Group, env: Env)
    requires GroupFits(g) && GroupCodeFits(code) && AreLanes(order)
  {
    hide GroupCodeFits, FindsFirst;
    forall l :: l in order ==> FindsFirst(p, code, order, g, l, env)
  }

  /** They do exactly if the others do and the first lane has not changed the word for them. */
  lemma AllFindRest(p: Prelude, code: seq<GroupStmt>, order: seq<nat>, g: Group, env: Env)
    requires GroupFits(g) && GroupCodeFits(code) && AreLanes(order) && Distinct(order) && order != []
    ensures var rest, g1 := order[1..], RunStretch(p, code, [order[0]], g, env);
            && (g1.share == g.share ==>
                  (AllFindFirst(p, code, order, g, env) <==> AllFindFirst(p, code, rest, g1, env)))
            && (rest == [] ==> AllFindFirst(p, code, order, g, env))
            && (g1.share != g.share && rest != [] && AllFindFirst(p, code, rest, g1, env) ==>
                  !AllFindFirst(p, code, order, g, env))
  {
    hide RunStretch, GroupCodeFits, FindsFirst;
    var rest, g1 := order[1..], RunStretch(p, code, [order[0]], g, env);
    forall l | l in order
      ensures l == order[0] ==> FindsFirst(p, code, order, g, l, env)
      ensures l != order[0] && g1.share == g.share ==>
                (FindsFirst(p, code, order, g, l, env) <==> FindsFirst(p, code, rest, g1, l, env))
      ensures l != order[0] && g1.share != g.share && FindsFirst(p, code, rest, g1, l, env) ==>
                !FindsFirst(p, code, order, g, l, env)
    {
      FirstFinds(p, code, order, g, l, env);
    }
    assert forall l :: l in order <==> l == order[0] || l in rest;
    assert rest != [] ==> rest[0] in rest && rest[0] in order;
  }

  /** A stretch that ends with sharing: its writer finds the first word, and so does everyone else
      exactly if the writer comes last or writes the same word again. */
  lemma {:induction false} WriterStretch(
    p: Prelude, q: seq<GroupStmt>, order: seq<nat>, g: Group, next: word, env: Env)
    requires GroupFits(g) && GroupCodeFits(q) && Share !in q && AreLanes(order) && Distinct(order)
    requires forall l :: l in order ==> GoesOn(p, q, l, g.members[l], next, env)
    ensures GroupCodeFits(q + [Share])
    ensures var w := next % LANES;
            var v := LaneRun(p, q, w, g.members[w], g.share, env).0.lane.mix[0];
            var own := AllFindFirst(p, q + [Share], order, g, env);
            && RunStretch(p, q + [Share], order, g, env).share == (if w in order then v else g.share)
            && (w !in order ==> own)
            && (w in order ==> (own <==> order[|order| - 1] == w || v == g.share))
    decreases |order|
  {
    hide LaneRun, GroupCodeFits, GoesOn, AllFindFirst;
    var code := q + [Share];
    ShareFits(q);
    if order == [] {
      NobodyFinds(p, code, order, g, env);
    } else {
      var x, rest := order[0], order[1..];
      var g1 := RunStretch(p, code, [x], g, env);
      StretchOfOne(p, code, x, g, env);
      LaneThenShare(p, q, x, g.members[x], g.share, next, env);
      AllFindRest(p, code, order, g, env);
      WriterStretch(p, q, rest, g1, next, env);
      assert forall l :: l in order <==> l == x || l in rest;
      assert rest != [] ==> rest[|rest| - 1] == order[|order| - 1] && rest[|rest| - 1] in rest;
    }
  }

  lemma NobodyFinds(p: Prelude, code: seq<GroupStmt>, order: seq<nat>, g: Group, env: Env)
    requires GroupFits(g) && GroupCodeFits(code) && order == []
    ensures AllFindFirst(p, code, order, g, env)
  {
  }

  lemma ShareFits(q: seq<GroupStmt>)
    requires GroupCodeFits(q)
    ensures GroupCodeFits(q + [Share])
  {
  }

  // ----- from one body into the next

  /** What follows the meeting point of one body, up to the next body. */
  function Turn(p: Prelude, d: Source): (code: seq<GroupStmt>)
    ensures GroupCodeFits(code) && GroupCodeFits(code + [Share])
  {
    hide Body;
    Body(p, d) + [NextLoop]
  }

  lemma TurnIsApart(p: Prelude, d: Source)
    ensures Apart(Turn(p, d)) && Share !in Turn(p, d)
    ensures Apart(Turn(p, d) + [Share]) && GroupCodeFits(Turn(p, d) + [Share])
  {
    hide Body;
    BodyIsApart(p, d);
  }

  lemma TurnRun(p: Prelude, d: Source, id: nat, m: Member, share: bv32, env: Env)
    requires LaneFits(m.lane)
    ensures var r := LaneRun(p, Turn(p, d), id, m, share, env).0;
            r.lane == Emitted(p, d, id, m, WordOf(p, m, share), env) && r.loop == Following(m.loop)
  {
    hide LaneRun, Body, Emitted, WordOf, GroupCodeFits;
    BodyRun(p, d, id, m, share, env);
    var (m1, share1) := LaneRun(p, Body(p, d), id, m, share, env);
    LaneRunOne(p, NextLoop, id, m1, share1, env);
    LaneRunConcat(p, Body(p, d), [NextLoop], id, m, share, env);
  }

  ghost predicate HoldsInterpreted(p: Prelude, blockNumber: bv64, g: Group, l: nat, loop: word, env: Env)
    requires GroupFits(g) && l < LANES <= |env.gDag|
  {
    hide Emitted, Prepared, Number, FirstWord, Interpreted;
    var lane := Emitted(p, Prepared(blockNumber), l, g.members[l], Number(FirstWord(g, loop)), env);
    LaneFits(lane) && lane.mix == Interpreted(blockNumber, MixOf(g), loop, env)[l]
  }

  /** A lane with the right word holds its registers of the interpreter. */
  lemma LaneIsInterpreted(p: Prelude, blockNumber: bv64, g: Group, l: nat, loop: word, env: Env)
    requires GroupFits(g) && InStep(g, loop) && LANES <= |env.gDag| < WORD && l < LANES
    ensures HoldsInterpreted(p, blockNumber, g, l, loop, env)
  {
    hide Emitted, Number, FirstWord, Interpret, Prepared;
    var d := Prepared(blockNumber);
    var word0 := Number(FirstWord(g, loop));
    EmittedFits(p, d, g, word0, env);
    var r := g.(members := seq(LANES, k requires 0 <= k < LANES =>
      g.members[k].(lane := Emitted(p, d, k, g.members[k], word0, env))));
    EmittedIsInterpreted(p, blockNumber, g, r, loop, env);
    assert MixOf(r)[l] == r.members[l].lane.mix;
  }

  lemma EmittedFits(p: Prelude, d: Source, g: Group, word0: nat, env: Env)
    requires GroupFits(g)
    ensures forall k :: 0 <= k < LANES ==> LaneFits(Emitted(p, d, k, g.members[k], word0, env))
  {
    hide Emit, ExecAll, Target, CodeFits;
  }

  /** The word that a loop hands to its lanes. */
  function Turned(ms: seq<Registers>, loop: word): bv32
    requires |ms| == LANES
  {
    ms[loop % LANES][0]
  }

  /** The stretch that runs from one loop of OpenCL into the next. */
  function Crossing(blockNumber: bv64): (code: seq<GroupStmt>)
    ensures GroupCodeFits(code)
  {
    hide Turn, Prepared;
    Turn(OpenCl, Prepared(blockNumber)) + [Share]
  }

  /** Every lane finds its own loop's word in that stretch. */
  ghost predicate ReadsOwn(blockNumber: bv64, order: seq<nat>, g: Group, env: Env)
    requires GroupFits(g) && AreLanes(order)
  {
    hide Crossing, FindsFirst;
    forall l: nat :: l < LANES ==> FindsFirst(OpenCl, Crossing(blockNumber), order, g, l, env)
  }

  /** Where that stretch ends. */
  function IntoNext(blockNumber: bv64, order: seq<nat>, g: Group, env: Env): (r: Group)
    requires GroupFits(g) && AreLanes(order)
    ensures GroupFits(r)
  {
    hide Crossing, RunStretch;
    RunStretch(OpenCl, Crossing(blockNumber), order, g, env)
  }

  lemma IntoNextUnfolds(blockNumber: bv64, order: seq<nat>, g: Group, env: Env)
    requires GroupFits(g) && AreLanes(order)
    ensures IntoNext(blockNumber, order, g, env) == RunStretch(OpenCl, Crossing(blockNumber), order, g, env)
  {
    hide Crossing;
  }

  /** The next writer comes last, or writes the same word again. */
  ghost predicate InTime(blockNumber: bv64, order: seq<nat>, ms: seq<Registers>, loop: word, env: Env)
    requires order != [] && |ms| == LANES && LANES <= |env.gDag|
  {
    hide Interpreted;
    var next := Following(loop);
    order[|order| - 1] == next % LANES || Turned(Interpreted(blockNumber, ms, loop, env), next) == Turned(ms, loop)
  }

  /** OpenCL, from one loop into the next: all lanes read their own loop's word if and only if the next
      writer comes last or writes the same word again. If they do, the loop is interpreted; the word
      for the next loop is right in any case. */
  lemma IntoNextIff(blockNumber: bv64, order: seq<nat>, g: Group, loop: word, env: Env)
    requires GroupFits(g) && InStep(g, loop) && IsOrder(order) && LANES <= |env.gDag| < WORD
    requires g.share == FirstWord(g, loop)
    ensures order != []
    ensures ReadsOwn(blockNumber, order, g, env) <==> InTime(blockNumber, order, MixOf(g), loop, env)
    ensures var r, after := IntoNext(blockNumber, order, g, env), Interpreted(blockNumber, MixOf(g), loop, env);
            && r.share == Turned(after, Following(loop)) && InStep(r, Following(loop))
            && (ReadsOwn(blockNumber, order, g, env) ==> MixOf(r) == after)
  {
    hide RunStretch, LaneRun, Turn, Emitted, GroupCodeFits, IsPermutation, Distinct, Interpreted, Number, Finds,
         Prepared,
         IntoNext, FindsFirst, GoesOn;
    IntoNextUnfolds(blockNumber, order, g, env);
    var d := Prepared(blockNumber);
    var q := Turn(OpenCl, d);
    var w, next := Following(loop) % LANES, Following(loop);
    OrderCovers(order);
    OrderLength(order);
    TurnIsApart(OpenCl, d);
    forall l | l in order ensures GoesOn(OpenCl, q, l, g.members[l], next, env) {
      TurnGoesOn(d, l, g.members[l], env);
    }
    WriterStretch(OpenCl, q, order, g, next, env);
    TurnRun(OpenCl, d, w, g.members[w], g.share, env);
    LaneIsInterpreted(OpenCl, blockNumber, g, w, loop, env);
    var v := LaneRun(OpenCl, q, w, g.members[w], g.share, env).0.lane.mix[0];
    assert v == Turned(Interpreted(blockNumber, MixOf(g), loop, env), next);
    assert g.share == Turned(MixOf(g), loop);
    var r := IntoNext(blockNumber, order, g, env);
    forall l: nat | l < LANES
      ensures r.members[l].loop == next
      ensures ReadsOwn(blockNumber, order, g, env) ==>
              r.members[l].lane.mix == Interpreted(blockNumber, MixOf(g), loop, env)[l]
    {
      LaneIntoNext(blockNumber, order, g, l, loop, env);
    }
  }

  lemma OrderLength(order: seq<nat>)
    requires IsOrder(order)
    ensures |order| == LANES
  {
    PermutationCovers(order, LANES);
  }

  lemma TurnGoesOn(d: Source, l: nat, m: Member, env: Env)
    requires LaneFits(m.lane)
    ensures GoesOn(OpenCl, Turn(OpenCl, d), l, m, Following(m.loop), env)
  {
    hide LaneRun, Turn, Emitted, WordOf, GroupCodeFits;
    forall s ensures LaneRun(OpenCl, Turn(OpenCl, d), l, m, s, env).0.loop == Following(m.loop) {
      TurnRun(OpenCl, d, l, m, s, env);
    }
  }

  ghost predicate WentOn(blockNumber: bv64, order: seq<nat>, g: Group, l: nat, loop: word, env: Env)
    requires GroupFits(g) && AreLanes(order) && l < LANES <= |env.gDag|
  {
    hide Interpreted, IntoNext, ReadsOwn;
    var m := IntoNext(blockNumber, order, g, env).members[l];
    && m.loop == Following(loop)
    && (ReadsOwn(blockNumber, order, g, env) ==> m.lane.mix == Interpreted(blockNumber, MixOf(g), loop, env)[l])
  }

  lemma LaneIntoNext(blockNumber: bv64, order: seq<nat>, g: Group, l: nat, loop: word, env: Env)
    requires GroupFits(g) && InStep(g, loop) && IsOrder(order) && LANES <= |env.gDag| < WORD && l < LANES
    requires g.share == FirstWord(g, loop)
    ensures WentOn(blockNumber, order, g, l, loop, env)
  {
    hide RunStretch, LaneRun, Turn, Emitted, GroupCodeFits, IsPermutation, Distinct, Interpreted, Number, Finds,
         Prepared,
         IntoNext, FindsFirst, GoesOn;
    IntoNextUnfolds(blockNumber, order, g, env);
    var d := Prepared(blockNumber);
    var q := Turn(OpenCl, d);
    OrderCovers(order);
    TurnIsApart(OpenCl, d);
    FindsMeans(OpenCl, q + [Share], order, g, l, env);
    var found := Finds(OpenCl, q + [Share], order, g, l, env);
    EachRunsOnce(OpenCl, q + [Share], order, g, l, env);
    TurnGoesOn(d, l, g.members[l], env);
    LaneThenShare(OpenCl, q, l, g.members[l], found, Following(loop), env);
    TurnRun(OpenCl, d, l, g.members[l], found, env);
    LaneIsInterpreted(OpenCl, blockNumber, g, l, loop, env);
  }

  // ----- n bodies

  /** The code from the meeting point of a body on, with n - 1 further bodies. */
  function Onward(p: Prelude, blockNumber: bv64, n: nat): (code: seq<GroupStmt>)
    requires n > 0
    ensures GroupCodeFits(code)
  {
    hide Turn, Prepared, Loops;
    Turn(p, Prepared(blockNumber)) + Loops(p, blockNumber, n - 1)
  }

  lemma LoopsUnfold(p: Prelude, blockNumber: bv64, n: nat)
    requires n > 0
    ensures Loops(p, blockNumber, n) == Before(p) + [Point(p)] + Onward(p, blockNumber, n)
  {
    hide Prepared, Rest, GroupCodeFits, Loops, Before, Point, After;
    var d := Prepared(blockNumber);
    LoopsStep(p, blockNumber, n);
    Regroup(Before(p), [Point(p)], After(p), Rest(d), [NextLoop], Loops(p, blockNumber, n - 1));
  }

  lemma LoopsStep(p: Prelude, blockNumber: bv64, n: nat)
    requires n > 0
    ensures Loops(p, blockNumber, n) == Kernel(p, blockNumber) + [NextLoop] + Loops(p, blockNumber, n - 1)
  {
    hide Kernel;
  }

  lemma Regroup<T>(a: seq<T>, b: seq<T>, c: seq<T>, d: seq<T>, e: seq<T>, f: seq<T>)
    ensures a + b + c + d + e + f == a + b + (c + d + e + f)
  {
  }

  /** One body, the meeting point of the next, and the rest. */
  ghost predicate Continues(p: Prelude, blockNumber: bv64, n: nat, rest: seq<GroupStmt>)
    requires n > 0
  {
    hide Prepared, Turn, Onward, Before, Point;
    Onward(p, blockNumber, n) == Turn(p, Prepared(blockNumber)) + Before(p) + [Point(p)] + rest
  }

  lemma OnwardUnfolds(p: Prelude, blockNumber: bv64, n: nat)
    requires n > 1
    ensures Continues(p, blockNumber, n, Onward(p, blockNumber, n - 1))
  {
    hide Prepared, Turn, GroupCodeFits, Loops, Before, Point;
    LoopsUnfold(p, blockNumber, n - 1);
  }

  lemma OnwardEnds(p: Prelude, blockNumber: bv64, n: nat)
    requires n == 1
    ensures Onward(p, blockNumber, n) == Turn(p, Prepared(blockNumber))
  {
    hide Prepared, Turn, GroupCodeFits, Loops;
    var q := Turn(p, Prepared(blockNumber));
    NoLoops(p, blockNumber, n - 1);
    assert q + [] == q;
  }

  lemma NoLoops(p: Prelude, blockNumber: bv64, n: nat)
    requires n == 0
    ensures Loops(p, blockNumber, n) == []
  {
  }

  /** In every stretch from one loop into the next, all lanes read their own loop's word. */
  ghost predicate AllReadOwn(blockNumber: bv64, n: nat, orders: seq<seq<nat>>, g: Group, env: Env)
    requires GroupFits(g) && AreOrders(orders) && |orders| >= n
  {
    hide ReadsOwn, IntoNext, IsPermutation;
    n <= 1 || (
      assert IsOrder(orders[0]);
      && ReadsOwn(blockNumber, orders[0], g, env)
      && AllReadOwn(blockNumber, n - 1, orders[1..], IntoNext(blockNumber, orders[0], g, env), env))
  }

  /** In every such stretch the writer for the next loop is in time, as the interpreter tells. */
  ghost predicate AllInTime(
    blockNumber: bv64, n: nat, orders: seq<seq<nat>>, ms: seq<Registers>, loop: word, env: Env)
    requires |ms| == LANES && LANES <= |env.gDag| && |orders| >= n && [] !in orders
  {
    hide InTime, Interpreted;
    n <= 1 || (
      && InTime(blockNumber, orders[0], ms, loop, env)
      && AllInTime(blockNumber, n - 1, orders[1..], Interpreted(blockNumber, ms, loop, env), Following(loop), env))
  }

  lemma OrdersAreNotEmpty(orders: seq<seq<nat>>)
    requires AreOrders(orders)
    ensures [] !in orders
  {
    hide IsOrder;
    forall i | 0 <= i < |orders| ensures orders[i] != [] {
      OrderLength(orders[i]);
    }
  }

  /** A stretch that only one body is in, and the step to the next loop. */
  lemma LastTurn(p: Prelude, blockNumber: bv64, order: seq<nat>, g: Group, loop: word, env: Env)
    requires GroupFits(g) && InStep(g, loop) && IsOrder(order) && Handed(p, g, FirstWord(g, loop))
    requires LANES <= |env.gDag| < WORD
    ensures var r := RunStretch(p, Turn(p, Prepared(blockNumber)), order, g, env);
            InStep(r, Following(loop)) && MixOf(r) == Interpreted(blockNumber, MixOf(g), loop, env)
  {
    hide LaneRun, RunStretch, Turn, Emitted, FirstWord, Number, IsPermutation, Distinct, Prepared, Interpret,
         GroupCodeFits;
    var d := Prepared(blockNumber);
    OrderCovers(order);
    TurnIsApart(p, d);
    QuietStretch(p, Turn(p, d), order, g, env);
    var r := RunStretch(p, Turn(p, d), order, g, env);
    forall l: nat | l < LANES
      ensures r.members[l].lane == Emitted(p, d, l, g.members[l], Number(FirstWord(g, loop)), env)
      ensures r.members[l].loop == Following(loop)
    {
      TurnRun(p, d, l, g.members[l], g.share, env);
    }
    EmittedIsInterpreted(p, blockNumber, g, r, loop, env);
  }

  /** OpenCL, from the first meeting point on: all lanes read their own loop's word throughout if and
      only if every writer is in time, and then every loop is interpreted. */
  lemma {:induction false} OnwardOpenCl(
    blockNumber: bv64, n: nat, orders: seq<seq<nat>>, g: Group, loop: word, env: Env)
    requires GroupFits(g) && InStep(g, loop) && AreOrders(orders) && LANES <= |env.gDag| < WORD
    requires g.share == FirstWord(g, loop) && 0 < n <= |orders|
    ensures [] !in orders
    ensures AllReadOwn(blockNumber, n, orders, g, env) <==> AllInTime(blockNumber, n, orders, MixOf(g), loop, env)
    ensures AllReadOwn(blockNumber, n, orders, g, env) ==>
              MixOf(RunGroup(OpenCl, Onward(OpenCl, blockNumber, n), orders, g, env)) ==
              InterpretedLoops(n, blockNumber, MixOf(g), loop, env)
    decreases n
  {
    hide RunGroup, RunStretch, Turn, Onward, Interpreted, ReadsOwn, InTime, GroupCodeFits, IsPermutation,
         Prepared, IntoNext, Apart;
    assert IsOrder(orders[0]);
    OrdersAreNotEmpty(orders);
    var q := Turn(OpenCl, Prepared(blockNumber));
    TurnIsApart(OpenCl, Prepared(blockNumber));
    if n == 1 {
      OnwardEnds(OpenCl, blockNumber, n);
      RunLast(OpenCl, q, orders, g, env);
      LastTurn(OpenCl, blockNumber, orders[0], g, loop, env);
    } else {
      OnwardUnfolds(OpenCl, blockNumber, n);
      IntoNextIff(blockNumber, orders[0], g, loop, env);
      IntoNextUnfolds(blockNumber, orders[0], g, env);
      var r := IntoNext(blockNumber, orders[0], g, env);
      RunSegment(OpenCl, q + [Share], Barrier, Onward(OpenCl, blockNumber, n - 1), orders, g, env);
      if ReadsOwn(blockNumber, orders[0], g, env) {
        OnwardOpenCl(blockNumber, n - 1, orders[1..], r, Following(loop), env);
      }
    }
  }

  /** OpenCL, n loops: all lanes read their own loop's word in every loop if and only if in every
      stretch from one loop into the next the writer comes last or writes the same word again. Then
      the run leaves the registers of n interpreted loops. */
  lemma OpenClLoops(blockNumber: bv64, n: nat, orders: seq<seq<nat>>, g: Group, loop: word, env: Env)
    requires GroupFits(g) && InStep(g, loop) && AreOrders(orders) && LANES <= |env.gDag| < WORD
    requires 0 < n < |orders|
    ensures [] !in orders[1..]
    ensures LoopsReadOwn(blockNumber, n, orders, g, env) <==>
            AllInTime(blockNumber, n, orders[1..], MixOf(g), loop, env)
    ensures LoopsReadOwn(blockNumber, n, orders, g, env) ==>
              MixOf(RunGroup(OpenCl, Loops(OpenCl, blockNumber, n), orders, g, env)) ==
              InterpretedLoops(n, blockNumber, MixOf(g), loop, env)
  {
    hide RunGroup, RunStretch, Onward, Loops, InterpretedLoops, AllReadOwn, AllInTime, GroupCodeFits, IsPermutation;
    assert IsOrder(orders[0]);
    LoopsUnfold(OpenCl, blockNumber, n);
    BeforeIsApart(OpenCl);
    ExchangeHands(OpenCl, orders[0], g, loop, env);
    var g1 := Meet(Barrier, RunStretch(OpenCl, [Share], orders[0], g, env));
    RunSegment(OpenCl, [Share], Barrier, Onward(OpenCl, blockNumber, n), orders, g, env);
    OnwardOpenCl(blockNumber, n, orders[1..], g1, loop, env);
  }

  /** All lanes read their own loop's word, from the first loop on, whose word is written before any
      lane reads. */
  ghost predicate LoopsReadOwn(blockNumber: bv64, n: nat, orders: seq<seq<nat>>, g: Group, env: Env)
    requires GroupFits(g) && AreOrders(orders) && n < |orders|
  {
    hide RunStretch, AllReadOwn, IsPermutation;
    assert IsOrder(orders[0]);
    AllReadOwn(blockNumber, n, orders[1..], RunStretch(OpenCl, [Share], orders[0], g, env), env)
  }

  lemma ShuffleHands(g: Group, loop: word)
    requires GroupFits(g) && InStep(g, loop)
    ensures var r := Meet(Shuffle, g);
            Handed(Cuda, r, FirstWord(g, loop)) && LanesOf(r) == LanesOf(g) && InStep(r, loop)
  {
    hide Number;
  }

  lemma {:induction false} OnwardCuda(
    blockNumber: bv64, n: nat, orders: seq<seq<nat>>, g: Group, loop: word, env: Env)
    requires GroupFits(g) && InStep(g, loop) && AreOrders(orders) && LANES <= |env.gDag| < WORD
    requires Handed(Cuda, g, FirstWord(g, loop)) && 0 < n <= |orders|
    ensures MixOf(RunGroup(Cuda, Onward(Cuda, blockNumber, n), orders, g, env)) ==
            InterpretedLoops(n, blockNumber, MixOf(g), loop, env)
    decreases n
  {
    hide RunGroup, RunStretch, Turn, Onward, Interpreted, GroupCodeFits, IsPermutation, Prepared, Apart, Handed, Meet;
    assert IsOrder(orders[0]);
    var q := Turn(Cuda, Prepared(blockNumber));
    TurnIsApart(Cuda, Prepared(blockNumber));
    LastTurn(Cuda, blockNumber, orders[0], g, loop, env);
    if n == 1 {
      OnwardEnds(Cuda, blockNumber, n);
      RunLast(Cuda, q, orders, g, env);
    } else {
      var rest := Onward(Cuda, blockNumber, n - 1);
      OnwardUnfolds(Cuda, blockNumber, n);
      assert q + [] + [Shuffle] + rest == q + [Shuffle] + rest;
      RunSegment(Cuda, q, Shuffle, rest, orders, g, env);
      var r := RunStretch(Cuda, q, orders[0], g, env);
      ShuffleHands(r, Following(loop));
      OnwardCuda(blockNumber, n - 1, orders[1..], Meet(Shuffle, r), Following(loop), env);
    }
  }

  /** CUDA, n loops: for every order of the lanes in every stretch, the run leaves the registers of n
      interpreted loops. */
  lemma CudaLoops(blockNumber: bv64, n: nat, orders: seq<seq<nat>>, g: Group, loop: word, env: Env)
    requires GroupFits(g) && InStep(g, loop) && AreOrders(orders) && LANES <= |env.gDag| < WORD
    requires 0 < n < |orders|
    ensures MixOf(RunGroup(Cuda, Loops(Cuda, blockNumber, n), orders, g, env)) ==
            InterpretedLoops(n, blockNumber, MixOf(g), loop, env)
  {
    hide RunGroup, RunStretch, Onward, Loops, InterpretedLoops, GroupCodeFits, IsPermutation, Handed, Meet;
    assert IsOrder(orders[0]);
    LoopsUnfold(Cuda, blockNumber, n);
    BeforeIsApart(Cuda);
    ExchangeHands(Cuda, orders[0], g, loop, env);
    var g1 := Meet(Shuffle, RunStretch(Cuda, [], orders[0], g, env));
    RunSegment(Cuda, [], Shuffle, Onward(Cuda, blockNumber, n), orders, g, env);
    OnwardCuda(blockNumber, n, orders[1..], g1, loop, env);
  }
}
