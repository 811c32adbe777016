/** The whole emitted loop body, with the global load at its head (lines 112 to 143 of
    libprogpow/ProgPow.cpp): sixteen lanes that exchange one register and then go their own ways.

    Between two points where the lanes meet, each lane runs on its own, and the lanes may do so in
    any order; what one of them writes to shared memory the later ones see. */
module ProgPowGroup {
  import opened Kiss99
  import opened ProgPow
  import opened ProgPowKernel
  import opened ProgPowWords
  import opened Shuffle

  // ----- addresses, in unsigned 32-bit arithmetic

  datatype Address =
    | Offset
    | LaneId
    | LoopNumber
    | DagElements
    | Literally(n: word)
    | Modulo(a: Address, b: Address)
    | Product(a: Address, b: Address)
    | Sum(a: Address, b: Address)
    | Exclusive(a: Address, b: Address)

  /** Exclusive or on binary digits. */
  function XorNumbers(a: nat, b: nat): nat
    decreases a + b
  {
    if a == 0 && b == 0 then 0 else 2 * XorNumbers(a / 2, b / 2) + if a % 2 == b % 2 then 0 else 1
  }

  /** Its digits are one where exactly one of the two has one. */
  lemma {:induction false} XorByDigit(a: nat, b: nat, k: nat)
    ensures Digit(XorNumbers(a, b), k) == if Digit(a, k) == Digit(b, k) then 0 else 1
    decreases k
  {
    XorUnfolds(a, b);
    hide XorNumbers;
    if k > 0 {
      XorByDigit(a / 2, b / 2, k - 1);
    }
  }

  lemma XorUnfolds(a: nat, b: nat)
    ensures XorNumbers(a, b) == 2 * XorNumbers(a / 2, b / 2) + if a % 2 == b % 2 then 0 else 1
  {
  }

  /** What every lane knows: g_dag, c_dag. PROGPOW_DAG_ELEMENTS is the number of whole rows. */
  datatype Env = Env(gDag: seq<Words>, cDag: CacheDag)

  function Rows(gDag: seq<Words>): nat {
    |gDag| / LANES
  }

  /** Rows have sixteen entries each. */
  lemma RowsAre(gDag: seq<Words>, q: nat, r: nat)
    requires |gDag| == 16 * q + r && r < 16
    ensures Rows(gDag) == q
  {
  }

  /** A remainder by zero, which C leaves undefined, is zero here; the emitted code has none. */
  function Remainder(a: nat, b: nat): nat {
    if b == 0 then 0 else a % b
  }

  function Wrap(n: nat): nat {
    n % WORD
  }

  function Compute(e: Address, id: nat, offset: nat, loop: word, env: Env): nat {
    match e
    case Offset => offset
    case LaneId => id
    case LoopNumber => loop
    case DagElements => Rows(env.gDag)
    case Literally(n) => n
    case Modulo(a, b) => Remainder(Compute(a, id, offset, loop, env), Compute(b, id, offset, loop, env))
    case Product(a, b) => Wrap(Compute(a, id, offset, loop, env) * Compute(b, id, offset, loop, env))
    case Sum(a, b) => Wrap(Compute(a, id, offset, loop, env) + Compute(b, id, offset, loop, env))
    case Exclusive(a, b) => XorNumbers(Compute(a, id, offset, loop, env), Compute(b, id, offset, loop, env))
  }

  // ----- statements

  /** Barrier and Shuffle are the points where the lanes meet. Share is guarded by
      lane_id == loop % PROGPOW_LANES; Fence stands behind hack_false and is never carried out.
      NextLoop is the step from one loop body to the next, which the caller makes. */
  datatype GroupStmt =
    | Shuffle
    | Barrier
    | Share
    | LoadShare
    | SetOffset(value: Address)
    | LoadDag
    | Fence
    | Local(s: Stmt)
    | NextLoop

  predicate Meets(s: GroupStmt) {
    s.Shuffle? || s.Barrier?
  }

  predicate GroupStmtFits(s: GroupStmt) {
    s.Local? ==> StmtFits(s.s)
  }

  predicate GroupCodeFits(code: seq<GroupStmt>) {
    forall s :: s in code ==> GroupStmtFits(s)
  }

  /** A lane, its variable offset and its loop number. */
  datatype Member = Member(lane: Lane, offset: nat, loop: word)

  /** The lanes and their shared word. */
  datatype Group = Group(members: seq<Member>, share: bv32)

  predicate GroupFits(g: Group) {
    |g.members| == LANES && forall l :: 0 <= l < LANES ==> LaneFits(g.members[l].lane)
  }

  /** All lanes are in the same loop. */
  ghost predicate InStep(g: Group, loop: word) {
    |g.members| == LANES && forall l :: 0 <= l < LANES ==> g.members[l].loop == loop
  }

  function Following(loop: word): word {
    (loop + 1) % WORD
  }

  /** An entry of the DAG; reading past the end, which never happens, would give zeros. */
  function Entry(gDag: seq<Words>, offset: nat): Words {
    if offset < |gDag| then gDag[offset] else seq(DAG_LOADS, _ => 0)
  }

  /** One statement on one lane, which may write the shared word. */
  function LaneStep(p: Prelude, s: GroupStmt, id: nat, m: Member, share: bv32, env: Env): (r: (Member, bv32))
    requires LaneFits(m.lane) && GroupStmtFits(s)
    ensures LaneFits(r.0.lane)
  {
    hide Exec, Number;
    match s
    case Share => (m, if id == m.loop % LANES then m.lane.mix[0] else share)
    case LoadShare => (m.(offset := Number(share)), share)
    case SetOffset(e) => (m.(offset := Compute(e, id, m.offset, m.loop, env)), share)
    case LoadDag => (m.(lane := m.lane.(loaded := Entry(env.gDag, m.offset))), share)
    case Local(t) => (m.(lane := Exec(p, t, m.lane, env.cDag)), share)
    case NextLoop => (m.(loop := Following(m.loop)), share)
    case _ => (m, share)
  }

  function LaneRun(p: Prelude, code: seq<GroupStmt>, id: nat, m: Member, share: bv32, env: Env): (r: (Member, bv32))
    requires LaneFits(m.lane) && GroupCodeFits(code)
    ensures LaneFits(r.0.lane)
    decreases |code|
  {
    hide LaneStep;
    if code == [] then (m, share)
    else
      var (m', share') := LaneStep(p, code[0], id, m, share, env);
      LaneRun(p, code[1..], id, m', share', env)
  }

  predicate AreLanes(order: seq<nat>) {
    forall i :: 0 <= i < |order| ==> order[i] < LANES
  }

  /** A stretch of code without a meeting point: one lane after another, in the given order. */
  function RunStretch(p: Prelude, code: seq<GroupStmt>, order: seq<nat>, g: Group, env: Env): (r: Group)
    requires GroupFits(g) && GroupCodeFits(code) && AreLanes(order)
    ensures GroupFits(r)
    decreases |order|
  {
    hide LaneRun, GroupCodeFits;
    if order == [] then g
    else
      var l := order[0];
      var (m, share) := LaneRun(p, code, l, g.members[l], g.share, env);
      RunStretch(p, code, order[1..], Group(g.members[l := m], share), env)
  }

  /** The first register of the lane whose turn it is by lane l's count. */
  function Asked(g: Group, l: nat): nat
    requires GroupFits(g) && l < LANES
  {
    hide Number;
    Number(g.members[g.members[l].loop % LANES].lane.mix[0])
  }

  /** All lanes at a meeting point: __shfl_sync gives each what it asks for. */
  function Meet(s: GroupStmt, g: Group): (r: Group)
    requires GroupFits(g)
    ensures GroupFits(r)
  {
    hide Asked;
    if s.Shuffle? then g.(members := seq(LANES, l requires 0 <= l < LANES => g.members[l].(offset := Asked(g, l))))
    else g
  }

  /** The number of statements before the next meeting point. */
  function Stretch(code: seq<GroupStmt>): (n: nat)
    ensures n <= |code| && (n < |code| ==> Meets(code[n]))
    ensures forall k :: 0 <= k < n ==> !Meets(code[k])
  {
    if code == [] || Meets(code[0]) then 0 else 1 + Stretch(code[1..])
  }

  /** Every lane once. */
  ghost predicate IsOrder(order: seq<nat>) {
    IsPermutation(order, LANES) && AreLanes(order)
  }

  ghost predicate AreOrders(orders: seq<seq<nat>>) {
    forall i :: 0 <= i < |orders| ==> IsOrder(orders[i])
  }

  /** Stretch, meeting point, stretch, and so on, each stretch in an order of its own; the run ends
      where the orders do. */
  ghost function RunGroup(p: Prelude, code: seq<GroupStmt>, orders: seq<seq<nat>>, g: Group, env: Env): (r: Group)
    requires GroupFits(g) && GroupCodeFits(code)
    requires AreOrders(orders)
    ensures GroupFits(r)
    decreases |code|
  {
    hide RunStretch, Meet, IsPermutation;
    if orders == [] then g
    else
      assert IsOrder(orders[0]);
      var n := Stretch(code);
      var g1 := RunStretch(p, code[..n], orders[0], g, env);
      if n == |code| then g1 else RunGroup(p, code[n + 1..], orders[1..], Meet(code[n], g1), env)
  }

  // ----- what is emitted

  /** How the lanes come by the same offset: before they meet, where they meet, and after it. */
  function Before(p: Prelude): (code: seq<GroupStmt>)
    ensures GroupCodeFits(code)
  {
    match p
    case Cuda => []
    case OpenCl => [Share]
  }

  function Point(p: Prelude): (s: GroupStmt)
    ensures Meets(s) && GroupStmtFits(s)
  {
    match p
    case Cuda => Shuffle
    case OpenCl => Barrier
  }

  function After(p: Prelude): (code: seq<GroupStmt>)
    ensures GroupCodeFits(code)
  {
    match p
    case Cuda => []
    case OpenCl => [LoadShare]
  }

  function Exchange(p: Prelude): (code: seq<GroupStmt>)
    ensures GroupCodeFits(code)
  {
    Before(p) + [Point(p)] + After(p)
  }

  /** offset %= PROGPOW_DAG_ELEMENTS; offset = offset * PROGPOW_LANES + (lane_id ^ loop) % PROGPOW_LANES;
      data_dag = g_dag[offset]. */
  function LoadCode(): (code: seq<GroupStmt>)
    ensures GroupCodeFits(code)
  {
    [SetOffset(Modulo(Offset, DagElements)),
     SetOffset(Sum(Product(Offset, Literally(LANES)), Modulo(Exclusive(LaneId, LoopNumber), Literally(LANES)))),
     LoadDag,
     Fence]
  }

  function Locals(code: seq<Stmt>): (r: seq<GroupStmt>)
    requires CodeFits(code)
    ensures |r| == |code| && GroupCodeFits(r)
  {
    seq(|code|, i requires 0 <= i < |code| => Local(code[i]))
  }

  /** What follows the exchange. */
  function Rest(d: Source): (code: seq<GroupStmt>)
    ensures GroupCodeFits(code)
  {
    hide Steps, Consume, Locals, LoadCode;
    var (body, d') := Steps(0, d);
    LoadCode() + Locals(body) + [Fence] + Locals(Consume(0, d').0)
  }

  /** All that getKern emits for a block number. */
  function Kernel(p: Prelude, blockNumber: bv64): (code: seq<GroupStmt>)
    ensures GroupCodeFits(code)
  {
    hide Prepared, Rest, Exchange;
    Exchange(p) + Rest(Prepared(blockNumber))
  }

  /** n turns of the loop around it, for (l = 0; l < n; l++) progPowLoop(l, ...), from any l on. */
  function Loops(p: Prelude, blockNumber: bv64, n: nat): (code: seq<GroupStmt>)
    ensures GroupCodeFits(code)
  {
    hide Kernel;
    if n == 0 then [] else Kernel(p, blockNumber) + [NextLoop] + Loops(p, blockNumber, n - 1)
  }

  // ----- a lane on its own

  lemma {:induction false} LaneRunConcat(
    p: Prelude, a: seq<GroupStmt>, b: seq<GroupStmt>, id: nat, m: Member, share: bv32, env: Env)
    requires LaneFits(m.lane) && GroupCodeFits(a) && GroupCodeFits(b)
    ensures GroupCodeFits(a + b)
    ensures var (m1, share1) := LaneRun(p, a, id, m, share, env);
            LaneRun(p, a + b, id, m, share, env) == LaneRun(p, b, id, m1, share1, env)
    decreases |a|
  {
    hide LaneStep;
    if a == [] {
      assert a + b == b;
    } else {
      assert (a + b)[1..] == a[1..] + b;
      var (m1, share1) := LaneStep(p, a[0], id, m, share, env);
      LaneRunConcat(p, a[1..], b, id, m1, share1, env);
    }
  }

  lemma LaneRunOne(p: Prelude, s: GroupStmt, id: nat, m: Member, share: bv32, env: Env)
    requires LaneFits(m.lane) && GroupStmtFits(s)
    ensures GroupCodeFits([s])
    ensures LaneRun(p, [s], id, m, share, env) == LaneStep(p, s, id, m, share, env)
  {
    hide LaneStep;
    assert [s][1..] == [];
    var (m', share') := LaneStep(p, s, id, m, share, env);
    assert LaneRun(p, [], id, m', share', env) == (m', share');
  }

  /** Local code does on a lane what ExecAll says and leaves the shared word alone. */
  lemma {:induction false} LocalsRun(p: Prelude, code: seq<Stmt>, id: nat, m: Member, share: bv32, env: Env)
    requires LaneFits(m.lane) && CodeFits(code)
    ensures LaneRun(p, Locals(code), id, m, share, env) == (m.(lane := ExecAll(p, code, m.lane, env.cDag)), share)
    decreases |code|
  {
    hide Exec;
    if code != [] {
      assert code[0] in code;
      assert Locals(code)[0] == Local(code[0]) && Locals(code)[1..] == Locals(code[1..]);
      LocalsRun(p, code[1..], id, m.(lane := Exec(p, code[0], m.lane, env.cDag)), share, env);
    }
  }

  // ----- stretches in any order

  /** A stretch that only shares: afterwards the shared word is the one of the lane that may write it. */
  lemma {:induction false} ShareStretch(p: Prelude, order: seq<nat>, g: Group, loop: word, env: Env)
    requires GroupFits(g) && InStep(g, loop) && AreLanes(order) && GroupCodeFits([Share])
    ensures var from := loop % LANES;
            RunStretch(p, [Share], order, g, env) ==
            g.(share := if from in order then g.members[from].lane.mix[0] else g.share)
    decreases |order|
  {
    hide LaneRun;
    if order != [] {
      var l := order[0];
      LaneRunOne(p, Share, l, g.members[l], g.share, env);
      var g1 := g.(share := LaneStep(p, Share, l, g.members[l], g.share, env).1);
      assert g.members[l := g.members[l]] == g.members;
      ShareStretch(p, order[1..], g1, loop, env);
    }
  }

  lemma {:induction false} KeepsShare(
    p: Prelude, code: seq<GroupStmt>, id: nat, m: Member, share: bv32, env: Env)
    requires LaneFits(m.lane) && GroupCodeFits(code) && Share !in code
    ensures LaneRun(p, code, id, m, share, env).1 == share
    decreases |code|
  {
    if code != [] {
      assert code[0] in code;
      KeepsShare(p, code[1..], id, LaneStep(p, code[0], id, m, share, env).0, share, env);
    }
  }

  /** A stretch that shares nothing: each lane ends as if it had run alone, whatever the order. */
  lemma {:induction false} QuietStretch(p: Prelude, code: seq<GroupStmt>, order: seq<nat>, g: Group, env: Env)
    requires GroupFits(g) && GroupCodeFits(code) && AreLanes(order) && Share !in code
    requires Distinct(order)
    ensures var r := RunStretch(p, code, order, g, env);
            && r.share == g.share
            && forall l: nat :: l < LANES ==>
                 r.members[l] == if l in order then LaneRun(p, code, l, g.members[l], g.share, env).0 else g.members[l]
    decreases |order|
  {
    hide LaneRun, GroupCodeFits;
    if order != [] {
      var l := order[0];
      KeepsShare(p, code, l, g.members[l], g.share, env);
      var g1 := g.(members := g.members[l := LaneRun(p, code, l, g.members[l], g.share, env).0]);
      QuietStretch(p, code, order[1..], g1, env);
      assert l !in order[1..];
    }
  }
}
