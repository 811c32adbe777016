/** The statements that getKern of libprogpow/ProgPow.cpp emits for a lane to carry out, their meaning
    under either prelude, and the merge and math tables as emitters. */
module ProgPow {
  import opened Kiss99
  import opened ProgPowWords

  const LANES: nat := 16
  const DAG_LOADS: nat := 4
  const CACHE_WORDS: nat := 4096
  const CNT_CACHE: nat := 11
  const CNT_MATH: nat := 20

  // ----- emitted statements

  datatype UnaryOp = OpPopcount | OpClz

  datatype BinaryOp = OpRotl | OpRotr | OpAdd | OpMul | OpXor | OpAnd | OpOr | OpMin | OpMulHi

  /** Operands and right-hand sides; Loaded(i) is data_dag.s[i]. */
  datatype Expr =
    | Mix(i: nat)
    | Data
    | Loaded(i: nat)
    | Const(value: bv32)
    | Unary(uop: UnaryOp, a: Expr)
    | Binary(bop: BinaryOp, a: Expr, b: Expr)

  /** A load of data from the cache at the address in a register, or an assignment. */
  datatype Stmt = LoadCache(src: nat) | SetData(value: Expr) | SetMix(dst: nat, value: Expr)

  /** The registers, the variable data and the four words of data_dag of one lane. */
  datatype Lane = Lane(mix: seq<bv32>, data: bv32, loaded: seq<bv32>)

  type Registers = m: seq<bv32> | |m| == REGS witness seq(REGS, _ => 0)
  type Words = w: seq<bv32> | |w| == DAG_LOADS witness seq(DAG_LOADS, _ => 0)
  type CacheDag = c: seq<bv32> | |c| == CACHE_WORDS witness seq(CACHE_WORDS, _ => 0)

  predicate LaneFits(l: Lane) {
    |l.mix| == REGS && |l.loaded| == DAG_LOADS
  }

  predicate ExprFits(e: Expr) {
    match e
    case Mix(i) => i < REGS
    case Data => true
    case Loaded(i) => i < DAG_LOADS
    case Const(_) => true
    case Unary(_, a) => ExprFits(a)
    case Binary(_, a, b) => ExprFits(a) && ExprFits(b)
  }

  predicate StmtFits(s: Stmt) {
    match s
    case LoadCache(src) => src < REGS
    case SetData(e) => ExprFits(e)
    case SetMix(dst, e) => dst < REGS && ExprFits(e)
  }

  predicate CodeFits(code: seq<Stmt>) {
    forall s :: s in code ==> StmtFits(s)
  }

  // ----- their meaning under a prelude

  function ApplyUnary(op: UnaryOp, x: bv32): bv32 {
    match op
    case OpPopcount => Popcount(x)
    case OpClz => Clz(x)
  }

  function ApplyBinary(p: Prelude, op: BinaryOp, x: bv32, y: bv32): bv32 {
    match op
    case OpRotl => Rotl(p, x, y)
    case OpRotr => Rotr(p, x, y)
    case OpAdd => Plus(x, y)
    case OpMul => Times(x, y)
    case OpXor => Xor(x, y)
    case OpAnd => And(x, y)
    case OpOr => Or(x, y)
    case OpMin => Min(p, x, y)
    case OpMulHi => MulHi(x, y)
  }

  /** What an operator means, whatever the prelude. */
  function Meaning(op: BinaryOp, x: bv32, y: bv32): bv32 {
    match op
    case OpRotl => Left(x, y)
    case OpRotr => Right(x, y)
    case OpMin => Least(x, y)
    case _ => ApplyBinary(OpenCl, op, x, y)
  }

  lemma OperatorsAgree(p: Prelude, op: BinaryOp, x: bv32, y: bv32)
    ensures ApplyBinary(p, op, x, y) == Meaning(op, x, y)
  {
    hide Rotl, Rotr, Min, Left, Right, Least, Plus, Times, Xor, And, Or, MulHi;
    PreludesAgree(p, x, y);
  }

  function Eval(p: Prelude, e: Expr, l: Lane): bv32
    requires LaneFits(l) && ExprFits(e)
  {
    match e
    case Mix(i) => l.mix[i]
    case Data => l.data
    case Loaded(i) => l.loaded[i]
    case Const(v) => v
    case Unary(op, a) => ApplyUnary(op, Eval(p, a, l))
    case Binary(op, a, b) => ApplyBinary(p, op, Eval(p, a, l), Eval(p, b, l))
  }

  function CacheWord(cDag: CacheDag, address: bv32): bv32 {
    hide Number;
    cDag[Number(address) % CACHE_WORDS]
  }

  /** The cache holds 4096 words, and the address counts modulo that. */
  lemma CacheWordAt(cDag: CacheDag, address: bv32, q: nat, r: nat)
    requires Number(address) == 4096 * q + r && r < 4096
    ensures CacheWord(cDag, address) == cDag[r]
  {
    hide Number;
  }

  function Exec(p: Prelude, s: Stmt, l: Lane, cDag: CacheDag): (r: Lane)
    requires LaneFits(l) && StmtFits(s)
    ensures LaneFits(r) && r.loaded == l.loaded
  {
    match s
    case LoadCache(src) => l.(data := CacheWord(cDag, l.mix[src]))
    case SetData(e) => l.(data := Eval(p, e, l))
    case SetMix(dst, e) => l.(mix := l.mix[dst := Eval(p, e, l)])
  }

  /** Straight-line code on one lane. */
  function ExecAll(p: Prelude, code: seq<Stmt>, l: Lane, cDag: CacheDag): (r: Lane)
    requires LaneFits(l) && CodeFits(code)
    ensures LaneFits(r) && r.loaded == l.loaded
    decreases |code|
  {
    if code == [] then l else ExecAll(p, code[1..], Exec(p, code[0], l, cDag), cDag)
  }

  lemma {:induction false} ExecConcat(p: Prelude, a: seq<Stmt>, b: seq<Stmt>, l: Lane, cDag: CacheDag)
    requires LaneFits(l) && CodeFits(a) && CodeFits(b)
    ensures CodeFits(a + b)
    ensures ExecAll(p, a + b, l, cDag) == ExecAll(p, b, ExecAll(p, a, l, cDag), cDag)
    decreases |a|
  {
    hide Exec;
    if a == [] {
      assert a + b == b;
    } else {
      assert (a + b)[1..] == a[1..] + b;
      ExecConcat(p, a[1..], b, Exec(p, a[0], l, cDag), cDag);
    }
  }

  /** The two preludes give every expression the same value. */
  lemma {:induction false} EvalAgrees(e: Expr, l: Lane)
    requires LaneFits(l) && ExprFits(e)
    ensures Eval(Cuda, e, l) == Eval(OpenCl, e, l)
    decreases e
  {
    hide ApplyUnary, ApplyBinary, Meaning;
    match e
    case Mix(_) =>
    case Data =>
    case Loaded(_) =>
    case Const(_) =>
    case Unary(_, a) => EvalAgrees(a, l);
    case Binary(op, a, b) =>
      EvalAgrees(a, l);
      EvalAgrees(b, l);
      OperatorsAgree(Cuda, op, Eval(Cuda, a, l), Eval(Cuda, b, l));
      OperatorsAgree(OpenCl, op, Eval(Cuda, a, l), Eval(Cuda, b, l));
  }

  /** So they give every program the same effect on every lane. */
  lemma {:induction false} CudaIsOpenCl(code: seq<Stmt>, l: Lane, cDag: CacheDag)
    requires LaneFits(l) && CodeFits(code)
    ensures ExecAll(Cuda, code, l, cDag) == ExecAll(OpenCl, code, l, cDag)
    decreases |code|
  {
    hide Eval, ExprFits;
    if code != [] {
      assert StmtFits(code[0]) by { assert code[0] in code; }
      match code[0] {
        case LoadCache(_) =>
        case SetData(e) => EvalAgrees(e, l);
        case SetMix(_, e) => EvalAgrees(e, l);
      }
      CudaIsOpenCl(code[1..], Exec(Cuda, code[0], l, cDag), cDag);
    }
  }

  // ----- the emitters

  /** The right-hand side of merge(a, b, r). */
  function MergeExpr(a: Expr, b: Expr, r: word): (e: Expr)
    requires ExprFits(a) && ExprFits(b)
    ensures ExprFits(e)
  {
    var k, c := Const(Literal(MergeAmount(r))), Const(Literal(33));
    match Select(r, 4)
    case 0 => Binary(OpXor, Binary(OpRotr, a, k), b)
    case 1 => Binary(OpXor, Binary(OpRotl, a, k), b)
    case 2 => Binary(OpAdd, Binary(OpMul, a, c), b)
    case _ => Binary(OpMul, Binary(OpXor, a, b), c)
  }

  /** merge(a, b, r), where a is a register. */
  function Merge(dst: nat, b: Expr, r: word): (s: Stmt)
    requires dst < REGS && ExprFits(b)
    ensures StmtFits(s) && s.SetMix? && s.dst == dst
  {
    SetMix(dst, MergeExpr(Mix(dst), b, r))
  }

  /** The right-hand side of math("data", a, b, r). */
  function MathExpr(a: Expr, b: Expr, r: word): (e: Expr)
    requires ExprFits(a) && ExprFits(b)
    ensures ExprFits(e)
  {
    match Select(r, 11)
    case 0 => Binary(OpRotl, a, b)
    case 1 => Binary(OpAnd, a, b)
    case 2 => Binary(OpAdd, a, b)
    case 3 => Binary(OpAdd, Unary(OpPopcount, a), Unary(OpPopcount, b))
    case 4 => Binary(OpAdd, Unary(OpClz, a), Unary(OpClz, b))
    case 5 => Binary(OpRotr, a, b)
    case 6 => Binary(OpMulHi, a, b)
    case 7 => Binary(OpOr, a, b)
    case 8 => Binary(OpMul, a, b)
    case 9 => Binary(OpXor, a, b)
    case _ => Binary(OpMin, a, b)
  }

  lemma LiteralIs33()
    ensures Literal(33) == 33
  {
  }

  lemma TimesLiteral(x: bv32)
    ensures Times(x, Literal(33)) == Times33(x)
  {
    LiteralIs33();
    hide Literal;
    calc {
      Times(x, Literal(33));
      x * 33;
      Times33(x);
    }
  }

  /** One level of evaluation. */
  lemma EvalBinary(p: Prelude, op: BinaryOp, a: Expr, b: Expr, l: Lane)
    requires LaneFits(l) && ExprFits(a) && ExprFits(b)
    ensures ExprFits(Binary(op, a, b))
    ensures Eval(p, Binary(op, a, b), l) == Meaning(op, Eval(p, a, l), Eval(p, b, l))
  {
    hide Meaning, ApplyBinary;
    OperatorsAgree(p, op, Eval(p, a, l), Eval(p, b, l));
  }

  lemma EvalUnary(p: Prelude, op: UnaryOp, a: Expr, l: Lane)
    requires LaneFits(l) && ExprFits(a)
    ensures ExprFits(Unary(op, a))
    ensures Eval(p, Unary(op, a), l) == ApplyUnary(op, Eval(p, a, l))
  {
  }

  lemma EvalConst(p: Prelude, v: bv32, l: Lane)
    requires LaneFits(l)
    ensures ExprFits(Const(v)) && Eval(p, Const(v), l) == v
  {
  }

  /** The value of an emitted merge is the merge of the values, for any operands. */
  lemma MergeExprMeans(p: Prelude, a: Expr, b: Expr, r: word, l: Lane)
    requires LaneFits(l) && ExprFits(a) && ExprFits(b)
    ensures Eval(p, MergeExpr(a, b, r), l) == Merged(Eval(p, a, l), Eval(p, b, l), r)
  {
    hide Eval, ExprFits, MergeExpr, Merged, Meaning, Select;
    var k, c := Const(Literal(MergeAmount(r))), Const(Literal(33));
    MergeCases(a, b, r);
    MergedCases(Eval(p, a, l), Eval(p, b, l), r);
    hide Literal, MergeAmount;
    EvalConst(p, k.value, l);
    EvalConst(p, c.value, l);
    if Select(r, 4) == 0 {
      EvalBinary(p, OpRotr, a, k, l);
      EvalBinary(p, OpXor, Binary(OpRotr, a, k), b, l);
    } else if Select(r, 4) == 1 {
      EvalBinary(p, OpRotl, a, k, l);
      EvalBinary(p, OpXor, Binary(OpRotl, a, k), b, l);
    } else if Select(r, 4) == 2 {
      EvalBinary(p, OpMul, a, c, l);
      EvalBinary(p, OpAdd, Binary(OpMul, a, c), b, l);
    } else {
      EvalBinary(p, OpXor, a, b, l);
      EvalBinary(p, OpMul, Binary(OpXor, a, b), c, l);
    }
  }

  lemma MergeCases(a: Expr, b: Expr, r: word)
    requires ExprFits(a) && ExprFits(b)
    ensures var k, c, s := Const(Literal(MergeAmount(r))), Const(Literal(33)), Select(r, 4);
            && (s == 0 ==> MergeExpr(a, b, r) == Binary(OpXor, Binary(OpRotr, a, k), b))
            && (s == 1 ==> MergeExpr(a, b, r) == Binary(OpXor, Binary(OpRotl, a, k), b))
            && (s == 2 ==> MergeExpr(a, b, r) == Binary(OpAdd, Binary(OpMul, a, c), b))
            && (s == 3 ==> MergeExpr(a, b, r) == Binary(OpMul, Binary(OpXor, a, b), c))
  {
    hide ExprFits, Literal, MergeAmount, Select;
  }

  /** The table of merges in the operators of the emitted text. */
  lemma MergedCases(x: bv32, y: bv32, r: word)
    ensures var k, c, s := Literal(MergeAmount(r)), Literal(33), Select(r, 4);
            && (s == 0 ==> Merged(x, y, r) == Meaning(OpXor, Meaning(OpRotr, x, k), y))
            && (s == 1 ==> Merged(x, y, r) == Meaning(OpXor, Meaning(OpRotl, x, k), y))
            && (s == 2 ==> Merged(x, y, r) == Meaning(OpAdd, Meaning(OpMul, x, c), y))
            && (s == 3 ==> Merged(x, y, r) == Meaning(OpMul, Meaning(OpXor, x, y), c))
  {
    hide Left, Right, Plus, Times, Xor, Times33, Literal, MergeAmount, Select;
    TimesLiteral(x);
    TimesLiteral(Xor(x, y));
  }

  lemma MathExprMeans(p: Prelude, a: Expr, b: Expr, r: word, l: Lane)
    requires LaneFits(l) && ExprFits(a) && ExprFits(b)
    ensures Eval(p, MathExpr(a, b, r), l) == Mathed(Eval(p, a, l), Eval(p, b, l), r)
  {
    hide Eval, ExprFits, MathExpr, Mathed, Meaning, Select;
    if Select(r, 11) == 3 || Select(r, 11) == 4 {
      CountingMath(p, a, b, r, l);
    } else {
      var op := OneOperation(a, b, r);
      EvalBinary(p, op, a, b, l);
      MathMeaning(op, a, b, r, Eval(p, a, l), Eval(p, b, l));
    }
  }

  lemma OneOperation(a: Expr, b: Expr, r: word) returns (op: BinaryOp)
    requires ExprFits(a) && ExprFits(b) && Select(r, 11) != 3 && Select(r, 11) != 4
    ensures MathExpr(a, b, r) == Binary(op, a, b)
  {
    hide ExprFits, Select;
    op := MathExpr(a, b, r).bop;
  }

  lemma MathMeaning(op: BinaryOp, a: Expr, b: Expr, r: word, x: bv32, y: bv32)
    requires ExprFits(a) && ExprFits(b) && Select(r, 11) != 3 && Select(r, 11) != 4
    requires MathExpr(a, b, r) == Binary(op, a, b)
    ensures Meaning(op, x, y) == Mathed(x, y, r)
  {
    hide ExprFits, Left, Right, Least, Plus, Times, Xor, And, Or, MulHi, Popcount, Clz, Select;
  }

  lemma CountingMath(p: Prelude, a: Expr, b: Expr, r: word, l: Lane)
    requires LaneFits(l) && ExprFits(a) && ExprFits(b) && (Select(r, 11) == 3 || Select(r, 11) == 4)
    ensures Eval(p, MathExpr(a, b, r), l) == Mathed(Eval(p, a, l), Eval(p, b, l), r)
  {
    hide Eval, ExprFits, MathExpr, Mathed, Meaning, ApplyUnary, Select;
    var op := if Select(r, 11) == 3 then OpPopcount else OpClz;
    EvalUnary(p, op, a, l);
    EvalUnary(p, op, b, l);
    EvalBinary(p, OpAdd, Unary(op, a), Unary(op, b), l);
    CountingExpr(a, b, r);
    CountingMeaning(Eval(p, a, l), Eval(p, b, l), r);
  }

  lemma CountingExpr(a: Expr, b: Expr, r: word)
    requires ExprFits(a) && ExprFits(b)
    ensures Select(r, 11) == 3 ==> MathExpr(a, b, r) == Binary(OpAdd, Unary(OpPopcount, a), Unary(OpPopcount, b))
    ensures Select(r, 11) == 4 ==> MathExpr(a, b, r) == Binary(OpAdd, Unary(OpClz, a), Unary(OpClz, b))
  {
    hide ExprFits, Select;
  }

  lemma CountingMeaning(x: bv32, y: bv32, r: word)
    ensures Select(r, 11) == 3 ==>
      Mathed(x, y, r) == Meaning(OpAdd, ApplyUnary(OpPopcount, x), ApplyUnary(OpPopcount, y))
    ensures Select(r, 11) == 4 ==> Mathed(x, y, r) == Meaning(OpAdd, ApplyUnary(OpClz, x), ApplyUnary(OpClz, y))
  {
    hide Left, Right, Least, Plus, Times, Xor, And, Or, MulHi, Popcount, Clz, Select;
  }
}
