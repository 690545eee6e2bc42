/**
 Where the generated code does something else than the source says, what it does
 instead, and when the two agree: `!`, compound assignment, `&&` and `||`,
 `bweak` and `continyue`, increments that are assignments, and variables that
 share a word with a temp.
 */
module Divergence {
  import opened Words
  import opened Ast
  import opened Source
  import opened Ir
  import opened IrMachine
  import opened Lowering
  import X86
  import opened Codegen
  import C = CodegenCorrect
  import opened FrameExamples
  import opened Liveness
  import opened Sharing
  import opened Semantic
  import opened Scoping

  // ---------- ! ----------

  /** `!e` computes ~e: the right value only for -1, the right branch only for 0 and -1. */
  lemma NotIsComplement(im: Image, e: Expr, c: Counters, s: State, env: Env, m: Slots, v: Word, tr: seq<Event>)
    returns (k: nat)
    requires SupportedExpr(e) && ResolvedExpr(e, m) && StringsLinked(im)
    requires s.Running? && CodeAt(im.code, s.pc, GenExpr(Unary(LogicalNot, e), c).code) && Matches(m, env, s.vars)
    requires Eval(im.world, e, env, s.tr) == Val(v, tr)
    ensures var t, g := Run(im, s, k), GenExpr(Unary(LogicalNot, e), c);
      && t.Running? && t.pc == s.pc + |g.code| && t.tr == tr
      && var wanted := Eval(im.world, Unary(LogicalNot, e), env, s.tr);
      && wanted.Val?
      && (Lookup(t.temps, g.res.n) == wanted.v <==> v == -1)
      && ((Lookup(t.temps, g.res.n) != 0) == (wanted.v != 0) <==> v == 0 || v == -1)
  {
    k := ExprSim(im, Unary(UnaryOp.Tilde, e), c, s, env, m);
  }

  // ---------- op= ----------

  /** `x op= e` stores the value of e, whatever op is. */
  lemma CompoundStoresOperand(im: Image, x: string, slot: nat, op: AssignOp, e: Expr, c: Counters, s: State, env: Env,
                              m: Slots, fuel: nat) returns (k: nat)
    requires SupportedExpr(e) && ResolvedExpr(e, m) && x in m && slot == m[x] && s.Running?
    requires Ready(im, s.pc, GenStmt(ExprStmt(Assign(op, Ident(x, slot), e)), c).code, s, env, m)
    ensures var st := ExprStmt(Assign(op, Ident(x, slot), e));
      StmtDone(im, Store(im.world, x, Set, e, env, s.tr), |GenStmt(st, c).code|, s.pc, m, fuel, k, Run(im, s, k))
  {
    k := StoreSim(im, x, slot, e, c, s, env, m, fuel);
  }

  /** That is what the source says exactly when the old value and the operand are related like this. */
  lemma CompoundIsRight(before: Word, v: Word)
    ensures AssignedValue(PlusSet, before, v) == Some(v) <==> before == 0
    ensures AssignedValue(MinusSet, before, v) == Some(v) <==> before == Wrap(2 * v)
    ensures AssignedValue(TimesSet, before, v) == Some(v) <==> (before - 1) * v % MODULUS == 0
    ensures AssignedValue(DivideSet, before, v) == Some(v) <==> v != 0 && v * v <= before < v * v + Abs(v)
    ensures AssignedValue(DivideSet, before, v).None? <==> v == 0 || (before == 0 - SIGN && v == -1)
  {
    WrappedSum(before, v);
    WrappedDifference(before, v);
    WrappedProduct(before, v);
    if v != 0 {
      QuotientIsItself(before, v);
    }
  }

  lemma WrappedSum(a: Word, b: Word)
    ensures Wrap(a + b) == b <==> a == 0
  {
  }

  lemma WrappedDifference(a: Word, b: Word)
    ensures Wrap(a - b) == b <==> a == Wrap(2 * b)
  {
  }

  lemma WrappedProduct(a: Word, b: Word)
    ensures Wrap(a * b) == b <==> (a - 1) * b % MODULUS == 0
  {
    var p := a * b;
    assert (a - 1) * b == p - b;
    WrapsTo(p, b);
  }

  lemma WrapsTo(p: int, b: Word)
    ensures Wrap(p) == b <==> (p - b) % MODULUS == 0
  {
  }

  lemma QuotientIsItself(a: Word, b: Word)
    requires b != 0
    ensures Quotient(a, b) == b <==> b * b <= a < b * b + Abs(b)
  {
    var n, d := Abs(a), Abs(b);
    assert b * b == d * d;
    DividesTo(n, d, d);
  }

  lemma DividesTo(n: nat, d: nat, q: nat)
    requires d > 0
    ensures n / d == q <==> q * d <= n < q * d + d
  {
    var r := n / d;
    assert r * d <= n < r * d + d;
    Monotone(q + 1, r, d);
    Monotone(r + 1, q, d);
  }

  lemma Monotone(a: nat, b: nat, d: nat)
    ensures a <= b ==> a * d <= b * d
  {
  }

  // ---------- && and || ----------

  /** `&&` has exactly the code of `&`, and `||` that of `|`. */
  lemma LogicIsBitwise(l: Expr, r: Expr, c: Counters)
    ensures GenExpr(Binary(LogicalAnd, l, r), c) == GenExpr(Binary(BitAndOp, l, r), c)
    ensures GenExpr(Binary(LogicalOr, l, r), c) == GenExpr(Binary(BitOrOp, l, r), c)
  {
  }

  function BitwiseOf(op: BinaryOp): BinaryOp
    requires IsLogical(op)
  {
    if op == LogicalAnd then BitAndOp else BitOrOp
  }

  /** So it evaluates both operands and combines their bits. */
  lemma LogicRuns(im: Image, op: BinaryOp, l: Expr, r: Expr, c: Counters, s: State, env: Env, m: Slots) returns (k: nat)
    requires IsLogical(op) && SupportedExpr(l) && SupportedExpr(r) && ResolvedExpr(l, m) && ResolvedExpr(r, m)
    requires s.Running? && CodeAt(im.code, s.pc, GenExpr(Binary(op, l, r), c).code)
    requires StringsLinked(im) && Matches(m, env, s.vars)
    ensures ExprDone(im, Binary(BitwiseOf(op), l, r), c, s, env, Run(im, s, k))
  {
    LogicIsBitwise(l, r, c);
    k := ExprSim(im, Binary(BitwiseOf(op), l, r), c, s, env, m);
  }

  // The right operand has a value and calls nothing.
  predicate Quiet(b: Value, tr: seq<Event>) {
    b.Val? && b.tr == tr
  }

  // The source's two operations and the code's, on the operands' values.
  lemma LogicEval(w: World, l: Expr, r: Expr, env: Env, tr: seq<Event>)
    ensures var a := Eval(w, l, env, tr);
      if !a.Val? then
        && Eval(w, Binary(LogicalAnd, l, r), env, tr) == Eval(w, Binary(BitAndOp, l, r), env, tr)
        && Eval(w, Binary(LogicalOr, l, r), env, tr) == Eval(w, Binary(BitOrOp, l, r), env, tr)
      else
        var b := Eval(w, r, env, a.tr);
        var both := if b.Val? then Val(FromBool(b.v != 0), b.tr) else b;
        && Eval(w, Binary(LogicalAnd, l, r), env, tr) == (if a.v == 0 then Val(0, a.tr) else both)
        && Eval(w, Binary(LogicalOr, l, r), env, tr) == (if a.v != 0 then Val(1, a.tr) else both)
        && Eval(w, Binary(BitAndOp, l, r), env, tr) == (if b.Val? then Val(WordBits(BitAnd, a.v, b.v), b.tr) else b)
        && Eval(w, Binary(BitOrOp, l, r), env, tr) == if b.Val? then Val(WordBits(BitOr, a.v, b.v), b.tr) else b
  {
    hide WordBits, Eval;
    BinaryEval(w, LogicalAnd, l, r, env, tr);
    BinaryEval(w, LogicalOr, l, r, env, tr);
    BinaryEval(w, BitAndOp, l, r, env, tr);
    BinaryEval(w, BitOrOp, l, r, env, tr);
  }

  /** When that is the value, the fault and the calls of `l && r`. */
  lemma AndIsRight(w: World, l: Expr, r: Expr, env: Env, tr: seq<Event>)
    ensures var a := Eval(w, l, env, tr);
      Eval(w, Binary(LogicalAnd, l, r), env, tr) == Eval(w, Binary(BitAndOp, l, r), env, tr) <==>
        (a.Val? ==>
           var b := Eval(w, r, env, a.tr);
           if a.v == 0 then Quiet(b, a.tr) else b.Val? && b.v != 0 ==> WordBits(BitAnd, a.v, b.v) == 1)
  {
    hide WordBits, Eval;
    LogicEval(w, l, r, env, tr);
    var a := Eval(w, l, env, tr);
    if a.Val? {
      var b := Eval(w, r, env, a.tr);
      if b.Val? {
        AndZero(a.v);
        AndZero(b.v);
      }
    }
  }

  lemma AndZero(a: Word)
    ensures WordBits(BitAnd, a, 0) == 0 && WordBits(BitAnd, 0, a) == 0
  {
    AndWithZero(a);
    BitwiseCommutes(BitAnd, a, 0);
  }

  lemma {:induction false} AndWithZero(a: int)
    ensures Bitwise(BitAnd, a, 0) == 0
    decreases Abs(a)
  {
    if !(-1 <= a <= 0) {
      AndWithZero(a / 2);
    }
  }

  /** When it is that of `l || r`: a true left operand must be 1, the right one 0 or 1. */
  lemma OrIsRight(w: World, l: Expr, r: Expr, env: Env, tr: seq<Event>)
    ensures var a := Eval(w, l, env, tr);
      Eval(w, Binary(LogicalOr, l, r), env, tr) == Eval(w, Binary(BitOrOp, l, r), env, tr) <==>
        (a.Val? ==>
           var b := Eval(w, r, env, a.tr);
           if a.v == 0 then b.Val? ==> 0 <= b.v <= 1 else Quiet(b, a.tr) && a.v == 1 && 0 <= b.v <= 1)
  {
    hide WordBits, Eval;
    LogicEval(w, l, r, env, tr);
    var a := Eval(w, l, env, tr);
    if a.Val? {
      var b := Eval(w, r, env, a.tr);
      if b.Val? {
        OrFacts(a.v, b.v);
      }
    }
  }

  lemma OrFacts(a: Word, b: Word)
    ensures WordBits(BitOr, 0, b) == b
    ensures WordBits(BitOr, a, b) == 1 <==> 0 <= a <= 1 && 0 <= b <= 1 && (a == 1 || b == 1)
  {
    OrWithZero(b);
    BitwiseCommutes(BitOr, 0, b);
    OrIsOne(a, b);
  }

  lemma {:induction false} OrWithZero(a: int)
    ensures Bitwise(BitOr, a, 0) == a
    decreases Abs(a)
  {
    if !(-1 <= a <= 0) {
      OrWithZero(a / 2);
    }
  }

  lemma {:induction false} OrIsZero(a: int, b: int)
    ensures Bitwise(BitOr, a, b) == 0 <==> a == 0 && b == 0
    decreases Abs(a) + Abs(b)
  {
    if !(-1 <= a <= 0 && -1 <= b <= 0) {
      OrIsZero(a / 2, b / 2);
    }
  }

  lemma OrIsOne(a: int, b: int)
    ensures Bitwise(BitOr, a, b) == 1 <==> 0 <= a <= 1 && 0 <= b <= 1 && (a == 1 || b == 1)
  {
    if !(-1 <= a <= 0 && -1 <= b <= 0) {
      OrIsZero(a / 2, b / 2);
    }
  }

  /** `1 && 2` is 1 and comes out as 0. */
  lemma BothTrue(w: World, env: Env, tr: seq<Event>)
    ensures Eval(w, Binary(LogicalAnd, Number(1), Number(2)), env, tr) == Val(1, tr)
    ensures Eval(w, Binary(BitAndOp, Number(1), Number(2)), env, tr) == Val(0, tr)
  {
    assert Wrap(1) == 1 && Wrap(2) == 2;
    OneAndTwo();
  }

  lemma OneAndTwo()
    ensures WordBits(BitAnd, 1, 2) == 0
  {
    assert Bitwise(BitAnd, 0, 1) == 0;
  }

  /** `0 && 1 / 0` is 0 and faults. */
  lemma FaultsOnRight(w: World, env: Env, tr: seq<Event>)
    ensures var r := Binary(Divide, Number(1), Number(0));
      && Eval(w, Binary(LogicalAnd, Number(0), r), env, tr) == Val(0, tr)
      && Eval(w, Binary(BitAndOp, Number(0), r), env, tr) == Faulted(tr)
  {
    hide WordBits;
    assert Eval(w, Binary(Divide, Number(1), Number(0)), env, tr) == Faulted(tr);
  }

  /** `1 || f()` calls nothing and calls f. */
  lemma CallsOnRight(w: World, env: Env, tr: seq<Event>)
    ensures var r := Expr.Call(Ident("f", 0), []);
      && Eval(w, Binary(LogicalOr, Number(1), r), env, tr) == Val(1, tr)
      && var b := Eval(w, Binary(BitOrOp, Number(1), r), env, tr); b.Val? && b.tr == tr + [CallResult(w, "f", [], tr)]
  {
    hide WordBits, CallResult;
    var r := Expr.Call(Ident("f", 0), []);
    assert EvalArgs(w, [], env, tr) == Vals([], tr);
    assert Eval(w, r, env, tr).Val? && Eval(w, r, env, tr).tr == tr + [CallResult(w, "f", [], tr)];
  }

  // ---------- bweak and continyue ----------

  /** The statement without its `bweak` and `continyue`. */
  function Erase(s: Stmt): Stmt {
    match s
    case If(c, t, e) => If(c, Erase(t), if e.Some? then Some(Erase(e.value)) else None)
    case While(c, b) => While(c, Erase(b))
    case For(cs, b) => For(seq(|cs|, i requires 0 <= i < |cs| => Erase(cs[i])), Erase(b))
    case Block(ss) => Block(seq(|ss|, i requires 0 <= i < |ss| => Erase(ss[i])))
    case Break | Continue => Block([])
    case Return(_) | Decl(_, _, _, _) | ExprStmt(_) => s
  }

  lemma ClauseErased(s: Stmt, c: Counters)
    ensures GenClause(Erase(s), c) == GenClause(s, c)
  {
  }

  /** Every statement has the code of its erased form. */
  lemma {:induction false} JumpsErased(s: Stmt, c: Counters)
    ensures GenStmt(Erase(s), c) == GenStmt(s, c)
    decreases s, 2
  {
    match s
    case If(_, _, _) => IfErased(s, c);
    case While(cond, b) => JumpsErased(b, GenExpr(cond, c.(lab := c.lab + 2)).next);
    case For(_, _) => ForErased(s, c);
    case Block(ss) =>
      assert |Erase(s).stmts| == |ss| && forall i | 0 <= i < |ss| :: Erase(s).stmts[i] == Erase(ss[i]);
      BlockErased(Erase(s).stmts, ss, c);
    case Break | Continue =>
    case Return(_) | Decl(_, _, _, _) | ExprStmt(_) =>
  }

  lemma {:induction false} IfErased(s: Stmt, c: Counters)
    requires s.If?
    ensures GenIf(Erase(s), c) == GenIf(s, c)
    decreases s, 0
  {
    var g := GenExpr(s.cond, c);
    var c1 := g.next.(lab := g.next.lab + 1);
    JumpsErased(s.thn, c1);
    if s.els.Some? {
      var gt := GenStmt(s.thn, c1);
      JumpsErased(s.els.value, gt.next.(lab := gt.next.lab + 1));
    }
  }

  lemma {:induction false} BlockErased(es: seq<Stmt>, ss: seq<Stmt>, c: Counters)
    requires |es| == |ss| && forall i | 0 <= i < |ss| :: es[i] == Erase(ss[i])
    ensures GenStmts(es, c) == GenStmts(ss, c)
    decreases ss, 0
  {
    if ss != [] {
      JumpsErased(ss[0], c);
      BlockErased(es[1..], ss[1..], GenStmt(ss[0], c).next);
    }
  }

  lemma ChildErased(s: Stmt, i: nat)
    requires s.For? && i <= |s.clauses|
    ensures |Erase(s).clauses| == |s.clauses| && Child(Erase(s), i) == Erase(Child(s, i))
  {
  }

  lemma {:induction false} ForErased(s: Stmt, c: Counters)
    requires s.For?
    ensures GenFor(Erase(s), c) == GenFor(s, c)
    decreases s, 1
  {
    ChildErased(s, 0);
    JumpsErased(Child(s, 0), c);
    ForLoopErased(s, GenStmt(Child(s, 0), c).next);
  }

  lemma {:induction false} ForLoopErased(s: Stmt, c: Counters)
    requires s.For?
    ensures GenForLoop(Erase(s), c) == GenForLoop(s, c)
    decreases s, 0
  {
    hide GenStmt, GenClause;
    var t, n := Erase(s), |s.clauses|;
    var end, c1 := c.lab + 1, c.(lab := c.lab + 3);
    ChildErased(s, n);
    if n >= 1 {
      ChildErased(s, 1);
      ClauseErased(Child(s, 1), c1);
    }
    assert GenTest(t, end, c1) == GenTest(s, end, c1);
    var g1 := GenTest(s, end, c1);
    if n >= 3 {
      ChildErased(s, 3);
      JumpsErased(Child(s, 3), g1.next);
    }
    assert GenForBody(t, g1.next) == GenForBody(s, g1.next);
    var g3 := GenForBody(s, g1.next);
    if n >= 2 {
      ChildErased(s, 2);
      ClauseErased(Child(s, 2), g3.next);
    }
    assert GenStep(t, g3.next) == GenStep(s, g3.next);
  }

  /** A function's code means its body without `bweak` and `continyue`. */
  lemma RunsErased(im: Image, name: string, body: Stmt, c: Counters, s: State, env: Env, m: Slots)
    requires SupportedStmt(Erase(body)) && ResolvedStmt(Erase(body), m)
    requires s.Running? && Ready(im, s.pc, GenFunction(name, body, c).code, s, env, m)
    ensures forall v, tr ::
      SourceEnds(im.world, Erase(body), env, s.tr, Gives(v, tr)) <==> IrEnds(im, s, Halted(v, tr))
    ensures forall tr ::
      SourceEnds(im.world, Erase(body), env, s.tr, Dies(tr)) <==> IrEnds(im, s, Trapped(tr))
  {
    JumpsErased(body, c.(temp := 0));
    FunctionCorrect(im, name, Erase(body), c, s, env, m);
  }

  /** The run of s never executes `bweak` or `continyue`. */
  predicate Avoids(w: World, s: Stmt, env: Env, tr: seq<Event>, fuel: nat)
    decreases fuel, s, 3
  {
    match s
    case Block(ss) => AvoidsAll(w, ss, env, tr, fuel)
    case If(c, thn, els) =>
      var a := Eval(w, c, env, tr);
      a.Val? ==>
        if a.v != 0 then Avoids(w, thn, env, a.tr, fuel) else els.Some? ==> Avoids(w, els.value, env, a.tr, fuel)
    case While(c, b) => AvoidsLoop(w, s, c, b, None, env, tr, fuel)
    case For(cs, b) =>
      |cs| == 3 && cs[1].ExprStmt? ==>
        var r := Exec(w, cs[0], env, tr, fuel);
        && Avoids(w, cs[0], env, tr, fuel)
        && (r.Normal? ==> AvoidsLoop(w, s, cs[1].expr, b, Some(cs[2]), r.env, r.tr, fuel))
    case Break | Continue => false
    case Return(_) | Decl(_, _, _, _) | ExprStmt(_) => true
  }

  predicate AvoidsAll(w: World, ss: seq<Stmt>, env: Env, tr: seq<Event>, fuel: nat)
    decreases fuel, ss, 0
  {
    ss != [] ==>
      var r := Exec(w, ss[0], env, tr, fuel);
      Avoids(w, ss[0], env, tr, fuel) && (r.Normal? ==> AvoidsAll(w, ss[1..], r.env, r.tr, fuel))
  }

  predicate AvoidsLoop(w: World, s: Stmt, c: Expr, b: Stmt, inc: Option<Stmt>, env: Env, tr: seq<Event>, fuel: nat)
    requires b < s && (inc.Some? ==> inc.value < s)
    decreases fuel, s, 2
  {
    var a := Eval(w, c, env, tr);
    fuel > 0 && a.Val? && a.v != 0 ==> AvoidsPass(w, s, c, b, inc, env, a.tr, fuel)
  }

  predicate AvoidsPass(w: World, s: Stmt, c: Expr, b: Stmt, inc: Option<Stmt>, env: Env, tr: seq<Event>, fuel: nat)
    requires b < s && (inc.Some? ==> inc.value < s) && fuel > 0
    decreases fuel, s, 1
  {
    var r := Exec(w, b, env, tr, fuel);
    Avoids(w, b, env, tr, fuel) && (r.Normal? ==> AvoidsStep(w, s, c, b, inc, r.env, r.tr, fuel))
  }

  predicate AvoidsStep(w: World, s: Stmt, c: Expr, b: Stmt, inc: Option<Stmt>, env: Env, tr: seq<Event>, fuel: nat)
    requires b < s && (inc.Some? ==> inc.value < s) && fuel > 0
    decreases fuel, s, 0
  {
    if inc.None? then AvoidsLoop(w, s, c, b, inc, env, tr, fuel - 1)
    else
      var q := Exec(w, inc.value, env, tr, fuel);
      && Avoids(w, inc.value, env, tr, fuel)
      && (q.Normal? ==> AvoidsLoop(w, s, c, b, inc, q.env, q.tr, fuel - 1))
  }

  // The erased form did the same, and left no loop early.
  predicate SameEnd(r1: Outcome, r: Outcome) {
    r1 == r && !r.Broke? && !r.Continued?
  }

  /** Such a run is a run of the erased statement, with the same outcome. */
  lemma {:induction false} AvoidedRuns(w: World, s: Stmt, env: Env, tr: seq<Event>, fuel: nat)
    requires Avoids(w, s, env, tr, fuel)
    ensures SameEnd(Exec(w, Erase(s), env, tr, fuel), Exec(w, s, env, tr, fuel))
    decreases fuel, s, 3
  {
    hide Eval, Loop, AvoidsLoop;
    match s
    case Block(ss) =>
      assert |Erase(s).stmts| == |ss| && forall i | 0 <= i < |ss| :: Erase(s).stmts[i] == Erase(ss[i]);
      AvoidedRunsAll(w, Erase(s).stmts, ss, env, tr, fuel);
    case If(c, thn, els) =>
      var a := Eval(w, c, env, tr);
      if a.Val? && a.v != 0 {
        AvoidedRuns(w, thn, env, a.tr, fuel);
      } else if a.Val? && els.Some? {
        AvoidedRuns(w, els.value, env, a.tr, fuel);
      }
    case While(c, b) => AvoidedLoop(w, s, Erase(s), c, b, None, env, tr, fuel);
    case For(cs, b) =>
      assert |Erase(s).clauses| == |cs| && forall i | 0 <= i < |cs| :: Erase(s).clauses[i] == Erase(cs[i]);
      if |cs| == 3 && cs[1].ExprStmt? {
        AvoidedRuns(w, cs[0], env, tr, fuel);
        var r := Exec(w, cs[0], env, tr, fuel);
        if r.Normal? {
          AvoidedLoop(w, s, Erase(s), cs[1].expr, b, Some(cs[2]), r.env, r.tr, fuel);
        }
      }
    case Return(_) | Decl(_, _, _, _) | ExprStmt(_) =>
  }

  lemma {:induction false} AvoidedRunsAll(w: World, es: seq<Stmt>, ss: seq<Stmt>, env: Env, tr: seq<Event>, fuel: nat)
    requires AvoidsAll(w, ss, env, tr, fuel)
    requires |es| == |ss| && forall i | 0 <= i < |ss| :: es[i] == Erase(ss[i])
    ensures SameEnd(ExecAll(w, es, env, tr, fuel), ExecAll(w, ss, env, tr, fuel))
    decreases fuel, ss, 0
  {
    if ss != [] {
      AvoidedRuns(w, ss[0], env, tr, fuel);
      var r := Exec(w, ss[0], env, tr, fuel);
      if r.Normal? {
        AvoidedRunsAll(w, es[1..], ss[1..], r.env, r.tr, fuel);
      }
    }
  }

  function EraseStep(inc: Option<Stmt>): Option<Stmt> {
    if inc.None? then None else Some(Erase(inc.value))
  }

  // The loop of s, and that of its erased form s1.
  ghost predicate LoopIn(s: Stmt, s1: Stmt, b: Stmt, inc: Option<Stmt>) {
    b < s && (inc.Some? ==> inc.value < s) && Erase(b) < s1 && (inc.Some? ==> Erase(inc.value) < s1)
  }

  lemma {:induction false} AvoidedLoop(w: World, s: Stmt, s1: Stmt, c: Expr, b: Stmt, inc: Option<Stmt>, env: Env,
                                       tr: seq<Event>, fuel: nat)
    requires LoopIn(s, s1, b, inc) && AvoidsLoop(w, s, c, b, inc, env, tr, fuel)
    ensures SameEnd(Loop(w, s1, c, Erase(b), EraseStep(inc), env, tr, fuel), Loop(w, s, c, b, inc, env, tr, fuel))
    decreases fuel, s, 2
  {
    hide *;
    LoopOpens(w, s, s1, c, b, inc, env, tr, fuel);
    if fuel > 0 {
      var a := Eval(w, c, env, tr);
      if a.Val? && a.v != 0 {
        AvoidedPass(w, s, s1, c, b, inc, env, a.tr, fuel);
      }
    }
    LoopEnds(w, s, s1, c, b, Erase(b), inc, EraseStep(inc), env, tr, fuel);
  }

  lemma LoopOpens(w: World, s: Stmt, s1: Stmt, c: Expr, b: Stmt, inc: Option<Stmt>, env: Env, tr: seq<Event>, fuel: nat)
    requires LoopIn(s, s1, b, inc) && AvoidsLoop(w, s, c, b, inc, env, tr, fuel)
    ensures b < s && (inc.Some? ==> inc.value < s)
    ensures Erase(b) < s1 && (EraseStep(inc).Some? ==> EraseStep(inc).value < s1)
    ensures var a := Eval(w, c, env, tr); fuel > 0 && a.Val? && a.v != 0 ==> AvoidsPass(w, s, c, b, inc, env, a.tr, fuel)
  {
    hide Eval, Erase, AvoidsPass;
  }

  lemma LoopEnds(w: World, s: Stmt, s1: Stmt, c: Expr, b: Stmt, b1: Stmt, inc: Option<Stmt>, inc1: Option<Stmt>,
                 env: Env, tr: seq<Event>, fuel: nat)
    requires b < s && b1 < s1 && (inc.Some? ==> inc.value < s) && (inc1.Some? ==> inc1.value < s1)
    requires var a := Eval(w, c, env, tr);
      fuel > 0 && a.Val? && a.v != 0 ==>
        SameEnd(AfterTest(w, s1, c, b1, inc1, env, a.tr, fuel), AfterTest(w, s, c, b, inc, env, a.tr, fuel))
    ensures SameEnd(Loop(w, s1, c, b1, inc1, env, tr, fuel), Loop(w, s, c, b, inc, env, tr, fuel))
  {
    hide Eval, AfterTest;
  }

  lemma {:induction false} AvoidedPass(w: World, s: Stmt, s1: Stmt, c: Expr, b: Stmt, inc: Option<Stmt>, env: Env,
                                       tr: seq<Event>, fuel: nat)
    requires LoopIn(s, s1, b, inc) && fuel > 0 && AvoidsPass(w, s, c, b, inc, env, tr, fuel)
    ensures SameEnd(AfterTest(w, s1, c, Erase(b), EraseStep(inc), env, tr, fuel),
                    AfterTest(w, s, c, b, inc, env, tr, fuel))
    decreases fuel, s, 1
  {
    hide *;
    PassOpens(w, s, s1, c, b, inc, env, tr, fuel);
    AvoidedRuns(w, b, env, tr, fuel);
    var r := Exec(w, b, env, tr, fuel);
    if r.Normal? {
      AvoidedStep(w, s, s1, c, b, inc, r.env, r.tr, fuel);
    }
    PassEnds(w, s, s1, c, b, Erase(b), inc, EraseStep(inc), env, tr, fuel);
  }

  lemma PassOpens(w: World, s: Stmt, s1: Stmt, c: Expr, b: Stmt, inc: Option<Stmt>, env: Env, tr: seq<Event>, fuel: nat)
    requires LoopIn(s, s1, b, inc) && fuel > 0 && AvoidsPass(w, s, c, b, inc, env, tr, fuel)
    ensures b < s && (inc.Some? ==> inc.value < s)
    ensures Erase(b) < s1 && (EraseStep(inc).Some? ==> EraseStep(inc).value < s1)
    ensures var r := Exec(w, b, env, tr, fuel);
      Avoids(w, b, env, tr, fuel) && (r.Normal? ==> AvoidsStep(w, s, c, b, inc, r.env, r.tr, fuel))
  {
    hide Exec, Erase, Avoids, AvoidsStep;
  }

  lemma PassEnds(w: World, s: Stmt, s1: Stmt, c: Expr, b: Stmt, b1: Stmt, inc: Option<Stmt>, inc1: Option<Stmt>,
                 env: Env, tr: seq<Event>, fuel: nat)
    requires b < s && b1 < s1 && (inc.Some? ==> inc.value < s) && (inc1.Some? ==> inc1.value < s1) && fuel > 0
    requires SameEnd(Exec(w, b1, env, tr, fuel), Exec(w, b, env, tr, fuel))
    requires var r := Exec(w, b, env, tr, fuel);
      r.Normal? ==>
        SameEnd(AfterBody(w, s1, c, b1, inc1, r.env, r.tr, fuel), AfterBody(w, s, c, b, inc, r.env, r.tr, fuel))
    ensures SameEnd(AfterTest(w, s1, c, b1, inc1, env, tr, fuel), AfterTest(w, s, c, b, inc, env, tr, fuel))
  {
    hide Exec, AfterBody;
  }

  lemma {:induction false} AvoidedStep(w: World, s: Stmt, s1: Stmt, c: Expr, b: Stmt, inc: Option<Stmt>, env: Env,
                                       tr: seq<Event>, fuel: nat)
    requires LoopIn(s, s1, b, inc) && fuel > 0 && AvoidsStep(w, s, c, b, inc, env, tr, fuel)
    ensures SameEnd(AfterBody(w, s1, c, Erase(b), EraseStep(inc), env, tr, fuel),
                    AfterBody(w, s, c, b, inc, env, tr, fuel))
    decreases fuel, s, 0
  {
    hide Exec, Loop, AvoidsLoop, Avoids, Erase, AfterTest, Eval;
    if inc.None? {
      AvoidedLoop(w, s, s1, c, b, inc, env, tr, fuel - 1);
    } else {
      AvoidedRuns(w, inc.value, env, tr, fuel);
      var q := Exec(w, inc.value, env, tr, fuel);
      if q.Normal? {
        AvoidedLoop(w, s, s1, c, b, inc, q.env, q.tr, fuel - 1);
      }
    }
  }

  /** A function whose run never executes `bweak` or `continyue` is executed as its body means. */
  lemma AvoidedIsRight(im: Image, name: string, body: Stmt, c: Counters, s: State, env: Env, m: Slots)
    requires SupportedStmt(Erase(body)) && ResolvedStmt(Erase(body), m)
    requires s.Running? && Ready(im, s.pc, GenFunction(name, body, c).code, s, env, m)
    requires forall fuel: nat :: Avoids(im.world, body, env, s.tr, fuel)
    ensures forall v, tr :: SourceEnds(im.world, body, env, s.tr, Gives(v, tr)) <==> IrEnds(im, s, Halted(v, tr))
    ensures forall tr :: SourceEnds(im.world, body, env, s.tr, Dies(tr)) <==> IrEnds(im, s, Trapped(tr))
  {
    hide Exec, Avoids, Erase, GenFunction, SupportedStmt, ResolvedStmt, Ready;
    RunsErased(im, name, body, c, s, env, m);
    forall fuel: nat ensures RunBody(im.world, Erase(body), env, s.tr, fuel) == RunBody(im.world, body, env, s.tr, fuel) {
      AvoidedRuns(im.world, body, env, s.tr, fuel);
    }
    forall r ensures SourceEnds(im.world, Erase(body), env, s.tr, r) <==> SourceEnds(im.world, body, env, s.tr, r) {
    }
  }

  // `{ wepeat (1) { s } gimme 7; }`
  function Forever(s: Stmt): Stmt {
    Block([While(Number(1), Block([s])), Return(Some(Number(7)))])
  }

  lemma ForeverErased()
    ensures Erase(Forever(Break)) == Forever(Block([]))
  {
    assert Erase(Block([Break])).stmts == [Block([])];
  }

  /** The source leaves the loop at once. */
  lemma BreakLeaves(w: World, env: Env, tr: seq<Event>)
    ensures SourceEnds(w, Forever(Break), env, tr, Gives(Some(7), tr))
  {
    var loop, ret := While(Number(1), Block([Break])), Return(Some(Number(7)));
    assert [Break][1..] == [] && Forever(Break).stmts[1..] == [ret] && [ret][1..] == [];
    assert Exec(w, Block([Break]), env, tr, 1) == Broke(env, tr);
    assert Loop(w, loop, Number(1), Block([Break]), None, env, tr, 1) == Normal(env, tr);
    assert ExecAll(w, [ret], env, tr, 1) == Returned(Some(7), tr);
    assert RunBody(w, Forever(Break), env, tr, 1) == Gives(Some(7), tr);
  }

  // A loop whose condition stays true and whose body changes nothing.
  lemma {:induction false} Spins(w: World, c: Expr, b: Stmt, env: Env, tr: seq<Event>, fuel: nat)
    requires Eval(w, c, env, tr).Val? && Eval(w, c, env, tr).v != 0 && Eval(w, c, env, tr).tr == tr
    requires forall n: nat :: Exec(w, b, env, tr, n) == Normal(env, tr)
    ensures Loop(w, While(c, b), c, b, None, env, tr, fuel) == Timeout
  {
    if fuel > 0 {
      Spins(w, c, b, env, tr, fuel - 1);
      var loop := While(c, b);
      assert Exec(w, b, env, tr, fuel) == Normal(env, tr);
      assert AfterBody(w, loop, c, b, None, env, tr, fuel) == Timeout;
      assert AfterTest(w, loop, c, b, None, env, tr, fuel) == Timeout;
    }
  }

  lemma ForeverTimesOut(w: World, env: Env, tr: seq<Event>, fuel: nat)
    ensures RunBody(w, Forever(Block([])), env, tr, fuel) == NotYet
  {
    var b := Block([Block([])]);
    forall n: nat ensures Exec(w, b, env, tr, n) == Normal(env, tr) {
      assert [Block([])][1..] == [];
      assert Exec(w, Block([]), env, tr, n) == Normal(env, tr);
    }
    Spins(w, Number(1), b, env, tr, fuel);
    assert Exec(w, Forever(Block([])).stmts[0], env, tr, fuel) == Timeout;
    assert ExecAll(w, Forever(Block([])).stmts, env, tr, fuel) == Timeout;
  }

  /** A program that `bweak` lets return 7 and whose code never returns. */
  lemma BreakRunsForever(im: Image, name: string, c: Counters, s: State, env: Env)
    requires s.Running? && Ready(im, s.pc, GenFunction(name, Forever(Break), c).code, s, env, map[])
    ensures SourceEnds(im.world, Forever(Break), env, s.tr, Gives(Some(7), s.tr))
    ensures forall v, tr :: !IrEnds(im, s, Halted(v, tr))
  {
    hide GenFunction, Ready, Step, Erase;
    BreakLeaves(im.world, env, s.tr);
    ForeverErased();
    RunsErased(im, name, Forever(Break), c, s, env, map[]);
    forall v, tr, fuel: nat ensures RunBody(im.world, Forever(Block([])), env, s.tr, fuel) != Gives(v, tr) {
      ForeverTimesOut(im.world, env, s.tr, fuel);
    }
  }

  // `x = n`
  function SetX(n: nat): Stmt {
    ExprStmt(Assign(Set, Ident("x", 0), Number(n)))
  }

  // `wepeat (x == 0) b`
  function WhileZero(b: Stmt): Stmt {
    While(Binary(Equal, Ident("x", 0), Number(0)), b)
  }

  // `{ x: chonk = 0; wepeat (x == 0) { x = 1; s x = 2; } gimme x; }`
  function SetTwice(s: Stmt): Stmt {
    Block([Decl("x", CHONK, Some(Number(0)), 0), WhileZero(Block([SetX(1), s, SetX(2)])), Return(Some(Ident("x", 0)))])
  }

  lemma SetTwiceErased()
    ensures Erase(SetTwice(Continue)) == SetTwice(Block([]))
  {
    assert Erase(Block([SetX(1), Continue, SetX(2)])).stmts == [SetX(1), Block([]), SetX(2)];
  }

  lemma SetXRuns(w: World, n: nat, env: Env, tr: seq<Event>, fuel: nat)
    requires n <= 2
    ensures Exec(w, SetX(n), env, tr, fuel) == Normal(env["x" := n], tr)
  {
  }

  lemma ThreeItems(w: World, a: Stmt, b: Stmt, c: Stmt, env: Env, env1: Env, tr: seq<Event>, fuel: nat)
    requires Exec(w, a, env, tr, fuel) == Normal(env1, tr)
    ensures var r := Exec(w, b, env1, tr, fuel);
      Exec(w, Block([a, b, c]), env, tr, fuel) == if r.Normal? then ExecAll(w, [c], r.env, r.tr, fuel) else r
  {
    assert [a, b, c][1..] == [b, c] && [b, c][1..] == [c];
    assert ExecAll(w, [b, c], env1, tr, fuel)
        == var r := Exec(w, b, env1, tr, fuel); if r.Normal? then ExecAll(w, [c], r.env, r.tr, fuel) else r;
  }

  // The loop's body up to `continyue`, or to its end.
  lemma BodyOnce(w: World, env: Env, tr: seq<Event>, fuel: nat)
    ensures Exec(w, Block([SetX(1), Continue, SetX(2)]), env, tr, fuel) == Continued(env["x" := 1], tr)
    ensures Exec(w, Block([SetX(1), Block([]), SetX(2)]), env, tr, fuel) == Normal(env["x" := 1]["x" := 2], tr)
  {
    hide SetX;
    var env1 := env["x" := 1];
    SetXRuns(w, 1, env, tr, fuel);
    SetXRuns(w, 2, env1, tr, fuel);
    OneLeft(w, SetX(2), env1, tr, fuel);
    ThreeItems(w, SetX(1), Continue, SetX(2), env, env1, tr, fuel);
    ThreeItems(w, SetX(1), Block([]), SetX(2), env, env1, tr, fuel);
    assert Exec(w, Block([]), env1, tr, fuel) == Normal(env1, tr);
  }

  // The loop is over after one iteration that leaves x different from 0.
  lemma LoopOnce(w: World, b: Stmt, env: Env, env1: Env, tr: seq<Event>)
    requires Lookup(env, "x") == 0 && Lookup(env1, "x") != 0
    requires Exec(w, b, env, tr, 2) == Normal(env1, tr) || Exec(w, b, env, tr, 2) == Continued(env1, tr)
    ensures Exec(w, WhileZero(b), env, tr, 2) == Normal(env1, tr)
  {
    var loop, c := WhileZero(b), Binary(Equal, Ident("x", 0), Number(0));
    assert Loop(w, loop, c, b, None, env1, tr, 1) == Normal(env1, tr);
    assert AfterBody(w, loop, c, b, None, env1, tr, 2) == Normal(env1, tr);
    assert AfterTest(w, loop, c, b, None, env, tr, 2) == Normal(env1, tr);
  }

  lemma SetTwiceGives(w: World, s: Stmt, env: Env, env1: Env, tr: seq<Event>)
    requires Lookup(env1, "x") != 0
    requires Exec(w, WhileZero(Block([SetX(1), s, SetX(2)])), env["x" := 0], tr, 2) == Normal(env1, tr)
    ensures SourceEnds(w, SetTwice(s), env, tr, Gives(Some(Lookup(env1, "x")), tr))
  {
    var ss := SetTwice(s).stmts;
    assert ss[1..][1..] == ss[2..] && ss[2..] == [ss[2]] && [ss[2]][1..] == [];
    var r := Returned(Some(Lookup(env1, "x")), tr);
    assert ExecAll(w, ss[2..], env1, tr, 2) == r;
    assert ExecAll(w, ss[1..], env["x" := 0], tr, 2) == r;
    assert Exec(w, ss[0], env, tr, 2) == Normal(env["x" := 0], tr);
    assert ExecAll(w, ss, env, tr, 2) == r;
    assert RunBody(w, SetTwice(s), env, tr, 2) == Gives(Some(Lookup(env1, "x")), tr);
  }

  /** A program that `continyue` lets return 1 and whose code returns 2. */
  lemma ContinueIsLost(im: Image, name: string, c: Counters, s: State, env: Env)
    requires s.Running? && Ready(im, s.pc, GenFunction(name, SetTwice(Continue), c).code, s, env, map["x" := 0])
    ensures SourceEnds(im.world, SetTwice(Continue), env, s.tr, Gives(Some(1), s.tr))
    ensures IrEnds(im, s, Halted(Some(2), s.tr))
  {
    hide *;
    BothGive(im.world, env, s.tr);
    SetTwiceErased();
    SetTwiceSupported();
    RunsErased(im, name, SetTwice(Continue), c, s, env, map["x" := 0]);
  }

  ghost predicate Fine(s: Stmt, m: Slots) {
    SupportedStmt(s) && ResolvedStmt(s, m)
  }

  lemma SetTwiceSupported()
    ensures SupportedStmt(SetTwice(Block([]))) && ResolvedStmt(SetTwice(Block([])), map["x" := 0])
  {
    hide SupportedStmt, ResolvedStmt, SetX, WhileZero;
    var m := map["x" := 0];
    PiecesFine(m);
    ThreeSupported(SetX(1), Block([]), SetX(2), m);
    WhileFine(Block([SetX(1), Block([]), SetX(2)]), m);
    ThreeSupported(Decl("x", CHONK, Some(Number(0)), 0), WhileZero(Block([SetX(1), Block([]), SetX(2)])),
                   Return(Some(Ident("x", 0))), m);
  }

  lemma PiecesFine(m: Slots)
    requires m == map["x" := 0]
    ensures Fine(SetX(1), m) && Fine(SetX(2), m) && Fine(Block([]), m)
    ensures Fine(Decl("x", CHONK, Some(Number(0)), 0), m) && Fine(Return(Some(Ident("x", 0))), m)
  {
    hide SupportedExpr, ResolvedExpr;
    NamesFine(m);
  }

  lemma NamesFine(m: Slots)
    requires m == map["x" := 0]
    ensures forall n: nat :: SupportedExpr(Number(n)) && ResolvedExpr(Number(n), m)
    ensures SupportedExpr(Ident("x", 0)) && ResolvedExpr(Ident("x", 0), m)
    ensures forall n: nat :: ResolvedExpr(Assign(Set, Ident("x", 0), Number(n)), m)
  {
    assert ResolvedExpr(Ident("x", 0), m);
  }

  lemma WhileFine(b: Stmt, m: Slots)
    requires m == map["x" := 0] && Fine(b, m)
    ensures Fine(WhileZero(b), m)
  {
    assert SupportedExpr(Ident("x", 0)) && SupportedExpr(Number(0));
    assert ResolvedExpr(Ident("x", 0), m) && ResolvedExpr(Number(0), m);
  }

  lemma ThreeSupported(a: Stmt, b: Stmt, c: Stmt, m: Slots)
    requires Fine(a, m) && Fine(b, m) && Fine(c, m)
    ensures Fine(Block([a, b, c]), m)
  {
  }

  lemma BothGive(w: World, env: Env, tr: seq<Event>)
    ensures SourceEnds(w, SetTwice(Continue), env, tr, Gives(Some(1), tr))
    ensures SourceEnds(w, SetTwice(Block([])), env, tr, Gives(Some(2), tr))
  {
    hide Exec, ExecAll, Loop, SetTwice, WhileZero, SetX;
    var env0 := env["x" := 0];
    BodyOnce(w, env0, tr, 2);
    LoopOnce(w, Block([SetX(1), Continue, SetX(2)]), env0, env0["x" := 1], tr);
    LoopOnce(w, Block([SetX(1), Block([]), SetX(2)]), env0, env0["x" := 1]["x" := 2], tr);
    SetTwiceGives(w, Continue, env, env0["x" := 1], tr);
    SetTwiceGives(w, Block([]), env, env0["x" := 1]["x" := 2], tr);
  }

  // ---------- increments without code ----------

  /** `fow (init; c; e) b` whose increment is an assignment runs as `init; wepeat (c) b`. */
  lemma IncrementDropped(im: Image, st: Stmt, c: Counters, s: State, env: Env, m: Slots, fuel: nat) returns (k: nat)
    requires FullHeader(st) && Codeless(st.clauses[2].expr) && ResolvedStmt(st, m)
    requires SupportedStmt(st.clauses[0]) && SupportedExpr(st.clauses[1].expr) && SupportedStmt(st.body)
    requires s.Running? && Ready(im, s.pc, GenFor(st, c).code, s, env, m)
    ensures StmtDone(im, ExecAll(im.world, [st.clauses[0], While(st.clauses[1].expr, st.body)], env, s.tr, fuel),
                     |GenFor(st, c).code|, s.pc, m, fuel, k, Run(im, s, k))
  {
    hide Eval, GenExpr, GenStmt, GenFor, Step, CodeAt, UniqueLabels, Matches, LoopCode, ResolvedStmt;
    var h, loop := ShapeOfFor(st, c), While(st.clauses[1].expr, st.body);
    ForPlace(im.code, s.pc, st, c);
    Clauses(st, m);
    k := StmtSim(im, st.clauses[0], c, s, env, m, fuel);
    var r := Exec(im.world, st.clauses[0], env, s.tr, fuel);
    var s1, i := Run(im, s, k), 0;
    if r.Normal? {
      i := LoopSim(im, loop, h, None, s1, r.env, m, fuel);
    }
    k := Both(im, st.clauses[0], loop, s, env, |GenStmt(st.clauses[0], c).code|, |LoopCode(h)|, m, fuel, k, i);
  }

  lemma Clauses(st: Stmt, m: Slots)
    requires FullHeader(st) && ResolvedStmt(st, m)
    ensures ResolvedStmt(st.clauses[0], m) && ResolvedExpr(st.clauses[1].expr, m) && ResolvedStmt(st.body, m)
  {
    assert ResolvedStmt(st.clauses[0], m) && ResolvedStmt(st.clauses[1], m);
  }

  // Two statements, one after the other.
  lemma Both(im: Image, a: Stmt, b: Stmt, s: State, env: Env, la: nat, lb: nat, m: Slots, fuel: nat, k: nat, i: nat)
    returns (j: nat)
    requires s.Running? && StmtDone(im, Exec(im.world, a, env, s.tr, fuel), la, s.pc, m, fuel, k, Run(im, s, k))
    requires var r, s1 := Exec(im.world, a, env, s.tr, fuel), Run(im, s, k);
      r.Normal? ==>
        s1.Running? && StmtDone(im, Exec(im.world, b, r.env, s1.tr, fuel), lb, s1.pc, m, fuel, i, Run(im, s1, i))
    ensures StmtDone(im, ExecAll(im.world, [a, b], env, s.tr, fuel), la + lb, s.pc, m, fuel, j, Run(im, s, j))
  {
    hide Run, Exec;
    var r := Exec(im.world, a, env, s.tr, fuel);
    assert [a, b][1..] == [b] && [b][1..] == [];
    j := k;
    if r.Normal? {
      RunAdds(im, s, k, i);
      j := k + i;
      OneLeft(im.world, b, r.env, r.tr, fuel);
    }
  }

  lemma OneLeft(w: World, b: Stmt, env: Env, tr: seq<Event>, fuel: nat)
    ensures ExecAll(w, [b], env, tr, fuel) == Exec(w, b, env, tr, fuel)
  {
    assert [b][1..] == [];
  }

  /** The run of a `fow` never gets to its increment: no pass through its body ends normally or with `continyue`. */
  predicate StepUnreached(w: World, st: Stmt, env: Env, tr: seq<Event>, fuel: nat)
    requires FullHeader(st)
  {
    var r := Exec(w, st.clauses[0], env, tr, fuel);
    r.Normal? && fuel > 0 ==>
      var a := Eval(w, st.clauses[1].expr, r.env, r.tr);
      a.Val? && a.v != 0 ==>
        var q := Exec(w, st.body, r.env, a.tr, fuel); !q.Normal? && !q.Continued?
  }

  lemma UnreachedRuns(w: World, st: Stmt, env: Env, tr: seq<Event>, fuel: nat)
    requires FullHeader(st) && StepUnreached(w, st, env, tr, fuel)
    ensures ExecAll(w, [st.clauses[0], While(st.clauses[1].expr, st.body)], env, tr, fuel) == Exec(w, st, env, tr, fuel)
  {
    var a, loop := st.clauses[0], While(st.clauses[1].expr, st.body);
    var r := Exec(w, a, env, tr, fuel);
    assert [a, loop][1..] == [loop];
    if r.Normal? {
      OneLeft(w, loop, r.env, r.tr, fuel);
      UnreachedLoop(w, st, loop, r.env, r.tr, fuel);
    }
  }

  lemma UnreachedLoop(w: World, st: Stmt, loop: Stmt, env: Env, tr: seq<Event>, fuel: nat)
    requires FullHeader(st) && loop == While(st.clauses[1].expr, st.body)
    requires var a := Eval(w, loop.cond, env, tr);
      fuel > 0 && a.Val? && a.v != 0 ==> var q := Exec(w, st.body, env, a.tr, fuel); !q.Normal? && !q.Continued?
    ensures Loop(w, loop, loop.cond, st.body, None, env, tr, fuel)
         == Loop(w, st, loop.cond, st.body, Some(st.clauses[2]), env, tr, fuel)
  {
    hide Exec, Eval, AfterBody;
  }

  /** So a `fow` whose increment has no code and is never reached runs as it means. */
  lemma IncrementUnreached(im: Image, st: Stmt, c: Counters, s: State, env: Env, m: Slots, fuel: nat) returns (k: nat)
    requires FullHeader(st) && Codeless(st.clauses[2].expr) && ResolvedStmt(st, m)
    requires SupportedStmt(st.clauses[0]) && SupportedExpr(st.clauses[1].expr) && SupportedStmt(st.body)
    requires s.Running? && Ready(im, s.pc, GenFor(st, c).code, s, env, m)
    requires StepUnreached(im.world, st, env, s.tr, fuel)
    ensures StmtDone(im, Exec(im.world, st, env, s.tr, fuel), |GenFor(st, c).code|, s.pc, m, fuel, k, Run(im, s, k))
  {
    hide *;
    UnreachedRuns(im.world, st, env, s.tr, fuel);
    k := IncrementDropped(im, st, c, s, env, m, fuel);
  }

  // ---------- headers with clauses missing ----------

  /** The body takes the place of the missing third clause: with two clauses it is never executed. */
  lemma TwoClauses(im: Image, a: Stmt, e: Expr, ss: seq<Stmt>, c: Counters, s: State, env: Env, m: Slots, fuel: nat)
    returns (k: nat)
    requires SupportedStmt(a) && ResolvedStmt(a, m) && SupportedExpr(e) && ResolvedExpr(e, m)
    requires s.Running? && Ready(im, s.pc, GenFor(For([a, ExprStmt(e)], Block(ss)), c).code, s, env, m)
    ensures StmtDone(im, ExecAll(im.world, [a, While(e, Block([]))], env, s.tr, fuel),
                     |GenFor(For([a, ExprStmt(e)], Block(ss)), c).code|, s.pc, m, fuel, k, Run(im, s, k))
  {
    hide Eval, GenExpr, GenStmt, GenFor, Step, CodeAt, UniqueLabels, Matches, LoopCode, ResolvedStmt, ExecAll, Loop;
    var first, loop, h := GenStmt(a, c).code, While(e, Block([])), TwoClauseLoop(a, e, c);
    TwoClauseCode(a, e, ss, c);
    CodeSplit(im.code, s.pc, first, LoopCode(h));
    k := StmtSim(im, a, c, s, env, m, fuel);
    var r := Exec(im.world, a, env, s.tr, fuel);
    var s1, i := Run(im, s, k), 0;
    if r.Normal? {
      EmptyLoop(a, e, c, m);
      i := LoopSim(im, loop, h, None, s1, r.env, m, fuel);
      WhileIsLoop(im.world, e, r.env, r.tr, fuel);
    }
    k := Both(im, a, loop, s, env, |first|, |LoopCode(h)|, m, fuel, k, i);
  }

  lemma WhileIsLoop(w: World, e: Expr, env: Env, tr: seq<Event>, fuel: nat)
    ensures Exec(w, While(e, Block([])), env, tr, fuel)
         == Loop(w, While(e, Block([])), e, Block([]), None, env, tr, fuel)
  {
  }

  // The loop that such a header is lowered to: no body, and an increment without code.
  function TwoClauseLoop(a: Stmt, e: Expr, c: Counters): LoopShape {
    var c0 := GenStmt(a, c).next;
    var cc := c0.(lab := c0.lab + 3);
    var cb := GenExpr(e, cc).next;
    LoopShape(e, cc, Block([]), cb, Some(Null), cb, c0.lab, c0.lab + 1, c0.lab + 2)
  }

  // The test, the increment's label, and the jump back.
  function BareLoop(e: Expr, c0: Counters): seq<Instr> {
    var g := GenExpr(e, c0.(lab := c0.lab + 3));
    [Label(c0.lab)] + (g.code + [Brz(g.res, c0.lab + 1)]) + [Label(c0.lab + 2)] + [Jmp(c0.lab), Label(c0.lab + 1)]
  }

  lemma TwoClauseCode(a: Stmt, e: Expr, ss: seq<Stmt>, c: Counters)
    ensures GenFor(For([a, ExprStmt(e)], Block(ss)), c).code == GenStmt(a, c).code + LoopCode(TwoClauseLoop(a, e, c))
  {
    hide GenExpr, GenStmt, GenForLoop, LoopCode, BareLoop;
    BareFor(a, e, ss, GenStmt(a, c).next);
    BareShape(a, e, c);
    assert Child(For([a, ExprStmt(e)], Block(ss)), 0) == a;
  }

  lemma BareFor(a: Stmt, e: Expr, ss: seq<Stmt>, c0: Counters)
    ensures GenForLoop(For([a, ExprStmt(e)], Block(ss)), c0).code == BareLoop(e, c0)
  {
    hide GenExpr, GenStmt;
    var st := For([a, ExprStmt(e)], Block(ss));
    assert Child(st, 1) == ExprStmt(e) && Child(st, 2) == Block(ss);
  }

  lemma BareShape(a: Stmt, e: Expr, c: Counters)
    ensures LoopCode(TwoClauseLoop(a, e, c)) == BareLoop(e, GenStmt(a, c).next)
  {
    hide GenExpr, GenStmt, LoopStep, LoopCode;
    var h := TwoClauseLoop(a, e, c);
    EmptyCode(h.cb);
    NullStep(h);
    BodyLess(h);
  }

  lemma BodyLess(h: LoopShape)
    requires GenStmt(h.body, h.cb).code == []
    ensures LoopCode(h) == [Label(h.start)] + LoopTest(h) + LoopStep(h) + [Jmp(h.start), Label(h.end)]
  {
    hide GenExpr, GenStmt, LoopStep, LoopTest;
    assert [Label(h.start)] + LoopTest(h) + [] == [Label(h.start)] + LoopTest(h);
  }

  lemma NullStep(h: LoopShape)
    requires h.inc == Some(Null)
    ensures LoopStep(h) == [Label(h.again)]
  {
    NullCode(h.ci);
  }

  lemma EmptyCode(c: Counters)
    ensures GenStmt(Block([]), c).code == []
  {
  }

  lemma NullCode(c: Counters)
    ensures GenExpr(Null, c).code == []
  {
  }

  lemma EmptyLoop(a: Stmt, e: Expr, c: Counters, m: Slots)
    requires SupportedExpr(e) && ResolvedExpr(e, m)
    ensures LoopOf(While(e, Block([])), TwoClauseLoop(a, e, c), None, m)
  {
    hide GenExpr, GenStmt, SupportedExpr, ResolvedExpr;
  }

  /** With one clause the body is taken for the condition: the branch reads a temp that nothing writes. */
  lemma OneClauseCode(a: Stmt, ss: seq<Stmt>, c: Counters)
    ensures var g := GenStmt(a, c);
      var l, t := g.next.lab, Temp(g.next.temp);
      GenFor(For([a], Block(ss)), c).code == g.code + [Label(l), Brz(t, l + 1), Label(l + 2), Jmp(l), Label(l + 1)]
  {
    hide GenStmt;
    var st, c0 := For([a], Block(ss)), GenStmt(a, c).next;
    var br := Brz(Temp(c0.temp), c0.lab + 1);
    assert Child(st, 0) == a && Child(st, 1) == Block(ss);
    assert GenForLoop(st, c0).code
        == [Label(c0.lab)] + ([] + [br]) + [] + [Label(c0.lab + 2)] + [] + [Jmp(c0.lab), Label(c0.lab + 1)];
  }

  /** With no clauses the body stands in the first one's place: it is executed once, and then nothing for ever. */
  lemma NoClauses(im: Image, b: Stmt, c: Counters, s: State, env: Env, m: Slots, fuel: nat) returns (k: nat)
    requires SupportedStmt(b) && ResolvedStmt(b, m)
    requires s.Running? && Ready(im, s.pc, GenFor(For([], b), c).code, s, env, m)
    ensures var r := Exec(im.world, b, env, s.tr, fuel);
      if r.Normal? then Run(im, s, k).Running? && k >= fuel && Run(im, s, k).tr == r.tr
      else StmtDone(im, r, |GenFor(For([], b), c).code|, s.pc, m, fuel, k, Run(im, s, k))
  {
    hide Exec, GenExpr, GenStmt, GenFor, Step, CodeAt, UniqueLabels, Matches;
    var g := GenStmt(b, c);
    var spin := SpinCode(g.next.lab);
    NoClauseCode(b, c);
    CodeSplit(im.code, s.pc, g.code, spin);
    k := StmtSim(im, b, c, s, env, m, fuel);
    var r, t := Exec(im.world, b, env, s.tr, fuel), Run(im, s, k);
    if r.Normal? {
      SpinPlace(im.code, t.pc, g.next.lab);
      GoesRound(im, t, g.next.lab, fuel);
      RunAdds(im, s, k, 3 * fuel);
      k := k + 3 * fuel;
    }
  }

  function SpinCode(l: nat): seq<Instr> {
    [Label(l), Label(l + 2), Jmp(l), Label(l + 1)]
  }

  lemma NoClauseCode(b: Stmt, c: Counters)
    ensures GenFor(For([], b), c).code == GenStmt(b, c).code + SpinCode(GenStmt(b, c).next.lab)
  {
    hide GenStmt;
    var st, c0 := For([], b), GenStmt(b, c).next;
    assert Child(st, 0) == b;
    assert GenForLoop(st, c0).code == [Label(c0.lab)] + [] + [] + [Label(c0.lab + 2)] + [] + [Jmp(c0.lab), Label(c0.lab + 1)];
  }

  lemma SpinPlace(code: seq<Instr>, pc: nat, l: nat)
    requires CodeAt(code, pc, SpinCode(l)) && UniqueLabels(code)
    ensures pc + 2 < |code| && code[pc] == Label(l) && code[pc + 1] == Label(l + 2) && code[pc + 2] == Jmp(l)
    ensures FindLabel(code, l) == pc
  {
    assert code[pc] == SpinCode(l)[0] && code[pc + 1] == SpinCode(l)[1] && code[pc + 2] == SpinCode(l)[2];
    LabelFound(code, pc, l);
  }

  lemma {:induction false} GoesRound(im: Image, t: State, l: nat, n: nat)
    requires t.Running? && t.pc + 2 < |im.code| && FindLabel(im.code, l) == t.pc
    requires im.code[t.pc] == Label(l) && im.code[t.pc + 1] == Label(l + 2) && im.code[t.pc + 2] == Jmp(l)
    ensures Run(im, t, 3 * n) == t
  {
    if n > 0 {
      var t1 := Step(im, t);
      var t2 := Step(im, t1);
      assert Step(im, t2) == t;
      assert Run(im, t, 3) == t by {
        assert Run(im, t2, 1) == Run(im, t, 0);
        assert Run(im, t1, 2) == Run(im, t2, 1);
      }
      GoesRound(im, t, l, n - 1);
      RunAdds(im, t, 3, 3 * (n - 1));
    }
  }

  // `i = n` and `i < 1`
  function SetI(e: Expr): Stmt {
    ExprStmt(Assign(Set, Ident("i", 0), e))
  }

  // `fow (i = 0; i < 1; i = i + 1) { }`
  function CountLoop(): Stmt {
    For([SetI(Number(0)), ExprStmt(Binary(Less, Ident("i", 0), Number(1))), SetI(Binary(Plus, Ident("i", 0), Number(1)))],
        Block([]))
  }

  // `{ i: chonk = 0; fow (i = 0; i < 1; i = i + 1) { } gimme i; }`
  function CountToOne(): Stmt {
    Block([Decl("i", CHONK, Some(Number(0)), 0), CountLoop(), Return(Some(Ident("i", 0)))])
  }

  function Counting(locals: nat): TopLevel {
    Function("f", [], CHONK, CountToOne(), locals)
  }

  lemma SetIRuns(w: World, e: Expr, v: Word, env: Env, tr: seq<Event>, fuel: nat)
    requires Eval(w, e, env, tr) == Val(v, tr)
    ensures Exec(w, SetI(e), env, tr, fuel) == Normal(env["i" := v], tr)
  {
  }

  lemma LoopTested(w: World, s: Stmt, c: Expr, b: Stmt, inc: Stmt, env: Env, tr: seq<Event>, v: Word, fuel: nat)
    requires b < s && inc < s && fuel > 0 && Eval(w, c, env, tr) == Val(v, tr)
    ensures Loop(w, s, c, b, Some(inc), env, tr, fuel) ==
            if v == 0 then Normal(env, tr) else AfterTest(w, s, c, b, Some(inc), env, tr, fuel)
  {
    hide AfterTest, Eval;
  }

  lemma BodyDone(w: World, s: Stmt, c: Expr, b: Stmt, inc: Stmt, env: Env, tr: seq<Event>, fuel: nat)
    requires b < s && inc < s && fuel > 0 && Exec(w, b, env, tr, fuel) == Normal(env, tr)
    ensures AfterTest(w, s, c, b, Some(inc), env, tr, fuel) == AfterBody(w, s, c, b, Some(inc), env, tr, fuel)
  {
    hide AfterBody, Exec;
  }

  lemma IncrementDone(w: World, s: Stmt, c: Expr, b: Stmt, inc: Stmt, env: Env, env1: Env, tr: seq<Event>, fuel: nat)
    requires b < s && inc < s && fuel > 0 && Exec(w, inc, env, tr, fuel) == Normal(env1, tr)
    ensures AfterBody(w, s, c, b, Some(inc), env, tr, fuel) == Loop(w, s, c, b, Some(inc), env1, tr, fuel - 1)
  {
    hide Loop, Exec;
  }

  // Two tests of a loop's condition, the second one failing.
  lemma OneRound(w: World, s: Stmt, c: Expr, b: Stmt, inc: Stmt, env0: Env, env1: Env, tr: seq<Event>)
    requires b < s && inc < s
    requires Eval(w, c, env0, tr) == Val(1, tr) && Eval(w, c, env1, tr) == Val(0, tr)
    requires Exec(w, b, env0, tr, 2) == Normal(env0, tr) && Exec(w, inc, env0, tr, 2) == Normal(env1, tr)
    ensures Loop(w, s, c, b, Some(inc), env0, tr, 2) == Normal(env1, tr)
  {
    hide *;
    LoopTested(w, s, c, b, inc, env0, tr, 1, 2);
    BodyDone(w, s, c, b, inc, env0, tr, 2);
    IncrementDone(w, s, c, b, inc, env0, env1, tr, 2);
    LoopTested(w, s, c, b, inc, env1, tr, 0, 1);
  }

  lemma CountValues(w: World, env: Env, tr: seq<Event>)
    ensures var env0, test := env["i" := 0], Binary(Less, Ident("i", 0), Number(1));
      && Eval(w, Number(0), env, tr) == Val(0, tr)
      && Eval(w, Binary(Plus, Ident("i", 0), Number(1)), env0, tr) == Val(1, tr)
      && Eval(w, test, env0, tr) == Val(1, tr) && Eval(w, test, env0["i" := 1], tr) == Val(0, tr)
  {
    assert Wrap(0) == 0 && Wrap(1) == 1;
  }

  // The loop in the source: one round.
  lemma CountLoopEnds(w: World, env: Env, tr: seq<Event>)
    ensures Exec(w, CountLoop(), env, tr, 2) == Normal(env["i" := 1], tr)
  {
    hide Eval, Loop, SetI;
    var s, env0 := CountLoop(), env["i" := 0];
    var env1 := env0["i" := 1];
    CountValues(w, env, tr);
    SetIRuns(w, Number(0), 0, env, tr, 2);
    SetIRuns(w, Binary(Plus, Ident("i", 0), Number(1)), 1, env0, tr, 2);
    assert Exec(w, Block([]), env0, tr, 2) == Normal(env0, tr);
    OneRound(w, s, s.clauses[1].expr, s.body, s.clauses[2], env0, env1, tr);
    assert Exec(w, s, env, tr, 2) == Normal(env1, tr);
    assert env1 == env["i" := 1];
  }

  lemma CountEnds(w: World, env: Env, tr: seq<Event>)
    ensures SourceEnds(w, CountToOne(), env, tr, Gives(Some(1), tr))
  {
    hide Exec, ExecAll, CountLoop;
    var ss := CountToOne().stmts;
    var env0 := env["i" := 0];
    DeclRuns(w, "i", 0, 0, env, tr, 2);
    CountLoopEnds(w, env0, tr);
    ReturnRuns(w, "i", 0, env0["i" := 1], tr, 2);
    OneThen(w, ss[1], [ss[2]], env0, tr, env0["i" := 1], tr, 2);
    OneThen(w, ss[0], [ss[1]] + [ss[2]], env, tr, env0, tr, 2);
    assert ss == [ss[0]] + ([ss[1]] + [ss[2]]);
    BodyGives(w, ss, env, tr, 2, 1, tr);
  }

  lemma CountSpins(w: World, env: Env, tr: seq<Event>, fuel: nat)
    ensures var s := CountLoop();
      ExecAll(w, [s.clauses[0], While(s.clauses[1].expr, s.body)], env, tr, fuel) == Timeout
  {
    var s := CountLoop();
    var c, b, env0 := s.clauses[1].expr, s.body, env["i" := 0];
    forall n: nat ensures Exec(w, b, env0, tr, n) == Normal(env0, tr) {
    }
    Spins(w, c, b, env0, tr, fuel);
    assert [s.clauses[0], While(c, b)][1..] == [While(c, b)];
    assert Exec(w, s.clauses[0], env, tr, fuel) == Normal(env0, tr);
    assert Exec(w, While(c, b), env0, tr, fuel) == Timeout;
  }

  // One more clause, or one more item of a block, is resolved.
  lemma LexClause(e: Expr, e1: Expr, cs: seq<Stmt>, cs1: seq<Stmt>, d: Names)
    requires LexExpr(e, d) == Some(e1) && LexClauses(cs, d) == Some(cs1)
    ensures LexClauses([ExprStmt(e)] + cs, d) == Some([ExprStmt(e1)] + cs1)
  {
    hide LexExpr;
    assert ([ExprStmt(e)] + cs)[1..] == cs;
  }

  lemma LexItem(s: Stmt, d: Names, n: nat, l: Lex, ss: seq<Stmt>, more: LexItems)
    requires LexStmt(s, d, n) == Some(l) && LexAllItems(ss, l.inside, l.next) == Some(more)
    ensures LexAllItems([s] + ss, d, n) == Some(LexItems([l.tree] + more.trees, more.next))
  {
    hide LexStmt;
    assert ([s] + ss)[1..] == ss;
  }

  lemma NoItems(d: Names, n: nat)
    ensures LexAllItems([], d, n) == Some(LexItems([], n))
  {
  }

  lemma LexBlock(ss: seq<Stmt>, d: Names, n: nat, l: LexItems)
    requires LexAllItems(ss, d, n) == Some(l)
    ensures LexStmt(Block(ss), d, n) == Some(Lex(Block(l.trees), d, l.next))
  {
  }

  lemma RegularItem(s: Stmt, ss: seq<Stmt>)
    requires Regular(s) && RegularItems(ss)
    ensures RegularItems([s] + ss) && DeclaredIn([s] + ss) == DeclaredItem(s) + DeclaredIn(ss)
  {
    hide Regular;
    assert ([s] + ss)[1..] == ss;
  }

  lemma RegularClause(e: Expr, cs: seq<Stmt>)
    requires RegularExpr(e) && RegularClauses(cs)
    ensures RegularClauses([ExprStmt(e)] + cs)
  {
    hide RegularExpr;
    assert ([ExprStmt(e)] + cs)[1..] == cs;
  }

  lemma CountLoopIsLexical(d: Names)
    requires d == map["i" := 0]
    ensures LexStmt(CountLoop(), d, 1) == Some(Lex(CountLoop(), d, 1))
  {
    var a, b, e := Assign(Set, Ident("i", 0), Number(0)), Binary(Less, Ident("i", 0), Number(1)),
                   Assign(Set, Ident("i", 0), Binary(Plus, Ident("i", 0), Number(1)));
    CountExprs(d);
    hide LexExpr;
    var sa, sb, se := ExprStmt(a), ExprStmt(b), ExprStmt(e);
    assert [se] + [] == [se] && [sb] + [se] == [sb, se] && [sa] + [sb, se] == CountLoop().clauses;
    LexClause(e, e, [], [], d);
    LexClause(b, b, [se], [se], d);
    LexClause(a, a, [sb, se], [sb, se], d);
  }

  lemma CountExprs(d: Names)
    requires d == map["i" := 0]
    ensures var a, b, e := Assign(Set, Ident("i", 0), Number(0)), Binary(Less, Ident("i", 0), Number(1)),
                           Assign(Set, Ident("i", 0), Binary(Plus, Ident("i", 0), Number(1)));
      && LexExpr(a, d) == Some(a) && LexExpr(b, d) == Some(b) && LexExpr(e, d) == Some(e)
      && RegularExpr(a) && RegularExpr(b) && RegularExpr(e)
  {
    assert LexExpr(Number(0), d) == Some(Number(0)) && LexExpr(Ident("i", 0), d) == Some(Ident("i", 0));
    var plus := Binary(Plus, Ident("i", 0), Number(1));
    assert LexExpr(plus, d) == Some(plus);
  }

  lemma CountLoopIsRegular()
    ensures Regular(CountLoop()) && Declared(CountLoop()) == []
  {
    hide RegularExpr, LexExpr;
    var cs, d := CountLoop().clauses, map["i" := 0];
    CountExprs(d);
    RegularClause(cs[2].expr, []);
    RegularClause(cs[1].expr, [cs[2]]);
    RegularClause(cs[0].expr, [cs[1], cs[2]]);
    assert [cs[2]] + [] == [cs[2]] && [cs[1]] + [cs[2]] == [cs[1], cs[2]] && [cs[0]] + [cs[1], cs[2]] == cs;
  }

  // The declaration and the return around the loop.
  lemma CountItems()
    ensures var a, z, d := Decl("i", CHONK, Some(Number(0)), 0), Return(Some(Ident("i", 0))), map["i" := 0];
      && LexStmt(a, map[], 0) == Some(Lex(a, d, 1)) && LexStmt(z, d, 1) == Some(Lex(z, d, 1))
      && Regular(a) && Regular(z) && DeclaredItem(a) == ["i"] && DeclaredItem(z) == []
  {
  }

  lemma CountIsLexical()
    ensures LexStmt(CountToOne(), map[], 0) == Some(Lex(CountToOne(), map[], 1))
  {
    hide CountLoop, LexStmt, LexAllItems;
    var a, z, d := Decl("i", CHONK, Some(Number(0)), 0), Return(Some(Ident("i", 0))), map["i" := 0];
    assert [z] + [] == [z] && [CountLoop()] + [z] == [CountLoop(), z];
    assert [a] + [CountLoop(), z] == CountToOne().stmts;
    CountItems();
    CountLoopIsLexical(d);
    NoItems(d, 1);
    LexItem(z, d, 1, Lex(z, d, 1), [], LexItems([], 1));
    LexItem(CountLoop(), d, 1, Lex(CountLoop(), d, 1), [z], LexItems([z] + [], 1));
    LexItem(a, map[], 0, Lex(a, d, 1), [CountLoop(), z], LexItems([CountLoop(), z], 1));
    LexBlock(CountToOne().stmts, map[], 0, LexItems(CountToOne().stmts, 1));
  }

  lemma CountIsRegular()
    ensures CountToOne().Block? && Regular(CountToOne()) && Declared(CountToOne()) == ["i"]
  {
    hide CountLoop;
    var a, z := Decl("i", CHONK, Some(Number(0)), 0), Return(Some(Ident("i", 0)));
    CountItems();
    CountLoopIsRegular();
    CountLoopIsLoop();
    RegularItem(z, []);
    RegularItem(CountLoop(), [z]);
    RegularItem(a, [CountLoop(), z]);
    assert [z] + [] == [z] && [CountLoop()] + [z] == [CountLoop(), z];
    assert [a] + [CountLoop(), z] == CountToOne().stmts;
  }

  lemma CountLoopIsLoop()
    ensures CountLoop().For?
  {
  }

  /** The analyser accepts the function as it stands. */
  lemma CountResolves(globals: Scope)
    ensures ResolveFunction(Counting(0), globals) == Some(Counting(1))
  {
    hide LexStmt, Regular, CountToOne, ResolveFunction;
    CountIsLexical();
    CountIsRegular();
    assert Slotted([], 0) == map[] && ParamNames([]) + ["i"] == ["i"];
    assert Numbered([], 0) == [];
    FunctionIsLexical(Counting(0), globals);
  }

  /** A function that counts to one in a `fow` and returns it; its code never stops. */
  lemma IncrementLost(im: Image, c: Counters, s: State, env: Env, globals: Scope)
    requires s.Running? && Ready(im, s.pc, GenFunction("f", CountToOne(), c).code, s, env, map["i" := 0])
    ensures ResolveFunction(Counting(0), globals) == Some(Counting(1))
    ensures SourceEnds(im.world, CountToOne(), env, s.tr, Gives(Some(1), s.tr))
    ensures forall n: nat :: Run(im, s, n).Running?
  {
    hide *;
    CountResolves(globals);
    CountEnds(im.world, env, s.tr);
    forall n: nat ensures Run(im, s, n).Running? {
      var k := CountRuns(im, c, s, env, n);
      StillRunning(im, s, n, k);
    }
  }

  lemma StillRunning(im: Image, s: State, n: nat, k: nat)
    requires n <= k && Run(im, s, k).Running?
    ensures Run(im, s, n).Running?
  {
    if !Run(im, s, n).Running? {
      RunStopped(im, s, n, k);
    }
  }

  // Running after at least n steps.
  lemma CountRuns(im: Image, c: Counters, s: State, env: Env, n: nat) returns (k: nat)
    requires s.Running? && Ready(im, s.pc, GenFunction("f", CountToOne(), c).code, s, env, map["i" := 0])
    ensures k >= n && Run(im, s, k).Running?
  {
    hide Exec, ExecAll, GenFor, GenStmt, CountLoop, CodeAt, Codeless, SupportedStmt, ResolvedStmt, Run, Step, Eval;
    var c0, m := c.(temp := 0), map["i" := 0];
    var d := Decl("i", CHONK, Some(Number(0)), 0);
    CountPlace(im.code, s.pc, c);
    CountSupported();
    var s1 := s.(pc := s.pc + 1);
    var j := StmtSim(im, d, c0, s1, env, m, 0);
    DeclRuns(im.world, "i", 0, 0, env, s.tr, 0);
    var s2 := Run(im, s1, j);
    var i := IncrementDropped(im, CountLoop(), GenStmt(d, c0).next, s2, env["i" := 0], m, n);
    CountSpins(im.world, env["i" := 0], s.tr, n);
    RunAdds(im, s1, j, i);
    PastFunc(im, s, j + i);
    k := j + i + 1;
  }

  lemma PastFunc(im: Image, s: State, i: nat)
    requires s.Running? && s.pc < |im.code| && im.code[s.pc].Func?
    ensures Run(im, s, i + 1) == Run(im, s.(pc := s.pc + 1), i)
  {
  }

  lemma CountPlace(code: seq<Instr>, pc: nat, c: Counters)
    requires CodeAt(code, pc, GenFunction("f", CountToOne(), c).code)
    ensures CountLoop().For? && pc < |code| && code[pc] == Func("f")
    ensures var g := GenStmt(Decl("i", CHONK, Some(Number(0)), 0), c.(temp := 0));
      CodeAt(code, pc + 1, g.code) && CodeAt(code, pc + 1 + |g.code|, GenFor(CountLoop(), g.next).code)
  {
    hide GenFor, GenExpr;
    var ss, c0 := CountToOne().stmts, c.(temp := 0);
    var g := GenStmt(ss[0], c0);
    var body := GenStmt(CountToOne(), c0);
    var loop := GenStmt(ss[1], g.next);
    var rest := GenStmts(ss[1..][1..], loop.next);
    assert ss[1..][0] == ss[1];
    assert body.code == g.code + (loop.code + rest.code);
    CodeSplit3(code, pc, [Func("f")], body.code, [EndFunc]);
    CodeHead(code, pc, Func("f"));
    CodeSplit(code, pc + 1, g.code, loop.code + rest.code);
    CodeSplit(code, pc + 1 + |g.code|, loop.code, rest.code);
  }

  lemma CountSupported()
    ensures var st, m := CountLoop(), map["i" := 0];
      && FullHeader(st) && Codeless(st.clauses[2].expr) && ResolvedStmt(st, m)
      && SupportedStmt(st.clauses[0]) && SupportedExpr(st.clauses[1].expr) && SupportedStmt(st.body)
    ensures var d := Decl("i", CHONK, Some(Number(0)), 0); SupportedStmt(d) && ResolvedStmt(d, map["i" := 0])
  {
    hide SupportedExpr, ResolvedExpr;
    CountNames();
    var st, m := CountLoop(), map["i" := 0];
    forall t | t in st.clauses ensures ResolvedStmt(t, m) {
      assert t == st.clauses[0] || t == st.clauses[1] || t == st.clauses[2];
    }
  }

  lemma CountNames()
    ensures var m, i := map["i" := 0], Ident("i", 0);
      && SupportedExpr(Number(0)) && ResolvedExpr(Number(0), m)
      && SupportedExpr(Binary(Less, i, Number(1))) && ResolvedExpr(Binary(Less, i, Number(1)), m)
      && ResolvedExpr(Assign(Set, i, Number(0)), m) && ResolvedExpr(Assign(Set, i, Binary(Plus, i, Number(1))), m)
  {
    var m, i := map["i" := 0], Ident("i", 0);
    assert SupportedExpr(i) && ResolvedExpr(i, m) && ResolvedExpr(Number(0), m) && ResolvedExpr(Number(1), m);
    assert ResolvedExpr(Binary(Plus, i, Number(1)), m);
  }

  // ---------- variables and temps in one word ----------

  /** `{ x: chonk; y: chonk = 3; x = 2; gimme y; }` */
  const SHARED: Stmt := Block([
    Decl("x", Base(Chonk), None, 0),
    Decl("y", Base(Chonk), Some(Number(3)), 1),
    ExprStmt(Assign(Set, Ident("x", 0), Number(2))),
    Return(Some(Ident("y", 1)))])

  lemma SharedCode(lab: nat, str: nat)
    ensures GenStmt(SHARED, Counters(0, lab, str)).code == TwoStored(3, 2, 0) + [Ret(Some(Temp(2)))]
  {
    hide GenStmt, GenExpr;
    var code := TwoStored(3, 2, 0) + [Ret(Some(Temp(2)))];
    var c0, c1, c2, c3 := Counters(0, lab, str), Counters(1, lab, str), Counters(2, lab, str), Counters(3, lab, str);
    var s0, s1, s2, s3 := SHARED.stmts[0], SHARED.stmts[1], SHARED.stmts[2], SHARED.stmts[3];
    var a, b, d := code[..2], code[2..4], code[4..];
    NoInitCode("x", 0, c0);
    DeclCode("y", 3, 1, c0);
    SetCode("x", 0, 2, c1);
    ReturnName("y", 1, c2);
    OneMore(s3, [], c2, d, c3, [], c3);
    OneMore(s2, [s3], c1, b, c2, d + [], c3);
    OneMore(s1, [s2, s3], c0, a, c1, b + (d + []), c3);
    OneMore(s0, [s1, s2, s3], c0, [], c0, a + (b + (d + [])), c3);
    assert [s3] + [] == [s3] && [s2] + [s3] == [s2, s3] && [s1] + [s2, s3] == [s1, s2, s3];
    assert SHARED.stmts == [s0] + [s1, s2, s3] && [] + (a + (b + (d + []))) == code;
    BlockCode(SHARED.stmts, c0);
  }

  lemma NoInitCode(x: string, slot: nat, c: Counters)
    ensures GenStmt(Decl(x, CHONK, None, slot), c) == StmtCode([], c)
  {
  }

  lemma SetCode(x: string, slot: nat, v: Word, c: Counters)
    requires v >= 0
    ensures GenStmt(ExprStmt(Assign(Set, Ident(x, slot), Number(v))), c)
         == StmtCode([Mov(Temp(c.temp), Imm(v)), Mov(Var(slot), Temp(c.temp))], c.(temp := c.temp + 1))
  {
    WrapWord(v);
  }

  lemma SharedMeans(w: World, env: Env, tr: seq<Event>)
    ensures SourceEnds(w, SHARED, env, tr, Gives(Some(3), tr))
  {
    hide Exec, ExecAll;
    var s0, s1, s2, s3 := SHARED.stmts[0], SHARED.stmts[1], SHARED.stmts[2], SHARED.stmts[3];
    var e1 := env["y" := 3];
    var e2 := e1["x" := 2];
    NoInitRuns(w, "x", 0, env, tr, 0);
    DeclRuns(w, "y", 3, 1, env, tr, 0);
    SetXRuns(w, 2, e1, tr, 0);
    ReturnRuns(w, "y", 1, e2, tr, 0);
    OneThen(w, s2, [s3], e1, tr, e2, tr, 0);
    OneThen(w, s1, [s2] + [s3], env, tr, e1, tr, 0);
    OneThen(w, s0, [s1] + ([s2] + [s3]), env, tr, env, tr, 0);
    assert SHARED.stmts == [s0] + ([s1] + ([s2] + [s3]));
    BodyGives(w, SHARED.stmts, env, tr, 0, 3, tr);
  }

  lemma NoInitRuns(w: World, x: string, slot: nat, env: Env, tr: seq<Event>, fuel: nat)
    ensures Exec(w, Decl(x, CHONK, None, slot), env, tr, fuel) == Normal(env, tr)
  {
  }

  lemma FiveMoved(mc: X86.Machine, c: seq<Instr>, x: X86.State)
    requires |c| == 5 && (forall i | i in c :: IsMove(i)) && x.On?
    ensures AllMoved(mc, c, x) == Moved(mc, c[4], Moved(mc, c[3], Moved(mc, c[2], Moved(mc, c[1], Moved(mc, c[0], x)))))
  {
    hide Moved;
    assert c[1..][1..] == c[2..] && c[2..][1..] == c[3..] && c[3..][1..] == c[4..] && c[4..][1..] == [];
    var x1 := Moved(mc, c[0], x);
    var x2 := Moved(mc, c[1], x1);
    var x3 := Moved(mc, c[2], x2);
    var x4 := Moved(mc, c[3], x3);
    assert AllMoved(mc, c[4..], x4) == AllMoved(mc, [], Moved(mc, c[4], x4));
    assert AllMoved(mc, c[3..], x3) == AllMoved(mc, c[4..], x4);
    assert AllMoved(mc, c[2..], x2) == AllMoved(mc, c[3..], x3);
    assert AllMoved(mc, c[1..], x1) == AllMoved(mc, c[2..], x2);
    assert AllMoved(mc, c, x) == AllMoved(mc, c[1..], x1);
  }

  // What a load of slot or temp k finds.
  function WordAt(x: X86.State, k: nat): Word
    requires x.On?
  {
    Wrap(X86.At(x.mem, x.regs.rbp + StackOffset(k)))
  }

  lemma MovedWord(mc: X86.Machine, i: Instr, x: X86.State, v: Word)
    requires IsMove(i) && x.On?
    requires if IsSlot(i.src) then WordAt(x, i.src.n) == v else i.src == Imm(v)
    ensures WordAt(Moved(mc, i, x), i.dst.n) == v
    ensures forall k: nat | k != i.dst.n :: WordAt(Moved(mc, i, x), k) == WordAt(x, k)
  {
    WrapWord(v);
  }

  /** `t0 := a; v1 := t0; t1 := b; vk := t1; t2 := v1` leaves b in t2: the word of v1 is that of t1. */
  lemma SecondWins(mc: X86.Machine, a: Word, b: Word, k: nat, x: X86.State)
    requires x.On? && k != 1
    ensures WordAt(AllMoved(mc, TwoStored(a, b, k), x), 2) == b
  {
    hide Moved, WordAt;
    var c := TwoStored(a, b, k);
    FiveMoved(mc, c, x);
    var x1 := Moved(mc, c[0], x);
    var x2 := Moved(mc, c[1], x1);
    var x3 := Moved(mc, c[2], x2);
    var x4 := Moved(mc, c[3], x3);
    MovedWord(mc, c[0], x, a);
    MovedWord(mc, c[1], x1, a);
    MovedWord(mc, c[2], x2, b);
    MovedWord(mc, c[3], x3, b);
    MovedWord(mc, c[4], x4, b);
  }

  function TwoStored(a: Word, b: Word, k: nat): (c: seq<Instr>)
    ensures |c| == 5 && forall i | i in c :: IsMove(i)
  {
    [Mov(Temp(0), Imm(a)), Mov(Var(1), Temp(0)), Mov(Temp(1), Imm(b)), Mov(Var(k), Temp(1)), Mov(Temp(2), Var(1))]
  }

  lemma MovesEmitted(moves: seq<Instr>, t: nat, size: nat)
    ensures EmitAll(moves + [Ret(Some(Temp(t)))], size) == EmitAll(moves, size) + EmitLoad(Temp(t)) + EPILOGUE
  {
    hide EmitLoad;
    var ret := Ret(Some(Temp(t)));
    C.EmitAdds(moves, [ret], size);
    C.EmitHead(ret, [], size);
    assert EmitAll([ret], size) == EmitLoad(Temp(t)) + EPILOGUE;
    Assoc(EmitAll(moves, size), EmitLoad(Temp(t)), EPILOGUE);
  }

  /** Code that only moves, and then returns a temp. */
  lemma MovesThenReturn(mc: X86.Machine, moves: seq<Instr>, t: nat, size: nat, v: Word, x: X86.State) returns (k: nat)
    requires (forall i | i in moves :: IsMove(i)) && x.On? && WordAt(AllMoved(mc, moves, x), t) == v
    requires X86.CodeAt(mc.code, x.pc, EmitAll(moves + [Ret(Some(Temp(t)))], size))
    ensures AtRetq(mc, X86.Run(mc, x, k), v)
  {
    hide EmitAll, X86.CodeAt, X86.RunStraight, X86.Run, AtRetq;
    var code, load := EmitAll(moves, size), EmitLoad(Temp(t));
    MovesEmitted(moves, t, size);
    MovesRun(mc, moves, size, x);
    MovesCallNothing(moves, size);
    C.LoadExec(mc, Temp(t), AllMoved(mc, moves, x));
    X86.RunStraightAdds(mc, code, load, x);
    k := StraightThenReturn(mc, code + load, x);
  }

  /** The source returns 3, its machine code 2: a declaration without initialiser is not enough. */
  lemma SharedWordBreaks(mc: X86.Machine, size: nat, lab: nat, str: nat, w: World, env: Env, x: X86.State)
    returns (k: nat)
    requires x.On? && X86.CodeAt(mc.code, x.pc, EmitAll(GenStmt(SHARED, Counters(0, lab, str)).code, size))
    ensures !ClearBody(SHARED)
    ensures SourceEnds(w, SHARED, env, x.tr, Gives(Some(3), x.tr))
    ensures AtRetq(mc, X86.Run(mc, x, k), 2)
  {
    hide *;
    SharedNotClear();
    SharedCode(lab, str);
    SharedMeans(w, env, x.tr);
    SecondWins(mc, 3, 2, 0, x);
    k := MovesThenReturn(mc, TwoStored(3, 2, 0), 2, size, 2, x);
  }

  // y is needed when the temp with its word is taken.
  lemma SharedNotClear()
    ensures !ClearBody(SHARED)
  {
    var ss := SHARED.stmts;
    assert ss[1..][0] == ss[1] && ss[1..][1..] == ss[2..] && ss[2..][0] == ss[2] && ss[2..][1..] == ss[3..];
    assert ss[3..][0] == ss[3] && ss[3..][1..] == [];
    assert NeedsAll(ss[3..], {}) == {1};
    assert !ClearAll(ss[2..], 1, {});
    assert !ClearAll(ss[1..], 0, {});
  }

  // ---------- variables behind a parameter ----------

  // `{ x: chonk = 1; y: chonk = 2; gimme x; }` with the slots given.
  function TwoVariables(x: nat, y: nat): Stmt {
    Block([Decl("x", CHONK, Some(Number(1)), x), Decl("y", CHONK, Some(Number(2)), y), Return(Some(Ident("x", x)))])
  }

  // `nuzzle f(chonk a) -> chonk`
  function WithParameter(x: nat, y: nat, locals: nat): TopLevel {
    Function("f", [Param("a", CHONK, 0)], CHONK, TwoVariables(x, y), locals)
  }

  lemma BehindParameterCode(lab: nat, str: nat)
    ensures GenStmt(TwoVariables(1, 2), Counters(0, lab, str)).code == TwoStored(1, 2, 2) + [Ret(Some(Temp(2)))]
  {
    var c0, c1, c2, c3 := Counters(0, lab, str), Counters(1, lab, str), Counters(2, lab, str), Counters(3, lab, str);
    var ss, code := TwoVariables(1, 2).stmts, TwoStored(1, 2, 2) + [Ret(Some(Temp(2)))];
    hide GenStmt, GenExpr;
    DeclCode("x", 1, 1, c0);
    DeclCode("y", 2, 2, c1);
    ReturnName("x", 1, c2);
    OneMore(ss[2], [], c2, code[4..], c3, [], c3);
    OneMore(ss[1], [ss[2]], c1, code[2..4], c2, code[4..] + [], c3);
    OneMore(ss[0], [ss[1], ss[2]], c0, code[..2], c1, code[2..4] + (code[4..] + []), c3);
    assert [ss[2]] + [] == [ss[2]] && [ss[1]] + [ss[2]] == [ss[1], ss[2]] && [ss[0]] + [ss[1], ss[2]] == ss;
    assert code[..2] + (code[2..4] + (code[4..] + [])) == code;
    BlockCode(ss, c0);
  }

  lemma BehindParameterMeans(w: World, env: Env, tr: seq<Event>)
    ensures SourceEnds(w, TwoVariables(1, 2), env, tr, Gives(Some(1), tr))
  {
    hide Exec, ExecAll;
    var ss := TwoVariables(1, 2).stmts;
    var e1 := env["x" := 1];
    DeclRuns(w, "x", 1, 1, env, tr, 0);
    DeclRuns(w, "y", 2, 2, e1, tr, 0);
    ReturnRuns(w, "x", 1, e1["y" := 2], tr, 0);
    OneThen(w, ss[1], [ss[2]], e1, tr, e1["y" := 2], tr, 0);
    OneThen(w, ss[0], [ss[1]] + [ss[2]], env, tr, e1, tr, 0);
    assert ss == [ss[0]] + ([ss[1]] + [ss[2]]);
    BodyGives(w, ss, env, tr, 0, 1, tr);
  }

  lemma BehindParameterNotClear()
    ensures !ClearBody(TwoVariables(1, 2))
  {
    var ss := TwoVariables(1, 2).stmts;
    assert ss[1..][0] == ss[1] && ss[1..][1..] == ss[2..] && ss[2..][0] == ss[2] && ss[2..][1..] == [];
    assert NeedsAll(ss[2..], {}) == {1};
    assert !ClearAll(ss[1..], 1, {});
  }

  lemma TwoItems()
    ensures var p, x, y, z := map["a" := 0], Decl("x", CHONK, Some(Number(1)), 0), Decl("y", CHONK, Some(Number(2)), 0),
                              Return(Some(Ident("x", 0)));
      && LexStmt(x, p, 1) == Some(Lex(x.(slot := 1), p["x" := 1], 2))
      && LexStmt(y, p["x" := 1], 2) == Some(Lex(y.(slot := 2), p["x" := 1]["y" := 2], 3))
      && LexStmt(z, p["x" := 1]["y" := 2], 3) == Some(Lex(Return(Some(Ident("x", 1))), p["x" := 1]["y" := 2], 3))
      && Regular(x) && Regular(y) && Regular(z)
      && DeclaredItem(x) == ["x"] && DeclaredItem(y) == ["y"] && DeclaredItem(z) == []
  {
  }

  lemma BehindParameterLexical()
    ensures var b, p := TwoVariables(0, 0), map["a" := 0];
      && LexStmt(b, p, 1) == Some(Lex(TwoVariables(1, 2), p, 3))
      && Regular(b) && Declared(b) == ["x", "y"]
  {
    hide LexStmt, LexAllItems, Regular, RegularItems;
    var p, ss, us := map["a" := 0], TwoVariables(0, 0).stmts, TwoVariables(1, 2).stmts;
    var d1 := p["x" := 1];
    var d2 := d1["y" := 2];
    TwoItems();
    assert [ss[2]] + [] == [ss[2]] && [ss[1]] + [ss[2]] == [ss[1], ss[2]] && [ss[0]] + [ss[1], ss[2]] == ss;
    assert [us[2]] + [] == [us[2]] && [us[1]] + [us[2]] == [us[1], us[2]] && [us[0]] + [us[1], us[2]] == us;
    NoItems(d2, 3);
    LexItem(ss[2], d2, 3, Lex(us[2], d2, 3), [], LexItems([], 3));
    LexItem(ss[1], d1, 2, Lex(us[1], d2, 3), [ss[2]], LexItems([us[2]], 3));
    LexItem(ss[0], p, 1, Lex(us[0], d1, 2), [ss[1], ss[2]], LexItems([us[1], us[2]], 3));
    LexBlock(ss, p, 1, LexItems(us, 3));
    AllRegular(ss);
  }

  lemma AllRegular(ss: seq<Stmt>)
    requires |ss| == 3 && Regular(ss[0]) && Regular(ss[1]) && Regular(ss[2])
    ensures Regular(Block(ss))
    ensures Declared(Block(ss)) == DeclaredItem(ss[0]) + DeclaredItem(ss[1]) + DeclaredItem(ss[2])
  {
    assert RegularItems([]);
    assert [ss[2]] + [] == [ss[2]] && [ss[1]] + [ss[2]] == [ss[1], ss[2]] && [ss[0]] + [ss[1], ss[2]] == ss;
    RegularItem(ss[2], []);
    RegularItem(ss[1], [ss[2]]);
    RegularItem(ss[0], [ss[1], ss[2]]);
  }

  lemma BehindParameterResolves(globals: Scope)
    ensures ResolveFunction(WithParameter(0, 0, 0), globals) == Some(WithParameter(1, 2, 3))
  {
    hide LexStmt, Regular, ResolveFunction, TwoVariables;
    var ps := [Param("a", CHONK, 0)];
    BehindParameterLexical();
    TwoVariablesBlock();
    assert ps[1..] == [] && ParamNames(ps) == ["a"] && Numbered(ps, 0) == ps;
    assert Slotted(["a"], 0) == map["a" := 0];
    assert ["a"] + ["x", "y"] == ["a", "x", "y"];
    FunctionIsLexical(WithParameter(0, 0, 0), globals);
  }

  lemma TwoVariablesBlock()
    ensures TwoVariables(0, 0).Block?
  {
  }

  /**
   Behind a parameter, even an unused one, initialised variables are not enough:
   x has slot 1, and temp 1 takes its word.  The source returns 1, its machine code 2.
   */
  lemma ParameterShifts(mc: X86.Machine, size: nat, lab: nat, str: nat, w: World, env: Env, globals: Scope, x: X86.State)
    returns (k: nat)
    requires x.On? && X86.CodeAt(mc.code, x.pc, EmitAll(GenStmt(TwoVariables(1, 2), Counters(0, lab, str)).code, size))
    ensures ResolveFunction(WithParameter(0, 0, 0), globals) == Some(WithParameter(1, 2, 3))
    ensures !ClearBody(TwoVariables(1, 2))
    ensures SourceEnds(w, TwoVariables(1, 2), env, x.tr, Gives(Some(1), x.tr))
    ensures AtRetq(mc, X86.Run(mc, x, k), 2)
  {
    hide *;
    BehindParameterResolves(globals);
    BehindParameterNotClear();
    BehindParameterCode(lab, str);
    BehindParameterMeans(w, env, x.tr);
    SecondWins(mc, 1, 2, 2, x);
    k := MovesThenReturn(mc, TwoStored(1, 2, 2), 2, size, 2, x);
  }
}
