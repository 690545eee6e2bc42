/**
 The generated intermediate code does what the source program means
 (src/ir.c:69-416).
 */
module Lowering {
  import opened Words
  import opened Ast
  import opened Source
  import opened Ir
  import opened IrMachine

  // ---------- the part of the language that is lowered to its meaning ----------

  predicate IsLogical(op: BinaryOp) {
    op == LogicalAnd || op == LogicalOr
  }

  predicate IsComparison(op: BinaryOp) {
    op == Equal || op == NotEqual || op == Less || op == Greater || op == LessEq || op == GreaterEq
  }

  // Always 0 or 1.
  predicate IsBoolean(e: Expr) {
    match e
    case Number(v) => v <= 1
    case Binary(op, _, _) => IsComparison(op) || IsLogical(op)
    case _ => false
  }

  // Cannot fault and calls nothing.
  predicate IsPure(e: Expr) {
    match e
    case Number(_) => true
    case Str(_) => true
    case Ident(_, _) => true
    case Binary(op, l, r) => op != Divide && op != Modulo && IsPure(l) && IsPure(r)
    case Unary(_, x) => IsPure(x)
    case _ => false
  }

  /** Both operands of `&&` and `||` are computed, so they must be truth values and the second pure. */
  predicate SupportedExpr(e: Expr) {
    match e
    case Number(_) => true
    case Str(_) => true
    case Ident(_, _) => true
    case Binary(op, l, r) =>
      && SupportedExpr(l) && SupportedExpr(r)
      && (IsLogical(op) ==> IsBoolean(l) && IsBoolean(r) && IsPure(r))
    case Unary(op, x) => (op == Minus1 || op == Tilde) && SupportedExpr(x)
    case Call(f, args) =>
      f.Ident? && |args| <= 15 && forall a | a in args :: SupportedExpr(a)
    case _ => false
  }

  /** Everything except `bweak`, `continyue`, compound assignment and partial `fow` headers. */
  predicate SupportedStmt(s: Stmt) {
    match s
    case If(c, t, e) => SupportedExpr(c) && SupportedStmt(t) && (e.Some? ==> SupportedStmt(e.value))
    case While(c, b) => SupportedExpr(c) && SupportedStmt(b)
    case For(cs, b) =>
      && |cs| == 3 && SupportedStmt(cs[0]) && SupportedStmt(b)
      && cs[1].ExprStmt? && SupportedExpr(cs[1].expr)
      && cs[2].ExprStmt? && SupportedExpr(cs[2].expr)
    case Return(e) => e.Some? ==> SupportedExpr(e.value)
    case Block(ss) => forall t | t in ss :: SupportedStmt(t)
    case Decl(_, _, init, _) => init.Some? ==> SupportedExpr(init.value)
    case ExprStmt(e) =>
      if e.Assign? then e.aop == Set && e.target.Ident? && SupportedExpr(e.source) else SupportedExpr(e)
    case Break => false
    case Continue => false
  }

  // ---------- names and slots ----------

  type Slots = map<string, nat>

  ghost predicate Injective(m: Slots) {
    forall x, y | x in m && y in m && m[x] == m[y] :: x == y
  }

  /** Every variable node carries its name's slot. */
  predicate ResolvedExpr(e: Expr, m: Slots) {
    match e
    case Ident(x, slot) => x in m && slot == m[x]
    case Binary(_, l, r) => ResolvedExpr(l, m) && ResolvedExpr(r, m)
    case Unary(_, x) => ResolvedExpr(x, m)
    case Assign(_, l, r) => ResolvedExpr(l, m) && ResolvedExpr(r, m)
    case Call(_, args) => forall a | a in args :: ResolvedExpr(a, m)
    case _ => true
  }

  predicate ResolvedStmt(s: Stmt, m: Slots) {
    match s
    case If(c, t, e) => ResolvedExpr(c, m) && ResolvedStmt(t, m) && (e.Some? ==> ResolvedStmt(e.value, m))
    case While(c, b) => ResolvedExpr(c, m) && ResolvedStmt(b, m)
    case For(cs, b) => (forall t | t in cs :: ResolvedStmt(t, m)) && ResolvedStmt(b, m)
    case Return(e) => e.Some? ==> ResolvedExpr(e.value, m)
    case Block(ss) => forall t | t in ss :: ResolvedStmt(t, m)
    case Decl(x, _, init, slot) => x in m && slot == m[x] && (init.Some? ==> ResolvedExpr(init.value, m))
    case ExprStmt(e) => ResolvedExpr(e, m)
    case Break => true
    case Continue => true
  }

  /** The machine's slots hold the values of the named variables. */
  ghost predicate Matches(m: Slots, env: Env, vars: Cells) {
    forall x | x in m :: Lookup(vars, m[x]) == Lookup(env, x)
  }

  lemma StoreMatches(m: Slots, env: Env, vars: Cells, x: string, v: Word)
    requires Injective(m) && Matches(m, env, vars) && x in m
    ensures Matches(m, env[x := v], vars[m[x] := v])
  {
  }

  ghost predicate StringsLinked(im: Image) {
    forall i | 0 <= i < |im.code| && im.code[i].StringDef? ::
      im.stringAt(im.code[i].n) == im.world.literal(im.code[i].text)
  }

  // ---------- expressions ----------

  lemma {:induction false} BooleanValue(w: World, e: Expr, env: Env, tr: seq<Event>)
    requires IsBoolean(e)
    ensures var a := Eval(w, e, env, tr); a.Val? ==> 0 <= a.v <= 1
  {
  }

  lemma BinaryEval(w: World, op: BinaryOp, l: Expr, r: Expr, env: Env, tr: seq<Event>)
    ensures var a := Eval(w, l, env, tr);
      Eval(w, Binary(op, l, r), env, tr) ==
        if !a.Val? then a
        else if op == LogicalAnd && a.v == 0 then Val(0, a.tr)
        else if op == LogicalOr && a.v != 0 then Val(1, a.tr)
        else
          var b := Eval(w, r, env, a.tr);
          if !b.Val? then b
          else if op == LogicalAnd || op == LogicalOr then Val(FromBool(b.v != 0), b.tr)
          else OfResult(AluValue(OpOf(op), a.v, b.v), b.tr)
  {
    hide AluValue, OfResult, OpOf, BinaryValue;
    var a := Eval(w, l, env, tr);
    if a.Val? {
      var b := Eval(w, r, env, a.tr);
      if b.Val? {
        if op != LogicalAnd && op != LogicalOr {
          OpComputes(op, a.v, b.v);
        }
        LogicValue(a.v, b.v, b.tr);
      }
    }
  }

  /** The instruction of every operator but the logical ones computes the operator's value. */
  lemma OpComputes(op: BinaryOp, a: Word, b: Word)
    requires op != LogicalAnd && op != LogicalOr
    ensures AluValue(OpOf(op), a, b) == BinaryValue(op, a, b)
  {
  }

  // What is left of a logical operator when its left operand has not decided it.
  lemma LogicValue(a: Word, b: Word, tr: seq<Event>)
    ensures a != 0 ==> OfResult(BinaryValue(LogicalAnd, a, b), tr) == Val(FromBool(b != 0), tr)
    ensures a == 0 ==> OfResult(BinaryValue(LogicalOr, a, b), tr) == Val(FromBool(b != 0), tr)
  {
  }

  lemma {:induction false} PureValue(w: World, e: Expr, env: Env, tr: seq<Event>)
    requires IsPure(e) && SupportedExpr(e)
    ensures var a := Eval(w, e, env, tr); a.Val? && a.tr == tr
  {
    match e
    case Binary(op, l, r) =>
      PureValue(w, l, env, tr);
      PureValue(w, r, env, tr);
      PureBinary(w, op, l, r, env, tr);
    case Unary(_, x) =>
      PureValue(w, x, env, tr);
    case _ =>
  }

  lemma PureBinary(w: World, op: BinaryOp, l: Expr, r: Expr, env: Env, tr: seq<Event>)
    requires op != Divide && op != Modulo
    requires Eval(w, l, env, tr).Val? && Eval(w, l, env, tr).tr == tr
    requires Eval(w, r, env, tr).Val? && Eval(w, r, env, tr).tr == tr
    ensures var a := Eval(w, Binary(op, l, r), env, tr); a.Val? && a.tr == tr
  {
    hide Eval;
    BinaryEval(w, op, l, r, env, tr);
  }

  /** Computing both operands and combining them bitwise gives the short-circuit value. */
  lemma StrictLogicIsSound(w: World, op: BinaryOp, l: Expr, r: Expr, env: Env, tr: seq<Event>)
    requires SupportedExpr(Binary(op, l, r))
    ensures var a := Eval(w, l, env, tr);
      a.Val? ==>
        var b := Eval(w, r, env, a.tr);
        Eval(w, Binary(op, l, r), env, tr) ==
          if b.Val? then OfResult(AluValue(OpOf(op), a.v, b.v), b.tr) else b
  {
    hide Eval, AluValue, BinaryValue;
    var a := Eval(w, l, env, tr);
    BinaryEval(w, op, l, r, env, tr);
    if a.Val? && IsLogical(op) {
      PureValue(w, r, env, a.tr);
      BooleanValue(w, l, env, tr);
      BooleanValue(w, r, env, a.tr);
      BitwiseOnBooleans(a.v, Eval(w, r, env, a.tr).v);
    }
  }

  ghost predicate SameOutside(s: State, t: State, from: nat, to: nat)
    requires s.Running? && t.Running?
  {
    && t.vars == s.vars
    && forall n: nat | n < from || to <= n :: Lookup(t.temps, n) == Lookup(s.temps, n)
  }

  /** After the code of `e`: its value is in its temp, and no slot and no older temp has changed. */
  ghost predicate ExprDone(im: Image, e: Expr, c: Counters, s: State, env: Env, t: State)
    requires s.Running?
  {
    var g := GenExpr(e, c);
    var a := Eval(im.world, e, env, s.tr);
    && !a.Undefined?
    && (a.Faulted? ==> t == Trapped(a.tr))
    && (a.Val? ==>
          && t.Running? && t.pc == s.pc + |g.code| && t.tr == a.tr
          && Lookup(t.temps, g.res.n) == a.v
          && SameOutside(s, t, c.temp, g.next.temp))
  }

  ghost predicate ArgsDone(im: Image, args: seq<Expr>, c: Counters, s: State, env: Env, t: State)
    requires s.Running?
  {
    var g := GenArgs(args, c);
    var a := EvalArgs(im.world, args, env, s.tr);
    && !a.ArgsUndefined?
    && (a.ArgsFaulted? ==> t == Trapped(a.tr))
    && (a.Vals? ==>
          && t.Running? && t.pc == s.pc + |g.code| && t.tr == a.tr
          && (forall i | 0 <= i < |args| :: Lookup(t.temps, g.res[i].n) == a.vs[i])
          && SameOutside(s, t, c.temp, g.next.temp))
  }

  lemma {:induction false} ExprSim(im: Image, e: Expr, c: Counters, s: State, env: Env, m: Slots)
    returns (k: nat)
    requires SupportedExpr(e) && ResolvedExpr(e, m) && StringsLinked(im)
    requires s.Running? && CodeAt(im.code, s.pc, GenExpr(e, c).code) && Matches(m, env, s.vars)
    ensures ExprDone(im, e, c, s, env, Run(im, s, k))
    decreases e, 1
  {
    match e
    case Binary(_, _, _) => k := BinarySim(im, e, c, s, env, m);
    case Unary(_, _) => k := UnarySim(im, e, c, s, env, m);
    case Call(_, _) => k := CallSim(im, e, c, s, env, m);
    case Str(_) => k := StringSim(im, e, c, s, env);
    case Number(v) =>
      k := 1;
      CodeHead(im.code, s.pc, Mov(Temp(c.temp), Imm(Wrap(v))));
      RunThenStep(im, s, 0);
    case Ident(_, slot) =>
      k := 1;
      CodeHead(im.code, s.pc, Mov(Temp(c.temp), Var(slot)));
      RunThenStep(im, s, 0);
  }

  lemma StringSim(im: Image, e: Expr, c: Counters, s: State, env: Env) returns (k: nat)
    requires e.Str? && StringsLinked(im)
    requires s.Running? && CodeAt(im.code, s.pc, GenExpr(e, c).code)
    ensures ExprDone(im, e, c, s, env, Run(im, s, k))
  {
    var def, mov := StringDef(c.str, e.text), Mov(Temp(c.temp), StrRef(c.str));
    CodeTwo(im.code, s.pc, def, mov);
    RunThenStep(im, s, 0);
    RunThenStep(im, s, 1);
    k := 2;
  }

  lemma {:induction false} UnarySim(im: Image, e: Expr, c: Counters, s: State, env: Env, m: Slots)
    returns (k: nat)
    requires e.Unary? && SupportedExpr(e) && ResolvedExpr(e, m) && StringsLinked(im)
    requires s.Running? && CodeAt(im.code, s.pc, GenExpr(e, c).code) && Matches(m, env, s.vars)
    ensures ExprDone(im, e, c, s, env, Run(im, s, k))
    decreases e, 0
  {
    var g := GenExpr(e.operand, c);
    var un := Un(UnaryOf(e.uop), Temp(g.next.temp), g.res);
    OneAfter(im.code, s.pc, g.code, un);
    k := ExprSim(im, e.operand, c, s, env, m);
    k := UnaryFinish(im, e, c, s, env, k);
  }

  // The operand is computed; the operation itself is left.
  lemma UnaryFinish(im: Image, e: Expr, c: Counters, s: State, env: Env, k: nat) returns (j: nat)
    requires e.Unary? && SupportedExpr(e) && s.Running? && ExprDone(im, e.operand, c, s, env, Run(im, s, k))
    requires var s1, g := Run(im, s, k), GenExpr(e.operand, c);
      s1.Running? ==>
        && s1.pc < |im.code| && im.code[s1.pc] == Un(UnaryOf(e.uop), Temp(g.next.temp), g.res)
    ensures ExprDone(im, e, c, s, env, Run(im, s, j))
  {
    j := k;
    if Run(im, s, k).Running? {
      RunThenStep(im, s, k);
      j := k + 1;
    }
  }

  lemma BinaryParts(code: seq<Instr>, pc: nat, e: Expr, c: Counters)
    requires e.Binary? && CodeAt(code, pc, GenExpr(e, c).code)
    ensures var gl := GenExpr(e.left, c);
      var gr := GenExpr(e.right, gl.next);
      var p := pc + |gl.code|;
      && CodeAt(code, pc, gl.code) && CodeAt(code, p, gr.code)
      && p + |gr.code| < |code|
      && code[p + |gr.code|] == Alu(OpOf(e.op), GenExpr(e, c).res, gl.res, gr.res)
  {
    var gl := GenExpr(e.left, c);
    var gr := GenExpr(e.right, gl.next);
    BinaryCode(e, c);
    TwoThenOne(code, pc, gl.code, gr.code, Alu(OpOf(e.op), GenExpr(e, c).res, gl.res, gr.res));
  }

  lemma BinaryCode(e: Expr, c: Counters)
    requires e.Binary?
    ensures var gl := GenExpr(e.left, c);
      var gr := GenExpr(e.right, gl.next);
      GenExpr(e, c).code == gl.code + gr.code + [Alu(OpOf(e.op), GenExpr(e, c).res, gl.res, gr.res)]
  {
  }

  lemma TwoThenOne(code: seq<Instr>, pc: nat, a: seq<Instr>, b: seq<Instr>, i: Instr)
    requires CodeAt(code, pc, a + b + [i])
    ensures var p := pc + |a| + |b|;
      CodeAt(code, pc, a) && CodeAt(code, pc + |a|, b) && p < |code| && code[p] == i
  {
    CodeSplit3(code, pc, a, b, [i]);
    CodeHead(code, pc + |a| + |b|, i);
  }

  lemma OneAfter(code: seq<Instr>, pc: nat, part: seq<Instr>, i: Instr)
    requires CodeAt(code, pc, part + [i])
    ensures CodeAt(code, pc, part) && pc + |part| < |code| && code[pc + |part|] == i
  {
    CodeSplit(code, pc, part, [i]);
    CodeHead(code, pc + |part|, i);
  }

  lemma {:induction false} BinarySim(im: Image, e: Expr, c: Counters, s: State, env: Env, m: Slots)
    returns (k: nat)
    requires e.Binary? && SupportedExpr(e) && ResolvedExpr(e, m) && StringsLinked(im)
    requires s.Running? && CodeAt(im.code, s.pc, GenExpr(e, c).code) && Matches(m, env, s.vars)
    ensures ExprDone(im, e, c, s, env, Run(im, s, k))
    decreases e, 0, 1
  {
    hide Eval, EvalArgs, GenExpr, GenArgs, Run, Step, CodeAt, StringsLinked, Matches, ExprDone;
    BinaryParts(im.code, s.pc, e, c);
    k := ExprSim(im, e.left, c, s, env, m);
    k := RightSim(im, e, c, s, env, m, k);
  }

  // The left operand is computed.
  lemma {:induction false} RightSim(im: Image, e: Expr, c: Counters, s: State, env: Env, m: Slots, k: nat)
    returns (j: nat)
    requires e.Binary? && SupportedExpr(e) && ResolvedExpr(e.right, m) && StringsLinked(im)
    requires s.Running? && Matches(m, env, s.vars) && ExprDone(im, e.left, c, s, env, Run(im, s, k))
    requires var gl := GenExpr(e.left, c);
      var gr := GenExpr(e.right, gl.next);
      var p := s.pc + |gl.code|;
      && CodeAt(im.code, p, gr.code) && p + |gr.code| < |im.code|
      && im.code[p + |gr.code|] == Alu(OpOf(e.op), GenExpr(e, c).res, gl.res, gr.res)
    ensures ExprDone(im, e, c, s, env, Run(im, s, j))
    decreases e, 0, 0
  {
    hide Eval, EvalArgs, GenArgs, Step, CodeAt, StringsLinked, Matches, GenExpr;
    var s1, i := Run(im, s, k), 0;
    if s1.Running? {
      i := ExprSim(im, e.right, GenExpr(e.left, c).next, s1, env, m);
    }
    j := BinaryFinish(im, e, c, s, env, k, i);
  }

  // Both operands are computed; the operation itself is left.
  lemma BinaryFinish(im: Image, e: Expr, c: Counters, s: State, env: Env, k: nat, i: nat) returns (j: nat)
    requires e.Binary? && SupportedExpr(e) && s.Running?
    requires ExprDone(im, e.left, c, s, env, Run(im, s, k))
    requires var s1 := Run(im, s, k);
      var s2 := Run(im, s1, i);
      s1.Running? ==>
        && ExprDone(im, e.right, GenExpr(e.left, c).next, s1, env, s2)
        && (s2.Running? ==>
              var gl := GenExpr(e.left, c);
              && s2.pc < |im.code|
              && im.code[s2.pc] == Alu(OpOf(e.op), GenExpr(e, c).res, gl.res, GenExpr(e.right, gl.next).res))
    ensures ExprDone(im, e, c, s, env, Run(im, s, j))
  {
    var s1 := Run(im, s, k);
    var s2 := Run(im, s1, i);
    BinaryStep(im, e, c, s, env, s1, s2);
    j := k;
    if s1.Running? {
      RunAdds(im, s, k, i);
      j := k + i;
      if s2.Running? {
        RunThenStep(im, s, j);
        j := j + 1;
      }
    }
  }

  lemma BinaryStep(im: Image, e: Expr, c: Counters, s: State, env: Env, s1: State, s2: State)
    requires e.Binary? && SupportedExpr(e) && s.Running?
    requires ExprDone(im, e.left, c, s, env, s1)
    requires s1.Running? ==> ExprDone(im, e.right, GenExpr(e.left, c).next, s1, env, s2)
    requires s1.Running? && s2.Running? ==>
      var g := GenExpr(e, c);
      var gl := GenExpr(e.left, c);
      s2.pc < |im.code| && im.code[s2.pc] == Alu(OpOf(e.op), g.res, gl.res, GenExpr(e.right, gl.next).res)
    ensures ExprDone(im, e, c, s, env,
                     if !s1.Running? then s1 else if !s2.Running? then s2 else Step(im, s2))
  {
    StrictLogicIsSound(im.world, e.op, e.left, e.right, env, s.tr);
    if s1.Running? && s2.Running? {
      var a, b := Lookup(s1.temps, GenExpr(e.left, c).res.n), Eval(im.world, e.right, env, s1.tr).v;
      assert Step(im, s2) == match AluValue(OpOf(e.op), a, b)
                             case Some(v) => Write(GenExpr(e, c).res, v, s2)
                             case None => Trapped(s2.tr);
    }
  }

  lemma CallParts(code: seq<Instr>, pc: nat, e: Expr, c: Counters)
    requires e.Call? && e.callee.Ident? && |e.args| <= MAX_CALL_ARGS && CodeAt(code, pc, GenExpr(e, c).code)
    ensures var ga := GenArgs(e.args, c.(temp := c.temp + 1));
      var p := pc + |ga.code|;
      && CodeAt(code, pc, ga.code) && p + 1 < |code|
      && code[p] == CallTo(e.callee.name, ga.res) && code[p + 1] == GetRet(Temp(c.temp))
  {
    var ga := GenArgs(e.args, c.(temp := c.temp + 1));
    CallCode(e, c);
    CodeThenTwo(code, pc, ga.code, CallTo(e.callee.name, ga.res), GetRet(Temp(c.temp)));
  }

  lemma CallCode(e: Expr, c: Counters)
    requires e.Call? && e.callee.Ident? && |e.args| <= MAX_CALL_ARGS
    ensures var ga := GenArgs(e.args, c.(temp := c.temp + 1));
      GenExpr(e, c).code == ga.code + [CallTo(e.callee.name, ga.res), GetRet(Temp(c.temp))]
  {
  }

  lemma CodeThenTwo(code: seq<Instr>, pc: nat, part: seq<Instr>, i: Instr, j: Instr)
    requires CodeAt(code, pc, part + [i, j])
    ensures var p := pc + |part|;
      CodeAt(code, pc, part) && p + 1 < |code| && code[p] == i && code[p + 1] == j
  {
    CodeSplit(code, pc, part, [i, j]);
    CodeTwo(code, pc + |part|, i, j);
  }

  lemma {:induction false} CallSim(im: Image, e: Expr, c: Counters, s: State, env: Env, m: Slots)
    returns (k: nat)
    requires e.Call? && SupportedExpr(e) && ResolvedExpr(e, m) && StringsLinked(im)
    requires s.Running? && CodeAt(im.code, s.pc, GenExpr(e, c).code) && Matches(m, env, s.vars)
    ensures ExprDone(im, e, c, s, env, Run(im, s, k))
    decreases e, 0
  {
    CallParts(im.code, s.pc, e, c);
    k := ArgsSim(im, e.args, c.(temp := c.temp + 1), s, env, m);
    k := CallFinish(im, e, c, s, env, k);
  }

  // The arguments are computed; the call and the fetching of its result are left.
  lemma CallFinish(im: Image, e: Expr, c: Counters, s: State, env: Env, k: nat) returns (j: nat)
    requires e.Call? && SupportedExpr(e) && s.Running?
    requires ArgsDone(im, e.args, c.(temp := c.temp + 1), s, env, Run(im, s, k))
    requires var s1 := Run(im, s, k);
      s1.Running? ==>
        && s1.pc + 1 < |im.code|
        && im.code[s1.pc] == CallTo(e.callee.name, GenArgs(e.args, c.(temp := c.temp + 1)).res)
        && im.code[s1.pc + 1] == GetRet(Temp(c.temp))
    ensures ExprDone(im, e, c, s, env, Run(im, s, j))
  {
    var s1 := Run(im, s, k);
    CallStep(im, e, c, s, env, s1);
    j := k;
    if s1.Running? {
      RunThenStep(im, s, k);
      RunThenStep(im, s, k + 1);
      j := k + 2;
    }
  }

  lemma CallStep(im: Image, e: Expr, c: Counters, s: State, env: Env, s1: State)
    requires e.Call? && SupportedExpr(e) && s.Running?
    requires ArgsDone(im, e.args, c.(temp := c.temp + 1), s, env, s1)
    requires s1.Running? ==>
      && s1.pc + 1 < |im.code|
      && im.code[s1.pc] == CallTo(e.callee.name, GenArgs(e.args, c.(temp := c.temp + 1)).res)
      && im.code[s1.pc + 1] == GetRet(Temp(c.temp))
    ensures ExprDone(im, e, c, s, env, if s1.Running? then Step(im, Step(im, s1)) else s1)
  {
    var a := EvalArgs(im.world, e.args, env, s.tr);
    if a.Vals? {
      assert ReadAll(im, GenArgs(e.args, c.(temp := c.temp + 1)).res, s1) == a.vs;
    }
  }

  lemma {:induction false} ArgsSim(im: Image, args: seq<Expr>, c: Counters, s: State, env: Env, m: Slots)
    returns (k: nat)
    requires forall a | a in args :: SupportedExpr(a) && ResolvedExpr(a, m)
    requires StringsLinked(im)
    requires s.Running? && CodeAt(im.code, s.pc, GenArgs(args, c).code) && Matches(m, env, s.vars)
    ensures ArgsDone(im, args, c, s, env, Run(im, s, k))
    decreases args, 0
  {
    hide Eval, Step, CodeAt, StringsLinked, Matches, SupportedExpr, ResolvedExpr;
    if args == [] {
      k := 0;
    } else {
      var g := GenExpr(args[0], c);
      var rest := GenArgs(args[1..], g.next);
      CodeSplit(im.code, s.pc, g.code, rest.code);
      k := ExprSim(im, args[0], c, s, env, m);
      var s1 := Run(im, s, k);
      if !s1.Running? {
        ArgsStep(im, args, c, s, env, s1, s1);
      } else {
        var i := ArgsSim(im, args[1..], g.next, s1, env, m);
        RunAdds(im, s, k, i);
        ArgsStep(im, args, c, s, env, s1, Run(im, s1, i));
        k := k + i;
      }
    }
  }

  lemma ArgsStep(im: Image, args: seq<Expr>, c: Counters, s: State, env: Env, s1: State, s2: State)
    requires args != [] && s.Running?
    requires ExprDone(im, args[0], c, s, env, s1)
    requires s1.Running? ==> ArgsDone(im, args[1..], GenExpr(args[0], c).next, s1, env, s2)
    ensures ArgsDone(im, args, c, s, env, if s1.Running? then s2 else s1)
  {
    if s1.Running? && s2.Running? {
      var g, ga := GenExpr(args[0], c), GenArgs(args, c);
      assert Lookup(s2.temps, g.res.n) == Lookup(s1.temps, g.res.n);
    }
  }

  // ---------- statements ----------

  /** Where the code of `s`, started in `st`, has got to after `k` steps. */
  ghost predicate StmtDone(im: Image, r: Outcome, len: nat, pc: nat, m: Slots, fuel: nat, k: nat, t: State) {
    match r
    case Normal(env, tr) => t.Running? && t.pc == pc + len && t.tr == tr && Matches(m, env, t.vars)
    case Returned(v, tr) => t == Halted(v, tr)
    case Crashed(tr) => t == Trapped(tr)
    case Timeout => t.Running? && k >= fuel
    case _ => false
  }

  ghost predicate Ready(im: Image, pc: nat, code: seq<Instr>, s: State, env: Env, m: Slots) {
    && s.Running? && s.pc == pc && CodeAt(im.code, pc, code)
    && UniqueLabels(im.code) && StringsLinked(im) && Injective(m) && Matches(m, env, s.vars)
  }

  lemma {:induction false} StmtSim(im: Image, st: Stmt, c: Counters, s: State, env: Env, m: Slots, fuel: nat)
    returns (k: nat)
    requires SupportedStmt(st) && ResolvedStmt(st, m) && s.Running?
    requires Ready(im, s.pc, GenStmt(st, c).code, s, env, m)
    ensures StmtDone(im, Exec(im.world, st, env, s.tr, fuel), |GenStmt(st, c).code|, s.pc, m, fuel, k,
                     Run(im, s, k))
    decreases fuel, st, 2
  {
    hide GenExpr, Eval, Step, CodeAt, StringsLinked, Matches;
    match st
    case Block(ss) => k := BlockSim(im, ss, c, s, env, m, fuel);
    case Decl(x, _, init, slot) =>
      if init.None? {
        k := 0;
      } else {
        k := StoreSim(im, x, slot, init.value, c, s, env, m, fuel);
      }
    case ExprStmt(e) => k := ExprStmtSim(im, e, c, s, env, m, fuel);
    case Return(e) => k := ReturnSim(im, st, c, s, env, m, fuel);
    case If(_, _, _) => k := IfSim(im, st, c, s, env, m, fuel);
    case While(_, _) => k := WhileSim(im, st, c, s, env, m, fuel);
    case For(_, _) => k := ForSim(im, st, c, s, env, m, fuel);
  }

  lemma ExprStmtSim(im: Image, e: Expr, c: Counters, s: State, env: Env, m: Slots, fuel: nat) returns (k: nat)
    requires SupportedStmt(ExprStmt(e)) && ResolvedExpr(e, m) && s.Running?
    requires Ready(im, s.pc, GenStmt(ExprStmt(e), c).code, s, env, m)
    ensures StmtDone(im, Exec(im.world, ExprStmt(e), env, s.tr, fuel), |GenStmt(ExprStmt(e), c).code|, s.pc, m, fuel, k,
                     Run(im, s, k))
  {
    if e.Assign? {
      assert ResolvedExpr(e.target, m);
      k := StoreSim(im, e.target.name, e.target.slot, e.source, c, s, env, m, fuel);
    } else if e.Binary? || e.Unary? || e.Call? {
      k := ExprSim(im, e, c, s, env, m);
    } else {
      k := 0;
    }
  }

  lemma StoreSim(im: Image, x: string, slot: nat, e: Expr, c: Counters, s: State, env: Env, m: Slots, fuel: nat)
    returns (k: nat)
    requires SupportedExpr(e) && ResolvedExpr(e, m) && s.Running? && x in m && slot == m[x]
    requires Ready(im, s.pc, StoreTo(slot, e, c).code, s, env, m)
    ensures StmtDone(im, Store(im.world, x, Set, e, env, s.tr), |StoreTo(slot, e, c).code|, s.pc, m, fuel, k,
                     Run(im, s, k))
  {
    hide Eval, GenExpr, CodeAt, Matches, UniqueLabels, Injective, StringsLinked;
    var g := GenExpr(e, c);
    var mov := Mov(Var(slot), g.res);
    OneAfter(im.code, s.pc, g.code, mov);
    k := ExprSim(im, e, c, s, env, m);
    k := StoreFinish(im, x, slot, e, c, s, env, m, fuel, k);
  }

  // The value is computed; the `mov` to the variable is left.
  lemma StoreFinish(im: Image, x: string, slot: nat, e: Expr, c: Counters, s: State, env: Env, m: Slots, fuel: nat, k: nat)
    returns (j: nat)
    requires s.Running? && x in m && slot == m[x] && Injective(m) && Matches(m, env, s.vars)
    requires ExprDone(im, e, c, s, env, Run(im, s, k))
    requires s.pc + |GenExpr(e, c).code| < |im.code|
    requires im.code[s.pc + |GenExpr(e, c).code|] == Mov(Var(slot), GenExpr(e, c).res)
    ensures StmtDone(im, Store(im.world, x, Set, e, env, s.tr), |GenExpr(e, c).code| + 1, s.pc, m, fuel, j, Run(im, s, j))
  {
    hide Eval, GenExpr, CodeAt, Matches;
    j := k;
    var s1 := Run(im, s, k);
    if s1.Running? {
      RunThenStep(im, s, k);
      j := k + 1;
      StoreMatches(m, env, s1.vars, x, Lookup(s1.temps, GenExpr(e, c).res.n));
    }
  }

  lemma ReturnSim(im: Image, st: Stmt, c: Counters, s: State, env: Env, m: Slots, fuel: nat)
    returns (k: nat)
    requires st.Return? && SupportedStmt(st) && ResolvedStmt(st, m) && s.Running?
    requires Ready(im, s.pc, GenStmt(st, c).code, s, env, m)
    ensures StmtDone(im, Exec(im.world, st, env, s.tr, fuel), |GenStmt(st, c).code|, s.pc, m, fuel, k,
                     Run(im, s, k))
  {
    hide ExecAll, Loop, Eval, CodeAt, UniqueLabels, StringsLinked, Matches;
    if st.result.None? {
      CodeHead(im.code, s.pc, Ret(None));
      RunThenStep(im, s, 0);
      k := 1;
    } else {
      var g := GenExpr(st.result.value, c);
      OneAfter(im.code, s.pc, g.code, Ret(Some(g.res)));
      k := ExprSim(im, st.result.value, c, s, env, m);
      if Run(im, s, k).Running? {
        RunThenStep(im, s, k);
        k := k + 1;
      }
    }
  }

  lemma {:induction false} BlockSim(im: Image, ss: seq<Stmt>, c: Counters, s: State, env: Env, m: Slots, fuel: nat)
    returns (k: nat)
    requires forall t | t in ss :: SupportedStmt(t) && ResolvedStmt(t, m)
    requires s.Running? && Ready(im, s.pc, GenStmts(ss, c).code, s, env, m)
    ensures StmtDone(im, ExecAll(im.world, ss, env, s.tr, fuel), |GenStmts(ss, c).code|, s.pc, m, fuel, k,
                     Run(im, s, k))
    decreases fuel, ss, 0
  {
    hide Eval, Exec, Step, CodeAt, StringsLinked, UniqueLabels, SupportedStmt, ResolvedStmt, GenStmt;
    if ss == [] {
      k := 0;
    } else {
      var g := GenStmt(ss[0], c);
      CodeSplit(im.code, s.pc, g.code, GenStmts(ss[1..], g.next).code);
      k := StmtSim(im, ss[0], c, s, env, m, fuel);
      var r := Exec(im.world, ss[0], env, s.tr, fuel);
      if r.Normal? {
        var s1 := Run(im, s, k);
        var i := BlockSim(im, ss[1..], g.next, s1, r.env, m, fuel);
        RunAdds(im, s, k, i);
        k := k + i;
      }
    }
  }

  /** Runs a condition and the `brz` after it. */
  lemma BranchSim(im: Image, e: Expr, l: nat, c: Counters, s: State, env: Env, m: Slots) returns (k: nat)
    requires SupportedExpr(e) && ResolvedExpr(e, m) && s.Running?
    requires Ready(im, s.pc, GenExpr(e, c).code + [Brz(GenExpr(e, c).res, l)], s, env, m)
    ensures var a := Eval(im.world, e, env, s.tr);
      var t := Run(im, s, k);
      && !a.Undefined?
      && (a.Faulted? ==> t == Trapped(a.tr))
      && (a.Val? ==>
            && t.Running? && t.tr == a.tr && t.vars == s.vars && k > 0
            && t.pc == if a.v == 0 then FindLabel(im.code, l) else s.pc + |GenExpr(e, c).code| + 1)
  {
    var g := GenExpr(e, c);
    OneAfter(im.code, s.pc, g.code, Brz(g.res, l));
    k := ExprSim(im, e, c, s, env, m);
    k := BranchFinish(im, e, l, c, s, env, k);
  }

  // The condition is computed; the `brz` is left.
  lemma BranchFinish(im: Image, e: Expr, l: nat, c: Counters, s: State, env: Env, k: nat) returns (j: nat)
    requires s.Running? && ExprDone(im, e, c, s, env, Run(im, s, k))
    requires s.pc + |GenExpr(e, c).code| < |im.code|
    requires im.code[s.pc + |GenExpr(e, c).code|] == Brz(GenExpr(e, c).res, l)
    ensures var a := Eval(im.world, e, env, s.tr);
      var t := Run(im, s, j);
      && !a.Undefined?
      && (a.Faulted? ==> t == Trapped(a.tr))
      && (a.Val? ==>
            && t.Running? && t.tr == a.tr && t.vars == s.vars && j > 0
            && t.pc == if a.v == 0 then FindLabel(im.code, l) else s.pc + |GenExpr(e, c).code| + 1)
  {
    j := k;
    if Run(im, s, k).Running? {
      RunThenStep(im, s, k);
      j := k + 1;
    }
  }

  /** From an instruction that only moves on or jumps. */
  lemma GoSim(im: Image, s: State, k: nat, to: nat) returns (j: nat)
    requires var t := Run(im, s, k);
      && t.Running? && t.pc < |im.code|
      && (match im.code[t.pc]
          case Label(_) => to == t.pc + 1
          case Jmp(l) => to == FindLabel(im.code, l)
          case _ => false)
    ensures j == k + 1 && Run(im, s, j) == Run(im, s, k).(pc := to)
  {
    RunThenStep(im, s, k);
    j := k + 1;
  }

  /** Continuing from a state that `k` steps lead to. */
  lemma Continues(im: Image, r: Outcome, s: State, k: nat, len: nat, pc: nat, m: Slots, fuel: nat, i: nat)
    requires StmtDone(im, r, len, pc, m, fuel, i, Run(im, Run(im, s, k), i))
    ensures StmtDone(im, r, len, pc, m, fuel, k + i, Run(im, s, k + i))
  {
    RunAdds(im, s, k, i);
  }

  /** Where a statement ends normally, one more `label` or `jmp` is taken. */
  lemma ThenGo(im: Image, r: Outcome, s: State, k: nat, len: nat, pc: nat, to: nat, pc0: nat, m: Slots, fuel: nat)
    returns (j: nat)
    requires StmtDone(im, r, len, pc, m, fuel, k, Run(im, s, k))
    requires pc + len < |im.code| && pc0 <= to
    requires match im.code[pc + len]
             case Label(_) => to == pc + len + 1
             case Jmp(l) => to == FindLabel(im.code, l)
             case _ => false
    ensures StmtDone(im, r, to - pc0, pc0, m, fuel, j, Run(im, s, j))
  {
    j := k;
    if r.Normal? {
      j := GoSim(im, s, k, to);
    }
  }

  // The pieces of an `if`'s code: condition, first branch, and what follows it.
  datatype IfShape = IfShape(test: seq<Instr>, thn: StmtCode, els: StmtCode, other: nat, end: nat, last: seq<Instr>)

  function ShapeOfIf(st: Stmt, c: Counters): IfShape
    requires st.If?
  {
    var g := GenExpr(st.cond, c);
    var other := g.next.lab;
    var gt := GenStmt(st.thn, g.next.(lab := other + 1));
    var end := gt.next.lab;
    var test := g.code + [Brz(g.res, other)];
    if st.els.None? then
      IfShape(test, gt, StmtCode([], gt.next), other, end, [Label(other)])
    else
      var ge := GenStmt(st.els.value, gt.next.(lab := end + 1));
      IfShape(test, gt, ge, other, end, [Jmp(end), Label(other)] + ge.code + [Label(end)])
  }

  lemma IfParts(code: seq<Instr>, pc: nat, st: Stmt, c: Counters)
    requires st.If? && CodeAt(code, pc, GenIf(st, c).code)
    ensures var h := ShapeOfIf(st, c);
      var p := pc + |h.test| + |h.thn.code|;
      && |GenIf(st, c).code| == |h.test| + |h.thn.code| + |h.last|
      && CodeAt(code, pc, h.test) && CodeAt(code, pc + |h.test|, h.thn.code) && CodeAt(code, p, h.last)
  {
    var h := ShapeOfIf(st, c);
    assert GenIf(st, c).code == (h.test + h.thn.code) + h.last;
    CodeSplit3(code, pc, h.test, h.thn.code, h.last);
  }

  lemma IfElseParts(code: seq<Instr>, p: nat, other: nat, end: nat, els: seq<Instr>)
    requires CodeAt(code, p, [Jmp(end), Label(other)] + els + [Label(end)]) && UniqueLabels(code)
    ensures p + 2 + |els| < |code|
    ensures code[p] == Jmp(end) && code[p + 1] == Label(other) && code[p + 2 + |els|] == Label(end)
    ensures CodeAt(code, p + 2, els)
    ensures FindLabel(code, other) == p + 1 && FindLabel(code, end) == p + 2 + |els|
  {
    CodeSplit3(code, p, [Jmp(end), Label(other)], els, [Label(end)]);
    CodeTwo(code, p, Jmp(end), Label(other));
    CodeHead(code, p + 2 + |els|, Label(end));
    LabelFound(code, p + 1, other);
    LabelFound(code, p + 2 + |els|, end);
  }

  lemma {:induction false} IfSim(im: Image, st: Stmt, c: Counters, s: State, env: Env, m: Slots, fuel: nat)
    returns (k: nat)
    requires st.If? && SupportedStmt(st) && ResolvedStmt(st, m)
    requires s.Running? && Ready(im, s.pc, GenIf(st, c).code, s, env, m)
    ensures StmtDone(im, Exec(im.world, st, env, s.tr, fuel), |GenIf(st, c).code|, s.pc, m, fuel, k, Run(im, s, k))
    decreases fuel, st, 1
  {
    hide ExecAll, Loop, Eval, Step, CodeAt, StringsLinked, Matches, GenExpr, GenStmt, GenIf, Injective;
    var h := ShapeOfIf(st, c);
    IfParts(im.code, s.pc, st, c);
    k := BranchSim(im, st.cond, h.other, c, s, env, m);
    var a := Eval(im.world, st.cond, env, s.tr);
    var p := s.pc + |h.test| + |h.thn.code|;
    if a.Val? {
      if st.els.None? {
        CodeHead(im.code, p, Label(h.other));
        LabelFound(im.code, p, h.other);
      } else {
        IfElseParts(im.code, p, h.other, h.end, h.els.code);
      }
      if a.v != 0 {
        k := ThenSim(im, st, c, s, k, env, a.tr, m, fuel);
      } else if st.els.None? {
        k := GoSim(im, s, k, p + 1);
      } else {
        k := ElseSim(im, st, c, s, k, env, a.tr, m, fuel);
      }
    }
  }

  lemma {:induction false} ThenSim(im: Image, st: Stmt, c: Counters, s: State, k: nat,
                                   env: Env, tr: seq<Event>, m: Slots, fuel: nat) returns (j: nat)
    requires st.If? && SupportedStmt(st) && ResolvedStmt(st, m)
    requires s.Running? && Ready(im, s.pc, GenIf(st, c).code, s, env, m)
    requires var t := Run(im, s, k);
      && t.Running? && t.pc == s.pc + |ShapeOfIf(st, c).test| && t.vars == s.vars && t.tr == tr
    ensures StmtDone(im, Exec(im.world, st.thn, env, tr, fuel), |GenIf(st, c).code|, s.pc, m, fuel, j, Run(im, s, j))
    decreases fuel, st, 0
  {
    hide Exec, ExecAll, Loop, Eval, GenExpr, GenStmt, GenIf, Step, CodeAt, UniqueLabels, StringsLinked, Matches,
         StmtDone, SupportedExpr, ResolvedExpr, Injective, Run;
    var h := ShapeOfIf(st, c);
    IfParts(im.code, s.pc, st, c);
    var s1 := Run(im, s, k);
    var i := StmtSim(im, st.thn, GenExpr(st.cond, c).next.(lab := h.other + 1), s1, env, m, fuel);
    var r := Exec(im.world, st.thn, env, tr, fuel);
    Continues(im, r, s, k, |h.thn.code|, s1.pc, m, fuel, i);
    j := ThenFinish(im, st, c, s, k + i, r, m, fuel);
  }

  // Over the code that stands between the first branch and the end.
  lemma ThenFinish(im: Image, st: Stmt, c: Counters, s: State, k: nat, r: Outcome, m: Slots, fuel: nat) returns (j: nat)
    requires st.If? && s.Running? && CodeAt(im.code, s.pc, GenIf(st, c).code) && UniqueLabels(im.code)
    requires var h := ShapeOfIf(st, c);
      StmtDone(im, r, |h.thn.code|, s.pc + |h.test|, m, fuel, k, Run(im, s, k))
    ensures StmtDone(im, r, |GenIf(st, c).code|, s.pc, m, fuel, j, Run(im, s, j))
  {
    hide Exec, Eval, GenExpr, GenStmt, Step, CodeAt, UniqueLabels, Matches, StmtDone, GenIf;
    var h := ShapeOfIf(st, c);
    IfParts(im.code, s.pc, st, c);
    var pc := s.pc + |h.test|;
    var p := pc + |h.thn.code|;
    if st.els.None? {
      CodeHead(im.code, p, Label(h.other));
      j := ThenGo(im, r, s, k, |h.thn.code|, pc, p + 1, s.pc, m, fuel);
    } else {
      var end := p + 2 + |h.els.code|;
      IfElseParts(im.code, p, h.other, h.end, h.els.code);
      j := ThenGo(im, r, s, k, |h.thn.code|, pc, end, s.pc, m, fuel);
      j := ThenGo(im, r, s, j, end - s.pc, s.pc, end + 1, s.pc, m, fuel);
    }
  }

  lemma {:induction false} ElseSim(im: Image, st: Stmt, c: Counters, s: State, k: nat,
                                   env: Env, tr: seq<Event>, m: Slots, fuel: nat) returns (j: nat)
    requires st.If? && st.els.Some? && SupportedStmt(st) && ResolvedStmt(st, m)
    requires s.Running? && Ready(im, s.pc, GenIf(st, c).code, s, env, m)
    requires var h, t := ShapeOfIf(st, c), Run(im, s, k);
      && t.Running? && t.pc == s.pc + |h.test| + |h.thn.code| + 1 && t.vars == s.vars && t.tr == tr
    ensures StmtDone(im, Exec(im.world, st.els.value, env, tr, fuel), |GenIf(st, c).code|, s.pc, m, fuel, j,
                     Run(im, s, j))
    decreases fuel, st, 0
  {
    hide Exec, ExecAll, Loop, Eval, GenExpr, GenStmt, GenIf, Step, CodeAt, UniqueLabels, StringsLinked, Matches,
         StmtDone, SupportedExpr, ResolvedExpr;
    var h := ShapeOfIf(st, c);
    var p := s.pc + |h.test| + |h.thn.code|;
    ElsePlace(im.code, s.pc, st, c);
    j := GoSim(im, s, k, p + 2);
    var s1 := Run(im, s, j);
    var i := StmtSim(im, st.els.value, h.thn.next.(lab := h.end + 1), s1, env, m, fuel);
    var r := Exec(im.world, st.els.value, env, tr, fuel);
    Continues(im, r, s, j, |h.els.code|, s1.pc, m, fuel, i);
    j := ElseFinish(im, st, c, s, j + i, r, m, fuel);
  }

  // Where the second branch stands.
  lemma ElsePlace(code: seq<Instr>, pc: nat, st: Stmt, c: Counters)
    requires st.If? && st.els.Some? && CodeAt(code, pc, GenIf(st, c).code) && UniqueLabels(code)
    ensures var h := ShapeOfIf(st, c);
      var p := pc + |h.test| + |h.thn.code|;
      p + 1 < |code| && code[p + 1] == Label(h.other) && CodeAt(code, p + 2, h.els.code)
  {
    var h := ShapeOfIf(st, c);
    IfParts(code, pc, st, c);
    IfElseParts(code, pc + |h.test| + |h.thn.code|, h.other, h.end, h.els.code);
  }

  // Over the label at the end.
  lemma ElseFinish(im: Image, st: Stmt, c: Counters, s: State, k: nat, r: Outcome, m: Slots, fuel: nat) returns (j: nat)
    requires st.If? && st.els.Some? && s.Running? && CodeAt(im.code, s.pc, GenIf(st, c).code) && UniqueLabels(im.code)
    requires var h := ShapeOfIf(st, c);
      StmtDone(im, r, |h.els.code|, s.pc + |h.test| + |h.thn.code| + 2, m, fuel, k, Run(im, s, k))
    ensures StmtDone(im, r, |GenIf(st, c).code|, s.pc, m, fuel, j, Run(im, s, j))
  {
    var h := ShapeOfIf(st, c);
    IfParts(im.code, s.pc, st, c);
    var p := s.pc + |h.test| + |h.thn.code|;
    IfElseParts(im.code, p, h.other, h.end, h.els.code);
    j := ThenGo(im, r, s, k, |h.els.code|, p + 2, p + 3 + |h.els.code|, s.pc, m, fuel);
  }

  // ---------- loops ----------

  // A loop's source and the counters and labels its code was made with.
  datatype LoopShape = LoopShape(
    cond: Expr, cc: Counters, body: Stmt, cb: Counters, inc: Option<Expr>, ci: Counters,
    start: nat, end: nat, again: nat)

  function LoopTest(h: LoopShape): seq<Instr> {
    var g := GenExpr(h.cond, h.cc);
    g.code + [Brz(g.res, h.end)]
  }

  function LoopStep(h: LoopShape): seq<Instr> {
    if h.inc.None? then [] else [Label(h.again)] + GenExpr(h.inc.value, h.ci).code
  }

  function LoopCode(h: LoopShape): seq<Instr> {
    [Label(h.start)] + LoopTest(h) + GenStmt(h.body, h.cb).code + LoopStep(h) + [Jmp(h.start), Label(h.end)]
  }

  lemma LoopParts(code: seq<Instr>, pc: nat, h: LoopShape)
    requires CodeAt(code, pc, LoopCode(h)) && UniqueLabels(code)
    ensures var b := pc + 1 + |LoopTest(h)|;
      var i := b + |GenStmt(h.body, h.cb).code|;
      var j := i + |LoopStep(h)|;
      && j + 1 < |code| && |LoopCode(h)| == j + 2 - pc
      && code[pc] == Label(h.start) && code[j] == Jmp(h.start) && code[j + 1] == Label(h.end)
      && FindLabel(code, h.start) == pc && FindLabel(code, h.end) == j + 1
      && CodeAt(code, pc + 1, LoopTest(h)) && CodeAt(code, b, GenStmt(h.body, h.cb).code)
      && CodeAt(code, i, LoopStep(h))
  {
    var a, b, d := [Label(h.start)] + LoopTest(h), GenStmt(h.body, h.cb).code, LoopStep(h);
    var j := pc + |a| + |b| + |d|;
    CodeSplit4(code, pc, a, b, d, [Jmp(h.start), Label(h.end)]);
    CodeSplit(code, pc, [Label(h.start)], LoopTest(h));
    CodeTwo(code, j, Jmp(h.start), Label(h.end));
    CodeHead(code, pc, Label(h.start));
    LabelFound(code, pc, h.start);
    LabelFound(code, j + 1, h.end);
  }

  // gen_expr_ir has no case for it: no code, and a temp that is never written.
  predicate Codeless(e: Expr) {
    e.Null? || e.Assign? || e.SizeofType? || e.SizeofExpr? || e.Index? || e.Member?
  }

  // `st` is the loop statement that `h` describes; an increment without code is none.
  ghost predicate LoopOf(st: Stmt, h: LoopShape, inc: Option<Stmt>, m: Slots) {
    && h.body < st && SupportedStmt(h.body) && ResolvedStmt(h.body, m)
    && SupportedExpr(h.cond) && ResolvedExpr(h.cond, m)
    && match inc
       case None => h.inc.Some? ==> Codeless(h.inc.value)
       case Some(i) =>
         && i < st && i.ExprStmt? && h.inc == Some(i.expr)
         && SupportedExpr(i.expr) && ResolvedExpr(i.expr, m)
  }

  /** The loop's label, its condition and the branch out of it. */
  lemma TestSim(im: Image, h: LoopShape, s: State, env: Env, m: Slots) returns (k: nat)
    requires SupportedExpr(h.cond) && ResolvedExpr(h.cond, m)
    requires s.Running? && Ready(im, s.pc, LoopCode(h), s, env, m)
    ensures var a := Eval(im.world, h.cond, env, s.tr);
      var t := Run(im, s, k);
      && k > 0 && !a.Undefined?
      && (a.Faulted? ==> t == Trapped(a.tr))
      && (a.Val? ==>
            && t.Running? && t.tr == a.tr && t.vars == s.vars
            && if a.v != 0 then t.pc == s.pc + 1 + |LoopTest(h)|
               else t.pc + 1 == s.pc + |LoopCode(h)| && t.pc < |im.code| && im.code[t.pc] == Label(h.end))
  {
    hide Eval, GenExpr, GenStmt, Step, StringsLinked, LoopCode;
    LoopParts(im.code, s.pc, h);
    k := GoSim(im, s, 0, s.pc + 1);
    var s1 := Run(im, s, k);
    var i := BranchSim(im, h.cond, h.end, h.cc, s1, env, m);
    RunAdds(im, s, k, i);
    k := k + i;
  }

  lemma {:induction false} LoopSim(im: Image, st: Stmt, h: LoopShape, inc: Option<Stmt>, s: State,
                                   env: Env, m: Slots, fuel: nat) returns (k: nat)
    requires LoopOf(st, h, inc, m)
    requires s.Running? && Ready(im, s.pc, LoopCode(h), s, env, m)
    ensures StmtDone(im, Loop(im.world, st, h.cond, h.body, inc, env, s.tr, fuel), |LoopCode(h)|, s.pc, m, fuel, k,
                     Run(im, s, k))
    decreases fuel, st, 0
  {
    hide Exec, GenExpr, GenStmt, Step, CodeAt, UniqueLabels, StringsLinked, AfterTest, LoopCode, LoopTest, Matches,
         Eval;
    if fuel == 0 {
      k := 0;
    } else {
      k := TestSim(im, h, s, env, m);
      var a := Eval(im.world, h.cond, env, s.tr);
      if a.Val? && a.v == 0 {
        k := GoSim(im, s, k, s.pc + |LoopCode(h)|);
      } else if a.Val? {
        k := IterationSim(im, st, h, inc, s, k, env, a.tr, m, fuel);
      }
    }
  }

  /** One pass through the body, from its start, and all the later ones. */
  lemma {:induction false} IterationSim(im: Image, st: Stmt, h: LoopShape, inc: Option<Stmt>, s: State, k0: nat,
                                        env: Env, tr: seq<Event>, m: Slots, fuel: nat) returns (k: nat)
    requires LoopOf(st, h, inc, m) && fuel > 0 && k0 > 0
    requires s.Running? && Ready(im, s.pc, LoopCode(h), s, env, m)
    requires var t := Run(im, s, k0);
      && t.Running? && t.pc == s.pc + 1 + |LoopTest(h)| && t.vars == s.vars && t.tr == tr
    ensures StmtDone(im, AfterTest(im.world, st, h.cond, h.body, inc, env, tr, fuel), |LoopCode(h)|, s.pc, m, fuel, k,
                     Run(im, s, k))
    decreases fuel, h.body, 3
  {
    hide Eval, GenExpr, GenStmt, Step, CodeAt, UniqueLabels, StringsLinked, SupportedExpr, ResolvedExpr, Loop,
         AfterBody, LoopCode, LoopTest;
    LoopParts(im.code, s.pc, h);
    var s1 := Run(im, s, k0);
    var i := StmtSim(im, h.body, h.cb, s1, env, m, fuel);
    RunAdds(im, s, k0, i);
    k := k0 + i;
    var r := Exec(im.world, h.body, env, tr, fuel);
    if r.Normal? {
      k := NextSim(im, st, h, inc, s, k, r.env, r.tr, m, fuel);
    }
  }

  /** The increment's code, from the start of `LoopStep` to its end. */
  lemma StepSim(im: Image, h: LoopShape, pc: nat, s: State, k0: nat, env: Env, m: Slots, fuel: nat)
    returns (k: nat)
    requires h.inc.Some? && SupportedExpr(h.inc.value) && ResolvedExpr(h.inc.value, m)
    requires StringsLinked(im) && CodeAt(im.code, pc, LoopStep(h))
    requires var t := Run(im, s, k0); t.Running? && t.pc == pc && Matches(m, env, t.vars)
    ensures var t0, t := Run(im, s, k0), Run(im, s, k);
      var q := Exec(im.world, ExprStmt(h.inc.value), env, t0.tr, fuel);
      && k > k0
      && (q.Crashed? || (q.Normal? && q.env == env))
      && (q.Crashed? ==> t == Trapped(q.tr))
      && (q.Normal? ==> t.Running? && t.pc == pc + |LoopStep(h)| && t.tr == q.tr && t.vars == t0.vars)
  {
    var e := h.inc.value;
    CodeSplit(im.code, pc, [Label(h.again)], GenExpr(e, h.ci).code);
    CodeHead(im.code, pc, Label(h.again));
    k := GoSim(im, s, k0, pc + 1);
    var i := ExprSim(im, e, h.ci, Run(im, s, k), env, m);
    RunAdds(im, s, k, i);
    k := k + i;
  }

  // An increment without code leaves only its label.
  lemma EmptyStep(im: Image, h: LoopShape, pc: nat, s: State, k: nat) returns (j: nat)
    requires h.inc.Some? && Codeless(h.inc.value) && CodeAt(im.code, pc, LoopStep(h))
    requires Run(im, s, k).Running? && Run(im, s, k).pc == pc
    ensures j == k + 1 && Run(im, s, j) == Run(im, s, k).(pc := pc + |LoopStep(h)|)
  {
    assert LoopStep(h) == [Label(h.again)];
    CodeHead(im.code, pc, Label(h.again));
    j := GoSim(im, s, k, pc + 1);
  }

  // How the increment, if there is one, ends.
  function StepOutcome(w: World, inc: Option<Stmt>, env: Env, tr: seq<Event>, fuel: nat): Outcome {
    if inc.None? then Normal(env, tr) else Exec(w, inc.value, env, tr, fuel)
  }

  /** From the end of the body over the increment back to the loop's start. */
  lemma BackSim(im: Image, st: Stmt, h: LoopShape, inc: Option<Stmt>, s: State, k0: nat, env: Env, tr: seq<Event>,
                m: Slots, fuel: nat) returns (k: nat)
    requires LoopOf(st, h, inc, m) && k0 > 0
    requires s.Running? && CodeAt(im.code, s.pc, LoopCode(h)) && UniqueLabels(im.code) && StringsLinked(im)
    requires var t := Run(im, s, k0);
      && t.Running? && t.pc == s.pc + 1 + |LoopTest(h)| + |GenStmt(h.body, h.cb).code|
      && Matches(m, env, t.vars) && t.tr == tr
    ensures var q, t := StepOutcome(im.world, inc, env, tr, fuel), Run(im, s, k);
      && k > 0
      && if q.Crashed? then t == Trapped(q.tr)
         else t.Running? && q == Normal(env, t.tr) && t.pc == s.pc && t.vars == Run(im, s, k0).vars
  {
    hide Exec, Eval, Step, GenExpr, GenStmt;
    StepPlace(im.code, s.pc, h);
    k := k0;
    var pc := Run(im, s, k0).pc;
    if inc.Some? {
      k := StepSim(im, h, pc, s, k0, env, m, fuel);
    } else if h.inc.Some? {
      k := EmptyStep(im, h, pc, s, k0);
    }
    if Run(im, s, k).Running? {
      k := GoSim(im, s, k, s.pc);
    }
  }

  lemma {:induction false} NextSim(im: Image, st: Stmt, h: LoopShape, inc: Option<Stmt>, s: State, k0: nat,
                                   env: Env, tr: seq<Event>, m: Slots, fuel: nat) returns (k: nat)
    requires LoopOf(st, h, inc, m) && h.body < st && (inc.Some? ==> inc.value < st) && fuel > 0 && k0 > 0
    requires s.Running? && CodeAt(im.code, s.pc, LoopCode(h))
    requires UniqueLabels(im.code) && StringsLinked(im) && Injective(m)
    requires var t := Run(im, s, k0);
      && t.Running? && t.pc == s.pc + 1 + |LoopTest(h)| + |GenStmt(h.body, h.cb).code|
      && Matches(m, env, t.vars) && t.tr == tr
    ensures StmtDone(im, AfterBody(im.world, st, h.cond, h.body, inc, env, tr, fuel), |LoopCode(h)|, s.pc, m, fuel, k,
                     Run(im, s, k))
    decreases fuel, h.body, 2
  {
    hide StmtDone, AfterBody;
    k := BackSim(im, st, h, inc, s, k0, env, tr, m, fuel);
    var s1, i := Run(im, s, k), 0;
    if s1.Running? {
      i := LoopSim(im, st, h, inc, s1, env, m, fuel - 1);
    }
    k := NextFinish(im, st, h.cond, h.body, inc, s, |LoopCode(h)|, env, tr, m, fuel, k, i);
  }

  // The next iterations after the jump back.
  lemma NextFinish(im: Image, st: Stmt, c: Expr, b: Stmt, inc: Option<Stmt>, s: State, len: nat, env: Env, tr: seq<Event>,
                   m: Slots, fuel: nat, k: nat, i: nat) returns (j: nat)
    requires b < st && (inc.Some? ==> inc.value < st) && fuel > 0 && k > 0 && s.Running?
    requires var q, t := StepOutcome(im.world, inc, env, tr, fuel), Run(im, s, k);
      if q.Crashed? then t == Trapped(q.tr)
      else
        && t.Running? && q == Normal(env, t.tr)
        && StmtDone(im, Loop(im.world, st, c, b, inc, env, t.tr, fuel - 1), len, s.pc, m, fuel - 1, i, Run(im, t, i))
    ensures StmtDone(im, AfterBody(im.world, st, c, b, inc, env, tr, fuel), len, s.pc, m, fuel, j, Run(im, s, j))
  {
    hide Exec, Loop, Run, Matches;
    var t := Run(im, s, k);
    j := k;
    if t.Running? {
      Continues(im, Loop(im.world, st, c, b, inc, env, t.tr, fuel - 1), s, k, len, s.pc, m, fuel - 1, i);
      j := k + i;
    }
  }

  // Where the increment and the jump back stand.
  lemma StepPlace(code: seq<Instr>, pc: nat, h: LoopShape)
    requires CodeAt(code, pc, LoopCode(h)) && UniqueLabels(code)
    ensures var i := pc + 1 + |LoopTest(h)| + |GenStmt(h.body, h.cb).code|;
      && CodeAt(code, i, LoopStep(h)) && i + |LoopStep(h)| < |code|
      && code[i + |LoopStep(h)|] == Jmp(h.start) && FindLabel(code, h.start) == pc
  {
    LoopParts(code, pc, h);
  }

  lemma {:induction false} WhileSim(im: Image, st: Stmt, c: Counters, s: State, env: Env, m: Slots, fuel: nat)
    returns (k: nat)
    requires st.While? && SupportedStmt(st) && ResolvedStmt(st, m)
    requires s.Running? && Ready(im, s.pc, GenWhile(st, c).code, s, env, m)
    ensures StmtDone(im, Exec(im.world, st, env, s.tr, fuel), |GenWhile(st, c).code|, s.pc, m, fuel, k,
                     Run(im, s, k))
    decreases fuel, st, 1
  {
    k := LoopSim(im, st, ShapeOfWhile(st, c), None, s, env, m, fuel);
  }

  function ShapeOfWhile(st: Stmt, c: Counters): (h: LoopShape)
    requires st.While?
    ensures GenWhile(st, c).code == LoopCode(h)
  {
    var cc := c.(lab := c.lab + 2);
    var cb := GenExpr(st.cond, cc).next;
    LoopShape(st.cond, cc, st.body, cb, None, cb, c.lab, c.lab + 1, 0)
  }

  lemma {:induction false} ForSim(im: Image, st: Stmt, c: Counters, s: State, env: Env, m: Slots, fuel: nat)
    returns (k: nat)
    requires st.For? && SupportedStmt(st) && ResolvedStmt(st, m)
    requires s.Running? && Ready(im, s.pc, GenFor(st, c).code, s, env, m)
    ensures StmtDone(im, Exec(im.world, st, env, s.tr, fuel), |GenFor(st, c).code|, s.pc, m, fuel, k,
                     Run(im, s, k))
    decreases fuel, st, 1
  {
    hide Exec, Eval, GenExpr, GenStmt, GenFor, Step, CodeAt, UniqueLabels, StringsLinked, Matches, SupportedExpr,
         ResolvedExpr, Loop, LoopCode, LoopOf;
    var h := ShapeOfFor(st, c);
    ForPlace(im.code, s.pc, st, c);
    ForIsLoop(st, c, m);
    k := StmtSim(im, st.clauses[0], c, s, env, m, fuel);
    var r := Exec(im.world, st.clauses[0], env, s.tr, fuel);
    var s1, i := Run(im, s, k), 0;
    if r.Normal? {
      i := LoopSim(im, st, h, Some(st.clauses[2]), s1, r.env, m, fuel);
    }
    k := ForFinish(im, st, c, s, env, m, fuel, k, i);
  }

  lemma ForPlace(code: seq<Instr>, pc: nat, st: Stmt, c: Counters)
    requires FullHeader(st) && CodeAt(code, pc, GenFor(st, c).code)
    ensures var first := GenStmt(st.clauses[0], c).code;
      CodeAt(code, pc, first) && CodeAt(code, pc + |first|, LoopCode(ShapeOfFor(st, c)))
  {
    CodeSplit(code, pc, GenStmt(st.clauses[0], c).code, LoopCode(ShapeOfFor(st, c)));
  }

  // The first clause and then the loop.
  lemma ForFinish(im: Image, st: Stmt, c: Counters, s: State, env: Env, m: Slots, fuel: nat, k: nat, i: nat)
    returns (j: nat)
    requires st.For? && SupportedStmt(st) && s.Running?
    requires st.body < st && st.clauses[2] < st
    requires StmtDone(im, Exec(im.world, st.clauses[0], env, s.tr, fuel), |GenStmt(st.clauses[0], c).code|, s.pc, m,
                      fuel, k, Run(im, s, k))
    requires var r, s1, h := Exec(im.world, st.clauses[0], env, s.tr, fuel), Run(im, s, k), ShapeOfFor(st, c);
      r.Normal? ==>
        StmtDone(im, Loop(im.world, st, st.clauses[1].expr, st.body, Some(st.clauses[2]), r.env, s1.tr, fuel),
                 |LoopCode(h)|, s1.pc, m, fuel, i, Run(im, s1, i))
    ensures StmtDone(im, Exec(im.world, st, env, s.tr, fuel), |GenFor(st, c).code|, s.pc, m, fuel, j, Run(im, s, j))
  {
    var r, s1, h := Exec(im.world, st.clauses[0], env, s.tr, fuel), Run(im, s, k), ShapeOfFor(st, c);
    j := k;
    if r.Normal? {
      RunAdds(im, s, k, i);
      j := k + i;
    }
  }

  lemma ForIsLoop(st: Stmt, c: Counters, m: Slots)
    requires st.For? && SupportedStmt(st) && ResolvedStmt(st, m)
    ensures LoopOf(st, ShapeOfFor(st, c), Some(st.clauses[2]), m)
    ensures SupportedStmt(st.clauses[0]) && ResolvedStmt(st.clauses[0], m) && st.clauses[0] < st
  {
    hide GenStmt, GenExpr, SupportedExpr;
    assert ResolvedStmt(st.clauses[0], m) && ResolvedStmt(st.clauses[1], m) && ResolvedStmt(st.clauses[2], m);
  }

  predicate FullHeader(st: Stmt) {
    st.For? && |st.clauses| == 3 && st.clauses[1].ExprStmt? && st.clauses[2].ExprStmt?
  }

  function ShapeOfFor(st: Stmt, c: Counters): (h: LoopShape)
    requires FullHeader(st)
    ensures h.inc.Some? && h.ci == GenStmt(h.body, h.cb).next
    ensures GenFor(st, c) == StmtCode(GenStmt(st.clauses[0], c).code + LoopCode(h), GenExpr(h.inc.value, h.ci).next)
  {
    var c0 := GenStmt(st.clauses[0], c).next;
    var cc := c0.(lab := c0.lab + 3);
    var cb := GenExpr(st.clauses[1].expr, cc).next;
    var ci := GenStmt(st.body, cb).next;
    var h := LoopShape(st.clauses[1].expr, cc, st.body, cb, Some(st.clauses[2].expr), ci,
                       c0.lab, c0.lab + 1, c0.lab + 2);
    assert GenForLoop(st, c0) == StmtCode(LoopCode(h), GenExpr(h.inc.value, h.ci).next);
    h
  }

  // ---------- whole functions ----------

  ghost predicate BodyDone(im: Image, r: Answer, fuel: nat, k: nat, t: State) {
    match r
    case Gives(v, tr) => t == Halted(v, tr)
    case Dies(tr) => t == Trapped(tr)
    case NotYet => t.Running? && k >= fuel
    case NoMeaning => false
  }

  lemma BodySim(im: Image, name: string, body: Stmt, c: Counters, s: State, env: Env, m: Slots, fuel: nat)
    returns (k: nat)
    requires SupportedStmt(body) && ResolvedStmt(body, m)
    requires s.Running? && Ready(im, s.pc, GenFunction(name, body, c).code, s, env, m)
    ensures BodyDone(im, RunBody(im.world, body, env, s.tr, fuel), fuel, k, Run(im, s, k))
  {
    hide Exec, ExecAll, Eval, GenExpr, GenStmt, CodeAt, UniqueLabels, StringsLinked, Matches, SupportedExpr,
         ResolvedExpr;
    var g := GenStmt(body, c.(temp := 0));
    CodeSplit3(im.code, s.pc, [Func(name)], g.code, [EndFunc]);
    CodeHead(im.code, s.pc, Func(name));
    CodeHead(im.code, s.pc + 1 + |g.code|, EndFunc);
    RunThenStep(im, s, 0);
    var s1 := Run(im, s, 1);
    var i := StmtSim(im, body, c.(temp := 0), s1, env, m, fuel);
    var r := Exec(im.world, body, env, s.tr, fuel);
    Continues(im, r, s, 1, |g.code|, s1.pc, m, fuel, i);
    k := 1 + i;
    if r.Normal? {
      RunThenStep(im, s, k);
      k := k + 1;
    }
  }

  // What the source program, and the generated code, can end with.
  ghost predicate SourceEnds(w: World, body: Stmt, env: Env, tr: seq<Event>, r: Answer) {
    exists fuel: nat :: RunBody(w, body, env, tr, fuel) == r
  }

  ghost predicate IrEnds(im: Image, s: State, t: State) {
    exists k: nat :: Run(im, s, k) == t
  }

  /**
   The generated code of a function returns a value, after some calls, exactly
   when the source function does, and faults exactly when the source does; so it
   runs for ever exactly when the source does.
   */
  lemma FunctionCorrect(im: Image, name: string, body: Stmt, c: Counters, s: State, env: Env, m: Slots)
    requires SupportedStmt(body) && ResolvedStmt(body, m)
    requires s.Running? && Ready(im, s.pc, GenFunction(name, body, c).code, s, env, m)
    ensures forall v, tr ::
      SourceEnds(im.world, body, env, s.tr, Gives(v, tr)) <==> IrEnds(im, s, Halted(v, tr))
    ensures forall tr ::
      SourceEnds(im.world, body, env, s.tr, Dies(tr)) <==> IrEnds(im, s, Trapped(tr))
  {
    hide RunBody, Ready, Step, SupportedStmt, ResolvedStmt, GenFunction;
    forall r: Answer, t: State | (r.Gives? && t == Halted(r.v, r.tr)) || (r.Dies? && t == Trapped(r.tr))
      ensures SourceEnds(im.world, body, env, s.tr, r) <==> IrEnds(im, s, t)
    {
      if SourceEnds(im.world, body, env, s.tr, r) {
        var fuel: nat :| RunBody(im.world, body, env, s.tr, fuel) == r;
        var k := BodySim(im, name, body, c, s, env, m, fuel);
      }
      if IrEnds(im, s, t) {
        var k: nat :| Run(im, s, k) == t;
        var j := BodySim(im, name, body, c, s, env, m, k + 1);
        SameEnd(im, s, j, k);
        assert RunBody(im.world, body, env, s.tr, k + 1) == r;
      }
    }
    forall v, tr
      ensures SourceEnds(im.world, body, env, s.tr, Gives(v, tr)) <==> IrEnds(im, s, Halted(v, tr))
    {
      var r, t := Gives(v, tr), Halted(v, tr);
    }
    forall tr
      ensures SourceEnds(im.world, body, env, s.tr, Dies(tr)) <==> IrEnds(im, s, Trapped(tr))
    {
      var r, t := Dies(tr), Trapped(tr);
    }
  }

  lemma SameEnd(im: Image, s: State, j: nat, k: nat)
    requires !Run(im, s, k).Running?
    ensures j >= k || !Run(im, s, j).Running? ==> Run(im, s, j) == Run(im, s, k)
  {
    if k <= j {
      RunStopped(im, s, k, j);
    } else if !Run(im, s, j).Running? {
      RunStopped(im, s, j, k);
    }
  }
}
