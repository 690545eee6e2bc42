/**
 The shape of generated code (src/ir.c:40-58, 69-433): labels are defined once
 and jumped to from their own function only, temps are defined once and before
 their uses, and code for an expression writes nothing but its own temps.
 */
module IrShape {
  import opened Words
  import opened Ast
  import opened Ir
  import opened Lowering
  import IrMachine
  import Source

  function Def(i: Instr): Option<Operand> {
    match i
    case Mov(d, _) => Some(d)
    case Alu(_, d, _, _) => Some(d)
    case Un(_, d, _) => Some(d)
    case GetRet(d) => Some(d)
    case _ => None
  }

  function Uses(i: Instr): set<Operand> {
    match i
    case Mov(_, a) => {a}
    case Alu(_, _, a, b) => {a, b}
    case Un(_, _, a) => {a}
    case CallTo(_, args) => set a | a in args
    case Brz(a, _) => {a}
    case Ret(a) => if a.Some? then {a.value} else {}
    case _ => {}
  }

  predicate IsControl(i: Instr) {
    i.Label? || i.Jmp? || i.Brz? || i.Ret? || i.Func? || i.EndFunc?
  }

  function Target(i: Instr): Option<nat> {
    if i.Jmp? || i.Brz? then Some(i.l) else None
  }

  /** How many instructions satisfy `p`. */
  ghost function Count(code: seq<Instr>, p: Instr -> bool): nat {
    if code == [] then 0 else (if p(code[0]) then 1 else 0) + Count(code[1..], p)
  }

  lemma {:induction false} CountAdds(a: seq<Instr>, b: seq<Instr>, p: Instr -> bool)
    ensures Count(a + b, p) == Count(a, p) + Count(b, p)
  {
    if a == [] {
      assert a + b == b;
    } else {
      assert (a + b)[1..] == a[1..] + b;
      CountAdds(a[1..], b, p);
    }
  }

  lemma {:induction false} CountNone(code: seq<Instr>, p: Instr -> bool)
    requires forall i | 0 <= i < |code| :: !p(code[i])
    ensures Count(code, p) == 0
  {
    if code != [] {
      CountNone(code[1..], p);
    }
  }

  lemma {:induction false} CountTwo(code: seq<Instr>, p: Instr -> bool, i: nat, j: nat)
    requires i < j < |code| && p(code[i]) && p(code[j])
    ensures Count(code, p) >= 2
  {
    if i > 0 {
      CountTwo(code[1..], p, i - 1, j - 1);
    } else if Count(code[1..], p) == 0 {
      CountSome(code[1..], p, j - 1);
    }
  }

  lemma {:induction false} CountSome(code: seq<Instr>, p: Instr -> bool, i: nat)
    requires i < |code| && p(code[i])
    ensures Count(code, p) >= 1
  {
    if i > 0 {
      CountSome(code[1..], p, i - 1);
    }
  }

  // ---------- expressions ----------

  /** No control transfer, and nothing written but temps of [from, to). */
  ghost predicate Straight(code: seq<Instr>, from: nat, to: nat) {
    forall i | 0 <= i < |code| ::
      && !IsControl(code[i])
      && (Def(code[i]).Some? ==> Def(code[i]).value.Temp? && from <= Def(code[i]).value.n < to)
  }

  /** Evaluating an expression touches no slot, no label and no temp that was handed out before. */
  lemma {:induction false} ExprStraight(e: Expr, c: Counters)
    ensures Straight(GenExpr(e, c).code, c.temp, GenExpr(e, c).next.temp)
    decreases e, 1
  {
    match e
    case Binary(_, l, r) =>
      ExprStraight(l, c);
      ExprStraight(r, GenExpr(l, c).next);
    case Unary(_, x) => ExprStraight(x, c);
    case Call(_, args) => ArgsStraight(args, c.(temp := c.temp + 1));
    case _ =>
  }

  lemma {:induction false} ArgsStraight(args: seq<Expr>, c: Counters)
    ensures Straight(GenArgs(args, c).code, c.temp, GenArgs(args, c).next.temp)
    decreases args, 0
  {
    if args != [] {
      ExprStraight(args[0], c);
      ArgsStraight(args[1..], GenExpr(args[0], c).next);
    }
  }

  // ---------- labels and temps are defined once ----------

  // What can be counted: the definitions of a label, or those of a temp.
  datatype Mark = LabelMark(l: nat) | TempMark(t: nat)

  ghost function Marks(k: Mark): Instr -> bool {
    match k
    case LabelMark(l) => (i: Instr) => i == Label(l)
    case TempMark(t) => (i: Instr) => Def(i) == Some(Temp(t))
  }

  function OneIf(b: bool): nat {
    if b then 1 else 0
  }

  /** The number was handed out between the two states of the counters. */
  predicate HandedOut(k: Mark, c: Counters, d: Counters) {
    match k
    case LabelMark(l) => c.lab <= l < d.lab
    case TempMark(t) => c.temp <= t < d.temp
  }

  /** The code defines each handed-out number once, and no other. */
  ghost predicate Once(code: seq<Instr>, k: Mark, c: Counters, d: Counters) {
    Count(code, Marks(k)) == OneIf(HandedOut(k, c, d))
  }

  lemma Adds3(a: seq<Instr>, b: seq<Instr>, d: seq<Instr>, p: Instr -> bool)
    ensures Count(a + b + d, p) == Count(a, p) + Count(b, p) + Count(d, p)
  {
    CountAdds(a + b, d, p);
    CountAdds(a, b, p);
  }

  lemma AddsOne(a: seq<Instr>, i: Instr, p: Instr -> bool)
    ensures Count(a + [i], p) == Count(a, p) + OneIf(p(i))
    ensures Count([i], p) == OneIf(p(i))
  {
    CountAdds(a, [i], p);
    assert [i][1..] == [];
  }

  lemma CountPair(i: Instr, j: Instr, p: Instr -> bool)
    ensures Count([i, j], p) == OneIf(p(i)) + OneIf(p(j))
  {
    assert [i, j] == [i] + [j];
    AddsOne([i], j, p);
    AddsOne([], i, p);
  }

  lemma {:induction false} ExprOnce(e: Expr, c: Counters, k: Mark)
    requires k.TempMark? ==> SupportedExpr(e)
    ensures Once(GenExpr(e, c).code, k, c, GenExpr(e, c).next)
    decreases e, 1
  {
    hide Count;
    var g := GenExpr(e, c);
    if k.LabelMark? {
      ExprStraight(e, c);
      CountNone(g.code, Marks(k));
    } else {
      match e
      case Binary(_, l, r) =>
        ExprOnce(l, c, k);
        ExprOnce(r, GenExpr(l, c).next, k);
        BinaryOnce(e, c, k);
      case Unary(op, x) =>
        ExprOnce(x, c, k);
        AddsOne(GenExpr(x, c).code, Un(UnaryOf(op), g.res, GenExpr(x, c).res), Marks(k));
      case Call(_, args) =>
        ArgsOnce(args, c.(temp := c.temp + 1), k);
        CallOnce(e, c, k);
      case Str(text) => CountPair(StringDef(c.str, text), Mov(g.res, StrRef(c.str)), Marks(k));
      case Number(_) => AddsOne([], g.code[0], Marks(k));
      case Ident(_, _) => AddsOne([], g.code[0], Marks(k));
    }
  }

  lemma BinaryOnce(e: Expr, c: Counters, k: Mark)
    requires e.Binary? && k.TempMark?
    requires var gl := GenExpr(e.left, c);
      var gr := GenExpr(e.right, gl.next);
      Once(gl.code, k, c, gl.next) && Once(gr.code, k, gl.next, gr.next)
    ensures Once(GenExpr(e, c).code, k, c, GenExpr(e, c).next)
  {
    var g := GenExpr(e, c);
    var gl := GenExpr(e.left, c);
    var gr := GenExpr(e.right, gl.next);
    CountAdds(gl.code, gr.code, Marks(k));
    AddsOne(gl.code + gr.code, Alu(OpOf(e.op), g.res, gl.res, gr.res), Marks(k));
  }

  lemma CallOnce(e: Expr, c: Counters, k: Mark)
    requires e.Call? && k.TempMark?
    requires var ga := GenArgs(e.args, c.(temp := c.temp + 1));
      Once(ga.code, k, c.(temp := c.temp + 1), ga.next)
    ensures Once(GenExpr(e, c).code, k, c, GenExpr(e, c).next)
  {
    hide GenArgs, Count, SupportedExpr;
    var ga := GenArgs(e.args, c.(temp := c.temp + 1));
    var call, get := CallTo(CalleeName(e.callee), FirstArgs(ga.res)), GetRet(Temp(c.temp));
    CountAdds(ga.code, [call, get], Marks(k));
    CountPair(call, get, Marks(k));
  }

  lemma {:induction false} ArgsOnce(args: seq<Expr>, c: Counters, k: Mark)
    requires k.TempMark? && forall a | a in args :: SupportedExpr(a)
    ensures Once(GenArgs(args, c).code, k, c, GenArgs(args, c).next)
    decreases args, 0
  {
    if args != [] {
      var g := GenExpr(args[0], c);
      ExprOnce(args[0], c, k);
      ArgsOnce(args[1..], g.next, k);
      CountAdds(g.code, GenArgs(args[1..], g.next).code, Marks(k));
    }
  }

  /**
   Every label handed out while generating `s` is defined exactly once, and so
   is, in the supported language, every temp.
   */
  lemma {:induction false} StmtOnce(s: Stmt, c: Counters, k: Mark)
    requires k.TempMark? ==> SupportedStmt(s)
    ensures Once(GenStmt(s, c).code, k, c, GenStmt(s, c).next)
    decreases s, 2
  {
    hide GenClause;
    match s
    case Return(e) =>
      if e.Some? {
        ExprOnce(e.value, c, k);
        AddsOne(GenExpr(e.value, c).code, Ret(Some(GenExpr(e.value, c).res)), Marks(k));
      } else {
        AddsOne([], Ret(None), Marks(k));
      }
    case Decl(_, _, init, slot) =>
      if init.Some? {
        StoreOnce(slot, init.value, c, k);
      }
    case ExprStmt(e) =>
      if e.Assign? {
        StoreOnce(SlotOf(e.target), e.source, c, k);
      } else {
        ExprOnce(e, c, k);
      }
    case If(_, _, _) => BranchesOnce(s, c, k);
    case While(_, _) => WhileOnce(s, c, k);
    case For(_, _) => ForOnce(s, c, k);
    case Block(ss) => BlockOnce(ss, c, k);
    case _ =>
  }

  lemma StoreOnce(slot: nat, e: Expr, c: Counters, k: Mark)
    requires k.TempMark? ==> SupportedExpr(e)
    ensures Once(StoreTo(slot, e, c).code, k, c, StoreTo(slot, e, c).next)
  {
    ExprOnce(e, c, k);
    AddsOne(GenExpr(e, c).code, Mov(Var(slot), GenExpr(e, c).res), Marks(k));
  }

  lemma {:induction false} BranchesOnce(s: Stmt, c: Counters, k: Mark)
    requires s.If? && (k.TempMark? ==> SupportedStmt(s))
    ensures Once(GenIf(s, c).code, k, c, GenIf(s, c).next)
    decreases s, 1
  {
    hide Count, GenExpr, GenStmt, GenIf, Once, Marks;
    var h := ShapeOfIf(s, c);
    ExprOnce(s.cond, c, k);
    StmtOnce(s.thn, GenExpr(s.cond, c).next.(lab := h.other + 1), k);
    if s.els.Some? {
      StmtOnce(s.els.value, h.thn.next.(lab := h.end + 1), k);
    }
    IfOnce(s, c, k);
  }

  lemma IfOnce(s: Stmt, c: Counters, k: Mark)
    requires s.If?
    requires var h := ShapeOfIf(s, c);
      var g := GenExpr(s.cond, c);
      && Once(g.code, k, c, g.next)
      && Once(h.thn.code, k, g.next.(lab := h.other + 1), h.thn.next)
      && (s.els.Some? ==> Once(h.els.code, k, h.thn.next.(lab := h.end + 1), h.els.next))
    ensures Once(GenIf(s, c).code, k, c, GenIf(s, c).next)
  {
    hide Count, GenExpr, GenStmt;
    IfAdds(s, c, GenExpr(s.cond, c), ShapeOfIf(s, c), Marks(k));
  }

  lemma IfAdds(s: Stmt, c: Counters, g: ExprCode, h: IfShape, p: Instr -> bool)
    requires s.If? && h == ShapeOfIf(s, c) && g == GenExpr(s.cond, c)
    ensures Count(GenIf(s, c).code, p) ==
            Count(g.code, p) + OneIf(p(Brz(g.res, h.other))) + Count(h.thn.code, p) + OneIf(p(Label(h.other)))
            + if s.els.None? then 0 else OneIf(p(Jmp(h.end))) + Count(h.els.code, p) + OneIf(p(Label(h.end)))
  {
    assert GenIf(s, c).code == h.test + h.thn.code + h.last;
    Adds3(h.test, h.thn.code, h.last, p);
    AddsOne(g.code, Brz(g.res, h.other), p);
    if s.els.None? {
      AddsOne([], Label(h.other), p);
    } else {
      ElseAdds(h.other, h.end, h.els.code, p);
    }
  }

  lemma ElseAdds(other: nat, end: nat, els: seq<Instr>, p: Instr -> bool)
    ensures Count([Jmp(end), Label(other)] + els + [Label(end)], p) ==
            OneIf(p(Jmp(end))) + OneIf(p(Label(other))) + Count(els, p) + OneIf(p(Label(end)))
  {
    AddsOne([Jmp(end), Label(other)] + els, Label(end), p);
    CountAdds([Jmp(end), Label(other)], els, p);
    CountPair(Jmp(end), Label(other), p);
  }

  lemma {:induction false} WhileOnce(s: Stmt, c: Counters, k: Mark)
    requires s.While? && (k.TempMark? ==> SupportedStmt(s))
    ensures Once(GenWhile(s, c).code, k, c, GenWhile(s, c).next)
    decreases s, 1
  {
    var c1 := c.(lab := c.lab + 2);
    var g := GenExpr(s.cond, c1);
    var gb := GenStmt(s.body, g.next);
    ExprOnce(s.cond, c1, k);
    StmtOnce(s.body, g.next, k);
    LoopOnce(g, gb, c, k);
    assert GenWhile(s, c) == StmtCode(LoopList(c, g, gb.code), gb.next);
  }

  function LoopList(c: Counters, g: ExprCode, body: seq<Instr>): seq<Instr> {
    [Label(c.lab)] + g.code + [Brz(g.res, c.lab + 1)] + body + [Jmp(c.lab), Label(c.lab + 1)]
  }

  lemma LoopOnce(g: ExprCode, gb: StmtCode, c: Counters, k: Mark)
    requires var c1 := c.(lab := c.lab + 2);
      && Once(g.code, k, c1, g.next) && Once(gb.code, k, g.next, gb.next)
      && c1.lab <= g.next.lab <= gb.next.lab && c1.temp <= g.next.temp <= gb.next.temp
    ensures Once(LoopList(c, g, gb.code), k, c, gb.next)
  {
    WhileAdds(c.lab, c.lab + 1, g.code, Brz(g.res, c.lab + 1), gb.code, Marks(k));
  }

  lemma WhileAdds(start: nat, end: nat, g: seq<Instr>, br: Instr, body: seq<Instr>, p: Instr -> bool)
    ensures Count([Label(start)] + g + [br] + body + [Jmp(start), Label(end)], p) ==
            OneIf(p(Label(start))) + Count(g, p) + OneIf(p(br)) + Count(body, p)
            + OneIf(p(Jmp(start))) + OneIf(p(Label(end)))
  {
    Adds3([Label(start)] + g + [br], body, [Jmp(start), Label(end)], p);
    AddsOne([Label(start)] + g, br, p);
    CountAdds([Label(start)], g, p);
    AddsOne([], Label(start), p);
    CountPair(Jmp(start), Label(end), p);
  }

  lemma ForAdds(start: nat, end: nat, again: nat, test: seq<Instr>, body: seq<Instr>, step: seq<Instr>,
                p: Instr -> bool)
    ensures Count([Label(start)] + test + body + [Label(again)] + step + [Jmp(start), Label(end)], p) ==
            OneIf(p(Label(start))) + Count(test, p) + Count(body, p) + OneIf(p(Label(again))) + Count(step, p)
            + OneIf(p(Jmp(start))) + OneIf(p(Label(end)))
  {
    var a := [Label(start)] + test + body;
    Adds3(a + [Label(again)], step, [Jmp(start), Label(end)], p);
    AddsOne(a, Label(again), p);
    Adds3([Label(start)], test, body, p);
    AddsOne([], Label(start), p);
    CountPair(Jmp(start), Label(end), p);
  }

  lemma TestOnce(s: Stmt, end: nat, c: Counters, k: Mark)
    requires s.For? && (k.TempMark? ==> SupportedStmt(s))
    ensures Once(GenTest(s, end, c).code, k, c, GenTest(s, end, c).next)
  {
    if |s.clauses| >= 1 {
      var g := GenClause(Child(s, 1), c);
      ClauseOnce(Child(s, 1), c, k);
      AddsOne(g.code, Brz(g.res, end), Marks(k));
    }
  }

  lemma ClauseOnce(s: Stmt, c: Counters, k: Mark)
    requires k.TempMark? ==> s.ExprStmt? && SupportedExpr(s.expr)
    ensures Once(GenClause(s, c).code, k, c, GenClause(s, c).next)
  {
    if s.ExprStmt? {
      ExprOnce(s.expr, c, k);
    }
  }

  lemma {:induction false} ForOnce(s: Stmt, c: Counters, k: Mark)
    requires s.For? && (k.TempMark? ==> SupportedStmt(s))
    ensures Once(GenFor(s, c).code, k, c, GenFor(s, c).next)
    decreases s, 1
  {
    var g0 := GenStmt(Child(s, 0), c);
    StmtOnce(Child(s, 0), c, k);
    ForLoopOnce(s, g0.next, k);
    CountAdds(g0.code, GenForLoop(s, g0.next).code, Marks(k));
  }

  lemma {:induction false} ForLoopOnce(s: Stmt, c: Counters, k: Mark)
    requires s.For? && (k.TempMark? ==> SupportedStmt(s))
    ensures Once(GenForLoop(s, c).code, k, c, GenForLoop(s, c).next)
    decreases s, 0
  {
    var start, end, again := c.lab, c.lab + 1, c.lab + 2;
    var c1 := c.(lab := again + 1);
    var g1 := GenTest(s, end, c1);
    var g3 := GenForBody(s, g1.next);
    var g2 := GenStep(s, g3.next);
    TestOnce(s, end, c1, k);
    if |s.clauses| >= 3 {
      StmtOnce(Child(s, 3), g1.next, k);
    }
    if |s.clauses| >= 2 {
      ClauseOnce(Child(s, 2), g3.next, k);
    }
    ForPartsOnce(c, g1, g3, g2, k);
    assert GenForLoop(s, c) == StmtCode(ForList(c, g1.code, g3.code, g2.code), g2.next);
  }

  function ForList(c: Counters, test: seq<Instr>, body: seq<Instr>, step: seq<Instr>): seq<Instr> {
    [Label(c.lab)] + test + body + [Label(c.lab + 2)] + step + [Jmp(c.lab), Label(c.lab + 1)]
  }

  lemma ForPartsOnce(c: Counters, g1: StmtCode, g3: StmtCode, g2: StmtCode, k: Mark)
    requires var c1 := c.(lab := c.lab + 3);
      && Once(g1.code, k, c1, g1.next) && Once(g3.code, k, g1.next, g3.next) && Once(g2.code, k, g3.next, g2.next)
      && c1.lab <= g1.next.lab <= g3.next.lab <= g2.next.lab
      && c1.temp <= g1.next.temp <= g3.next.temp <= g2.next.temp
    ensures Once(ForList(c, g1.code, g3.code, g2.code), k, c, g2.next)
  {
    ForAdds(c.lab, c.lab + 1, c.lab + 2, g1.code, g3.code, g2.code, Marks(k));
  }

  lemma {:induction false} BlockOnce(ss: seq<Stmt>, c: Counters, k: Mark)
    requires k.TempMark? ==> forall s | s in ss :: SupportedStmt(s)
    ensures Once(GenStmts(ss, c).code, k, c, GenStmts(ss, c).next)
    decreases ss, 0
  {
    if ss != [] {
      var g := GenStmt(ss[0], c);
      StmtOnce(ss[0], c, k);
      BlockOnce(ss[1..], g.next, k);
      CountAdds(g.code, GenStmts(ss[1..], g.next).code, Marks(k));
    }
  }

  lemma FunctionOnce(name: string, body: Stmt, c: Counters, k: Mark)
    requires k.TempMark? ==> SupportedStmt(body)
    ensures Once(GenFunction(name, body, c).code, k, c.(temp := 0), GenFunction(name, body, c).next)
  {
    var g := GenStmt(body, c.(temp := 0));
    StmtOnce(body, c.(temp := 0), k);
    Adds3([Func(name)], g.code, [EndFunc], Marks(k));
    AddsOne([], Func(name), Marks(k));
    AddsOne([], EndFunc, Marks(k));
  }

  lemma {:induction false} ProgramLabels(fs: seq<TopLevel>, c: Counters, l: nat)
    ensures Once(GenProgram(fs, c).code, LabelMark(l), c, GenProgram(fs, c).next)
  {
    if fs != [] && fs[0].Global? {
      ProgramLabels(fs[1..], c, l);
    } else if fs != [] {
      var g := GenFunction(fs[0].name, fs[0].body, c);
      FunctionOnce(fs[0].name, fs[0].body, c, LabelMark(l));
      ProgramLabels(fs[1..], g.next, l);
      CountAdds(g.code, GenProgram(fs[1..], g.next).code, Marks(LabelMark(l)));
    }
  }

  /** No two `label` instructions of a whole program define the same label. */
  lemma LabelsAreUnique(fs: seq<TopLevel>, c: Counters)
    ensures IrMachine.UniqueLabels(GenProgram(fs, c).code)
  {
    var code := GenProgram(fs, c).code;
    forall i, j | 0 <= i < j < |code| && code[i].Label? && code[j].Label?
      ensures code[i].l != code[j].l
    {
      if code[i].l == code[j].l {
        CountTwo(code, Marks(LabelMark(code[i].l)), i, j);
        ProgramLabels(fs, c, code[i].l);
      }
    }
  }

  // ---------- every instruction is in order ----------

  // `o` was computed before position i, in the same run of straight code.
  ghost predicate Computed(code: seq<Instr>, i: nat, o: Operand)
    requires i <= |code|
  {
    exists d :: 0 <= d < i && Def(code[d]) == Some(o) && forall j | d < j < i :: !IsControl(code[j])
  }

  predicate OperandOk(o: Operand, temps: nat, slots: nat) {
    match o
    case Temp(n) => n < temps
    case Var(n) => n < slots
    case _ => true
  }

  predicate InstrOk(i: Instr, c: Counters, d: Counters, slots: nat) {
    && (forall o | o in Uses(i) :: OperandOk(o, d.temp, slots))
    && (Def(i).Some? ==> OperandOk(Def(i).value, d.temp, slots) && (Def(i).value.Temp? || Def(i).value.Var?))
    && (Target(i).Some? ==> c.lab <= Target(i).value < d.lab)
    && (i.Alu? ==> i.b.Temp?)
    && (i.CallTo? ==> |i.args| <= MAX_CALL_ARGS)
  }

  /**
   Operands are in range, jumps stay among the function's own labels, the second
   operand of an operation is a temp, a result is fetched right after its call,
   and a temp is used only after it was computed, with no label in between.
   */
  ghost predicate InOrder(code: seq<Instr>, c: Counters, d: Counters, slots: nat) {
    forall i | 0 <= i < |code| :: InOrderAt(code, i, c, d, slots)
  }

  ghost predicate InOrderAt(code: seq<Instr>, i: nat, c: Counters, d: Counters, slots: nat)
    requires i < |code|
  {
    && InstrOk(code[i], c, d, slots)
    && (forall o: Operand | o in Uses(code[i]) && o.Temp? :: Computed(code, i, o))
    && (code[i].GetRet? ==> i > 0 && code[i - 1].CallTo?)
    && (code[i].StringDef? ==> i + 1 < |code| && code[i + 1].Mov?)
  }

  lemma ComputedShift(a: seq<Instr>, b: seq<Instr>, i: nat, o: Operand)
    requires i <= |b| && Computed(b, i, o)
    ensures Computed(a + b, |a| + i, o)
  {
    var d :| 0 <= d < i && Def(b[d]) == Some(o) && forall j | d < j < i :: !IsControl(b[j]);
    assert Def((a + b)[|a| + d]) == Some(o);
  }

  lemma ComputedStays(a: seq<Instr>, b: seq<Instr>, o: Operand)
    requires Computed(a, |a|, o) && forall i | 0 <= i < |b| :: !IsControl(b[i])
    ensures Computed(a + b, |a + b|, o)
  {
    var d :| 0 <= d < |a| && Def(a[d]) == Some(o) && forall j | d < j < |a| :: !IsControl(a[j]);
    assert Def((a + b)[d]) == Some(o);
  }

  lemma ComputedPrefix(a: seq<Instr>, b: seq<Instr>, i: nat, o: Operand)
    requires i <= |a| && Computed(a, i, o)
    ensures Computed(a + b, i, o)
  {
    var d :| 0 <= d < i && Def(a[d]) == Some(o) && forall j | d < j < i :: !IsControl(a[j]);
    assert Def((a + b)[d]) == Some(o);
  }

  lemma InOrderJoin(a: seq<Instr>, b: seq<Instr>, c: Counters, d: Counters, slots: nat)
    requires InOrder(a, c, d, slots) && InOrder(b, c, d, slots)
    ensures InOrder(a + b, c, d, slots)
  {
    forall i | 0 <= i < |a + b|
      ensures InOrderAt(a + b, i, c, d, slots)
    {
      if i < |a| {
        assert InOrderAt(a, i, c, d, slots);
        forall o: Operand | o in Uses(a[i]) && o.Temp? ensures Computed(a + b, i, o) {
          ComputedPrefix(a, b, i, o);
        }
      } else {
        assert InOrderAt(b, i - |a|, c, d, slots);
        forall o: Operand | o in Uses(b[i - |a|]) && o.Temp? ensures Computed(a + b, i, o) {
          ComputedShift(a, b, i - |a|, o);
        }
      }
    }
  }

  /** One more instruction, whose operands have just been computed. */
  lemma InOrderThen(a: seq<Instr>, i: Instr, c: Counters, d: Counters, slots: nat)
    requires InOrder(a, c, d, slots) && InstrOk(i, c, d, slots)
    requires forall o: Operand | o in Uses(i) && o.Temp? :: Computed(a, |a|, o)
    requires !i.StringDef? && (i.GetRet? ==> a != [] && a[|a| - 1].CallTo?)
    ensures InOrder(a + [i], c, d, slots)
  {
    forall j | 0 <= j < |a + [i]|
      ensures InOrderAt(a + [i], j, c, d, slots)
    {
      if j < |a| {
        assert InOrderAt(a, j, c, d, slots);
        forall o: Operand | o in Uses(a[j]) && o.Temp? ensures Computed(a + [i], j, o) {
          ComputedPrefix(a, [i], j, o);
        }
      } else {
        forall o: Operand | o in Uses(i) && o.Temp? ensures Computed(a + [i], j, o) {
          ComputedPrefix(a, [i], j, o);
        }
      }
    }
  }

  ghost predicate Below(m: Slots, n: nat) {
    forall x | x in m :: m[x] < n
  }

  lemma JustComputed(a: seq<Instr>, i: Instr, o: Operand)
    requires Def(i) == Some(o)
    ensures Computed(a + [i], |a| + 1, o)
  {
    assert (a + [i])[|a|] == i;
  }

  lemma PlainInOrder(i: Instr, c: Counters, d: Counters, slots: nat)
    requires InstrOk(i, c, d, slots) && !i.GetRet? && !i.StringDef?
    requires forall o: Operand | o in Uses(i) :: !o.Temp?
    ensures InOrder([i], c, d, slots)
  {
    InOrderThen([], i, c, d, slots);
    assert [] + [i] == [i];
  }

  lemma {:induction false} ExprInOrder(e: Expr, c: Counters, lo: Counters, hi: Counters, m: Slots, slots: nat)
    requires SupportedExpr(e) && ResolvedExpr(e, m) && Below(m, slots) && GenExpr(e, c).next.temp <= hi.temp
    ensures var g := GenExpr(e, c);
      InOrder(g.code, lo, hi, slots) && Computed(g.code, |g.code|, g.res)
    decreases e, 1
  {
    hide InOrder, Computed;
    var g := GenExpr(e, c);
    match e
    case Binary(op, l, r) =>
      BinaryInOrder(e, c, lo, hi, m, slots);
    case Unary(op, x) =>
      var gx := GenExpr(x, c);
      ExprInOrder(x, c, lo, hi, m, slots);
      OneBehind(gx.code, Un(UnaryOf(op), g.res, gx.res), g.res, lo, hi, slots);
    case Call(f, args) =>
      CallInOrder(e, c, lo, hi, m, slots);
    case Str(text) => StringInOrder(StringDef(c.str, text), Mov(g.res, StrRef(c.str)), g.res, lo, hi, slots);
    case Number(_) => OneInOrder(g.code[0], g.res, lo, hi, slots);
    case Ident(_, _) => OneInOrder(g.code[0], g.res, lo, hi, slots);
  }

  lemma OneBehind(a: seq<Instr>, i: Instr, d: Operand, lo: Counters, hi: Counters, slots: nat)
    requires InOrder(a, lo, hi, slots) && i.Un? && Computed(a, |a|, i.a) && Def(i) == Some(d) && InstrOk(i, lo, hi, slots)
    ensures InOrder(a + [i], lo, hi, slots) && Computed(a + [i], |a + [i]|, d)
  {
    hide InOrder, Computed, InstrOk;
    InOrderThen(a, i, lo, hi, slots);
    JustComputed(a, i, d);
  }

  lemma OneInOrder(i: Instr, d: Operand, lo: Counters, hi: Counters, slots: nat)
    requires i.Mov? && !i.src.Temp? && Def(i) == Some(d) && InstrOk(i, lo, hi, slots)
    ensures InOrder([i], lo, hi, slots) && Computed([i], 1, d)
  {
    PlainInOrder(i, lo, hi, slots);
    JustComputed([], i, d);
    assert [] + [i] == [i];
  }

  lemma StringInOrder(def: Instr, mov: Instr, d: Operand, lo: Counters, hi: Counters, slots: nat)
    requires def.StringDef? && mov.Mov? && !mov.src.Temp? && Def(mov) == Some(d) && InstrOk(mov, lo, hi, slots)
    ensures InOrder([def, mov], lo, hi, slots) && Computed([def, mov], 2, d)
  {
    assert [def, mov] == [def] + [mov];
    JustComputed([def], mov, d);
  }

  lemma {:induction false} BinaryInOrder(e: Expr, c: Counters, lo: Counters, hi: Counters, m: Slots, slots: nat)
    requires e.Binary? && SupportedExpr(e) && ResolvedExpr(e, m) && Below(m, slots)
    requires GenExpr(e, c).next.temp <= hi.temp
    ensures var g := GenExpr(e, c);
      InOrder(g.code, lo, hi, slots) && Computed(g.code, |g.code|, g.res)
    decreases e, 0
  {
    hide InOrder, Computed, Below;
    var g := GenExpr(e, c);
    var gl := GenExpr(e.left, c);
    var gr := GenExpr(e.right, gl.next);
    var i := Alu(OpOf(e.op), g.res, gl.res, gr.res);
    ExprInOrder(e.left, c, lo, hi, m, slots);
    ExprInOrder(e.right, gl.next, lo, hi, m, slots);
    ExprStraight(e.right, gl.next);
    OpInOrder(gl.code, gr.code, i, gl.res, gr.res, g.res, lo, hi, slots);
  }

  // Two operands, computed one after the other, and their operation.
  lemma OpInOrder(a: seq<Instr>, b: seq<Instr>, i: Instr, l: Operand, r: Operand, d: Operand, lo: Counters, hi: Counters,
                  slots: nat)
    requires InOrder(a, lo, hi, slots) && Computed(a, |a|, l) && InOrder(b, lo, hi, slots) && Computed(b, |b|, r)
    requires forall k | 0 <= k < |b| :: !IsControl(b[k])
    requires i.Alu? && i.a == l && i.b == r && Def(i) == Some(d) && InstrOk(i, lo, hi, slots)
    ensures InOrder(a + b + [i], lo, hi, slots) && Computed(a + b + [i], |a + b + [i]|, d)
  {
    hide InOrder, Computed, InstrOk;
    InOrderJoin(a, b, lo, hi, slots);
    ComputedStays(a, b, l);
    ComputedShift(a, b, |b|, r);
    InOrderThen(a + b, i, lo, hi, slots);
    JustComputed(a + b, i, d);
  }

  lemma {:induction false} CallInOrder(e: Expr, c: Counters, lo: Counters, hi: Counters, m: Slots, slots: nat)
    requires e.Call? && SupportedExpr(e) && ResolvedExpr(e, m) && Below(m, slots)
    requires GenExpr(e, c).next.temp <= hi.temp
    ensures var g := GenExpr(e, c);
      InOrder(g.code, lo, hi, slots) && Computed(g.code, |g.code|, g.res)
    decreases e, 0
  {
    var g := GenExpr(e, c);
    var ga := GenArgs(e.args, c.(temp := c.temp + 1));
    var call, get := CallTo(e.callee.name, ga.res), GetRet(g.res);
    ArgsInOrder(e.args, c.(temp := c.temp + 1), lo, hi, m, slots);
    InOrderThen(ga.code, call, lo, hi, slots);
    InOrderThen(ga.code + [call], get, lo, hi, slots);
    JustComputed(ga.code + [call], get, g.res);
    assert g.code == ga.code + [call] + [get];
  }

  lemma {:induction false} ArgsInOrder(args: seq<Expr>, c: Counters, lo: Counters, hi: Counters, m: Slots, slots: nat)
    requires forall a | a in args :: SupportedExpr(a) && ResolvedExpr(a, m)
    requires Below(m, slots) && GenArgs(args, c).next.temp <= hi.temp
    ensures var g := GenArgs(args, c);
      InOrder(g.code, lo, hi, slots) && forall o | o in g.res :: Computed(g.code, |g.code|, o)
    decreases args, 0
  {
    if args != [] {
      var g := GenExpr(args[0], c);
      var rest := GenArgs(args[1..], g.next);
      ExprInOrder(args[0], c, lo, hi, m, slots);
      ArgsInOrder(args[1..], g.next, lo, hi, m, slots);
      InOrderJoin(g.code, rest.code, lo, hi, slots);
      ArgsStraight(args[1..], g.next);
      ComputedStays(g.code, rest.code, g.res);
      forall o | o in rest.res ensures Computed(g.code + rest.code, |g.code + rest.code|, o) {
        ComputedShift(g.code, rest.code, |rest.code|, o);
      }
    }
  }

  /** The counters while on `s` stay within those of the whole function. */
  predicate Within(c: Counters, next: Counters, lo: Counters, hi: Counters) {
    lo.lab <= c.lab && next.lab <= hi.lab && next.temp <= hi.temp
  }

  ghost predicate Scoped(s: Stmt, m: Slots, slots: nat) {
    SupportedStmt(s) && ResolvedStmt(s, m) && Below(m, slots)
  }

  lemma {:induction false} StmtInOrder(s: Stmt, c: Counters, lo: Counters, hi: Counters, m: Slots, slots: nat)
    requires Scoped(s, m, slots) && Within(c, GenStmt(s, c).next, lo, hi)
    ensures InOrder(GenStmt(s, c).code, lo, hi, slots)
    decreases s, 2
  {
    match s
    case Return(e) =>
      if e.Some? {
        ExprInOrder(e.value, c, lo, hi, m, slots);
        InOrderThen(GenExpr(e.value, c).code, Ret(Some(GenExpr(e.value, c).res)), lo, hi, slots);
      } else {
        PlainInOrder(Ret(None), lo, hi, slots);
      }
    case Decl(_, _, init, slot) =>
      if init.Some? {
        StoreInOrder(slot, init.value, c, lo, hi, m, slots);
      }
    case ExprStmt(e) =>
      if e.Assign? {
        assert ResolvedExpr(e.target, m);
        StoreInOrder(SlotOf(e.target), e.source, c, lo, hi, m, slots);
      } else {
        ExprInOrder(e, c, lo, hi.(temp := hi.temp + GenExpr(e, c).next.temp), m, slots);
        if e.Binary? || e.Unary? || e.Call? {
          ExprInOrder(e, c, lo, hi, m, slots);
        }
      }
    case If(_, _, _) => IfInOrder(s, c, lo, hi, m, slots);
    case While(_, _) => WhileInOrder(s, c, lo, hi, m, slots);
    case For(_, _) => ForInOrder(s, c, lo, hi, m, slots);
    case Block(ss) => BlockInOrder(ss, c, lo, hi, m, slots);
  }

  lemma StoreInOrder(slot: nat, e: Expr, c: Counters, lo: Counters, hi: Counters, m: Slots, slots: nat)
    requires SupportedExpr(e) && ResolvedExpr(e, m) && Below(m, slots) && slot < slots
    requires GenExpr(e, c).next.temp <= hi.temp
    ensures InOrder(StoreTo(slot, e, c).code, lo, hi, slots)
  {
    ExprInOrder(e, c, lo, hi, m, slots);
    InOrderThen(GenExpr(e, c).code, Mov(Var(slot), GenExpr(e, c).res), lo, hi, slots);
  }

  lemma {:induction false} BlockInOrder(ss: seq<Stmt>, c: Counters, lo: Counters, hi: Counters, m: Slots, slots: nat)
    requires forall s | s in ss :: Scoped(s, m, slots)
    requires Within(c, GenStmts(ss, c).next, lo, hi)
    ensures InOrder(GenStmts(ss, c).code, lo, hi, slots)
    decreases ss, 0
  {
    if ss != [] {
      var g := GenStmt(ss[0], c);
      StmtInOrder(ss[0], c, lo, hi, m, slots);
      BlockInOrder(ss[1..], g.next, lo, hi, m, slots);
      InOrderJoin(g.code, GenStmts(ss[1..], g.next).code, lo, hi, slots);
    }
  }

  /** A condition and its `brz`. */
  lemma TestInOrder(e: Expr, l: nat, c: Counters, lo: Counters, hi: Counters, m: Slots, slots: nat)
    requires SupportedExpr(e) && ResolvedExpr(e, m) && Below(m, slots)
    requires GenExpr(e, c).next.temp <= hi.temp && lo.lab <= l < hi.lab
    ensures InOrder(GenExpr(e, c).code + [Brz(GenExpr(e, c).res, l)], lo, hi, slots)
  {
    ExprInOrder(e, c, lo, hi, m, slots);
    InOrderThen(GenExpr(e, c).code, Brz(GenExpr(e, c).res, l), lo, hi, slots);
  }

  lemma Join3(a: seq<Instr>, b: seq<Instr>, e: seq<Instr>, c: Counters, d: Counters, slots: nat)
    requires InOrder(a, c, d, slots) && InOrder(b, c, d, slots) && InOrder(e, c, d, slots)
    ensures InOrder(a + b + e, c, d, slots)
  {
    InOrderJoin(a, b, c, d, slots);
    InOrderJoin(a + b, e, c, d, slots);
  }

  lemma JumpLabel(j: nat, l: nat, c: Counters, d: Counters, slots: nat)
    requires c.lab <= j < d.lab
    ensures InOrder([Jmp(j), Label(l)], c, d, slots) && InOrder([Label(l)], c, d, slots)
  {
    PlainInOrder(Jmp(j), c, d, slots);
    PlainInOrder(Label(l), c, d, slots);
    InOrderJoin([Jmp(j)], [Label(l)], c, d, slots);
    assert [Jmp(j), Label(l)] == [Jmp(j)] + [Label(l)];
  }

  lemma {:induction false} IfInOrder(s: Stmt, c: Counters, lo: Counters, hi: Counters, m: Slots, slots: nat)
    requires s.If? && Scoped(s, m, slots) && Within(c, GenIf(s, c).next, lo, hi)
    ensures InOrder(GenIf(s, c).code, lo, hi, slots)
    decreases s, 1
  {
    hide GenExpr, GenStmt, InOrder, SupportedExpr, ResolvedExpr, Below;
    var h := ShapeOfIf(s, c);
    assert GenIf(s, c) == StmtCode(h.test + h.thn.code + h.last, h.els.next);
    TestInOrder(s.cond, h.other, c, lo, hi, m, slots);
    StmtInOrder(s.thn, GenExpr(s.cond, c).next.(lab := h.other + 1), lo, hi, m, slots);
    JumpLabel(h.other, h.other, lo, hi, slots);
    if s.els.Some? {
      JumpLabel(h.end, h.other, lo, hi, slots);
      JumpLabel(h.end, h.end, lo, hi, slots);
      StmtInOrder(s.els.value, h.thn.next.(lab := h.end + 1), lo, hi, m, slots);
      Join3([Jmp(h.end), Label(h.other)], h.els.code, [Label(h.end)], lo, hi, slots);
    }
    Join3(h.test, h.thn.code, h.last, lo, hi, slots);
  }

  lemma LoopInOrder(h: LoopShape, lo: Counters, hi: Counters, m: Slots, slots: nat)
    requires SupportedExpr(h.cond) && ResolvedExpr(h.cond, m) && Below(m, slots)
    requires h.inc.Some? ==>
      SupportedExpr(h.inc.value) && ResolvedExpr(h.inc.value, m) && GenExpr(h.inc.value, h.ci).next.temp <= hi.temp
    requires InOrder(GenStmt(h.body, h.cb).code, lo, hi, slots)
    requires GenExpr(h.cond, h.cc).next.temp <= hi.temp
    requires lo.lab <= h.start < hi.lab && lo.lab <= h.end < hi.lab
    ensures InOrder(LoopCode(h), lo, hi, slots)
  {
    var a := [Label(h.start)] + LoopTest(h);
    TestInOrder(h.cond, h.end, h.cc, lo, hi, m, slots);
    JumpLabel(h.start, h.start, lo, hi, slots);
    InOrderJoin([Label(h.start)], LoopTest(h), lo, hi, slots);
    if h.inc.Some? {
      JumpLabel(h.start, h.again, lo, hi, slots);
      ExprInOrder(h.inc.value, h.ci, lo, hi, m, slots);
      InOrderJoin([Label(h.again)], GenExpr(h.inc.value, h.ci).code, lo, hi, slots);
    }
    JumpLabel(h.start, h.end, lo, hi, slots);
    Join3(a, GenStmt(h.body, h.cb).code, LoopStep(h), lo, hi, slots);
    InOrderJoin(a + GenStmt(h.body, h.cb).code + LoopStep(h), [Jmp(h.start), Label(h.end)], lo, hi, slots);
  }

  lemma {:induction false} WhileInOrder(s: Stmt, c: Counters, lo: Counters, hi: Counters, m: Slots, slots: nat)
    requires s.While? && Scoped(s, m, slots) && Within(c, GenWhile(s, c).next, lo, hi)
    ensures InOrder(GenWhile(s, c).code, lo, hi, slots)
    decreases s, 1
  {
    var h := ShapeOfWhile(s, c);
    StmtInOrder(s.body, h.cb, lo, hi, m, slots);
    LoopInOrder(h, lo, hi, m, slots);
  }

  lemma {:induction false} ForInOrder(s: Stmt, c: Counters, lo: Counters, hi: Counters, m: Slots, slots: nat)
    requires s.For? && Scoped(s, m, slots) && Within(c, GenFor(s, c).next, lo, hi)
    ensures InOrder(GenFor(s, c).code, lo, hi, slots)
    decreases s, 1
  {
    var h := ShapeOfFor(s, c);
    var g0 := GenStmt(s.clauses[0], c);
    assert forall t | t in s.clauses :: ResolvedStmt(t, m);
    assert ResolvedStmt(s.clauses[0], m) && ResolvedStmt(s.clauses[1], m) && ResolvedStmt(s.clauses[2], m);
    StmtInOrder(s.clauses[0], c, lo, hi, m, slots);
    StmtInOrder(s.body, h.cb, lo, hi, m, slots);
    LoopInOrder(h, lo, hi, m, slots);
    InOrderJoin(g0.code, LoopCode(h), lo, hi, slots);
  }

  /** The whole function: its temps are t0 to t(n-1), its labels a range of their own. */
  lemma FunctionInOrder(name: string, body: Stmt, c: Counters, m: Slots, slots: nat)
    requires Scoped(body, m, slots)
    ensures var g := GenFunction(name, body, c);
      InOrder(g.code, c.(temp := 0), g.next, slots)
  {
    var lo, g := c.(temp := 0), GenStmt(body, c.(temp := 0));
    StmtInOrder(body, lo, lo, g.next, m, slots);
    PlainInOrder(Func(name), lo, g.next, slots);
    PlainInOrder(EndFunc, lo, g.next, slots);
    Join3([Func(name)], g.code, [EndFunc], lo, g.next, slots);
  }

  // ---------- what the code of any statement consists of ----------

  /** Nothing in e calls a name of `own`. */
  predicate OutsideExpr(e: Expr, own: set<string>) {
    match e
    case Binary(_, l, r) => OutsideExpr(l, own) && OutsideExpr(r, own)
    case Unary(_, x) => OutsideExpr(x, own)
    case Assign(_, l, r) => OutsideExpr(l, own) && OutsideExpr(r, own)
    case SizeofExpr(x) => OutsideExpr(x, own)
    case Call(f, args) =>
      Source.LinkName(CalleeName(f)) !in own && OutsideExpr(f, own) && forall a | a in args :: OutsideExpr(a, own)
    case Index(a, b) => OutsideExpr(a, own) && OutsideExpr(b, own)
    case Member(x, _) => OutsideExpr(x, own)
    case Number(_) | Str(_) | Null | Ident(_, _) | SizeofType(_) => true
  }

  predicate OutsideStmt(s: Stmt, own: set<string>) {
    match s
    case If(c, t, e) => OutsideExpr(c, own) && OutsideStmt(t, own) && (e.Some? ==> OutsideStmt(e.value, own))
    case While(c, b) => OutsideExpr(c, own) && OutsideStmt(b, own)
    case For(cs, b) => (forall t | t in cs :: OutsideStmt(t, own)) && OutsideStmt(b, own)
    case Return(e) => e.Some? ==> OutsideExpr(e.value, own)
    case Block(ss) => forall t | t in ss :: OutsideStmt(t, own)
    case Decl(_, _, init, _) => init.Some? ==> OutsideExpr(init.value, own)
    case ExprStmt(e) => OutsideExpr(e, own)
    case Break | Continue => true
  }

  lemma {:induction false} ExprCallsNoneOfNone(e: Expr)
    ensures OutsideExpr(e, {})
    decreases e
  {
    match e
    case Binary(_, l, r) =>
      ExprCallsNoneOfNone(l);
      ExprCallsNoneOfNone(r);
    case Unary(_, x) => ExprCallsNoneOfNone(x);
    case Assign(_, l, r) =>
      ExprCallsNoneOfNone(l);
      ExprCallsNoneOfNone(r);
    case SizeofExpr(x) => ExprCallsNoneOfNone(x);
    case Call(f, args) =>
      ExprCallsNoneOfNone(f);
      forall a | a in args ensures OutsideExpr(a, {}) {
        ExprCallsNoneOfNone(a);
      }
    case Index(a, b) =>
      ExprCallsNoneOfNone(a);
      ExprCallsNoneOfNone(b);
    case Member(x, _) => ExprCallsNoneOfNone(x);
    case Number(_) | Str(_) | Null | Ident(_, _) | SizeofType(_) =>
  }

  lemma {:induction false} CallsNoneOfNone(s: Stmt)
    ensures OutsideStmt(s, {})
    decreases s
  {
    match s
    case If(c, t, e) =>
      ExprCallsNoneOfNone(c);
      CallsNoneOfNone(t);
      if e.Some? {
        CallsNoneOfNone(e.value);
      }
    case While(c, b) =>
      ExprCallsNoneOfNone(c);
      CallsNoneOfNone(b);
    case For(cs, b) =>
      forall t | t in cs ensures OutsideStmt(t, {}) {
        CallsNoneOfNone(t);
      }
      CallsNoneOfNone(b);
    case Return(e) =>
      if e.Some? {
        ExprCallsNoneOfNone(e.value);
      }
    case Block(ss) =>
      forall t | t in ss ensures OutsideStmt(t, {}) {
        CallsNoneOfNone(t);
      }
    case Decl(_, _, init, _) =>
      if init.Some? {
        ExprCallsNoneOfNone(init.value);
      }
    case ExprStmt(e) => ExprCallsNoneOfNone(e);
    case Break | Continue =>
  }

  // Jumps go to labels of [from, to), calls to names outside `own`, and no function begins or ends.
  predicate Kin(i: Instr, from: nat, to: nat, own: set<string>) {
    && !i.Func? && !i.EndFunc?
    && (Target(i).Some? ==> from <= Target(i).value < to)
    && (i.CallTo? ==> Source.LinkName(i.callee) !in own)
  }

  ghost predicate AllKin(code: seq<Instr>, from: nat, to: nat, own: set<string>) {
    forall i | 0 <= i < |code| :: Kin(code[i], from, to, own)
  }

  lemma {:induction false} ExprKin(e: Expr, c: Counters, own: set<string>)
    requires OutsideExpr(e, own)
    ensures AllKin(GenExpr(e, c).code, 0, 0, own)
    decreases e, 1
  {
    match e
    case Binary(_, l, r) =>
      ExprKin(l, c, own);
      ExprKin(r, GenExpr(l, c).next, own);
    case Unary(_, x) => ExprKin(x, c, own);
    case Call(_, args) => ArgsKin(args, c.(temp := c.temp + 1), own);
    case _ =>
  }

  lemma {:induction false} ArgsKin(args: seq<Expr>, c: Counters, own: set<string>)
    requires forall a | a in args :: OutsideExpr(a, own)
    ensures AllKin(GenArgs(args, c).code, 0, 0, own)
    decreases args, 0
  {
    if args != [] {
      ExprKin(args[0], c, own);
      ArgsKin(args[1..], GenExpr(args[0], c).next, own);
    }
  }

  /** Every jump of a statement's code goes to a label that was handed out for that statement. */
  lemma {:induction false} StmtKin(s: Stmt, c: Counters, own: set<string>)
    requires OutsideStmt(s, own)
    ensures AllKin(GenStmt(s, c).code, c.lab, GenStmt(s, c).next.lab, own)
    decreases s, 3
  {
    match s
    case If(_, _, _) => IfKin(s, c, own);
    case While(_, _) => WhileKin(s, c, own);
    case For(_, _) => ForKin(s, c, own);
    case Return(e) =>
      if e.Some? {
        ExprKin(e.value, c, own);
      }
    case Block(ss) => BlockKin(ss, c, own);
    case Decl(_, _, init, _) =>
      if init.Some? {
        ExprKin(init.value, c, own);
      }
    case ExprStmt(e) =>
      ExprKin(e, c, own);
      if e.Assign? {
        ExprKin(e.source, c, own);
      }
    case Break | Continue =>
  }

  lemma {:induction false} IfKin(s: Stmt, c: Counters, own: set<string>)
    requires s.If? && OutsideStmt(s, own)
    ensures AllKin(GenIf(s, c).code, c.lab, GenIf(s, c).next.lab, own)
    decreases s, 0
  {
    hide GenExpr, GenStmt, OutsideExpr;
    var h := ShapeOfIf(s, c);
    var g := GenExpr(s.cond, c);
    ExprKin(s.cond, c, own);
    StmtKin(s.thn, g.next.(lab := h.other + 1), own);
    if s.els.Some? {
      StmtKin(s.els.value, h.thn.next.(lab := h.end + 1), own);
      var from, to := c.lab, h.els.next.lab;
      IfPartsKin(g.code, Brz(g.res, h.other), h.thn.code, [Jmp(h.end), Label(h.other)] + h.els.code + [Label(h.end)],
                 from, to, own);
    } else {
      IfPartsKin(g.code, Brz(g.res, h.other), h.thn.code, [Label(h.other)], c.lab, h.thn.next.lab, own);
    }
  }

  lemma IfPartsKin(test: seq<Instr>, br: Instr, thn: seq<Instr>, last: seq<Instr>, from: nat, to: nat, own: set<string>)
    requires AllKin(test, 0, 0, own) && Kin(br, from, to, own) && AllKin(thn, from, to, own) && AllKin(last, from, to, own)
    ensures AllKin(test + [br] + thn + last, from, to, own)
  {
  }

  lemma {:induction false} WhileKin(s: Stmt, c: Counters, own: set<string>)
    requires s.While? && OutsideStmt(s, own)
    ensures AllKin(GenWhile(s, c).code, c.lab, GenWhile(s, c).next.lab, own)
    decreases s, 0
  {
    var c1 := c.(lab := c.lab + 2);
    var g := GenExpr(s.cond, c1);
    var gb := GenStmt(s.body, g.next);
    ExprKin(s.cond, c1, own);
    StmtKin(s.body, g.next, own);
    LoopKin(c, g, gb.code, gb.next.lab, own);
    assert GenWhile(s, c) == StmtCode(LoopList(c, g, gb.code), gb.next);
  }

  lemma LoopKin(c: Counters, g: ExprCode, body: seq<Instr>, to: nat, own: set<string>)
    requires AllKin(g.code, 0, 0, own) && AllKin(body, c.lab, to, own) && c.lab + 2 <= to
    ensures AllKin(LoopList(c, g, body), c.lab, to, own)
  {
  }

  lemma {:induction false} ForKin(s: Stmt, c: Counters, own: set<string>)
    requires s.For? && OutsideStmt(s, own)
    ensures AllKin(GenFor(s, c).code, c.lab, GenFor(s, c).next.lab, own)
    decreases s, 2
  {
    var g0 := GenStmt(Child(s, 0), c);
    StmtKin(Child(s, 0), c, own);
    ForLoopKin(s, g0.next, own);
    TwoKin(g0.code, GenForLoop(s, g0.next).code, c.lab, g0.next.lab, GenForLoop(s, g0.next).next.lab, own);
  }

  lemma TwoKin(a: seq<Instr>, b: seq<Instr>, from: nat, mid: nat, to: nat, own: set<string>)
    requires AllKin(a, from, mid, own) && AllKin(b, mid, to, own) && from <= mid <= to
    ensures AllKin(a + b, from, to, own)
  {
  }

  lemma {:induction false} ForLoopKin(s: Stmt, c: Counters, own: set<string>)
    requires s.For? && OutsideStmt(s, own)
    ensures AllKin(GenForLoop(s, c).code, c.lab, GenForLoop(s, c).next.lab, own)
    decreases s, 1
  {
    hide GenClause, GenStmt;
    var c1 := c.(lab := c.lab + 3);
    var g1 := GenTest(s, c.lab + 1, c1);
    var g3 := GenForBody(s, g1.next);
    var g2 := GenStep(s, g3.next);
    if |s.clauses| >= 1 {
      ClauseKin(Child(s, 1), c1, own);
    }
    if |s.clauses| >= 2 {
      ClauseKin(Child(s, 2), g3.next, own);
    }
    if |s.clauses| >= 3 {
      StmtKin(Child(s, 3), g1.next, own);
    }
    ForListKin(c, g1.code, g3.code, g2.code, g2.next.lab, own);
    assert GenForLoop(s, c) == StmtCode(ForList(c, g1.code, g3.code, g2.code), g2.next);
  }

  lemma ForListKin(c: Counters, test: seq<Instr>, body: seq<Instr>, step: seq<Instr>, to: nat, own: set<string>)
    requires AllKin(test, c.lab, c.lab + 2, own) && AllKin(body, c.lab, to, own) && AllKin(step, 0, 0, own)
    requires c.lab + 3 <= to
    ensures AllKin(ForList(c, test, body, step), c.lab, to, own)
  {
  }

  lemma ClauseKin(s: Stmt, c: Counters, own: set<string>)
    requires OutsideStmt(s, own)
    ensures AllKin(GenClause(s, c).code, 0, 0, own)
  {
    if s.ExprStmt? {
      ExprKin(s.expr, c, own);
    }
  }

  lemma {:induction false} BlockKin(ss: seq<Stmt>, c: Counters, own: set<string>)
    requires forall t | t in ss :: OutsideStmt(t, own)
    ensures AllKin(GenStmts(ss, c).code, c.lab, GenStmts(ss, c).next.lab, own)
    decreases ss, 0
  {
    if ss != [] {
      var g := GenStmt(ss[0], c);
      var rest := GenStmts(ss[1..], g.next);
      StmtKin(ss[0], c, own);
      BlockKin(ss[1..], g.next, own);
      TwoKin(g.code, rest.code, c.lab, g.next.lab, rest.next.lab, own);
    }
  }

  /** A jump in a function, whatever its body, goes to the one place of a label that this function defines. */
  lemma JumpsStayInside(name: string, body: Stmt, c: Counters, i: nat)
    requires var code := GenFunction(name, body, c).code; i < |code| && Target(code[i]).Some?
    ensures var code := GenFunction(name, body, c).code;
      Count(code, Marks(LabelMark(Target(code[i]).value))) == 1
  {
    var g, code := GenStmt(body, c.(temp := 0)), GenFunction(name, body, c).code;
    CallsNoneOfNone(body);
    StmtKin(body, c.(temp := 0), {});
    assert code[i] == g.code[i - 1];
    FunctionOnce(name, body, c, LabelMark(Target(code[i]).value));
  }
}
