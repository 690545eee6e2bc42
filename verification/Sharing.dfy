/**
 Which statements are clear: exactly those whose code has consistent live sets,
 among them all whose variables are initialised and used in their scope.
 */
module Sharing {
  import opened Words
  import opened Ast
  import opened Ir
  import opened Lowering
  import opened IrShape
  import opened Liveness

  // ---------- no other check on the code is weaker ----------

  /** Some live sets for the code lead from `post`, needed after it, to `pre`. */
  ghost predicate Flows(code: seq<Instr>, pre: LiveSet, post: LiveSet, m: Marks) {
    exists lives :: Leads(code, lives, pre, post, m)
  }

  ghost predicate Leads(code: seq<Instr>, lives: seq<LiveSet>, pre: LiveSet, post: LiveSet, m: Marks) {
    Consistent(code, lives, post, m) && Entry(lives, post) == pre
  }

  lemma Split(a: seq<Instr>, b: seq<Instr>, pre: LiveSet, post: LiveSet, m: Marks) returns (mid: LiveSet)
    requires Flows(a + b, pre, post, m)
    ensures Flows(a, pre, mid, m) && Flows(b, mid, post, m)
  {
    var lives :| Leads(a + b, lives, pre, post, m);
    var la, lb := lives[..|a|], lives[|a|..];
    mid := Entry(lb, post);
    forall i | 0 <= i < |a| ensures LocalAt(a, la, mid, m, i) {
      assert LocalAt(a + b, lives, post, m, i);
    }
    forall i | 0 <= i < |b| ensures LocalAt(b, lb, post, m, i) {
      assert LocalAt(a + b, lives, post, m, |a| + i);
    }
    assert Leads(a, la, pre, mid, m) && Leads(b, lb, mid, post, m);
  }

  lemma FlowsOne(i: Instr, pre: LiveSet, post: LiveSet, m: Marks)
    requires Flows([i], pre, post, m)
    ensures Local(i, pre, post, m)
  {
    var lives :| Leads([i], lives, pre, post, m);
    assert LocalAt([i], lives, post, m, 0);
  }

  lemma FlowsNone(pre: LiveSet, post: LiveSet, m: Marks)
    requires Flows([], pre, post, m)
    ensures pre == post
  {
  }

  // Needed after the last instruction of the code, so needed before it.
  lemma LastNeeded(a: seq<Instr>, i: Instr, pre: LiveSet, post: LiveSet, m: Marks) returns (mid: LiveSet)
    requires Flows(a + [i], pre, post, m)
    ensures Flows(a, pre, mid, m) && Local(i, mid, post, m)
  {
    mid := Split(a, [i], pre, post, m);
    FlowsOne(i, mid, post, m);
  }

  lemma FirstNeeded(i: Instr, a: seq<Instr>, pre: LiveSet, post: LiveSet, m: Marks) returns (mid: LiveSet)
    requires Flows([i] + a, pre, post, m)
    ensures Local(i, pre, mid, m) && Flows(a, mid, post, m)
  {
    mid := Split([i], a, pre, post, m);
    FlowsOne(i, pre, mid, m);
  }

  // A temp is written while the slots of `out` and the temps of `hold` are needed.
  lemma TempNeeded(i: Instr, t: nat, out: set<nat>, hold: LiveSet, pre: LiveSet, post: LiveSet, m: Marks)
    requires Def(i) == Some(Temp(t)) && Local(i, pre, post, m)
    requires Vars(out) + hold <= post && Held(hold, t)
    ensures t !in out && Vars(out) + hold <= pre && forall o | o in Uses(i) && IsSlot(o) :: o in pre
  {
    assert t in out ==> Var(t) in post;
  }

  /** Whatever live sets the code of an expression has, they contain what is read later, and it is clear of that. */
  lemma {:induction false} ExprNeeded(e: Expr, c: Counters, out: set<nat>, hold: LiveSet, pre: LiveSet, post: LiveSet,
                                      m: Marks)
    requires SupportedExpr(e) && Flows(GenExpr(e, c).code, pre, post, m)
    requires Vars(out) + hold <= post && Held(hold, c.temp)
    ensures ClearExpr(e, c.temp, out) && Vars(out + Reads(e)) + hold <= pre
    decreases e, 1
  {
    match e
    case Number(v) =>
      FlowsOne(Mov(Temp(c.temp), Imm(Wrap(v))), pre, post, m);
      TempNeeded(Mov(Temp(c.temp), Imm(Wrap(v))), c.temp, out, hold, pre, post, m);
      assert out + {} == out;
    case Str(text) =>
      var mov := Mov(Temp(c.temp), StrRef(c.str));
      assert GenExpr(e, c).code == [StringDef(c.str, text)] + [mov];
      var mid := FirstNeeded(StringDef(c.str, text), [mov], pre, post, m);
      FlowsOne(mov, mid, post, m);
      TempNeeded(mov, c.temp, out, hold, mid, post, m);
      assert out + {} == out;
    case Ident(_, slot) =>
      FlowsOne(Mov(Temp(c.temp), Var(slot)), pre, post, m);
      TempNeeded(Mov(Temp(c.temp), Var(slot)), c.temp, out, hold, pre, post, m);
      VarsAdd(out, {slot});
    case Binary(_, _, _) => BinaryNeeded(e, c, out, hold, pre, post, m);
    case Unary(op, x) =>
      var g, gx := GenExpr(e, c), GenExpr(x, c);
      TempsTaken(x, c);
      var mid := LastNeeded(gx.code, Un(UnaryOf(op), g.res, gx.res), pre, post, m);
      TempNeeded(Un(UnaryOf(op), g.res, gx.res), g.res.n, out, hold, mid, post, m);
      ExprNeeded(x, c, out, hold, pre, mid, m);
    case Call(_, _) => CallNeeded(e, c, out, hold, pre, post, m);
  }

  lemma {:induction false} BinaryNeeded(e: Expr, c: Counters, out: set<nat>, hold: LiveSet, pre: LiveSet, post: LiveSet,
                                        m: Marks)
    requires e.Binary? && SupportedExpr(e) && Flows(GenExpr(e, c).code, pre, post, m)
    requires Vars(out) + hold <= post && Held(hold, c.temp)
    ensures ClearExpr(e, c.temp, out) && Vars(out + Reads(e)) + hold <= pre
    decreases e, 0
  {
    hide Flows;
    var g, gl := GenExpr(e, c), GenExpr(e.left, c);
    var gr := GenExpr(e.right, gl.next);
    var i := Alu(OpOf(e.op), g.res, gl.res, gr.res);
    TempsTaken(e.left, c);
    TempsTaken(e.right, gl.next);
    var p2 := LastNeeded(gl.code + gr.code, i, pre, post, m);
    var p1 := Split(gl.code, gr.code, pre, p2, m);
    TempNeeded(i, g.res.n, out, hold, p2, post, m);
    ExprNeeded(e.right, gl.next, out, hold + {gl.res}, p1, p2, m);
    ExprNeeded(e.left, c, out + Reads(e.right), hold, pre, p1, m);
    assert out + Reads(e.right) + Reads(e.left) == out + Reads(e);
  }

  lemma {:induction false} CallNeeded(e: Expr, c: Counters, out: set<nat>, hold: LiveSet, pre: LiveSet, post: LiveSet,
                                      m: Marks)
    requires e.Call? && SupportedExpr(e) && Flows(GenExpr(e, c).code, pre, post, m)
    requires Vars(out) + hold <= post && Held(hold, c.temp)
    ensures ClearExpr(e, c.temp, out) && Vars(out + Reads(e)) + hold <= pre
    decreases e, 0
  {
    var c1 := c.(temp := c.temp + 1);
    var ga := GenArgs(e.args, c1);
    var call, get := CallTo(CalleeName(e.callee), FirstArgs(ga.res)), GetRet(Temp(c.temp));
    assert GenExpr(e, c).code == ga.code + [call] + [get];
    var p2 := LastNeeded(ga.code + [call], get, pre, post, m);
    var p1 := LastNeeded(ga.code, call, pre, p2, m);
    TempNeeded(get, c.temp, out, hold, p2, post, m);
    ArgsNeeded(e.args, c1, out, hold, pre, p1, m);
  }

  lemma {:induction false} ArgsNeeded(args: seq<Expr>, c: Counters, out: set<nat>, hold: LiveSet, pre: LiveSet,
                                      post: LiveSet, m: Marks)
    requires (forall a | a in args :: SupportedExpr(a)) && Flows(GenArgs(args, c).code, pre, post, m)
    requires Vars(out) + hold <= post && Held(hold, c.temp)
    ensures ClearArgs(args, c.temp, out) && Vars(out + ReadsAll(args)) + hold <= pre
    decreases args, 0
  {
    hide Flows, ClearExpr, SupportedExpr, GenExpr, Vars;
    if args == [] {
      FlowsNone(pre, post, m);
      assert out + {} == out;
    } else {
      var g := GenExpr(args[0], c);
      TempsTaken(args[0], c);
      var mid := Split(g.code, GenArgs(args[1..], g.next).code, pre, post, m);
      ArgsNeeded(args[1..], g.next, out, hold, mid, post, m);
      ExprNeeded(args[0], c, out + ReadsAll(args[1..]), hold, pre, mid, m);
      assert out + ReadsAll(args[1..]) + Reads(args[0]) == out + ReadsAll(args);
    }
  }

  // ---------- statements ----------

  lemma {:induction false} ClearExprLess(e: Expr, t: nat, a: set<nat>, b: set<nat>)
    requires ClearExpr(e, t, b) && a <= b
    ensures ClearExpr(e, t, a)
    decreases e, 1
  {
    match e
    case Binary(_, l, r) =>
      ClearExprLess(l, t, a + Reads(r), b + Reads(r));
      ClearExprLess(r, t + Temps(l), a, b);
    case Unary(_, x) => ClearExprLess(x, t, a, b);
    case Call(_, args) => ClearArgsLess(args, t + 1, a, b);
    case _ =>
  }

  lemma {:induction false} ClearArgsLess(es: seq<Expr>, t: nat, a: set<nat>, b: set<nat>)
    requires ClearArgs(es, t, b) && a <= b
    ensures ClearArgs(es, t, a)
    decreases es, 0
  {
    if es != [] {
      ClearExprLess(es[0], t, a + ReadsAll(es[1..]), b + ReadsAll(es[1..]));
      ClearArgsLess(es[1..], t + Temps(es[0]), a, b);
    }
  }

  lemma NeedsLess(s: Stmt, a: set<nat>, b: set<nat>)
    requires a <= b
    ensures Needs(s, a) <= Needs(s, b)
  {
    NeedsSplit(s, a, b);
    assert a + b == b;
  }

  /** What is clear of more is clear of less. */
  lemma {:induction false} ClearLess(s: Stmt, t: nat, a: set<nat>, b: set<nat>)
    requires Clear(s, t, b) && a <= b
    ensures Clear(s, t, a)
    decreases s, 1
  {
    hide ClearExpr, ClearLoop, ClearAll;
    match s
    case If(c, thn, e) =>
      NeedsLess(thn, a, b);
      if e.Some? {
        NeedsLess(e.value, a, b);
        ClearLess(e.value, t + Temps(c) + TempsOf(thn), a, b);
      }
      ClearExprLess(c, t, Needs(thn, a) + if e.None? then a else Needs(e.value, a),
                    Needs(thn, b) + if e.None? then b else Needs(e.value, b));
      ClearLess(thn, t + Temps(c), a, b);
    case While(c, body) => ClearLoopLess(c, body, None, t, a, b);
    case For(cs, body) =>
      var inc := Some(cs[2].expr);
      ClearLoopLess(cs[1].expr, body, inc, t + TempsOf(cs[0]), a, b);
      ClearLess(cs[0], t, LoopNeeds(cs[1].expr, body, inc, a), LoopNeeds(cs[1].expr, body, inc, b));
    case Return(_) =>
    case Block(ss) => ClearAllLess(ss, t, a, b);
    case Decl(_, _, init, slot) =>
      if init.Some? {
        ClearExprLess(init.value, t, a - {slot}, b - {slot});
      }
    case ExprStmt(e) =>
      if e.Assign? {
        ClearExprLess(e.source, t, a - {SlotOf(e.target)}, b - {SlotOf(e.target)});
      } else if HasCode(e) {
        ClearExprLess(e, t, a, b);
      }
    case Break | Continue =>
  }

  lemma {:induction false} ClearLoopLess(c: Expr, body: Stmt, inc: Option<Expr>, t: nat, a: set<nat>, b: set<nat>)
    requires ClearLoop(c, body, inc, t, b) && a <= b
    ensures ClearLoop(c, body, inc, t, a)
    decreases body, 2
  {
    var ha, hb := LoopNeeds(c, body, inc, a), LoopNeeds(c, body, inc, b);
    var r := StepReads(inc);
    NeedsLess(body, ha + r, hb + r);
    ClearExprLess(c, t, a + Needs(body, ha + r), b + Needs(body, hb + r));
    ClearLess(body, t + Temps(c), ha + r, hb + r);
    if inc.Some? {
      ClearExprLess(inc.value, t + Temps(c) + TempsOf(body), ha, hb);
    }
  }

  lemma {:induction false} ClearAllLess(ss: seq<Stmt>, t: nat, a: set<nat>, b: set<nat>)
    requires ClearAll(ss, t, b) && a <= b
    ensures ClearAll(ss, t, a)
    decreases ss, 0
  {
    if ss != [] {
      NeedsAllSplit(ss[1..], a, b);
      assert a + b == b;
      ClearLess(ss[0], t, NeedsAll(ss[1..], a), NeedsAll(ss[1..], b));
      ClearAllLess(ss[1..], t + TempsOf(ss[0]), a, b);
    }
  }

  /** Whatever live sets the code of a statement has, they contain what the tree needs, and the tree is clear. */
  lemma {:induction false} StmtNeeded(s: Stmt, c: Counters, out: set<nat>, pre: LiveSet, post: LiveSet, m: Marks)
    requires SupportedStmt(s) && Flows(GenStmt(s, c).code, pre, post, m) && Vars(out) <= post
    ensures Clear(s, c.temp, out) && Vars(Needs(s, out)) <= pre
    decreases s, 2
  {
    hide GenExpr, Flows, ClearExpr, SupportedExpr, ClearLoop, LoopNeeds, GenIf, GenFor, LoopCode;
    match s
    case If(_, _, _) => IfNeeded(s, c, out, pre, post, m);
    case While(_, _) =>
      var h := ShapeOfWhile(s, c);
      TempsTaken(h.cond, h.cc);
      LoopNeeded(h, out, pre, post, m);
    case For(_, _) =>
      var h := ShapeOfFor(s, c);
      TempsTakenByFor(s, c);
      var mid := Split(GenStmt(s.clauses[0], c).code, LoopCode(h), pre, post, m);
      LoopNeeded(h, out, mid, post, m);
      StmtNeeded(s.clauses[0], c, LoopNeeds(h.cond, h.body, h.inc, out), pre, mid, m);
    case Return(e) =>
      if e.Some? {
        ReturnNeeded(e.value, c, pre, post, m);
      }
    case Block(ss) => BlockNeeded(ss, c, out, pre, post, m);
    case Decl(_, _, init, slot) =>
      if init.Some? {
        StoreNeeded(slot, init.value, c, out, pre, post, m);
      } else {
        FlowsNone(pre, post, m);
      }
    case ExprStmt(e) =>
      if e.Assign? {
        StoreNeeded(e.target.slot, e.source, c, out, pre, post, m);
      } else if HasCode(e) {
        ExprNeeded(e, c, out, {}, pre, post, m);
      } else {
        FlowsNone(pre, post, m);
      }
  }

  lemma ReturnNeeded(e: Expr, c: Counters, pre: LiveSet, post: LiveSet, m: Marks)
    requires SupportedExpr(e) && Flows(GenExpr(e, c).code + [Ret(Some(GenExpr(e, c).res))], pre, post, m)
    ensures ClearExpr(e, c.temp, {}) && Vars(Reads(e)) <= pre
  {
    var mid := LastNeeded(GenExpr(e, c).code, Ret(Some(GenExpr(e, c).res)), pre, post, m);
    ExprNeeded(e, c, {}, {}, pre, mid, m);
    assert {} + Reads(e) == Reads(e);
  }

  lemma StoreNeeded(slot: nat, e: Expr, c: Counters, out: set<nat>, pre: LiveSet, post: LiveSet, m: Marks)
    requires SupportedExpr(e) && Flows(StoreTo(slot, e, c).code, pre, post, m) && Vars(out) <= post
    ensures ClearExpr(e, c.temp, out - {slot}) && Vars(Reads(e) + (out - {slot})) <= pre
  {
    var g := GenExpr(e, c);
    var mid := LastNeeded(g.code, Mov(Var(slot), g.res), pre, post, m);
    ExprNeeded(e, c, out - {slot}, {}, pre, mid, m);
    assert out - {slot} + Reads(e) == Reads(e) + (out - {slot});
  }

  lemma {:induction false} BlockNeeded(ss: seq<Stmt>, c: Counters, out: set<nat>, pre: LiveSet, post: LiveSet, m: Marks)
    requires (forall s | s in ss :: SupportedStmt(s)) && Flows(GenStmts(ss, c).code, pre, post, m) && Vars(out) <= post
    ensures ClearAll(ss, c.temp, out) && Vars(NeedsAll(ss, out)) <= pre
    decreases ss, 0
  {
    if ss == [] {
      FlowsNone(pre, post, m);
    } else {
      var g := GenStmt(ss[0], c);
      TempsTakenBy(ss[0], c);
      var mid := Split(g.code, GenStmts(ss[1..], g.next).code, pre, post, m);
      BlockNeeded(ss[1..], g.next, out, mid, post, m);
      StmtNeeded(ss[0], c, NeedsAll(ss[1..], out), pre, mid, m);
    }
  }

  // A condition whose branch goes on with `thn` needed, and jumps where `els` is.
  lemma TestNeeded(e: Expr, l: nat, c: Counters, thn: set<nat>, els: set<nat>, pre: LiveSet, post: LiveSet, m: Marks)
    requires SupportedExpr(e) && Flows(GenExpr(e, c).code + [Brz(GenExpr(e, c).res, l)], pre, post, m)
    requires Vars(thn) <= post && (l in m ==> Vars(els) <= m[l])
    ensures ClearExpr(e, c.temp, thn + els) && Vars(thn + els + Reads(e)) <= pre
  {
    var mid := LastNeeded(GenExpr(e, c).code, Brz(GenExpr(e, c).res, l), pre, post, m);
    VarsAdd(thn, els);
    ExprNeeded(e, c, thn + els, {}, pre, mid, m);
  }

  lemma {:induction false} IfNeeded(s: Stmt, c: Counters, out: set<nat>, pre: LiveSet, post: LiveSet, m: Marks)
    requires s.If? && SupportedStmt(s) && Flows(GenIf(s, c).code, pre, post, m) && Vars(out) <= post
    ensures Clear(s, c.temp, out) && Vars(Needs(s, out)) <= pre
    decreases s, 1
  {
    hide GenExpr, GenStmt, Flows, SupportedExpr, ClearExpr, Local;
    var h := ShapeOfIf(s, c);
    IfCode(s, c);
    var c1 := GenExpr(s.cond, c).next.(lab := h.other + 1);
    TempsTaken(s.cond, c);
    TempsTakenBy(s.thn, c1);
    var p2 := Split(h.test + h.thn.code, h.last, pre, post, m);
    var p1 := Split(h.test, h.thn.code, pre, p2, m);
    var els := if s.els.None? then out else Needs(s.els.value, out);
    if s.els.None? {
      LabelNeeded(h.other, p2, post, m);
    } else {
      var a, b := ElseNeeded(h.els.code, h.other, h.end, p2, post, m);
      StmtNeeded(s.els.value, h.thn.next.(lab := h.end + 1), out, a, b, m);
    }
    StmtNeeded(s.thn, c1, out, p1, p2, m);
    TestNeeded(s.cond, h.other, c, Needs(s.thn, out), els, pre, p1, m);
    assert Needs(s.thn, out) + els + Reads(s.cond) == Needs(s, out);
  }

  lemma LabelNeeded(l: nat, pre: LiveSet, post: LiveSet, m: Marks)
    requires Flows([Label(l)], pre, post, m)
    ensures l in m && m[l] == pre && post <= pre
  {
    FlowsOne(Label(l), pre, post, m);
  }

  lemma JumpNeeded(l: nat, pre: LiveSet, post: LiveSet, m: Marks)
    requires Flows([Jmp(l)], pre, post, m)
    ensures l in m && m[l] <= pre
  {
    FlowsOne(Jmp(l), pre, post, m);
  }

  lemma ElseNeeded(code: seq<Instr>, other: nat, end: nat, pre: LiveSet, post: LiveSet, m: Marks)
    returns (a: LiveSet, b: LiveSet)
    requires Flows([Jmp(end), Label(other)] + code + [Label(end)], pre, post, m)
    ensures Flows(code, a, b, m) && post <= b && post <= pre && other in m && a <= m[other]
  {
    hide Flows;
    assert [Jmp(end), Label(other)] == [Jmp(end)] + [Label(other)];
    b := Split([Jmp(end)] + [Label(other)] + code, [Label(end)], pre, post, m);
    a := Split([Jmp(end)] + [Label(other)], code, pre, b, m);
    var p := Split([Jmp(end)], [Label(other)], pre, a, m);
    LabelNeeded(end, b, post, m);
    LabelNeeded(other, p, a, m);
    JumpNeeded(end, pre, p, m);
  }

  function SlotsOf(live: LiveSet): set<nat> {
    set o | o in live && o.Var? :: o.n
  }

  /** The parts of a loop's code, with what is needed between them. */
  lemma LoopSplit(h: LoopShape, pre: LiveSet, post: LiveSet, m: Marks)
    returns (test: LiveSet, body: LiveSet, step: LiveSet, back: LiveSet)
    requires Flows(LoopCode(h), pre, post, m)
    ensures Flows(LoopTest(h), test, body, m) && Flows(GenStmt(h.body, h.cb).code, body, step, m)
    ensures Flows(LoopStep(h), step, back, m)
    ensures test <= pre <= back && h.end in m && post <= m[h.end]
  {
    hide Flows, LoopTest, LoopStep, GenStmt;
    var a, b, d := [Label(h.start)] + LoopTest(h), GenStmt(h.body, h.cb).code, LoopStep(h);
    assert [Jmp(h.start), Label(h.end)] == [Jmp(h.start)] + [Label(h.end)];
    back := Split(a + b + d, [Jmp(h.start)] + [Label(h.end)], pre, post, m);
    step := Split(a + b, d, pre, back, m);
    body := Split(a, b, pre, step, m);
    test := Split([Label(h.start)], LoopTest(h), pre, body, m);
    var end := Split([Jmp(h.start)], [Label(h.end)], back, post, m);
    LabelNeeded(h.start, pre, test, m);
    LabelNeeded(h.end, end, post, m);
    JumpNeeded(h.start, back, end, m);
  }

  lemma StepNeeded(h: LoopShape, out: set<nat>, pre: LiveSet, post: LiveSet, m: Marks)
    requires (h.inc.Some? ==> SupportedExpr(h.inc.value)) && Flows(LoopStep(h), pre, post, m) && Vars(out) <= post
    ensures Vars(out + StepReads(h.inc)) <= pre && (h.inc.Some? ==> ClearExpr(h.inc.value, h.ci.temp, out))
  {
    if h.inc.None? {
      FlowsNone(pre, post, m);
      assert out + {} == out;
    } else {
      var mid := Split([Label(h.again)], GenExpr(h.inc.value, h.ci).code, pre, post, m);
      LabelNeeded(h.again, pre, mid, m);
      ExprNeeded(h.inc.value, h.ci, out, {}, mid, post, m);
    }
  }

  lemma {:induction false} LoopNeeded(h: LoopShape, out: set<nat>, pre: LiveSet, post: LiveSet, m: Marks)
    requires SupportedExpr(h.cond) && SupportedStmt(h.body) && (h.inc.Some? ==> SupportedExpr(h.inc.value)) && LoopTemps(h)
    requires Flows(LoopCode(h), pre, post, m) && Vars(out) <= post
    ensures ClearLoop(h.cond, h.body, h.inc, h.cc.temp, out) && Vars(LoopNeeds(h.cond, h.body, h.inc, out)) <= pre
    decreases h.body, 3
  {
    hide Flows, GenExpr, GenStmt, SupportedExpr, SupportedStmt, ClearExpr, LoopCode;
    var test, body, step, back := LoopSplit(h, pre, post, m);
    var all, r := SlotsOf(pre), StepReads(h.inc);
    StepNeeded(h, all, step, back, m);
    StmtNeeded(h.body, h.cb, all + r, body, step, m);
    TestNeeded(h.cond, h.end, h.cc, Needs(h.body, all + r), out, test, body, m);
    HeadInside(h, all, out, test, pre);
  }

  // What holds of all slots needed at the head of the loop holds of the least such set.
  lemma HeadInside(h: LoopShape, all: set<nat>, out: set<nat>, test: LiveSet, pre: LiveSet)
    requires all == SlotsOf(pre) && test <= pre && LoopTemps(h)
    requires var need := Needs(h.body, all + StepReads(h.inc));
      && ClearExpr(h.cond, h.cc.temp, need + out) && Vars(need + out + Reads(h.cond)) <= test
    requires Clear(h.body, h.cb.temp, all + StepReads(h.inc))
    requires h.inc.Some? ==> ClearExpr(h.inc.value, h.ci.temp, all)
    ensures ClearLoop(h.cond, h.body, h.inc, h.cc.temp, out) && Vars(LoopNeeds(h.cond, h.body, h.inc, out)) <= pre
  {
    hide ClearExpr, Clear, Needs;
    var r, head := StepReads(h.inc), LoopNeeds(h.cond, h.body, h.inc, out);
    var need := Needs(h.body, all + r);
    NeedsLess(h.body, r, all + r);
    forall k | k in need + out + Reads(h.cond) ensures k in all {
      assert Var(k) in Vars(need + out + Reads(h.cond));
    }
    assert head <= all;
    NeedsLess(h.body, head + r, all + r);
    ClearExprLess(h.cond, h.cc.temp, out + Needs(h.body, head + r), need + out);
    ClearLess(h.body, h.cb.temp, head + r, all + r);
    if h.inc.Some? {
      ClearExprLess(h.inc.value, h.ci.temp, head, all);
    }
  }

  // ---------- functions ----------

  // The code of a function without its `func` instruction.
  function BodyCode(body: Stmt, c: Counters): seq<Instr> {
    GenStmt(body, c.(temp := 0)).code + [EndFunc]
  }

  // Nothing is read after the body.
  predicate ClearBody(body: Stmt) {
    Clear(body, 0, {})
  }

  /** The slots that the function reads before it writes them. */
  function Wanted(body: Stmt): set<nat> {
    Needs(body, {})
  }

  lemma BodyLives(body: Stmt, c: Counters) returns (lives: seq<LiveSet>, marks: Marks)
    requires SupportedStmt(body) && ClearBody(body)
    ensures Consistent(BodyCode(body, c), lives, {}, marks) && Entry(lives, {}) == Vars(Wanted(body))
    ensures forall l | l in marks :: c.lab <= l < GenStmt(body, c.(temp := 0)).next.lab
  {
    var c0 := c.(temp := 0);
    lives, marks := StmtLives(body, c0, {});
    assert Vars({}) == {};
    OneConsistent(EndFunc, {}, {}, marks);
    Joins(GenStmt(body, c0).code, lives, [EndFunc], [{}], {}, marks);
    lives := lives + [{}];
  }

  /**
   The check on the tree is as good as any on the code: a function is clear exactly
   if its code has consistent live sets, and the slots they all need at its entry
   are those that the tree reads before it writes them.
   */
  lemma ClearIsExact(body: Stmt, c: Counters)
    requires SupportedStmt(body)
    ensures ClearBody(body) <==> exists lives, marks :: Consistent(BodyCode(body, c), lives, {}, marks)
    ensures forall lives, marks | Consistent(BodyCode(body, c), lives, {}, marks) ::
      Vars(Wanted(body)) <= Entry(lives, {})
    ensures ClearBody(body) ==> exists lives, marks ::
      Consistent(BodyCode(body, c), lives, {}, marks) && Entry(lives, {}) == Vars(Wanted(body))
  {
    forall lives, marks | Consistent(BodyCode(body, c), lives, {}, marks)
      ensures ClearBody(body) && Vars(Wanted(body)) <= Entry(lives, {})
    {
      assert Leads(BodyCode(body, c), lives, Entry(lives, {}), {}, marks);
      var mid := LastNeeded(GenStmt(body, c.(temp := 0)).code, EndFunc, Entry(lives, {}), {}, marks);
      assert Vars({}) == {};
      StmtNeeded(body, c.(temp := 0), {}, Entry(lives, {}), mid, marks);
    }
    if ClearBody(body) {
      var lives, marks := BodyLives(body, c);
    }
  }

  lemma {:induction false} ReadsResolved(e: Expr, m: Slots)
    requires ResolvedExpr(e, m)
    ensures Reads(e) <= m.Values
    decreases e, 1
  {
    match e
    case Binary(_, l, r) =>
      ReadsResolved(l, m);
      ReadsResolved(r, m);
    case Unary(_, x) => ReadsResolved(x, m);
    case Call(_, args) => ReadsAllResolved(args, m);
    case _ =>
  }

  lemma {:induction false} ReadsAllResolved(es: seq<Expr>, m: Slots)
    requires forall e | e in es :: ResolvedExpr(e, m)
    ensures ReadsAll(es) <= m.Values
    decreases es, 0
  {
    if es != [] {
      ReadsResolved(es[0], m);
      ReadsAllResolved(es[1..], m);
    }
  }

  /** What is read is the slot of a name. */
  lemma {:induction false} NeedsResolved(s: Stmt, out: set<nat>, m: Slots)
    requires ResolvedStmt(s, m) && out <= m.Values
    ensures Needs(s, out) <= m.Values
    decreases s, 1
  {
    hide ResolvedExpr;
    match s
    case If(c, t, e) =>
      ReadsResolved(c, m);
      NeedsResolved(t, out, m);
      if e.Some? {
        NeedsResolved(e.value, out, m);
      }
    case While(c, b) =>
      ReadsResolved(c, m);
      NeedsResolved(b, {}, m);
    case For(cs, b) =>
      if |cs| == 3 && cs[1].ExprStmt? && cs[2].ExprStmt? {
        assert ResolvedStmt(cs[0], m) && ResolvedStmt(cs[1], m) && ResolvedStmt(cs[2], m);
        ReadsResolved(cs[1].expr, m);
        ReadsResolved(cs[2].expr, m);
        NeedsResolved(b, Reads(cs[2].expr), m);
        NeedsResolved(cs[0], LoopNeeds(cs[1].expr, b, Some(cs[2].expr), out), m);
      }
    case Return(e) =>
      if e.Some? {
        ReadsResolved(e.value, m);
      }
    case Block(ss) => NeedsAllResolved(ss, out, m);
    case Decl(_, _, init, _) =>
      if init.Some? {
        ReadsResolved(init.value, m);
      }
    case ExprStmt(e) =>
      ReadsResolved(e, m);
      if e.Assign? {
        SourceResolved(e, m);
        ReadsResolved(e.source, m);
      }
    case Break | Continue =>
  }

  lemma SourceResolved(e: Expr, m: Slots)
    requires e.Assign? && ResolvedExpr(e, m)
    ensures ResolvedExpr(e.source, m)
  {
  }

  lemma {:induction false} NeedsAllResolved(ss: seq<Stmt>, out: set<nat>, m: Slots)
    requires (forall s | s in ss :: ResolvedStmt(s, m)) && out <= m.Values
    ensures NeedsAll(ss, out) <= m.Values
    decreases ss, 0
  {
    if ss != [] {
      NeedsAllResolved(ss[1..], out, m);
      NeedsResolved(ss[0], NeedsAll(ss[1..], out), m);
    }
  }

  // ---------- scopes ----------

  predicate UsesOnly(e: Expr, d: set<nat>) {
    match e
    case Ident(_, slot) => slot in d
    case Binary(_, l, r) => UsesOnly(l, d) && UsesOnly(r, d)
    case Unary(_, x) => UsesOnly(x, d)
    case Call(_, args) => forall a | a in args :: UsesOnly(a, d)
    case _ => true
  }

  // The slots in scope after s, when those of d are in scope before it.
  function ScopeAfter(s: Stmt, d: set<nat>): set<nat> {
    if s.Decl? then d + {s.slot} else d
  }

  // How many variables s declares.
  function Decls(s: Stmt): nat {
    match s
    case If(_, t, e) => Decls(t) + if e.Some? then Decls(e.value) else 0
    case While(_, b) => Decls(b)
    case For(cs, b) => AllDecls(cs) + Decls(b)
    case Block(ss) => AllDecls(ss)
    case Decl(_, _, _, _) => 1
    case _ => 0
  }

  function AllDecls(ss: seq<Stmt>): nat {
    if ss == [] then 0 else Decls(ss[0]) + AllDecls(ss[1..])
  }

  /**
   Every declaration has an initialiser and takes the next slot, and every use
   is in the scope of its declaration.  `n` slots are taken before s.
   */
  predicate WellScoped(s: Stmt, d: set<nat>, n: nat)
    decreases s, 1
  {
    match s
    case If(c, t, e) =>
      UsesOnly(c, d) && WellScoped(t, d, n) && (e.Some? ==> WellScoped(e.value, d, n + Decls(t)))
    case While(c, b) => UsesOnly(c, d) && WellScoped(b, d, n)
    case For(cs, b) =>
      && |cs| == 3 && WellScoped(cs[0], d, n) && WellScoped(b, ScopeAfter(cs[0], d), n + Decls(cs[0]))
      && cs[1].ExprStmt? && UsesOnly(cs[1].expr, ScopeAfter(cs[0], d))
      && cs[2].ExprStmt? && UsesOnly(cs[2].expr, ScopeAfter(cs[0], d))
    case Return(e) => e.Some? ==> UsesOnly(e.value, d)
    case Block(ss) => AllWellScoped(ss, d, n)
    case Decl(_, _, init, slot) => init.Some? && slot == n && UsesOnly(init.value, d)
    case ExprStmt(e) =>
      if e.Assign? then e.target.Ident? && e.target.slot in d && UsesOnly(e.source, d) else UsesOnly(e, d)
    case Break => true
    case Continue => true
  }

  predicate AllWellScoped(ss: seq<Stmt>, d: set<nat>, n: nat)
    decreases ss, 0
  {
    ss == [] ||
    (WellScoped(ss[0], d, n) && AllWellScoped(ss[1..], ScopeAfter(ss[0], d), n + Decls(ss[0])))
  }

  predicate Bounded(d: set<nat>, n: nat) {
    forall k | k in d :: k < n
  }

  lemma ThreeClauses(cs: seq<Stmt>)
    requires |cs| == 3
    ensures AllDecls(cs) == Decls(cs[0]) + Decls(cs[1]) + Decls(cs[2])
  {
    assert AllDecls(cs) == Decls(cs[0]) + AllDecls(cs[1..]);
    assert AllDecls(cs[1..]) == Decls(cs[1..][0]) + AllDecls(cs[1..][1..]);
    assert AllDecls(cs[1..][1..]) == Decls(cs[1..][1..][0]) + AllDecls(cs[1..][1..][1..]);
    assert cs[1..][1..][1..] == [];
  }

  lemma {:induction false} ScopedExprIsClear(e: Expr, d: set<nat>, t: nat, out: set<nat>)
    requires UsesOnly(e, d) && Bounded(d, t) && Bounded(out, t)
    ensures Reads(e) <= d && ClearExpr(e, t, out)
    decreases e, 1
  {
    match e
    case Binary(_, l, r) =>
      ScopedExprIsClear(r, d, t + Temps(l), out);
      ScopedExprIsClear(l, d, t, out + Reads(r));
    case Unary(_, x) => ScopedExprIsClear(x, d, t, out);
    case Call(_, args) => ScopedArgsAreClear(args, d, t + 1, out);
    case _ =>
  }

  lemma {:induction false} ScopedArgsAreClear(es: seq<Expr>, d: set<nat>, t: nat, out: set<nat>)
    requires (forall e | e in es :: UsesOnly(e, d)) && Bounded(d, t) && Bounded(out, t)
    ensures ReadsAll(es) <= d && ClearArgs(es, t, out)
    decreases es, 0
  {
    if es != [] {
      ScopedArgsAreClear(es[1..], d, t + Temps(es[0]), out);
      ScopedExprIsClear(es[0], d, t, out + ReadsAll(es[1..]));
    }
  }

  /**
   Initialised, lexically scoped variables never share a word that is needed, as
   long as no more slots than temps have been taken before them: so not behind
   parameters, which take slots and no temps.
   */
  lemma {:induction false} ScopedIsClear(s: Stmt, d: set<nat>, n: nat, t: nat, out: set<nat>)
    requires WellScoped(s, d, n) && Bounded(d, n) && n <= t && out <= ScopeAfter(s, d)
    ensures Clear(s, t, out) && Needs(s, out) <= d && n + Decls(s) <= t + TempsOf(s)
    decreases s, 1
  {
    hide ClearExpr, UsesOnly, ClearLoop;
    match s
    case If(c, thn, e) =>
      ScopedIsClear(thn, d, n, t + Temps(c), out);
      if e.Some? {
        ScopedIsClear(e.value, d, n + Decls(thn), t + Temps(c) + TempsOf(thn), out);
      }
      ScopedExprIsClear(c, d, t, Needs(thn, out) + if e.None? then out else Needs(e.value, out));
    case While(c, b) => ScopedLoopIsClear(c, b, None, d, n, t, out);
    case For(_, _) => ScopedForIsClear(s, d, n, t, out);
    case Return(e) =>
      if e.Some? {
        ScopedExprIsClear(e.value, d, t, {});
      }
    case Block(ss) => ScopedAreClear(ss, d, n, t, out);
    case Decl(_, _, init, slot) => ScopedExprIsClear(init.value, d, t, out - {slot});
    case ExprStmt(e) =>
      if e.Assign? {
        ScopedExprIsClear(e.source, d, t, out - {SlotOf(e.target)});
      } else {
        ScopedExprIsClear(e, d, t, out);
      }
    case Break | Continue =>
  }

  lemma {:induction false} ScopedForIsClear(s: Stmt, d: set<nat>, n: nat, t: nat, out: set<nat>)
    requires s.For? && WellScoped(s, d, n) && Bounded(d, n) && n <= t && out <= d
    ensures Clear(s, t, out) && Needs(s, out) <= d && n + Decls(s) <= t + TempsOf(s)
    decreases s, 0
  {
    hide ClearExpr, UsesOnly, ClearLoop, LoopNeeds, Temps;
    var cs, b := s.clauses, s.body;
    var d1, n1, head := ScopeAfter(cs[0], d), n + Decls(cs[0]), LoopNeeds(cs[1].expr, b, Some(cs[2].expr), out);
    ThreeClauses(cs);
    ScopedIsClear(cs[0], d, n, t, {});
    ScopeOutside(cs[0], d);
    ScopedLoopIsClear(cs[1].expr, b, Some(cs[2].expr), d1, n1, t + TempsOf(cs[0]), out);
    ScopedIsClear(cs[0], d, n, t, head);
  }

  lemma ScopeOutside(s: Stmt, d: set<nat>)
    ensures d <= ScopeAfter(s, d)
  {
  }

  lemma {:induction false} ScopedLoopIsClear(c: Expr, b: Stmt, inc: Option<Expr>, d: set<nat>, n: nat, t: nat,
                                             out: set<nat>)
    requires UsesOnly(c, d) && WellScoped(b, d, n) && (inc.Some? ==> UsesOnly(inc.value, d))
    requires Bounded(d, n) && n <= t && out <= d
    ensures ClearLoop(c, b, inc, t, out) && LoopNeeds(c, b, inc, out) <= d
    ensures n + Decls(b) <= t + Temps(c) + TempsOf(b)
    decreases b, 2
  {
    hide ClearExpr, Clear, WellScoped, Needs, Reads, TempsOf, Temps, Decls, UsesOnly, ScopeAfter;
    var r := StepReads(inc);
    ScopeOutside(b, d);
    if inc.Some? {
      ScopedExprIsClear(inc.value, d, t + Temps(c) + TempsOf(b), {});
    }
    ScopedExprIsClear(c, d, t, {});
    ScopedIsClear(b, d, n, t + Temps(c), r);
    var head := LoopNeeds(c, b, inc, out);
    ScopedIsClear(b, d, n, t + Temps(c), head + r);
    ScopedExprIsClear(c, d, t, out + Needs(b, head + r));
    if inc.Some? {
      ScopedExprIsClear(inc.value, d, t + Temps(c) + TempsOf(b), head);
    }
  }

  lemma {:induction false} ScopedAreClear(ss: seq<Stmt>, d: set<nat>, n: nat, t: nat, out: set<nat>)
    requires AllWellScoped(ss, d, n) && Bounded(d, n) && n <= t && out <= d
    ensures ClearAll(ss, t, out) && NeedsAll(ss, out) <= d && n + AllDecls(ss) <= t + TempsOfAll(ss)
    decreases ss, 0
  {
    if ss != [] {
      ScopedIsClear(ss[0], d, n, t, {});
      ScopedAreClear(ss[1..], ScopeAfter(ss[0], d), n + Decls(ss[0]), t + TempsOf(ss[0]), out);
      ScopedIsClear(ss[0], d, n, t, NeedsAll(ss[1..], out));
    }
  }
}
