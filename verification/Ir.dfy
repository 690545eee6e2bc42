/**
 The intermediate code and its generation from the tree (src/ir.c).  The
 functions give the instruction list that each node produces; the class below
 builds it as the compiler does, with global counters and one growing list.
 */
module Ir {
  import opened Words
  import opened Ast

  // Operand texts "t3", "v0", "-7" and ".Lstr2".
  datatype Operand = Temp(n: nat) | Var(n: nat) | Imm(v: Word) | StrRef(n: nat)

  datatype UnaryInstr = Neg | Not | Copy

  datatype Instr =
    | Mov(dst: Operand, src: Operand)
    | Alu(op: AluOp, dst: Operand, a: Operand, b: Operand)
    | Un(uop: UnaryInstr, dst: Operand, a: Operand)
    | CallTo(callee: string, args: seq<Operand>)
    | GetRet(dst: Operand)
    | Label(l: nat)
    | Jmp(l: nat)
    | Brz(a: Operand, l: nat)
    | Ret(result: Option<Operand>)
    | Func(name: string)
    | EndFunc
    | StringDef(n: nat, text: string)

  // temp_counter, label_counter and string_counter
  datatype Counters = Counters(temp: nat, lab: nat, str: nat)

  datatype ExprCode = ExprCode(code: seq<Instr>, res: Operand, next: Counters)
  datatype ArgsCode = ArgsCode(code: seq<Instr>, res: seq<Operand>, next: Counters)
  datatype StmtCode = StmtCode(code: seq<Instr>, next: Counters)

  // An instruction has room for 16 operands, the callee's name included.
  const MAX_CALL_ARGS: nat := 15

  function FirstArgs(ops: seq<Operand>): seq<Operand> {
    if |ops| <= MAX_CALL_ARGS then ops else ops[..MAX_CALL_ARGS]
  }

  function CalleeName(e: Expr): string {
    if e.Ident? then e.name else ""
  }

  // stack_offset of any expression node: 0 unless it is an identifier
  function SlotOf(e: Expr): nat {
    if e.Ident? then e.slot else 0
  }

  // The opcode of each operator; the logical ones get those of the bitwise ones.
  function OpOf(op: BinaryOp): AluOp {
    match op
    case Plus => Add
    case Minus => Sub
    case Times => Mul
    case Divide => Div
    case Modulo => Mod
    case Equal => Eq
    case NotEqual => Ne
    case Less => Lt
    case Greater => Gt
    case LessEq => Le
    case GreaterEq => Ge
    case LogicalAnd => And
    case LogicalOr => Or
    case BitAndOp => And
    case BitOrOp => Or
    case BitXorOp => Xor
    case ShiftLeft => Shl
    case ShiftRight => Shr
  }

  function UnaryOf(op: UnaryOp): UnaryInstr {
    match op
    case Minus1 => Neg
    case LogicalNot => Not
    case Tilde => Not
    case AddressOf => Copy
    case Deref => Copy
  }

  function GenExpr(e: Expr, c: Counters): (g: ExprCode)
    ensures g.res.Temp? && c.temp <= g.res.n < g.next.temp
    ensures c.lab == g.next.lab && c.str <= g.next.str
    decreases e, 1
  {
    match e
    case Number(v) =>
      ExprCode([Mov(Temp(c.temp), Imm(Wrap(v)))], Temp(c.temp), c.(temp := c.temp + 1))
    case Str(text) =>
      ExprCode([StringDef(c.str, text), Mov(Temp(c.temp), StrRef(c.str))],
               Temp(c.temp), c.(temp := c.temp + 1, str := c.str + 1))
    case Ident(_, slot) =>
      ExprCode([Mov(Temp(c.temp), Var(slot))], Temp(c.temp), c.(temp := c.temp + 1))
    case Binary(op, l, r) =>
      var gl := GenExpr(l, c);
      var gr := GenExpr(r, gl.next);
      var t := Temp(gr.next.temp);
      ExprCode(gl.code + gr.code + [Alu(OpOf(op), t, gl.res, gr.res)],
               t, gr.next.(temp := gr.next.temp + 1))
    case Unary(op, x) =>
      var g := GenExpr(x, c);
      var t := Temp(g.next.temp);
      ExprCode(g.code + [Un(UnaryOf(op), t, g.res)], t, g.next.(temp := g.next.temp + 1))
    case Call(f, args) =>
      var g := GenArgs(args, c.(temp := c.temp + 1));
      ExprCode(g.code + [CallTo(CalleeName(f), FirstArgs(g.res)), GetRet(Temp(c.temp))],
               Temp(c.temp), g.next)
    case _ => ExprCode([], Temp(c.temp), c.(temp := c.temp + 1))
  }

  function GenArgs(args: seq<Expr>, c: Counters): (g: ArgsCode)
    ensures |g.res| == |args|
    ensures c.temp <= g.next.temp && c.lab == g.next.lab && c.str <= g.next.str
    ensures forall i | 0 <= i < |g.res| :: g.res[i].Temp? && c.temp <= g.res[i].n < g.next.temp
    decreases args, 0
  {
    if args == [] then ArgsCode([], [], c)
    else
      var g := GenExpr(args[0], c);
      var rest := GenArgs(args[1..], g.next);
      ArgsCode(g.code + rest.code, [g.res] + rest.res, rest.next)
  }

  // gen_expr_ir on a statement node: nothing but a fresh temp, unless it is an expression
  function GenClause(s: Stmt, c: Counters): (g: ExprCode)
    ensures g.res.Temp? && c.temp <= g.res.n < g.next.temp
    ensures c.lab == g.next.lab && c.str <= g.next.str
  {
    if s.ExprStmt? then GenExpr(s.expr, c) else ExprCode([], Temp(c.temp), c.(temp := c.temp + 1))
  }

  function StoreTo(slot: nat, e: Expr, c: Counters): (g: StmtCode)
    ensures c.temp <= g.next.temp && c.lab <= g.next.lab && c.str <= g.next.str
  {
    var g := GenExpr(e, c);
    StmtCode(g.code + [Mov(Var(slot), g.res)], g.next)
  }

  function GenStmt(s: Stmt, c: Counters): (g: StmtCode)
    ensures c.temp <= g.next.temp && c.lab <= g.next.lab && c.str <= g.next.str
    decreases s, 3
  {
    match s
    case Return(e) =>
      if e.None? then StmtCode([Ret(None)], c)
      else
        var g := GenExpr(e.value, c);
        StmtCode(g.code + [Ret(Some(g.res))], g.next)
    case Decl(_, _, init, slot) =>
      if init.None? then StmtCode([], c) else StoreTo(slot, init.value, c)
    case If(_, _, _) => GenIf(s, c)
    case While(_, _) => GenWhile(s, c)
    case For(_, _) => GenFor(s, c)
    case Block(ss) => GenStmts(ss, c)
    case ExprStmt(e) =>
      if e.Assign? then StoreTo(SlotOf(e.target), e.source, c)
      else if e.Binary? || e.Unary? || e.Call? then
        var g := GenExpr(e, c);
        StmtCode(g.code, g.next)
      else
        StmtCode([], c)
    case Break => StmtCode([], c)
    case Continue => StmtCode([], c)
  }

  function GenIf(s: Stmt, c: Counters): (r: StmtCode)
    requires s.If?
    ensures c.temp <= r.next.temp && c.lab <= r.next.lab && c.str <= r.next.str
    decreases s, 0
  {
    var g := GenExpr(s.cond, c);
    var other := g.next.lab;
    var gt := GenStmt(s.thn, g.next.(lab := other + 1));
    var head := g.code + [Brz(g.res, other)] + gt.code;
    if s.els.None? then
      StmtCode(head + [Label(other)], gt.next)
    else
      var end := gt.next.lab;
      var ge := GenStmt(s.els.value, gt.next.(lab := end + 1));
      StmtCode(head + [Jmp(end), Label(other)] + ge.code + [Label(end)], ge.next)
  }

  function GenWhile(s: Stmt, c: Counters): (r: StmtCode)
    requires s.While?
    ensures c.temp <= r.next.temp && c.lab <= r.next.lab && c.str <= r.next.str
    decreases s, 0
  {
    var start, end := c.lab, c.lab + 1;
    var g := GenExpr(s.cond, c.(lab := c.lab + 2));
    var gb := GenStmt(s.body, g.next);
    StmtCode([Label(start)] + g.code + [Brz(g.res, end)] + gb.code + [Jmp(start), Label(end)], gb.next)
  }

  // The children of a `fow` are its clauses and then its body; the code picks them by position.
  function Child(s: Stmt, i: nat): (r: Stmt)
    requires s.For? && i <= |s.clauses|
    ensures r < s
  {
    if i < |s.clauses| then s.clauses[i] else s.body
  }

  function GenTest(s: Stmt, end: nat, c: Counters): (r: StmtCode)
    requires s.For?
    ensures c.temp <= r.next.temp && c.lab == r.next.lab && c.str <= r.next.str
  {
    if |s.clauses| == 0 then StmtCode([], c)
    else
      var g := GenClause(Child(s, 1), c);
      StmtCode(g.code + [Brz(g.res, end)], g.next)
  }

  function GenStep(s: Stmt, c: Counters): (r: StmtCode)
    requires s.For?
    ensures c.temp <= r.next.temp && c.lab == r.next.lab && c.str <= r.next.str
  {
    if |s.clauses| < 2 then StmtCode([], c)
    else
      var g := GenClause(Child(s, 2), c);
      StmtCode(g.code, g.next)
  }

  function GenForBody(s: Stmt, c: Counters): (r: StmtCode)
    requires s.For?
    ensures c.temp <= r.next.temp && c.lab <= r.next.lab && c.str <= r.next.str
    decreases s, 0
  {
    if |s.clauses| < 3 then StmtCode([], c) else GenStmt(Child(s, 3), c)
  }

  function GenFor(s: Stmt, c: Counters): (r: StmtCode)
    requires s.For?
    ensures c.temp <= r.next.temp && c.lab <= r.next.lab && c.str <= r.next.str
    decreases s, 2
  {
    var g0 := GenStmt(Child(s, 0), c);
    var g := GenForLoop(s, g0.next);
    StmtCode(g0.code + g.code, g.next)
  }

  function GenForLoop(s: Stmt, c: Counters): (r: StmtCode)
    requires s.For?
    ensures c.temp <= r.next.temp && c.lab <= r.next.lab && c.str <= r.next.str
    decreases s, 1
  {
    var start, end, again := c.lab, c.lab + 1, c.lab + 2;
    var g1 := GenTest(s, end, c.(lab := again + 1));
    var g3 := GenForBody(s, g1.next);
    var g2 := GenStep(s, g3.next);
    StmtCode([Label(start)] + g1.code + g3.code + [Label(again)] + g2.code + [Jmp(start), Label(end)],
             g2.next)
  }

  function GenStmts(ss: seq<Stmt>, c: Counters): (g: StmtCode)
    ensures c.temp <= g.next.temp && c.lab <= g.next.lab && c.str <= g.next.str
    decreases ss, 0
  {
    if ss == [] then StmtCode([], c)
    else
      var g := GenStmt(ss[0], c);
      var rest := GenStmts(ss[1..], g.next);
      StmtCode(g.code + rest.code, rest.next)
  }

  /** One function: temps start again at 0, labels and strings do not. */
  function GenFunction(name: string, body: Stmt, c: Counters): (r: StmtCode)
    ensures c.lab <= r.next.lab && c.str <= r.next.str
  {
    var g := GenStmt(body, c.(temp := 0));
    StmtCode([Func(name)] + g.code + [EndFunc], g.next)
  }

  function FrameSize(locals: nat, temps: nat): (f: nat)
    ensures f % 16 == 0 && 8 * (locals + temps) <= f < 8 * (locals + temps) + 16
  {
    var bytes := locals * 8 + temps * 8 + 15;
    bytes - bytes % 16
  }

  function GenProgram(fs: seq<TopLevel>, c: Counters): (r: StmtCode)
    ensures c.lab <= r.next.lab && c.str <= r.next.str
  {
    if fs == [] then StmtCode([], c)
    else if fs[0].Global? then GenProgram(fs[1..], c)
    else
      var g := GenFunction(fs[0].name, fs[0].body, c);
      var rest := GenProgram(fs[1..], g.next);
      StmtCode(g.code + rest.code, rest.next)
  }

  /** The one frame size that the program keeps: that of its last function, or what it was before. */
  function ProgramFrame(fs: seq<TopLevel>, c: Counters, before: nat): nat {
    if fs == [] then before
    else if fs[0].Global? then ProgramFrame(fs[1..], c, before)
    else
      var g := GenFunction(fs[0].name, fs[0].body, c);
      ProgramFrame(fs[1..], g.next, FrameSize(fs[0].locals, g.next.temp))
  }

  /** FrameSize is the least multiple of 16 that has room for all slots. */
  lemma FrameIsLeast(locals: nat, temps: nat, size: nat)
    requires size % 16 == 0
    ensures FrameSize(locals, temps) <= size <==> 8 * (locals + temps) <= size
  {
  }

  lemma TwoMore(p: seq<Instr>, a: Instr, b: Instr)
    ensures p + [a] + [b] == p + [a, b]
  {
  }

  lemma FirstArg(args: seq<Expr>, i: nat, c: Counters)
    requires i < |args|
    ensures var g := GenExpr(args[i], c);
      var rest := GenArgs(args[i + 1..], g.next);
      GenArgs(args[i..], c) == ArgsCode(g.code + rest.code, [g.res] + rest.res, rest.next)
  {
    hide GenExpr;
    assert args[i..][1..] == args[i + 1..];
  }

  lemma NoMore(args: seq<Expr>, c: Counters)
    ensures GenArgs(args[|args|..], c) == ArgsCode([], [], c)
  {
  }

  lemma FirstItem(ss: seq<Stmt>, i: nat, c: Counters)
    requires i < |ss|
    ensures var g := GenStmt(ss[i], c);
      var rest := GenStmts(ss[i + 1..], g.next);
      GenStmts(ss[i..], c) == StmtCode(g.code + rest.code, rest.next)
  {
    hide GenStmt;
    assert ss[i..][1..] == ss[i + 1..];
  }

  lemma NoItems(ss: seq<Stmt>, c: Counters)
    ensures GenStmts(ss[|ss|..], c) == StmtCode([], c)
  {
  }

  lemma ThreeMore(p: seq<Instr>, a: seq<Instr>, b: seq<Instr>, c: seq<Instr>)
    ensures p + a + b + c == p + (a + b + c)
  {
  }

  lemma CodeAndTwo(p: seq<Instr>, code: seq<Instr>, a: Instr, b: Instr)
    ensures p + code + [a] + [b] == p + (code + [a, b])
  {
  }

  lemma WhileList(p: seq<Instr>, a: Instr, test: seq<Instr>, b: Instr, body: seq<Instr>, c: Instr, d: Instr)
    ensures p + [a] + test + [b] + body + [c] + [d] == p + ([a] + test + [b] + body + [c, d])
  {
    TwoMore(p + [a] + test + [b] + body, c, d);
  }

  lemma IfList(p: seq<Instr>, test: seq<Instr>, a: Instr, thn: seq<Instr>, b: Instr)
    ensures p + test + [a] + thn + [b] == p + (test + [a] + thn + [b])
  {
  }

  lemma IfElseList(p: seq<Instr>, test: seq<Instr>, a: Instr, thn: seq<Instr>, b: Instr, c: Instr, els: seq<Instr>, d: Instr)
    ensures p + test + [a] + thn + [b] + [c] + els + [d] == p + (test + [a] + thn + [b, c] + els + [d])
  {
    TwoMore(p + test + [a] + thn, b, c);
  }

  lemma LoopList(p: seq<Instr>, a: Instr, test: seq<Instr>, body: seq<Instr>, b: Instr, step: seq<Instr>, c: Instr, d: Instr)
    ensures p + [a] + test + body + [b] + step + [c] + [d] == p + ([a] + test + body + [b] + step + [c, d])
  {
    TwoMore(p + [a] + test + body + [b] + step, c, d);
  }

  /** The generator's global state and its methods, in the shape of src/ir.c. */
  class Generator {
    var tempCounter: nat
    var labelCounter: nat
    var stringCounter: nat
    var program: seq<Instr>
    var frameSize: nat
    var tempCount: nat

    constructor ()
      ensures program == [] && frameSize == 0 && tempCount == 0 && State() == Counters(0, 0, 0)
    {
      tempCounter, labelCounter, stringCounter := 0, 0, 0;
      program, frameSize, tempCount := [], 0, 0;
    }

    function State(): Counters
      reads this
    {
      Counters(tempCounter, labelCounter, stringCounter)
    }

    // What code for `s` does to the generator.
    twostate predicate Appended(code: seq<Instr>, next: Counters)
      reads this
    {
      && program == old(program) + code
      && State() == next
      && frameSize == old(frameSize)
      && next.temp - old(tempCounter) == tempCount - old(tempCount)
    }

    method Append(i: Instr)
      modifies this`program
      ensures program == old(program) + [i]
    {
      program := program + [i];
    }

    method NewTemp() returns (t: Operand)
      modifies this`tempCounter, this`tempCount
      ensures t == Temp(old(tempCounter))
      ensures tempCounter == old(tempCounter) + 1 && tempCount == old(tempCount) + 1
    {
      t := Temp(tempCounter);
      tempCounter := tempCounter + 1;
      tempCount := tempCount + 1;
    }

    method NewLabel() returns (l: nat)
      modifies this`labelCounter
      ensures l == old(labelCounter) && labelCounter == l + 1
    {
      l := labelCounter;
      labelCounter := labelCounter + 1;
    }

    method Expression(e: Expr) returns (res: Operand)
      modifies this
      ensures Appended(GenExpr(e, old(State())).code, GenExpr(e, old(State())).next)
      ensures res == GenExpr(e, old(State())).res
      decreases e, 1
    {
      ghost var p, c := program, State();
      match e {
        case Number(v) =>
          res := NewTemp();
          Append(Mov(res, Imm(Wrap(v))));
        case Str(text) =>
          res := NewTemp();
          var n := stringCounter;
          stringCounter := stringCounter + 1;
          Append(StringDef(n, text));
          Append(Mov(res, StrRef(n)));
          TwoMore(p, StringDef(n, text), Mov(res, StrRef(n)));
        case Ident(_, slot) =>
          res := NewTemp();
          Append(Mov(res, Var(slot)));
        case Binary(_, _, _) => res := Operation(e);
        case Unary(op, x) =>
          var operand := Expression(x);
          res := NewTemp();
          Append(Un(UnaryOf(op), res, operand));
          Assoc(p, GenExpr(x, c).code, [Un(UnaryOf(op), res, operand)]);
        case Call(_, _) => res := CallOf(e);
        case _ =>
          res := NewTemp();
      }
    }

    // The cases of a binary operation and of a call.
    method Operation(e: Expr) returns (res: Operand)
      requires e.Binary?
      modifies this
      ensures Appended(GenExpr(e, old(State())).code, GenExpr(e, old(State())).next)
      ensures res == GenExpr(e, old(State())).res
      decreases e, 0
    {
      ghost var p, c := program, State();
      var left := Expression(e.left);
      ghost var gl, gr := GenExpr(e.left, c), GenExpr(e.right, State());
      var right := Expression(e.right);
      res := NewTemp();
      Append(Alu(OpOf(e.op), res, left, right));
      ThreeMore(p, gl.code, gr.code, [Alu(OpOf(e.op), res, left, right)]);
    }

    method CallOf(e: Expr) returns (res: Operand)
      requires e.Call?
      modifies this
      ensures Appended(GenExpr(e, old(State())).code, GenExpr(e, old(State())).next)
      ensures res == GenExpr(e, old(State())).res
      decreases e, 0
    {
      ghost var p, c := program, State();
      res := NewTemp();
      ghost var ga := GenArgs(e.args, State());
      var ops := Arguments(e.args);
      Append(CallTo(CalleeName(e.callee), FirstArgs(ops)));
      Append(GetRet(res));
      CodeAndTwo(p, ga.code, CallTo(CalleeName(e.callee), FirstArgs(ops)), GetRet(res));
    }

    method Arguments(args: seq<Expr>) returns (ops: seq<Operand>)
      modifies this
      ensures Appended(GenArgs(args, old(State())).code, GenArgs(args, old(State())).next)
      ensures ops == GenArgs(args, old(State())).res
      decreases args, 0
    {
      hide GenArgs, GenExpr;
      ops := [];
      var i := 0;
      assert args[0..] == args;
      while i < |args|
        invariant 0 <= i <= |args|
        invariant old(program) <= program && frameSize == old(frameSize)
        invariant old(tempCounter) - old(tempCount) == tempCounter - tempCount
        invariant var all, rest := GenArgs(args, old(State())), GenArgs(args[i..], State());
          && old(program) + all.code == program + rest.code
          && all.res == ops + rest.res && all.next == rest.next
      {
        ghost var p, c := program, State();
        FirstArg(args, i, c);
        var a := Expression(args[i]);
        Assoc(p, GenExpr(args[i], c).code, GenArgs(args[i + 1..], State()).code);
        Assoc(ops, [a], GenArgs(args[i + 1..], State()).res);
        ops := ops + [a];
        i := i + 1;
      }
      NoMore(args, State());
    }

    method Statement(s: Stmt)
      modifies this
      ensures Appended(GenStmt(s, old(State())).code, GenStmt(s, old(State())).next)
      decreases s, 3
    {
      match s {
        case Return(e) =>
          if e.None? {
            Append(Ret(None));
          } else {
            var v := Expression(e.value);
            Append(Ret(Some(v)));
          }
        case Decl(_, _, init, slot) =>
          if init.Some? {
            var v := Expression(init.value);
            Append(Mov(Var(slot), v));
          }
        case If(cond, thn, els) =>
          Conditional(s);
        case While(cond, body) =>
          WhileLoop(s);
        case For(cs, body) =>
          For(s);
        case Block(ss) =>
          Statements(ss);
        case ExprStmt(e) =>
          if e.Assign? {
            var v := Expression(e.source);
            Append(Mov(Var(SlotOf(e.target)), v));
          } else if e.Binary? || e.Unary? || e.Call? {
            var _ := Expression(e);
          }
        case Break =>
        case Continue =>
      }
    }

    method Clause(s: Stmt) returns (res: Operand)
      modifies this
      ensures Appended(GenClause(s, old(State())).code, GenClause(s, old(State())).next)
      ensures res == GenClause(s, old(State())).res
    {
      if s.ExprStmt? {
        res := Expression(s.expr);
      } else {
        res := NewTemp();
      }
    }

    method Conditional(s: Stmt)
      requires s.If?
      modifies this
      ensures Appended(GenIf(s, old(State())).code, GenIf(s, old(State())).next)
      decreases s, 0
    {
      hide GenExpr, GenStmt;
      ghost var p := program;
      ghost var g := GenExpr(s.cond, State());
      ghost var gt := GenStmt(s.thn, g.next.(lab := g.next.lab + 1));
      var v := Expression(s.cond);
      var other := NewLabel();
      Append(Brz(v, other));
      Statement(s.thn);
      if s.els.Some? {
        var end := NewLabel();
        Append(Jmp(end));
        Append(Label(other));
        ghost var ge := GenStmt(s.els.value, State());
        Statement(s.els.value);
        Append(Label(end));
        IfElseList(p, g.code, Brz(v, other), gt.code, Jmp(end), Label(other), ge.code, Label(end));
      } else {
        Append(Label(other));
        IfList(p, g.code, Brz(v, other), gt.code, Label(other));
      }
    }

    method WhileLoop(s: Stmt)
      requires s.While?
      modifies this
      ensures Appended(GenWhile(s, old(State())).code, GenWhile(s, old(State())).next)
      decreases s, 0
    {
      hide GenExpr, GenStmt;
      ghost var p := program;
      var start := NewLabel();
      var end := NewLabel();
      ghost var g := GenExpr(s.cond, State());
      ghost var gb := GenStmt(s.body, g.next);
      Append(Label(start));
      var v := Expression(s.cond);
      Append(Brz(v, end));
      Statement(s.body);
      Append(Jmp(start));
      Append(Label(end));
      WhileList(p, Label(start), g.code, Brz(v, end), gb.code, Jmp(start), Label(end));
    }

    method Test(s: Stmt, end: nat)
      requires s.For?
      modifies this
      ensures Appended(GenTest(s, end, old(State())).code, GenTest(s, end, old(State())).next)
    {
      if |s.clauses| >= 1 {
        var v := Clause(Child(s, 1));
        Append(Brz(v, end));
      }
    }

    method Step(s: Stmt)
      requires s.For?
      modifies this
      ensures Appended(GenStep(s, old(State())).code, GenStep(s, old(State())).next)
    {
      if |s.clauses| >= 2 {
        var _ := Clause(Child(s, 2));
      }
    }

    method ForBody(s: Stmt)
      requires s.For?
      modifies this
      ensures Appended(GenForBody(s, old(State())).code, GenForBody(s, old(State())).next)
      decreases s, 0
    {
      if |s.clauses| >= 3 {
        Statement(Child(s, 3));
      }
    }

    method For(s: Stmt)
      requires s.For?
      modifies this
      ensures Appended(GenFor(s, old(State())).code, GenFor(s, old(State())).next)
      decreases s, 2
    {
      Statement(Child(s, 0));
      ForLoop(s);
    }

    method ForLoop(s: Stmt)
      requires s.For?
      modifies this
      ensures Appended(GenForLoop(s, old(State())).code, GenForLoop(s, old(State())).next)
      decreases s, 1
    {
      hide GenTest, GenForBody, GenStep;
      ghost var p, c := program, State();
      var start := NewLabel();
      var end := NewLabel();
      var again := NewLabel();
      Append(Label(start));
      ghost var g1 := GenTest(s, end, State());
      Test(s, end);
      ghost var g3 := GenForBody(s, State());
      ForBody(s);
      Append(Label(again));
      ghost var g2 := GenStep(s, State());
      Step(s);
      Append(Jmp(start));
      Append(Label(end));
      LoopList(p, Label(start), g1.code, g3.code, Label(again), g2.code, Jmp(start), Label(end));
      ghost var code := [Label(start)] + g1.code + g3.code + [Label(again)] + g2.code + [Jmp(start), Label(end)];
      assert GenForLoop(s, c) == StmtCode(code, g2.next);
    }

    method Statements(ss: seq<Stmt>)
      modifies this
      ensures Appended(GenStmts(ss, old(State())).code, GenStmts(ss, old(State())).next)
      decreases ss, 0
    {
      hide GenStmts, GenStmt;
      var i := 0;
      assert ss[0..] == ss;
      while i < |ss|
        invariant 0 <= i <= |ss|
        invariant old(program) <= program && frameSize == old(frameSize)
        invariant old(tempCounter) - old(tempCount) == tempCounter - tempCount
        invariant var all, rest := GenStmts(ss, old(State())), GenStmts(ss[i..], State());
          old(program) + all.code == program + rest.code && all.next == rest.next
      {
        ghost var p, c := program, State();
        FirstItem(ss, i, c);
        Statement(ss[i]);
        Assoc(p, GenStmt(ss[i], c).code, GenStmts(ss[i + 1..], State()).code);
        i := i + 1;
      }
      NoItems(ss, State());
    }

    method FunctionCode(name: string, body: Stmt, locals: nat)
      modifies this
      ensures var g := GenFunction(name, body, old(State()));
        && program == old(program) + g.code
        && State() == g.next
        && frameSize == FrameSize(locals, g.next.temp)
    {
      tempCounter := 0;
      Append(Func(name));
      Statement(body);
      frameSize := FrameSize(locals, tempCounter);
      Append(EndFunc);
      Assoc(old(program), [Func(name)] + GenStmt(body, old(State()).(temp := 0)).code, [EndFunc]);
    }

    method Program(fs: seq<TopLevel>)
      modifies this
      ensures var g := GenProgram(fs, Counters(old(tempCounter), 0, 0));
        program == old(program) + g.code && State() == g.next
      ensures frameSize == ProgramFrame(fs, Counters(old(tempCounter), 0, 0), old(frameSize))
    {
      labelCounter, stringCounter := 0, 0;
      ghost var c := State();
      var i := 0;
      assert fs[0..] == fs;
      while i < |fs|
        invariant 0 <= i <= |fs|
        invariant old(program) <= program
        invariant var all, rest := GenProgram(fs, c), GenProgram(fs[i..], State());
          old(program) + all.code == program + rest.code && all.next == rest.next
        invariant ProgramFrame(fs[i..], State(), frameSize) == ProgramFrame(fs, c, old(frameSize))
      {
        ghost var p, c1 := program, State();
        assert fs[i..][0] == fs[i] && fs[i..][1..] == fs[i + 1..];
        if fs[i].Function? {
          ghost var g := GenFunction(fs[i].name, fs[i].body, c1);
          ghost var rest := GenProgram(fs[i + 1..], g.next);
          assert GenProgram(fs[i..], c1) == StmtCode(g.code + rest.code, rest.next);
          FunctionCode(fs[i].name, fs[i].body, fs[i].locals);
          Assoc(p, g.code, rest.code);
        }
        i := i + 1;
      }
    }
  }
}
