/**
 Programs that the stack frames of the generated code break: one that calls its
 own function, one whose last function needs no frame, and one with a parameter.
 */
module FrameExamples {
  import opened Words
  import opened Ast
  import opened Source
  import opened Ir
  import M = IrMachine
  import opened Lowering
  import opened IrShape
  import opened Liveness
  import opened Sharing
  import opened Compiler
  import opened Frames
  import X86
  import opened Codegen
  import C = CodegenCorrect

  // ---------- running moves ----------

  lemma OneMore(s: Stmt, ss: seq<Stmt>, c: Counters, code: seq<Instr>, c1: Counters, rest: seq<Instr>, c2: Counters)
    requires GenStmt(s, c) == StmtCode(code, c1) && GenStmts(ss, c1) == StmtCode(rest, c2)
    ensures GenStmts([s] + ss, c) == StmtCode(code + rest, c2)
  {
    assert ([s] + ss)[1..] == ss;
  }

  predicate IsMove(i: Instr) {
    i.Mov? && (i.dst.Var? || i.dst.Temp?)
  }

  // What an emitted `mov` does to the machine.
  function Moved(mc: X86.Machine, i: Instr, x: X86.State): (y: X86.State)
    requires IsMove(i) && x.On?
    ensures y.On? && y.regs.rbp == x.regs.rbp
  {
    var v := C.Value(mc, i.src, x);
    x.(pc := x.pc + 2, regs := x.regs.(rax := v), mem := x.mem[x.regs.rbp + StackOffset(i.dst.n) := v])
  }

  function AllMoved(mc: X86.Machine, code: seq<Instr>, x: X86.State): (y: X86.State)
    requires (forall i | i in code :: IsMove(i)) && x.On?
    ensures y.On? && y.pc == x.pc + 2 * |code| && y.tr == x.tr && y.regs.rsp == x.regs.rsp && y.regs.rbp == x.regs.rbp
  {
    if code == [] then x else AllMoved(mc, code[1..], Moved(mc, code[0], x))
  }

  lemma MoveRuns(mc: X86.Machine, i: Instr, size: nat, x: X86.State)
    requires IsMove(i) && x.On?
    ensures C.Plain(EmitInstr(i, size)) && |EmitInstr(i, size)| == 2
    ensures X86.RunStraight(mc, EmitInstr(i, size), x) == Moved(mc, i, x)
  {
    C.LoadExec(mc, i.src, x);
    C.Exec1(mc, X86.Store(StackOffset(i.dst.n)), X86.RunStraight(mc, EmitLoad(i.src), x));
    X86.RunStraightAdds(mc, EmitLoad(i.src), EmitStore(i.dst), x);
  }

  lemma {:induction false} MovesRun(mc: X86.Machine, code: seq<Instr>, size: nat, x: X86.State)
    requires (forall i | i in code :: IsMove(i)) && x.On?
    ensures C.Plain(EmitAll(code, size)) && |EmitAll(code, size)| == 2 * |code|
    ensures X86.RunStraight(mc, EmitAll(code, size), x) == AllMoved(mc, code, x)
  {
    if code != [] {
      MoveRuns(mc, code[0], size, x);
      MovesRun(mc, code[1..], size, Moved(mc, code[0], x));
      X86.RunStraightAdds(mc, EmitInstr(code[0], size), EmitAll(code[1..], size), x);
    }
  }

  lemma HeadAndTail(code: seq<X86.Instr>, pc: nat, a: seq<X86.Instr>, b: seq<X86.Instr>)
    requires X86.CodeAt(code, pc, a + b)
    ensures X86.CodeAt(code, pc, a) && X86.CodeAt(code, pc + |a|, b)
  {
    forall k | 0 <= k < |a| ensures a[k] == code[pc + k] {
      assert a[k] == (a + b)[k];
    }
    forall k | 0 <= k < |b| ensures b[k] == code[pc + |a| + k] {
      assert b[k] == (a + b)[|a| + k];
    }
  }

  // Right before `retq`, with r in rax.
  predicate AtRetq(mc: X86.Machine, y: X86.State, r: Word) {
    y.On? && y.pc < |mc.code| && mc.code[y.pc] == X86.Retq && y.regs.rax == r
  }

  lemma StraightThenReturn(mc: X86.Machine, code: seq<X86.Instr>, x: X86.State) returns (k: nat)
    requires x.On? && C.Plain(code) && C.NoCalls(code) && X86.CodeAt(mc.code, x.pc, code + EPILOGUE)
    requires var z := X86.RunStraight(mc, code, x); z.On? && z.pc == x.pc + |code|
    ensures AtRetq(mc, X86.Run(mc, x, k), X86.RunStraight(mc, code, x).regs.rax)
  {
    hide X86.RunStraight, X86.Run, X86.Effect;
    HeadAndTail(mc.code, x.pc, code, EPILOGUE);
    X86.RunStraightInPlace(mc, code, x);
    C.EpilogueRun(mc, X86.RunStraight(mc, code, x));
    k := |code| + 3;
    X86.RunAdds(mc, x, |code|, 3);
  }

  // The code of function i, where the machine has it.
  lemma FunctionEmitted(fs: seq<TopLevel>, i: nat, mc: X86.Machine)
    requires i < |fs| && fs[i].Function? && Loaded(fs, mc)
    ensures X86.CodeAt(mc.code, StartOf(fs, i), EmitAll(CodeOf(fs, i).code, KeptFrame(fs)))
  {
    var code, part, size := GenProgram(fs, START).code, CodeOf(fs, i).code, KeptFrame(fs);
    FunctionPlaced(fs, START, i);
    var p := PlaceOf(fs, START, i).pc;
    var a, b := code[..p], code[p + |part|..];
    assert code == a + (part + b);
    C.EmitAdds(a, part + b, size);
    C.EmitAdds(part, b, size);
    C.Middle(EmitAll(a, size), EmitAll(part, size), EmitAll(b, size));
  }

  // At a call in the function that was entered at x, after code that calls nothing.
  ghost predicate BeforeCall(mc: X86.Machine, x: X86.State, size: nat, callee: string, tail: seq<X86.Instr>, y: X86.State)
    requires x.On?
  {
    && y.On? && y.tr == x.tr && y.regs.rsp == x.regs.rsp - 24 - size && y.regs.rbp == x.regs.rsp - 8
    && y.pc < |mc.code| && mc.code[y.pc] == X86.Call(LinkName(callee), 0)
    && X86.CodeAt(mc.code, y.pc + 1, tail)
  }

  /** A function that starts with moves and then calls: up to the call. */
  lemma UpToCall(mc: X86.Machine, x: X86.State, name: string, moves: seq<Instr>, callee: string, tail: seq<Instr>,
                 size: nat) returns (k: nat)
    requires x.On? && size % 16 == 0 && (forall i | i in moves :: IsMove(i))
    requires X86.CodeAt(mc.code, x.pc, EmitAll([Func(name)] + moves + [CallTo(callee, [])] + tail, size))
    ensures BeforeCall(mc, x, size, callee, EmitAll(tail, size), X86.Run(mc, x, k))
  {
    hide Prologue, EmitAll, X86.Run, X86.Effect;
    var straight, rest := Prologue(name, size) + EmitAll(moves, size), EmitAll(tail, size);
    var call := [X86.Call(LinkName(callee), 0)];
    CallingCode(name, moves, callee, tail, size);
    HeadAndTail(mc.code, x.pc, straight, call + rest);
    HeadAndTail(mc.code, x.pc + |straight|, call, rest);
    k := ToCall(mc, x, name, moves, size);
    AtCode(mc.code, x.pc + |straight|, call[0]);
  }

  lemma AtCode(code: seq<X86.Instr>, pc: nat, i: X86.Instr)
    requires X86.CodeAt(code, pc, [i])
    ensures pc < |code| && code[pc] == i
  {
    assert [i][0] == i;
  }

  lemma CallingCode(name: string, moves: seq<Instr>, callee: string, tail: seq<Instr>, size: nat)
    ensures EmitAll([Func(name)] + moves + [CallTo(callee, [])] + tail, size)
         == Prologue(name, size) + EmitAll(moves, size) + ([X86.Call(LinkName(callee), 0)] + EmitAll(tail, size))
  {
    var head, call := [Func(name)] + moves, CallTo(callee, []);
    assert [Func(name)] + moves + [call] + tail == head + ([call] + tail);
    C.EmitAdds(head, [call] + tail, size);
    C.EmitHead(Func(name), moves, size);
    C.EmitHead(call, tail, size);
    assert EmitInstr(call, size) == [X86.Call(LinkName(callee), 0)];
  }

  lemma ToCall(mc: X86.Machine, x: X86.State, name: string, moves: seq<Instr>, size: nat) returns (k: nat)
    requires x.On? && size % 16 == 0 && (forall i | i in moves :: IsMove(i))
    requires X86.CodeAt(mc.code, x.pc, Prologue(name, size) + EmitAll(moves, size))
    ensures var y := X86.Run(mc, x, k);
      && y.On? && y.tr == x.tr && y.pc == x.pc + |Prologue(name, size) + EmitAll(moves, size)|
      && y.regs.rsp == x.regs.rsp - 24 - size && y.regs.rbp == x.regs.rsp - 8
  {
    var a, b := Prologue(name, size), EmitAll(moves, size);
    hide X86.Effect, X86.Run, Prologue, EmitAll, X86.CodeAt;
    PrologueRuns(mc, name, size, x);
    MovesRun(mc, moves, size, X86.RunStraight(mc, a, x));
    X86.RunStraightAdds(mc, a, b, x);
    NoEnters(mc, name, moves, size);
    X86.RunStraightInPlace(mc, a + b, x);
    k := |a + b|;
  }

  lemma PrologueRuns(mc: X86.Machine, name: string, size: nat, x: X86.State)
    requires x.On? && size % 16 == 0
    ensures C.Plain(Prologue(name, size))
    ensures var t := X86.RunStraight(mc, Prologue(name, size), x);
      && t.On? && t.pc == x.pc + |Prologue(name, size)| && t.tr == x.tr
      && t.regs.rbp == x.regs.rsp - 8 && t.regs.rsp == x.regs.rsp - 24 - size && t.mem == C.EntryMemory(x)
  {
    var a, b := [X86.Entry(name), X86.PushRbp, X86.MovRspRbp], [X86.Push(X86.RBX), X86.Push(X86.R12)];
    var c := if size > 0 then [X86.SubRsp(size), X86.LeaProbe(size), X86.CmpProbe] else [];
    assert Prologue(name, size) == a + b + c;
    C.SaveExec(mc, name, x);
    C.ProbeExec(mc, size, X86.RunStraight(mc, a + b, x));
    X86.RunStraightAdds(mc, a + b, c, x);
  }

  lemma {:induction false} MovesCallNothing(moves: seq<Instr>, size: nat)
    requires forall i | i in moves :: IsMove(i)
    ensures C.NoCalls(EmitAll(moves, size))
  {
    if moves != [] {
      assert IsMove(moves[0]);
      C.OwnCalls(moves[0], size);
      MovesCallNothing(moves[1..], size);
    }
  }

  lemma NoEnters(mc: X86.Machine, name: string, moves: seq<Instr>, size: nat)
    requires forall i | i in moves :: IsMove(i)
    ensures forall k | k in Prologue(name, size) + EmitAll(moves, size) :: !X86.Enters(mc.code, k)
  {
    MovesCallNothing(moves, size);
  }

  // ---------- a program that calls its own function ----------

  const CHONK: TypeExpr := Base(Chonk)

  function NoParameters(name: string, body: Stmt, locals: nat): TopLevel {
    Function(name, [], CHONK, body, locals)
  }

  // `nuzzle g() -> chonk { gimme 5; }`
  const FIVE: Stmt := Block([Return(Some(Number(5)))])

  // `nuzzle f() -> chonk { x: chonk = 1; y: chonk = g(); gimme x + y; }`
  const CALLER: Stmt := Block([
    Decl("x", CHONK, Some(Number(1)), 0),
    Decl("y", CHONK, Some(Expr.Call(Ident("g", 0), [])), 1),
    Return(Some(Binary(Plus, Ident("x", 0), Ident("y", 1))))])

  function CallingFive(): seq<TopLevel> {
    [NoParameters("g", FIVE, 0), NoParameters("f", CALLER, 2)]
  }

  lemma CallerCode(c: Counters) returns (tail: seq<Instr>)
    requires c.temp == 0
    ensures GenFunction("f", CALLER, c).code
         == [Func("f")] + [Mov(Temp(0), Imm(1)), Mov(Var(0), Temp(0))] + [CallTo("g", [])] + tail
    ensures tail != [] && tail[|tail| - 1].EndFunc?
  {
    var ss := CALLER.stmts;
    var c1 := c.(temp := 1);
    var a := [Mov(Temp(0), Imm(1)), Mov(Var(0), Temp(0))];
    assert GenStmt(ss[0], c) == StmtCode(a, c1);
    var g1 := GenStmt(ss[1], c1);
    assert g1.code == [CallTo("g", []), GetRet(Temp(1)), Mov(Var(1), Temp(1))];
    var rest := GenStmts(ss[1..], c1).code;
    assert rest == g1.code + GenStmts(ss[1..][1..], g1.next).code;
    tail := rest[1..] + [EndFunc];
    assert rest == [CallTo("g", [])] + rest[1..];
    assert GenStmt(CALLER, c).code == a + rest;
  }

  lemma EmitsSomething(code: seq<Instr>, size: nat)
    requires code != [] && code[|code| - 1].EndFunc?
    ensures EmitAll(code, size) != []
  {
    var n := |code| - 1;
    assert code == code[..n] + [code[n]];
    C.EmitAdds(code[..n], [code[n]], size);
    C.EmitHead(code[n], [], size);
  }

  lemma FiveCode(c: Counters)
    requires c.temp == 0
    ensures GenStmt(FIVE, c) == StmtCode([Mov(Temp(0), Imm(5)), Ret(Some(Temp(0)))], c.(temp := 1))
  {
    var r := Return(Some(Number(5)));
    assert GenStmt(r, c).code == [Mov(Temp(0), Imm(5)), Ret(Some(Temp(0)))];
    OneMore(r, [], c, [Mov(Temp(0), Imm(5)), Ret(Some(Temp(0)))], c.(temp := 1), [], c.(temp := 1));
    assert [r] + [] == [r];
  }

  lemma FiveIsRight()
    ensures SelfContained(CallingFive(), 0, map[]) && PlaceOf(CallingFive(), START, 0) == Place(0, START)
  {
    var fs := CallingFive();
    FiveCode(START);
    assert PlaceOf(fs, START, 0) == Place(0, START);
    assert CodeOf(fs, 0).next.temp == 1;
  }

  /** g, called by its own program, leaves 5 in slot 0. */
  lemma FiveRuns(mc: X86.Machine, tr: seq<Event>, b: int)
    requires Loaded(CallingFive(), mc)
    ensures var im, s := ImageOf(CallingFive(), mc), StartState(CallingFive(), 0, map[], map[], tr);
      M.Run(im, s, 3) == M.Halted(Some(5), tr) && C.BottomAfter(im, s, 3, b) == 5
  {
    var fs := CallingFive();
    var im, s := ImageOf(fs, mc), StartState(fs, 0, map[], map[], tr);
    FiveIsRight();
    FiveCode(START);
    FunctionPlaced(fs, START, 0);
    FiveSteps(im, s, b);
  }

  lemma FiveSteps(im: M.Image, s: M.State, b: int)
    requires s.Running? && s.pc == 0
    requires M.CodeAt(im.code, 0, [Func("g")] + [Mov(Temp(0), Imm(5)), Ret(Some(Temp(0)))] + [EndFunc])
    ensures M.Run(im, s, 3) == M.Halted(Some(5), s.tr) && C.BottomAfter(im, s, 3, b) == 5
  {
    M.CodeSplit3(im.code, 0, [Func("g")], [Mov(Temp(0), Imm(5)), Ret(Some(Temp(0)))], [EndFunc]);
    M.CodeHead(im.code, 0, Func("g"));
    M.CodeTwo(im.code, 1, Mov(Temp(0), Imm(5)), Ret(Some(Temp(0))));
    var t := M.Step(im, s);
    var u := M.Step(im, t);
    assert t == s.(pc := 1) && u == M.Write(Temp(0), 5, t);
    assert M.Step(im, u) == M.Halted(Some(5), s.tr);
    assert M.Run(im, u, 1) == M.Run(im, M.Step(im, u), 0);
    assert C.BottomAfter(im, u, 1, 5) == C.BottomAfter(im, M.Step(im, u), 0, 5);
  }

  /** f has called g of its own program and goes on with 5 in rbp instead of the address of its frame. */
  lemma OwnCallBreaks(mc: X86.Machine, x: X86.State) returns (k: nat)
    requires Loaded(CallingFive(), mc) && x.On? && Called(CallingFive(), 1, x)
    ensures !OutsideStmt(CALLER, OwnNames(CallingFive()))
    ensures var y := X86.Run(mc, x, k);
      && y.On? && 0 < y.pc <= |mc.code| && mc.code[y.pc - 1] == X86.Call("g", 0)
      && y.regs.rsp == x.regs.rsp - 24 - KeptFrame(CallingFive())
      && y.regs.rax == 5 && y.regs.rbp == 5
  {
    hide *;
    k := CallerCalls(mc, x);
    CallerCallsOwn();
    var y := X86.Run(mc, x, k);
    FiveIsRight();
    FiveRuns(mc, y.tr, y.regs.rbp);
    NothingToFind(CallingFive(), 0, map[], map[], mc, y);
    var j := InternalCall(CallingFive(), 0, map[], map[], mc, y, Some(5), y.tr, 3);
    BackInCaller(mc, y, X86.Run(mc, y, j), y.tr);
    X86.RunAdds(mc, x, k, j);
    k := k + j;
  }

  lemma BackInCaller(mc: X86.Machine, y: X86.State, z: X86.State, tr: seq<Event>)
    requires y.On? && y.pc < |mc.code| && Back(y, z, Some(5), tr)
    ensures z.On? && z.pc == y.pc + 1 && z.regs.rsp == y.regs.rsp && z.regs.rax == 5
  {
  }

  // f up to its call.
  lemma CallerCalls(mc: X86.Machine, x: X86.State) returns (k: nat)
    requires Loaded(CallingFive(), mc) && x.On? && Called(CallingFive(), 1, x)
    ensures |CallingFive()| == 2 && CallingFive()[0].Function?
    ensures var y := X86.Run(mc, x, k);
      && y.On? && AtCall(CallingFive(), 0, mc, y) && y.pc < |mc.code| && mc.code[y.pc] == X86.Call("g", 0)
      && y.regs.rsp == x.regs.rsp - 24 - KeptFrame(CallingFive())
  {
    hide *;
    var size := KeptFrame(CallingFive());
    var tail := CallerPlaced();
    KeptMultiple(CallingFive());
    CallerStarts(mc, x, tail);
    k := UpToCall(mc, x, "f", [Mov(Temp(0), Imm(1)), Mov(Var(0), Temp(0))], "g", tail, size);
    EmitsSomething(tail, size);
    CallIsNext(mc, x, size, EmitAll(tail, size), X86.Run(mc, x, k));
  }

  lemma KeptMultiple(fs: seq<TopLevel>)
    ensures KeptFrame(fs) % 16 == 0
  {
    FrameMultiple(fs, START, 0);
  }

  lemma CallerPlaced() returns (tail: seq<Instr>)
    ensures |CallingFive()| == 2 && CallingFive()[0].Function? && CallingFive()[1].Function?
    ensures CodeOf(CallingFive(), 1).code
         == [Func("f")] + [Mov(Temp(0), Imm(1)), Mov(Var(0), Temp(0))] + [CallTo("g", [])] + tail
    ensures tail != [] && tail[|tail| - 1].EndFunc?
    ensures forall i | i in [Mov(Temp(0), Imm(1)), Mov(Var(0), Temp(0))] :: IsMove(i)
  {
    hide GenFunction;
    tail := CallerCode(PlaceOf(CallingFive(), START, 1).c.(temp := 0));
    CodeFrom(CallingFive(), 1);
  }

  lemma CallerStarts(mc: X86.Machine, x: X86.State, tail: seq<Instr>)
    requires |CallingFive()| == 2 && CallingFive()[1].Function?
    requires Loaded(CallingFive(), mc) && x.On? && Called(CallingFive(), 1, x)
    ensures X86.CodeAt(mc.code, x.pc, EmitAll(CodeOf(CallingFive(), 1).code, KeptFrame(CallingFive())))
    ensures x.regs.rsp % 16 == 8
  {
    hide Loaded, EmitAll, CodeOf, KeptFrame, StartOf, X86.CodeAt;
    FunctionEmitted(CallingFive(), 1, mc);
  }

  lemma CallIsNext(mc: X86.Machine, x: X86.State, size: nat, tail: seq<X86.Instr>, y: X86.State)
    requires x.On? && x.regs.rsp % 16 == 8 && size % 16 == 0 && BeforeCall(mc, x, size, "g", tail, y) && tail != []
    requires |CallingFive()| == 2 && CallingFive()[0].Function?
    ensures y.On? && AtCall(CallingFive(), 0, mc, y) && y.pc < |mc.code| && mc.code[y.pc] == X86.Call("g", 0)
    ensures y.regs.rsp == x.regs.rsp - 24 - size
  {
    RoomBehind(mc.code, y.pc + 1, tail);
  }

  lemma RoomBehind(code: seq<X86.Instr>, pc: nat, part: seq<X86.Instr>)
    requires X86.CodeAt(code, pc, part) && part != []
    ensures pc < |code|
  {
  }

  // Temps start at 0 whatever the counter says.
  lemma CodeFrom(fs: seq<TopLevel>, i: nat)
    requires i < |fs| && fs[i].Function?
    ensures CodeOf(fs, i) == GenFunction(fs[i].name, fs[i].body, PlaceOf(fs, START, i).c.(temp := 0))
  {
  }

  lemma CallerCallsOwn()
    ensures !OutsideStmt(CALLER, OwnNames(CallingFive()))
  {
    assert CallingFive()[0].name in OwnNames(CallingFive());
    assert !OutsideStmt(CALLER.stmts[1], OwnNames(CallingFive()));
  }

  // ---------- a program whose last function needs no frame ----------

  // `nuzzle f() -> chonk { x: chonk = 1; y: chonk = 2; z: chonk = 3; h(); gimme z; }`
  const TIGHT: Stmt := Block([
    Decl("x", CHONK, Some(Number(1)), 0),
    Decl("y", CHONK, Some(Number(2)), 1),
    Decl("z", CHONK, Some(Number(3)), 2),
    ExprStmt(Expr.Call(Ident("h", 0), [])),
    Return(Some(Ident("z", 2)))])

  // f, and a last function `nuzzle k() -> chonk { }` that needs no frame.
  function EmptyLast(): seq<TopLevel> {
    [NoParameters("f", TIGHT, 3), NoParameters("k", Block([]), 0)]
  }

  const THREE_MOVES: seq<Instr> := [
    Mov(Temp(0), Imm(1)), Mov(Var(0), Temp(0)),
    Mov(Temp(1), Imm(2)), Mov(Var(1), Temp(1)),
    Mov(Temp(2), Imm(3)), Mov(Var(2), Temp(2))]

  const TIGHT_TAIL: seq<Instr> := [GetRet(Temp(3)), Mov(Temp(4), Var(2)), Ret(Some(Temp(4)))]

  lemma DeclCode(x: string, v: Word, slot: nat, c: Counters)
    requires v >= 0
    ensures GenStmt(Decl(x, CHONK, Some(Number(v)), slot), c)
         == StmtCode([Mov(Temp(c.temp), Imm(v)), Mov(Var(slot), Temp(c.temp))], c.(temp := c.temp + 1))
  {
    WrapWord(v);
  }

  lemma CallAlone(f: string, c: Counters)
    ensures GenStmt(ExprStmt(Expr.Call(Ident(f, 0), [])), c)
         == StmtCode([CallTo(f, []), GetRet(Temp(c.temp))], c.(temp := c.temp + 1))
  {
    var e, call := Expr.Call(Ident(f, 0), []), [CallTo(f, []), GetRet(Temp(c.temp))];
    NoArgs(c.(temp := c.temp + 1));
    assert GenExpr(e, c) == ExprCode([] + call, Temp(c.temp), c.(temp := c.temp + 1)) by {
      hide GenArgs;
    }
    assert [] + call == call;
  }

  lemma NoArgs(c: Counters)
    ensures GenArgs([], c) == ArgsCode([], [], c)
  {
  }

  lemma ReturnName(x: string, slot: nat, c: Counters)
    ensures GenStmt(Return(Some(Ident(x, slot))), c)
         == StmtCode([Mov(Temp(c.temp), Var(slot)), Ret(Some(Temp(c.temp)))], c.(temp := c.temp + 1))
  {
  }

  lemma TightParts(c: Counters)
    requires c.temp == 0
    ensures TIGHT.Block? && |TIGHT.stmts| == 5
    ensures GenStmt(TIGHT.stmts[0], c) == StmtCode(THREE_MOVES[..2], c.(temp := 1))
    ensures GenStmt(TIGHT.stmts[1], c.(temp := 1)) == StmtCode(THREE_MOVES[2..4], c.(temp := 2))
    ensures GenStmt(TIGHT.stmts[2], c.(temp := 2)) == StmtCode(THREE_MOVES[4..], c.(temp := 3))
    ensures GenStmt(TIGHT.stmts[3], c.(temp := 3)) == StmtCode([CallTo("h", []), GetRet(Temp(3))], c.(temp := 4))
    ensures GenStmt(TIGHT.stmts[4], c.(temp := 4)) == StmtCode(TIGHT_TAIL[1..], c.(temp := 5))
  {
    hide GenStmt, GenExpr;
    DeclCode("x", 1, 0, c);
    DeclCode("y", 2, 1, c.(temp := 1));
    DeclCode("z", 3, 2, c.(temp := 2));
    CallAlone("h", c.(temp := 3));
    ReturnName("z", 2, c.(temp := 4));
  }

  lemma FiveMore(ss: seq<Stmt>, c: Counters, c1: Counters, c2: Counters, c3: Counters, c4: Counters, c5: Counters,
                 a0: seq<Instr>, a1: seq<Instr>, a2: seq<Instr>, a3: seq<Instr>, a4: seq<Instr>)
    requires |ss| == 5
    requires GenStmt(ss[0], c) == StmtCode(a0, c1) && GenStmt(ss[1], c1) == StmtCode(a1, c2)
    requires GenStmt(ss[2], c2) == StmtCode(a2, c3) && GenStmt(ss[3], c3) == StmtCode(a3, c4)
    requires GenStmt(ss[4], c4) == StmtCode(a4, c5)
    ensures GenStmts(ss, c) == StmtCode(a0 + (a1 + (a2 + (a3 + (a4 + [])))), c5)
  {
    hide GenStmt;
    OneMore(ss[4], [], c4, a4, c5, [], c5);
    OneMore(ss[3], [ss[4]], c3, a3, c4, a4 + [], c5);
    OneMore(ss[2], [ss[3], ss[4]], c2, a2, c3, a3 + (a4 + []), c5);
    OneMore(ss[1], [ss[2], ss[3], ss[4]], c1, a1, c2, a2 + (a3 + (a4 + [])), c5);
    OneMore(ss[0], [ss[1], ss[2], ss[3], ss[4]], c, a0, c1, a1 + (a2 + (a3 + (a4 + []))), c5);
    assert [ss[4]] + [] == [ss[4]] && [ss[3]] + [ss[4]] == [ss[3], ss[4]];
    assert [ss[2]] + [ss[3], ss[4]] == [ss[2], ss[3], ss[4]];
    assert [ss[1]] + [ss[2], ss[3], ss[4]] == [ss[1], ss[2], ss[3], ss[4]];
    assert ss == [ss[0]] + [ss[1], ss[2], ss[3], ss[4]];
  }

  lemma TightCode(c: Counters)
    requires c.temp == 0
    ensures GenStmt(TIGHT, c) == StmtCode(THREE_MOVES + [CallTo("h", [])] + TIGHT_TAIL, c.(temp := 5))
  {
    var m, call := THREE_MOVES, [CallTo("h", []), GetRet(Temp(3))];
    TightParts(c);
    FiveMore(TIGHT.stmts, c, c.(temp := 1), c.(temp := 2), c.(temp := 3), c.(temp := 4), c.(temp := 5),
             m[..2], m[2..4], m[4..], call, TIGHT_TAIL[1..]);
    TightJoin();
    BlockCode(TIGHT.stmts, c);
  }

  lemma BlockCode(ss: seq<Stmt>, c: Counters)
    ensures GenStmt(Block(ss), c) == GenStmts(ss, c)
  {
  }

  lemma TightJoin()
    ensures THREE_MOVES[..2] + (THREE_MOVES[2..4] + (THREE_MOVES[4..]
            + ([CallTo("h", []), GetRet(Temp(3))] + (TIGHT_TAIL[1..] + []))))
         == THREE_MOVES + [CallTo("h", [])] + TIGHT_TAIL
  {
  }

  lemma EmptyLastFrame()
    ensures |EmptyLast()| == 2 && EmptyLast()[0].Function? && KeptFrame(EmptyLast()) == 0
    ensures CodeOf(EmptyLast(), 0).next.temp == 5 && !Fits(EmptyLast(), 0)
    ensures CodeOf(EmptyLast(), 0).code == [Func("f")] + THREE_MOVES + [CallTo("h", [])] + (TIGHT_TAIL + [EndFunc])
    ensures "h" !in OwnNames(EmptyLast())
  {
    var fs := EmptyLast();
    TightCode(START);
    assert PlaceOf(fs, START, 0) == Place(0, START);
    var g := GenFunction("f", TIGHT, START);
    assert fs[1..][0] == fs[1] && fs[1..][1..] == [];
    assert ProgramFrame(fs[1..], g.next, FrameSize(3, 5)) == FrameSize(0, 0);
    assert ProgramFrame(fs, START, 0) == ProgramFrame(fs[1..], g.next, FrameSize(3, 5));
  }

  // What f's callee leaves in the word of z, 8 bytes below the stack pointer.
  ghost predicate Debris(mc: X86.Machine, a: int, w: Word) {
    forall r: X86.Regs, m: X86.Memory, t: seq<Event> :: X86.At(mc.debris(r, m, t).mem, a) == w
  }

  lemma OutsideStep(mc: X86.Machine, y: X86.State, callee: string, a: int, w: Word)
    requires y.On? && y.regs.rsp % 16 == 0 && y.pc < |mc.code| && mc.code[y.pc] == X86.Call(callee, 0)
    requires X86.Entry(callee) !in mc.code && Debris(mc, a, w) && a < y.regs.rsp
    ensures var z := X86.Step(mc, y);
      z.On? && z.pc == y.pc + 1 && z.regs.rbp == y.regs.rbp && z.regs.rsp == y.regs.rsp && X86.At(z.mem, a) == w
  {
  }

  lemma StoreThenLoad(mc: X86.Machine, a: int, b: int, z: X86.State)
    requires z.On?
    ensures var code := [X86.Store(a), X86.Load(b)];
      var t := X86.RunStraight(mc, code, z);
      && C.Plain(code) && C.NoCalls(code) && t.On? && t.pc == z.pc + 2 && t.regs.rbp == z.regs.rbp
      && t.mem == z.mem[z.regs.rbp + a := z.regs.rax] && t.regs.rax == Wrap(X86.At(t.mem, z.regs.rbp + b))
  {
    hide X86.RunStraight, X86.AfterCall, X86.Division, WordBits;
    C.Exec2(mc, X86.Store(a), X86.Load(b), z);
  }

  // The code after f's call puts the word of slot 2 into rax.
  lemma TailRuns(mc: X86.Machine, z: X86.State)
    requires z.On?
    ensures var code := [X86.Store(StackOffset(3)), X86.Load(StackOffset(2)),
                         X86.Store(StackOffset(4)), X86.Load(StackOffset(4))];
      var t := X86.RunStraight(mc, code, z);
      && C.Plain(code) && C.NoCalls(code) && t.On? && t.pc == z.pc + 4
      && t.regs.rax == Wrap(X86.At(z.mem, z.regs.rbp + StackOffset(2)))
  {
    hide X86.RunStraight, X86.Effect;
    var a := [X86.Store(StackOffset(3)), X86.Load(StackOffset(2))];
    var b := [X86.Store(StackOffset(4)), X86.Load(StackOffset(4))];
    StoreThenLoad(mc, StackOffset(3), StackOffset(2), z);
    StoreThenLoad(mc, StackOffset(4), StackOffset(4), X86.RunStraight(mc, a, z));
    X86.RunStraightAdds(mc, a, b, z);
    assert a + b == [a[0], a[1], b[0], b[1]];
    WrapWord(Wrap(X86.At(z.mem, z.regs.rbp + StackOffset(2))));
  }

  lemma TailCode(size: nat)
    ensures EmitAll(TIGHT_TAIL + [EndFunc], size)
         == [X86.Store(StackOffset(3)), X86.Load(StackOffset(2)), X86.Store(StackOffset(4)), X86.Load(StackOffset(4))]
            + EPILOGUE + EmitAll([EndFunc], size)
  {
    hide EmitAll, EmitInstr, StackOffset;
    var a, b, r := GetRet(Temp(3)), Mov(Temp(4), Var(2)), Ret(Some(Temp(4)));
    assert TIGHT_TAIL + [EndFunc] == [a] + ([b] + ([r] + [EndFunc]));
    C.EmitHead(a, [b] + ([r] + [EndFunc]), size);
    C.EmitHead(b, [r] + [EndFunc], size);
    C.EmitHead(r, [EndFunc], size);
    TailInstrs(size);
    var s3, l2, s4, l4 := X86.Store(StackOffset(3)), X86.Load(StackOffset(2)), X86.Store(StackOffset(4)),
                          X86.Load(StackOffset(4));
    Joined([s3], [l2, s4], [l4], EPILOGUE, EmitAll([EndFunc], size));
    assert [s3] + ([l2, s4] + [l4]) == [s3, l2, s4, l4];
  }

  lemma TailInstrs(size: nat)
    ensures EmitInstr(GetRet(Temp(3)), size) == [X86.Store(StackOffset(3))]
    ensures EmitInstr(Mov(Temp(4), Var(2)), size) == [X86.Load(StackOffset(2)), X86.Store(StackOffset(4))]
    ensures EmitInstr(Ret(Some(Temp(4))), size) == [X86.Load(StackOffset(4))] + EPILOGUE
  {
  }

  lemma OneThen(w: World, s: Stmt, ss: seq<Stmt>, env: Env, tr: seq<Event>, env1: Env, tr1: seq<Event>, fuel: nat)
    requires Exec(w, s, env, tr, fuel) == Normal(env1, tr1)
    ensures ExecAll(w, [s] + ss, env, tr, fuel) == ExecAll(w, ss, env1, tr1, fuel)
  {
    hide Exec;
    assert ([s] + ss)[1..] == ss;
  }

  lemma DeclRuns(w: World, x: string, v: Word, slot: nat, env: Env, tr: seq<Event>, fuel: nat)
    requires v >= 0
    ensures Exec(w, Decl(x, CHONK, Some(Number(v)), slot), env, tr, fuel) == Normal(env[x := v], tr)
  {
    WrapWord(v);
  }

  lemma CallRuns(w: World, f: string, env: Env, tr: seq<Event>, fuel: nat)
    ensures Exec(w, ExprStmt(Expr.Call(Ident(f, 0), [])), env, tr, fuel) == Normal(env, tr + [CallResult(w, f, [], tr)])
  {
    hide CallResult;
    assert EvalArgs(w, [], env, tr) == Vals([], tr);
  }

  lemma ReturnRuns(w: World, x: string, slot: nat, env: Env, tr: seq<Event>, fuel: nat)
    requires x in env
    ensures ExecAll(w, [Return(Some(Ident(x, slot)))], env, tr, fuel) == Returned(Some(env[x]), tr)
  {
  }

  lemma TightMeans(w: World, env: Env, tr: seq<Event>)
    ensures SourceEnds(w, TIGHT, env, tr, Gives(Some(3), tr + [CallResult(w, "h", [], tr)]))
  {
    hide Exec, ExecAll, CallResult;
    var s0, s1, s2, s3, s4 := TIGHT.stmts[0], TIGHT.stmts[1], TIGHT.stmts[2], TIGHT.stmts[3], TIGHT.stmts[4];
    var e1 := env["x" := 1];
    var e2 := e1["y" := 2];
    var e3 := e2["z" := 3];
    var tr1 := tr + [CallResult(w, "h", [], tr)];
    DeclRuns(w, "x", 1, 0, env, tr, 0);
    DeclRuns(w, "y", 2, 1, e1, tr, 0);
    DeclRuns(w, "z", 3, 2, e2, tr, 0);
    CallRuns(w, "h", e3, tr, 0);
    ReturnRuns(w, "z", 2, e3, tr1, 0);
    OneThen(w, s3, [s4], e3, tr, e3, tr1, 0);
    OneThen(w, s2, [s3] + [s4], e2, tr, e3, tr, 0);
    OneThen(w, s1, [s2] + ([s3] + [s4]), e1, tr, e2, tr, 0);
    OneThen(w, s0, [s1] + ([s2] + ([s3] + [s4])), env, tr, e1, tr, 0);
    assert TIGHT.stmts == [s0] + ([s1] + ([s2] + ([s3] + [s4])));
    BodyGives(w, TIGHT.stmts, env, tr, 0, 3, tr1);
  }

  lemma BodyGives(w: World, ss: seq<Stmt>, env: Env, tr: seq<Event>, fuel: nat, v: Word, tr1: seq<Event>)
    requires ExecAll(w, ss, env, tr, fuel) == Returned(Some(v), tr1)
    ensures SourceEnds(w, Block(ss), env, tr, Gives(Some(v), tr1))
  {
    hide ExecAll;
    assert RunBody(w, Block(ss), env, tr, fuel) == Gives(Some(v), tr1);
  }

  /**
   With a last function that needs no frame, f's third variable lies below the
   stack pointer: f means 3 and returns whatever its callee left in that word.
   */
  lemma FrameTooSmall(mc: X86.Machine, env: Env, x: X86.State, w: Word) returns (k: nat)
    requires Loaded(EmptyLast(), mc) && x.On? && |EmptyLast()| == 2 && EmptyLast()[0].Function?
    requires Called(EmptyLast(), 0, x) && Debris(mc, x.regs.rsp - 32, w)
    ensures !Fits(EmptyLast(), 0)
    ensures SourceEnds(mc.world, TIGHT, env, x.tr, Gives(Some(3), x.tr + [CallResult(mc.world, "h", [], x.tr)]))
    ensures AtRetq(mc, X86.Run(mc, x, k), w)
  {
    hide *;
    EmptyLastFrame();
    TightMeans(mc.world, env, x.tr);
    TightStarts(mc, x);
    k := UpToCall(mc, x, "f", THREE_MOVES, "h", TIGHT_TAIL + [EndFunc], 0);
    var j := AfterTight(mc, x, X86.Run(mc, x, k), w);
    X86.RunAdds(mc, x, k, j);
    k := k + j;
  }

  lemma TightStarts(mc: X86.Machine, x: X86.State)
    requires |EmptyLast()| == 2 && EmptyLast()[0].Function?
    requires Loaded(EmptyLast(), mc) && x.On? && Called(EmptyLast(), 0, x)
    ensures X86.CodeAt(mc.code, x.pc, EmitAll([Func("f")] + THREE_MOVES + [CallTo("h", [])] + (TIGHT_TAIL + [EndFunc]), 0))
    ensures x.regs.rsp % 16 == 8 && X86.Entry("h") !in mc.code
    ensures forall i | i in THREE_MOVES :: IsMove(i)
  {
    EmptyLastFrame();
    FunctionEmitted(EmptyLast(), 0, mc);
    if X86.Entry("h") in mc.code {
      EntryIsOwn(EmptyLast(), START, 0, "h");
    }
  }

  lemma AfterTight(mc: X86.Machine, x: X86.State, y: X86.State, w: Word) returns (j: nat)
    requires x.On? && x.regs.rsp % 16 == 8 && X86.Entry("h") !in mc.code && Debris(mc, x.regs.rsp - 32, w)
    requires BeforeCall(mc, x, 0, "h", EmitAll(TIGHT_TAIL + [EndFunc], 0), y)
    ensures AtRetq(mc, X86.Run(mc, y, j), w)
  {
    hide EmitAll, X86.Step, X86.Run, X86.RunStraight, X86.Effect, AtRetq;
    var code := [X86.Store(StackOffset(3)), X86.Load(StackOffset(2)), X86.Store(StackOffset(4)), X86.Load(StackOffset(4))];
    OutsideStep(mc, y, "h", x.regs.rsp - 32, w);
    var z := X86.Step(mc, y);
    TailCode(0);
    HeadAndTail(mc.code, z.pc, code + EPILOGUE, EmitAll([EndFunc], 0));
    TailRuns(mc, z);
    j := StraightThenReturn(mc, code, z);
    FromSecond(mc, y, j);
    j := j + 1;
    WrapWord(w);
  }

  // ---------- a parameter ----------

  // `nuzzle f(chonk a) -> chonk { gimme a; }`
  function OneParameter(): seq<TopLevel> {
    [Function("f", [Param("a", CHONK, 0)], CHONK, Block([Return(Some(Ident("a", 0)))]), 1)]
  }

  lemma OneParameterCode()
    ensures |OneParameter()| == 1 && OneParameter()[0].Function?
    ensures CodeOf(OneParameter(), 0).code == [Func("f")] + [Mov(Temp(0), Var(0)), Ret(Some(Temp(0)))] + [EndFunc]
  {
    var fs, r := OneParameter(), Return(Some(Ident("a", 0)));
    var c1 := START.(temp := 1);
    assert PlaceOf(fs, START, 0) == Place(0, START);
    ReturnName("a", 0, START);
    OneMore(r, [], START, [Mov(Temp(0), Var(0)), Ret(Some(Temp(0)))], c1, [], c1);
    assert [r] + [] == [r];
    assert [Mov(Temp(0), Var(0)), Ret(Some(Temp(0)))] + [] == [Mov(Temp(0), Var(0)), Ret(Some(Temp(0)))];
    BlockCode([r], START);
  }

  lemma ReturnedEmitted(size: nat)
    ensures EmitAll([Func("f")] + [Mov(Temp(0), Var(0)), Ret(Some(Temp(0)))] + [EndFunc], size)
         == Prologue("f", size) + [X86.Load(0), X86.Store(0), X86.Load(0)] + EPILOGUE + EmitAll([EndFunc], size)
  {
    var f, m, r := Func("f"), Mov(Temp(0), Var(0)), Ret(Some(Temp(0)));
    assert [f] + [m, r] + [EndFunc] == [f] + ([m] + ([r] + [EndFunc]));
    C.EmitHead(f, [m] + ([r] + [EndFunc]), size);
    C.EmitHead(m, [r] + [EndFunc], size);
    C.EmitHead(r, [EndFunc], size);
    assert EmitInstr(m, size) == [X86.Load(0), X86.Store(0)];
    assert EmitInstr(r, size) == [X86.Load(0)] + EPILOGUE;
    Joined(Prologue("f", size), [X86.Load(0), X86.Store(0)], [X86.Load(0)], EPILOGUE, EmitAll([EndFunc], size));
  }

  lemma Joined(a: seq<X86.Instr>, b: seq<X86.Instr>, c: seq<X86.Instr>, d: seq<X86.Instr>, e: seq<X86.Instr>)
    ensures a + (b + ((c + d) + e)) == a + (b + c) + d + e
  {
  }

  lemma LoadsBottom(mc: X86.Machine, x: X86.State)
    requires x.On?
    ensures var code := [X86.Load(0), X86.Store(0), X86.Load(0)];
      var t := X86.RunStraight(mc, code, x);
      t.On? && t.pc == x.pc + 3 && t.regs.rax == Wrap(X86.At(x.mem, x.regs.rbp))
  {
    C.Exec3(mc, X86.Load(0), X86.Store(0), X86.Load(0), x);
    WrapWord(Wrap(X86.At(x.mem, x.regs.rbp)));
  }

  /** The slot of a parameter is never set: whatever its argument, the function returns its caller's rbp. */
  lemma ParameterLost(mc: X86.Machine, x: X86.State) returns (k: nat)
    requires |OneParameter()| == 1 && OneParameter()[0].Function?
    requires Loaded(OneParameter(), mc) && x.On? && Called(OneParameter(), 0, x)
    ensures AtRetq(mc, X86.Run(mc, x, k), Wrap(x.regs.rbp))
  {
    hide *;
    var size := KeptFrame(OneParameter());
    KeptMultiple(OneParameter());
    OneParameterCode();
    ReturnedEmitted(size);
    ParameterPlaced(mc, x);
    k := ParameterRuns(mc, x, size);
  }

  lemma ParameterPlaced(mc: X86.Machine, x: X86.State)
    requires |OneParameter()| == 1 && OneParameter()[0].Function?
    requires Loaded(OneParameter(), mc) && x.On? && Called(OneParameter(), 0, x)
    ensures X86.CodeAt(mc.code, x.pc, EmitAll(CodeOf(OneParameter(), 0).code, KeptFrame(OneParameter())))
  {
    hide Loaded, EmitAll, CodeOf, KeptFrame, StartOf, X86.CodeAt;
    FunctionEmitted(OneParameter(), 0, mc);
  }

  lemma ParameterRuns(mc: X86.Machine, x: X86.State, size: nat) returns (k: nat)
    requires x.On? && size % 16 == 0
    requires X86.CodeAt(mc.code, x.pc,
               Prologue("f", size) + [X86.Load(0), X86.Store(0), X86.Load(0)] + EPILOGUE + EmitAll([EndFunc], size))
    ensures AtRetq(mc, X86.Run(mc, x, k), Wrap(x.regs.rbp))
  {
    hide EmitAll, X86.Step, X86.Run, X86.RunStraight, X86.Effect, AtRetq;
    var a, b := Prologue("f", size), [X86.Load(0), X86.Store(0), X86.Load(0)];
    HeadAndTail(mc.code, x.pc, a + b + EPILOGUE, EmitAll([EndFunc], size));
    PrologueRuns(mc, "f", size, x);
    LoadsBottom(mc, X86.RunStraight(mc, a, x));
    X86.RunStraightAdds(mc, a, b, x);
    k := StraightThenReturn(mc, a + b, x);
  }
}
