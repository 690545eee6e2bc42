/**
 Stack frames and calls (src/codegen.c:69-189, src/ir.c:400-433): which registers
 and words come back from a function, from an outside callee, and from a callee
 in the same program.
 */
module Frames {
  import opened Words
  import opened Ast
  import opened Source
  import opened Ir
  import M = IrMachine
  import opened Lowering
  import opened IrShape
  import opened Sharing
  import opened Compiler
  import X86
  import opened Codegen
  import C = CodegenCorrect

  // ---------- the caller's registers ----------

  /** The function returns to the outside with rbp, rbx and r12 as they were when it was called. */
  ghost predicate KeepsSaved(mc: X86.Machine, x: X86.State)
    requires x.On?
  {
    exists j: nat :: SavedBack(x, X86.Run(mc, x, j))
  }

  predicate SavedBack(x: X86.State, y: X86.State)
    requires x.On?
  {
    && y.Exited?
    && y.left.rbp == x.regs.rbp && y.left.rbx == x.regs.rbx && y.left.r12 == x.regs.r12
  }

  // Calls of function i from outside, after the same history.
  ghost predicate OutsideCall(fs: seq<TopLevel>, i: nat, mc: X86.Machine, x: X86.State, tr: seq<Event>)
    requires i < |fs| && fs[i].Function?
  {
    Called(fs, i, x) && FromOutside(mc, x) && x.tr == tr
  }

  /**
   A returning function that reads nothing it has not written gives every outside
   caller its registers back exactly if the kept frame is empty and the body ends,
   or returns without a value, before it evaluates anything.
   */
  lemma CalleeSaved(fs: seq<TopLevel>, i: nat, m: Slots, env: Env, mc: X86.Machine, x0: X86.State, v: Option<Word>,
                    tr: seq<Event>)
    requires i < |fs| && fs[i].Function? && x0.On?
    requires SelfContained(fs, i, m) && Loaded(fs, mc) && OutsideCall(fs, i, mc, x0, x0.tr)
    requires SourceEnds(mc.world, fs[i].body, env, x0.tr, Gives(v, tr))
    ensures (forall x: X86.State | x.On? && OutsideCall(fs, i, mc, x, x0.tr) :: KeepsSaved(mc, x))
      <==> KeptFrame(fs) == 0 && Idle(fs[i].body)
  {
    hide *;
    if Idle(fs[i].body) && KeptFrame(fs) == 0 {
      forall x: X86.State | x.On? && OutsideCall(fs, i, mc, x, x0.tr) ensures KeepsSaved(mc, x) {
        EmptyIdleKeeps(fs, i, mc, x, x0.tr);
      }
    } else if Idle(fs[i].body) {
      var x := FrameLosesRbx(fs, i, mc, x0);
    } else {
      var x := WriterLosesRbp(fs, i, m, env, mc, x0, v, tr);
    }
  }

  lemma EmptyIdleKeeps(fs: seq<TopLevel>, i: nat, mc: X86.Machine, x: X86.State, tr: seq<Event>)
    requires i < |fs| && fs[i].Function? && x.On?
    requires Loaded(fs, mc) && OutsideCall(fs, i, mc, x, tr) && Idle(fs[i].body) && KeptFrame(fs) == 0
    ensures KeepsSaved(mc, x)
  {
    hide Loaded, FrameOf, Idle, KeptFrame, StartOf, X86.Run;
    var j := IdleReturns(fs, i, mc, x);
    WrapWord(x.regs.rbx);
    WrapWord(x.regs.r12);
    assert SavedBack(x, X86.Run(mc, x, j));
  }

  // x with another word where the epilogue will take rbx from.
  function Spoiled(x: X86.State, size: nat): X86.State
    requires x.On?
  {
    x.(mem := x.mem[x.regs.rsp - 16 - size := if x.regs.rbx == 0 then 1 else 0])
  }

  lemma FrameLosesRbx(fs: seq<TopLevel>, i: nat, mc: X86.Machine, x0: X86.State) returns (x: X86.State)
    requires i < |fs| && fs[i].Function? && x0.On?
    requires Loaded(fs, mc) && OutsideCall(fs, i, mc, x0, x0.tr) && Idle(fs[i].body) && KeptFrame(fs) > 0
    ensures x.On? && OutsideCall(fs, i, mc, x, x0.tr) && !KeepsSaved(mc, x)
  {
    hide Loaded, FrameOf, Idle, KeptFrame, StartOf, X86.Run;
    FrameIsMultiple(fs);
    x := Spoiled(x0, KeptFrame(fs));
    var j := IdleReturns(fs, i, mc, x);
    WrapWord(0);
    WrapWord(1);
    NotSaved(mc, x, j);
  }

  lemma FrameIsMultiple(fs: seq<TopLevel>)
    ensures KeptFrame(fs) % 16 == 0
  {
    FrameMultiple(fs, START, 0);
  }

  lemma NotSaved(mc: X86.Machine, x: X86.State, j: nat)
    requires x.On? && !X86.Run(mc, x, j).On? && !SavedBack(x, X86.Run(mc, x, j))
    ensures !KeepsSaved(mc, x)
  {
    forall k: nat ensures !SavedBack(x, X86.Run(mc, x, k)) {
      if SavedBack(x, X86.Run(mc, x, k)) {
        C.SameStop(mc, x, j, k);
      }
    }
  }

  /** A body that evaluates something leaves the same word in rbp for all callers, so not the one in which it differs. */
  lemma WriterLosesRbp(fs: seq<TopLevel>, i: nat, m: Slots, env: Env, mc: X86.Machine, x0: X86.State, v: Option<Word>,
                       tr: seq<Event>) returns (x: X86.State)
    requires SelfContained(fs, i, m) && Loaded(fs, mc) && x0.On? && OutsideCall(fs, i, mc, x0, x0.tr)
    requires SourceEnds(mc.world, fs[i].body, env, x0.tr, Gives(v, tr)) && !Idle(fs[i].body)
    ensures x.On? && OutsideCall(fs, i, mc, x, x0.tr) && !KeepsSaved(mc, x)
  {
    hide Loaded, GenProgram, Idle, KeptFrame, StartOf, X86.Run, C.BottomAfter, SourceEnds, C.RegistersFrom, FrameOf;
    var im, s := ImageOf(fs, mc), StartState(fs, i, m, env, x0.tr);
    CodeMeans(fs, i, m, env, mc, x0.tr);
    var k: nat :| M.Run(im, s, k) == M.Halted(v, tr);
    BottomAtEnd(fs, i, m, env, mc, x0.tr, k);
    x := WithRbp(x0, C.BottomAfter(im, s, k, x0.regs.rbp) + 1);
    var j := Returning(fs, i, m, env, mc, x, v, tr, k);
    assert C.BottomAfter(im, s, k, x.regs.rbp) == C.BottomAfter(im, s, k, x0.regs.rbp);
    NotSaved(mc, x, j);
  }

  // The run of such a call, up to its return.
  lemma Returning(fs: seq<TopLevel>, i: nat, m: Slots, env: Env, mc: X86.Machine, x: X86.State, v: Option<Word>,
                  tr: seq<Event>, k: nat) returns (j: nat)
    requires SelfContained(fs, i, m) && Loaded(fs, mc) && x.On? && OutsideCall(fs, i, mc, x, x.tr)
    requires M.Run(ImageOf(fs, mc), StartState(fs, i, m, env, x.tr), k) == M.Halted(v, tr)
    ensures var y := X86.Run(mc, x, j);
      && y.Exited?
      && y.left.rbp == C.BottomAfter(ImageOf(fs, mc), StartState(fs, i, m, env, x.tr), k, x.regs.rbp)
  {
    var g := EntryHolds(fs, i, m, env, mc, x);
    j := C.ReturnRun(ImageOf(fs, mc), mc, g, FrameOf(fs, i, x), StartState(fs, i, m, env, x.tr), x, k);
  }

  // The function ends here, without a value or with the implicit one.
  predicate Ends(i: Instr) {
    i == Ret(None) || i.EndFunc?
  }

  /** An idle body does nothing between prologue and epilogue. */
  lemma IdleReturns(fs: seq<TopLevel>, i: nat, mc: X86.Machine, x: X86.State) returns (j: nat)
    requires i < |fs| && fs[i].Function? && x.On?
    requires Loaded(fs, mc) && Called(fs, i, x) && FromOutside(mc, x) && Idle(fs[i].body)
    ensures var y := X86.Run(mc, x, j);
      && y.Exited? && y.left.rbp == x.regs.rbp
      && y.left.rbx == Wrap(X86.At(C.EntryMemory(x), x.regs.rsp - 16 - KeptFrame(fs)))
      && y.left.r12 == Wrap(X86.At(C.EntryMemory(x), x.regs.rsp - 24 - KeptFrame(fs)))
  {
    hide *;
    var f, p := FrameOf(fs, i, x), PlaceOf(fs, START, i).pc;
    AtFunc(fs, i, mc, x);
    IdleCode(fs, i);
    j := IdleRun(ImageOf(fs, mc), mc, f, p, x);
    C.RunThenStep(mc, x, j);
    ReturnsOut(fs, i, mc, x, X86.Run(mc, x, j));
    j := j + 1;
  }

  lemma AtFunc(fs: seq<TopLevel>, i: nat, mc: X86.Machine, x: X86.State)
    requires i < |fs| && fs[i].Function? && x.On? && Loaded(fs, mc) && Called(fs, i, x)
    ensures var f, p := FrameOf(fs, i, x), PlaceOf(fs, START, i).pc;
      && C.SameMachine(ImageOf(fs, mc), mc, f) && C.Entering(f, x) && p < |f.pos| && x.pc == f.pos[p]
      && ImageOf(fs, mc).code == GenProgram(fs, START).code
  {
    hide GenProgram, GenFunction, X86.Run, C.SameMachine, X86.Step, C.Pos, KeptFrame;
    FrameSuffices(fs, i, x);
    FunctionPlaced(fs, START, i);
    C.EmittedMachine(ImageOf(fs, mc), mc, FrameOf(fs, i, x));
  }

  lemma ReturnsOut(fs: seq<TopLevel>, i: nat, mc: X86.Machine, x: X86.State, y: X86.State)
    requires i < |fs| && fs[i].Function? && x.On? && FromOutside(mc, x)
    requires AtEnd(mc, FrameOf(fs, i, x), y)
    ensures var z := X86.Step(mc, y);
      && z.Exited? && z.left.rbp == x.regs.rbp
      && z.left.rbx == Wrap(X86.At(C.EntryMemory(x), x.regs.rsp - 16 - KeptFrame(fs)))
      && z.left.r12 == Wrap(X86.At(C.EntryMemory(x), x.regs.rsp - 24 - KeptFrame(fs)))
  {
    hide KeptFrame, CodeOf, C.Layout, GenProgram;
  }

  // Right before `retq`, nothing having been written since the prologue.
  ghost predicate AtEnd(mc: X86.Machine, f: C.Frame, y: X86.State) {
    && y.On? && y.pc < |mc.code| && mc.code[y.pc] == X86.Retq && y.mem == f.saved
    && y.regs.rsp == f.rbp + 8 && y.regs.rbp == X86.At(f.saved, f.rbp)
    && y.regs.rbx == Wrap(X86.At(f.saved, f.rbp - 8 - f.size))
    && y.regs.r12 == Wrap(X86.At(f.saved, f.rbp - 16 - f.size))
  }

  /** From the entry of an idle function to right before its `retq`. */
  lemma IdleRun(im: M.Image, mc: X86.Machine, f: C.Frame, pc: nat, x: X86.State) returns (j: nat)
    requires C.SameMachine(im, mc, f) && pc + 1 < |im.code| && im.code[pc].Func? && Ends(im.code[pc + 1])
    requires C.Entering(f, x) && x.pc == f.pos[pc]
    ensures AtEnd(mc, f, X86.Run(mc, x, j)) && X86.Run(mc, x, j).tr == x.tr
    ensures im.code[pc + 1].EndFunc? ==> X86.Run(mc, x, j).regs.rax == 0
  {
    hide X86.Run, X86.Step, X86.Effect;
    assert C.Placed(im, mc, f, pc) && C.Placed(im, mc, f, pc + 1);
    var j0 := C.PrologueRun(im, mc, f, pc, x);
    var y := X86.Run(mc, x, j0);
    var j1 := EndRun(mc, im.code[pc + 1], f.size, y);
    X86.RunAdds(mc, x, j0, j1);
    j := j0 + j1;
  }

  lemma EndRun(mc: X86.Machine, i: Instr, size: nat, y: X86.State) returns (j: nat)
    requires Ends(i) && y.On? && X86.CodeAt(mc.code, y.pc, EmitInstr(i, size))
    ensures var z := X86.Run(mc, y, j);
      && z.On? && z.pc < |mc.code| && mc.code[z.pc] == X86.Retq && z.mem == y.mem && z.tr == y.tr
      && (i.EndFunc? ==> z.regs.rax == 0)
      && z.regs.rsp == y.regs.rbp + 8 && z.regs.rbp == X86.At(y.mem, y.regs.rbp)
      && z.regs.rbx == Wrap(X86.At(y.mem, y.regs.rsp + 8)) && z.regs.r12 == Wrap(X86.At(y.mem, y.regs.rsp))
  {
    hide X86.Run, X86.Effect, EmitInstr, X86.RunStraight;
    var head := C.ReturnHead(i);
    assert EmitInstr(i, size) == head + EPILOGUE;
    C.EpilogueAfter(mc.code, y.pc, head);
    if i.EndFunc? {
      C.ZeroExec(mc, y);
    }
    HeadRuns(mc, head, y);
    C.EpilogueRun(mc, X86.RunStraight(mc, head, y));
    X86.RunAdds(mc, y, |head|, 3);
    j := |head| + 3;
  }

  lemma HeadRuns(mc: X86.Machine, head: seq<X86.Instr>, y: X86.State)
    requires head == [] || head == [X86.XorRR(X86.RAX, X86.RAX)]
    requires y.On? && X86.CodeAt(mc.code, y.pc, head + EPILOGUE)
    ensures X86.Run(mc, y, |head|) == X86.RunStraight(mc, head, y)
    ensures head == [] ==> X86.RunStraight(mc, head, y) == y
  {
    assert head <= head + EPILOGUE;
    C.PrefixInPlace(mc.code, y.pc, head + EPILOGUE, head);
    X86.RunStraightInPlace(mc, head, y);
  }

  // What stands behind the `func` of an idle function.
  lemma IdleCode(fs: seq<TopLevel>, i: nat)
    requires i < |fs| && fs[i].Function? && Idle(fs[i].body)
    ensures var code, pc := GenProgram(fs, START).code, PlaceOf(fs, START, i).pc;
      && pc + 1 < |code| && code[pc] == Func(fs[i].name) && Ends(code[pc + 1])
      && (FirstAct(fs[i].body).Nothing? ==> code[pc + 1].EndFunc?)
  {
    hide GenStmt, GenProgram, FirstAct;
    var code, p := GenProgram(fs, START).code, PlaceOf(fs, START, i);
    var body, c := fs[i].body, p.c.(temp := 0);
    var part := GenStmt(body, c).code;
    FunctionPlaced(fs, START, i);
    M.CodeSplit3(code, p.pc, [Func(fs[i].name)], part, [EndFunc]);
    M.CodeHead(code, p.pc, Func(fs[i].name));
    M.CodeHead(code, p.pc + 1 + |part|, EndFunc);
    if FirstAct(body).Nothing? {
      NothingCode(body, c);
    } else {
      LeavesCode(body, c);
      assert code[p.pc + 1] == part[0];
    }
  }

  /** For the last function of a program the frame is empty exactly if it has no variables and no temps. */
  lemma EmptyFrame(fs: seq<TopLevel>)
    requires fs != [] && fs[|fs| - 1].Function?
    ensures var i := |fs| - 1;
      && FrameSize(fs[i].locals, CodeOf(fs, i).next.temp) <= KeptFrame(fs)
      && (KeptFrame(fs) == 0 <==> fs[i].locals + CodeOf(fs, i).next.temp == 0)
  {
    LastFunctionFits(fs, START, 0);
  }

  // ---------- what outside callees leave ----------

  function Leaving(mc: X86.Machine, d: X86.Debris): X86.Machine {
    mc.(debris := (r: X86.Regs, m: X86.Memory, t: seq<Event>) => d)
  }

  /** The word at a survives a call, whatever the callee leaves behind. */
  ghost predicate Survives(mc: X86.Machine, s: X86.State, callee: string, n: nat, a: int)
    requires s.On? && s.regs.rsp % 16 == 0
  {
    forall d: X86.Debris :: X86.At(X86.AfterCall(Leaving(mc, d), s, callee, n).mem, a) == X86.At(s.mem, a)
  }

  lemma WordSurvives(mc: X86.Machine, s: X86.State, callee: string, n: nat, a: int)
    requires s.On? && s.regs.rsp % 16 == 0
    ensures Survives(mc, s, callee, n, a) <==> a >= s.regs.rsp + 8 * X86.StackArgs(n)
  {
    if a < s.regs.rsp + 8 * X86.StackArgs(n) {
      var d := X86.Debris(s.regs, map[a := X86.At(s.mem, a) + 1], false, false);
      assert X86.At(d.mem, a) == X86.At(s.mem, a) + 1;
      assert X86.At(X86.AfterCall(Leaving(mc, d), s, callee, n).mem, a) == X86.At(d.mem, a);
    }
  }

  /** All slots of a frame survive a call from its body exactly if they fit it, up to 16 bytes and the call's padding. */
  lemma SlotsSurvive(mc: X86.Machine, f: C.Frame, s: X86.State, callee: string, n: nat)
    requires s.On? && s.regs.rsp % 16 == 0
    requires s.regs.rsp == f.rbp - 16 - f.size - 8 * X86.StackArgs(n) - Padding(n)
    ensures (forall k: nat | k < f.words :: Survives(mc, s, callee, n, f.rbp + StackOffset(k)))
      <==> 8 * f.words <= f.size + 16 + Padding(n)
  {
    forall k: nat
      ensures Survives(mc, s, callee, n, f.rbp + StackOffset(k)) <==>
              f.rbp + StackOffset(k) >= s.regs.rsp + 8 * X86.StackArgs(n)
    {
      WordSurvives(mc, s, callee, n, f.rbp + StackOffset(k));
    }
    if f.words > 0 && 8 * f.words > f.size + 16 + Padding(n) {
      assert !Survives(mc, s, callee, n, f.rbp + StackOffset(f.words - 1));
    }
  }

  // ---------- calls inside the program ----------

  // No function before i has its name.
  predicate FirstOfName(fs: seq<TopLevel>, i: nat)
    requires i < |fs| && fs[i].Function?
  {
    forall j | 0 <= j < i && fs[j].Function? :: fs[j].name != fs[i].name
  }

  /** The machine is about to call function i of the program, with an aligned stack. */
  predicate AtCall(fs: seq<TopLevel>, i: nat, mc: X86.Machine, x: X86.State)
    requires i < |fs| && fs[i].Function?
  {
    && FirstOfName(fs, i) && x.On? && x.pc + 1 < |mc.code| && x.regs.rsp % 16 == 0
    && mc.code[x.pc].Call? && mc.code[x.pc].callee == fs[i].name
  }

  lemma {:induction false} FirstFunc(fs: seq<TopLevel>, c: Counters, i: nat)
    requires i < |fs| && fs[i].Function? && FirstOfName(fs, i)
    ensures var p, code := PlaceOf(fs, c, i).pc, GenProgram(fs, c).code;
      && p < |code| && code[p] == Func(fs[i].name)
      && forall j | 0 <= j < p :: code[j] != Func(fs[i].name)
  {
    FunctionPlaced(fs, c, i);
    FuncFirst(GenProgram(fs, c).code, PlaceOf(fs, c, i).pc, fs[i].name, fs[i].body, PlaceOf(fs, c, i).c);
    if fs[0].Global? {
      FirstFunc(fs[1..], c, i - 1);
    } else if i > 0 {
      var g := GenFunction(fs[0].name, fs[0].body, c);
      OneFunc(fs[0].name, fs[0].body, c, fs[i].name);
      FirstFunc(fs[1..], g.next, i - 1);
    }
  }

  lemma OneFunc(f: string, body: Stmt, c: Counters, name: string)
    requires f != name
    ensures forall j | 0 <= j < |GenFunction(f, body, c).code| :: GenFunction(f, body, c).code[j] != Func(name)
  {
    var g := GenStmt(body, c.(temp := 0)).code;
    CallsNoneOfNone(body);
    StmtKin(body, c.(temp := 0), {});
    assert GenFunction(f, body, c).code == [Func(f)] + g + [EndFunc];
  }

  lemma {:induction false} EntryFound(code: seq<Instr>, size: nat, name: string, pc: nat)
    requires pc < |code| && code[pc] == Func(name) && forall j | 0 <= j < pc :: code[j] != Func(name)
    ensures X86.FindEntry(EmitAll(code, size), name) == C.Pos(code, size, pc)
    ensures X86.Entry(name) in EmitAll(code, size)
  {
    if pc == 0 {
      assert EmitAll(code, size)[0] == X86.Entry(name);
    } else {
      NoEntry(code[0], size, name);
      EntrySkips(EmitInstr(code[0], size), EmitAll(code[1..], size), name);
      EntryFound(code[1..], size, name, pc - 1);
      assert code[..pc][0] == code[0] && code[..pc][1..] == code[1..][..pc - 1];
    }
  }

  lemma {:induction false} EntrySkips(a: seq<X86.Instr>, b: seq<X86.Instr>, name: string)
    requires X86.Entry(name) !in a
    ensures X86.FindEntry(a + b, name) == |a| + X86.FindEntry(b, name)
  {
    if a == [] {
      assert a + b == b;
    } else {
      assert (a + b)[0] == a[0] && (a + b)[1..] == a[1..] + b;
      EntrySkips(a[1..], b, name);
    }
  }

  /** The `call` goes to the function, with the return address on the stack. */
  lemma CallEnters(fs: seq<TopLevel>, i: nat, mc: X86.Machine, x: X86.State)
    requires i < |fs| && fs[i].Function? && Loaded(fs, mc) && AtCall(fs, i, mc, x)
    ensures var y := X86.Step(mc, x);
      && y.On? && Called(fs, i, y) && y.tr == x.tr && y.regs == x.regs.(rsp := x.regs.rsp - 8)
      && X86.At(y.mem, y.regs.rsp) == mc.origin + x.pc + 1 && X86.InCode(mc, X86.At(y.mem, y.regs.rsp))
      && forall a | a >= x.regs.rsp :: X86.At(y.mem, a) == X86.At(x.mem, a)
  {
    hide X86.Step, X86.FindEntry, StartOf, Loaded;
    EntryPlace(fs, i, mc);
    Entering(mc, fs[i].name, x, X86.FindEntry(mc.code, fs[i].name));
  }

  lemma EntryPlace(fs: seq<TopLevel>, i: nat, mc: X86.Machine)
    requires i < |fs| && fs[i].Function? && Loaded(fs, mc) && FirstOfName(fs, i)
    ensures X86.FindEntry(mc.code, fs[i].name) == StartOf(fs, i) && X86.Entry(fs[i].name) in mc.code
  {
    hide GenProgram, EmitAll, KeptFrame, X86.FindEntry;
    FirstFunc(fs, START, i);
    EntryFound(GenProgram(fs, START).code, KeptFrame(fs), fs[i].name, PlaceOf(fs, START, i).pc);
  }

  lemma Entering(mc: X86.Machine, f: string, x: X86.State, to: nat)
    requires x.On? && x.pc + 1 < |mc.code| && mc.code[x.pc].Call? && mc.code[x.pc].callee == f
    requires X86.Entry(f) in mc.code && to == X86.FindEntry(mc.code, f)
    ensures var y := X86.Step(mc, x);
      && y.On? && y.pc == to && y.tr == x.tr && y.regs == x.regs.(rsp := x.regs.rsp - 8)
      && X86.At(y.mem, y.regs.rsp) == mc.origin + x.pc + 1 && X86.InCode(mc, X86.At(y.mem, y.regs.rsp))
      && forall a | a >= x.regs.rsp :: X86.At(y.mem, a) == X86.At(x.mem, a)
  {
    hide X86.FindEntry, X86.Effect;
  }

  /** Behind the call at x: the callee's value and history, the stack as it was. */
  ghost predicate Back(x: X86.State, y: X86.State, v: Option<Word>, tr: seq<Event>)
    requires x.On?
  {
    && y.On? && y.pc == x.pc + 1 && y.tr == tr && (v.Some? ==> y.regs.rax == v.value)
    && y.regs.rsp == x.regs.rsp && forall a | a >= x.regs.rsp :: X86.At(y.mem, a) == X86.At(x.mem, a)
  }

  // The callee's slots hold what env says.
  ghost predicate FoundBy(body: Stmt, m: Slots, env: Env, mc: X86.Machine, x: X86.State) {
    var y := X86.Step(mc, x);
    y.On? && StartsFrom(body, m, env, y)
  }

  lemma NothingToFind(fs: seq<TopLevel>, i: nat, m: Slots, env: Env, mc: X86.Machine, x: X86.State)
    requires i < |fs| && fs[i].Function?
    requires SelfContained(fs, i, m) && Loaded(fs, mc) && AtCall(fs, i, mc, x)
    ensures FoundBy(fs[i].body, m, env, mc, x)
  {
    hide X86.Step, StartOf, Loaded;
    CallEnters(fs, i, mc, x);
  }

  /**
   A call of a function of the same program comes back with the callee's value and
   leaves the stack as it was; rbp is whatever the callee last wrote to slot 0 or
   temp 0, and the caller's only if it wrote neither.
   */
  lemma InternalCall(fs: seq<TopLevel>, i: nat, m: Slots, env: Env, mc: X86.Machine, x: X86.State, v: Option<Word>,
                     tr: seq<Event>, k: nat) returns (j: nat)
    requires i < |fs| && fs[i].Function? && x.On?
    requires Right(fs, i, m) && Loaded(fs, mc) && AtCall(fs, i, mc, x) && FoundBy(fs[i].body, m, env, mc, x)
    requires M.Run(ImageOf(fs, mc), StartState(fs, i, m, env, x.tr), k) == M.Halted(v, tr)
    ensures var y := X86.Run(mc, x, j);
      && Back(x, y, v, tr)
      && y.regs.rbp == C.BottomAfter(ImageOf(fs, mc), StartState(fs, i, m, env, x.tr), k, x.regs.rbp)
  {
    hide *;
    var y := X86.Step(mc, x);
    CallEnters(fs, i, mc, x);
    FoundIs(fs[i].body, m, env, mc, x);
    var n := CalleeRuns(fs, i, m, env, mc, y, v, tr, k);
    BackFrom(mc, x, y, X86.Run(mc, y, n), v, tr);
    FromSecond(mc, x, n);
    j := n + 1;
  }

  lemma FoundIs(body: Stmt, m: Slots, env: Env, mc: X86.Machine, x: X86.State)
    requires FoundBy(body, m, env, mc, x)
    ensures X86.Step(mc, x).On? && StartsFrom(body, m, env, X86.Step(mc, x))
  {
  }

  lemma FromSecond(mc: X86.Machine, x: X86.State, n: nat)
    ensures X86.Run(mc, x, n + 1) == X86.Run(mc, X86.Step(mc, x), n)
  {
    hide X86.Step;
  }

  // Entered by a call inside the program.
  lemma CalleeRuns(fs: seq<TopLevel>, i: nat, m: Slots, env: Env, mc: X86.Machine, y: X86.State, v: Option<Word>,
                   tr: seq<Event>, k: nat) returns (n: nat)
    requires i < |fs| && fs[i].Function? && y.On?
    requires Right(fs, i, m) && Loaded(fs, mc) && Called(fs, i, y) && X86.InCode(mc, X86.At(y.mem, y.regs.rsp))
    requires StartsFrom(fs[i].body, m, env, y)
    requires M.Run(ImageOf(fs, mc), StartState(fs, i, m, env, y.tr), k) == M.Halted(v, tr)
    ensures var z := X86.Run(mc, y, n);
      && C.ReturnsTo(mc, y, z, v, tr)
      && z.regs.rbp == C.BottomAfter(ImageOf(fs, mc), StartState(fs, i, m, env, y.tr), k, y.regs.rbp)
  {
    hide *;
    var g := EntryHolds(fs, i, m, env, mc, y);
    n := C.ReturnRun(ImageOf(fs, mc), mc, g, FrameOf(fs, i, y), StartState(fs, i, m, env, y.tr), y, k);
  }

  lemma BackFrom(mc: X86.Machine, x: X86.State, y: X86.State, z: X86.State, v: Option<Word>, tr: seq<Event>)
    requires x.On? && y.On? && y.regs.rsp == x.regs.rsp - 8 && X86.At(y.mem, y.regs.rsp) == mc.origin + x.pc + 1
    requires forall a | a >= x.regs.rsp :: X86.At(y.mem, a) == X86.At(x.mem, a)
    requires C.ReturnsTo(mc, y, z, v, tr)
    ensures Back(x, z, v, tr)
  {
  }

  // ---------- which internal calls are harmless ----------

  // What a body does before anything else that has code.
  datatype Act = Nothing | Leaves | Computes

  function FirstAct(s: Stmt): Act {
    match s
    case Return(e) => if e.None? then Leaves else Computes
    case Decl(_, _, init, _) => if init.None? then Nothing else Computes
    case Block(ss) => FirstOf(ss)
    case For(cs, _) => if cs == [] || FirstAct(cs[0]).Nothing? then Computes else FirstAct(cs[0])
    case ExprStmt(e) => if e.Assign? || e.Binary? || e.Unary? || e.Call? then Computes else Nothing
    case If(_, _, _) | While(_, _) => Computes
    case Break | Continue => Nothing
  }

  function FirstOf(ss: seq<Stmt>): Act {
    if ss == [] then Nothing else if FirstAct(ss[0]).Nothing? then FirstOf(ss[1..]) else FirstAct(ss[0])
  }

  /** The body ends, or returns without a value, before it evaluates anything. */
  predicate Idle(s: Stmt) {
    !FirstAct(s).Computes?
  }

  lemma {:induction false} NothingCode(s: Stmt, c: Counters)
    requires FirstAct(s).Nothing?
    ensures GenStmt(s, c) == StmtCode([], c)
    decreases s, 1
  {
    if s.Block? {
      NothingCodes(s.stmts, c);
    }
  }

  lemma {:induction false} NothingCodes(ss: seq<Stmt>, c: Counters)
    requires FirstOf(ss).Nothing?
    ensures GenStmts(ss, c) == StmtCode([], c)
    decreases ss, 0
  {
    if ss != [] {
      NothingCode(ss[0], c);
      NothingCodes(ss[1..], c);
    }
  }

  lemma {:induction false} LeavesCode(s: Stmt, c: Counters)
    requires FirstAct(s).Leaves?
    ensures GenStmt(s, c).code != [] && GenStmt(s, c).code[0] == Ret(None)
    decreases s, 1
  {
    match s
    case Block(ss) => LeavesCodes(ss, c);
    case For(cs, _) => LeavesCode(cs[0], c);
    case Return(_) =>
  }

  lemma {:induction false} LeavesCodes(ss: seq<Stmt>, c: Counters)
    requires FirstOf(ss).Leaves?
    ensures GenStmts(ss, c).code != [] && GenStmts(ss, c).code[0] == Ret(None)
    decreases ss, 0
  {
    if FirstAct(ss[0]).Nothing? {
      NothingCode(ss[0], c);
      LeavesCodes(ss[1..], c);
    } else {
      LeavesCode(ss[0], c);
    }
  }

  predicate GoesOn(i: Instr) {
    !i.Jmp? && !i.Brz? && !i.Ret? && !i.EndFunc?
  }

  // The instruction at n writes temp 0, and nothing before it goes elsewhere.
  predicate Ahead(code: seq<Instr>, n: nat) {
    n < |code| && Def(code[n]) == Some(Temp(0)) && forall j | 0 <= j < n :: GoesOn(code[j])
  }

  lemma ExprAhead(e: Expr, c: Counters) returns (n: nat)
    requires SupportedExpr(e) && c.temp == 0
    ensures Ahead(GenExpr(e, c).code, n)
  {
    var code := GenExpr(e, c).code;
    ExprOnce(e, c, TempMark(0));
    CountPositive(code, IrShape.Marks(TempMark(0)));
    n :| 0 <= n < |code| && Def(code[n]) == Some(Temp(0));
    ExprStraight(e, c);
    assert forall j | 0 <= j < n :: !IsControl(code[j]);
  }

  lemma AheadOf(a: seq<Instr>, b: seq<Instr>, n: nat)
    requires Ahead(a, n)
    ensures Ahead(a + b, n)
  {
  }

  lemma AheadBehind(i: Instr, a: seq<Instr>, n: nat)
    requires Ahead(a, n) && GoesOn(i)
    ensures Ahead([i] + a, n + 1)
  {
  }

  /** A body that evaluates something first writes temp 0 before it can do anything else. */
  lemma {:induction false} StmtAhead(s: Stmt, c: Counters) returns (n: nat)
    requires SupportedStmt(s) && FirstAct(s).Computes? && c.temp == 0
    ensures Ahead(GenStmt(s, c).code, n)
    decreases s, 1
  {
    hide Ahead, GenExpr;
    match s
    case Return(e) =>
      n := ExprAhead(e.value, c);
      AheadOf(GenExpr(e.value, c).code, [Ret(Some(GenExpr(e.value, c).res))], n);
    case Decl(_, _, init, slot) => n := StoreAhead(slot, init.value, c);
    case ExprStmt(e) =>
      if e.Assign? {
        n := StoreAhead(SlotOf(e.target), e.source, c);
      } else {
        n := ExprAhead(e, c);
      }
    case If(_, _, _) =>
      var h := ShapeOfIf(s, c);
      var g := GenExpr(s.cond, c);
      n := ExprAhead(s.cond, c);
      AheadOf(g.code, [Brz(g.res, h.other)], n);
      AheadOf(h.test, h.thn.code, n);
      AheadOf(h.test + h.thn.code, h.last, n);
      assert GenIf(s, c).code == h.test + h.thn.code + h.last;
    case While(_, _) => n := LoopAhead(ShapeOfWhile(s, c));
    case Block(ss) => n := BlockAhead(ss, c);
    case For(_, _) => n := ForAhead(s, c);
  }

  lemma StoreAhead(slot: nat, e: Expr, c: Counters) returns (n: nat)
    requires SupportedExpr(e) && c.temp == 0
    ensures Ahead(StoreTo(slot, e, c).code, n)
  {
    n := ExprAhead(e, c);
    AheadOf(GenExpr(e, c).code, [Mov(Var(slot), GenExpr(e, c).res)], n);
  }

  lemma LoopAhead(h: LoopShape) returns (n: nat)
    requires SupportedExpr(h.cond) && h.cc.temp == 0
    ensures Ahead(LoopCode(h), n)
  {
    var g := GenExpr(h.cond, h.cc);
    n := ExprAhead(h.cond, h.cc);
    AheadOf(g.code, [Brz(g.res, h.end)], n);
    AheadBehind(Label(h.start), LoopTest(h), n);
    n := n + 1;
    var body, step := GenStmt(h.body, h.cb).code, LoopStep(h);
    AheadOf([Label(h.start)] + LoopTest(h), body, n);
    AheadOf([Label(h.start)] + LoopTest(h) + body, step, n);
    AheadOf([Label(h.start)] + LoopTest(h) + body + step, [Jmp(h.start), Label(h.end)], n);
  }

  lemma {:induction false} ForAhead(s: Stmt, c: Counters) returns (n: nat)
    requires s.For? && SupportedStmt(s) && FirstAct(s).Computes? && c.temp == 0
    ensures Ahead(GenFor(s, c).code, n)
    decreases s, 0
  {
    var h := ShapeOfFor(s, c);
    if FirstAct(s.clauses[0]).Nothing? {
      NothingCode(s.clauses[0], c);
      n := LoopAhead(h);
      assert [] + LoopCode(h) == LoopCode(h);
    } else {
      n := StmtAhead(s.clauses[0], c);
      AheadOf(GenStmt(s.clauses[0], c).code, LoopCode(h), n);
    }
  }

  lemma {:induction false} BlockAhead(ss: seq<Stmt>, c: Counters) returns (n: nat)
    requires (forall t | t in ss :: SupportedStmt(t)) && FirstOf(ss).Computes? && c.temp == 0
    ensures Ahead(GenStmts(ss, c).code, n)
    decreases ss, 0
  {
    var rest := GenStmts(ss[1..], GenStmt(ss[0], c).next).code;
    if FirstAct(ss[0]).Nothing? {
      NothingCode(ss[0], c);
      n := BlockAhead(ss[1..], c);
      assert [] + rest == rest;
    } else {
      n := StmtAhead(ss[0], c);
      AheadOf(GenStmt(ss[0], c).code, rest, n);
    }
  }

  /** What is at rbp at the end of such a run does not depend on what was there. */
  lemma {:induction false} Wiped(im: M.Image, s: M.State, code: seq<Instr>, n: nat, k: nat)
    requires s.Running? && M.CodeAt(im.code, s.pc, code) && Ahead(code, n) && M.Run(im, s, k).Halted?
    ensures forall b, b1 :: C.BottomAfter(im, s, k, b) == C.BottomAfter(im, s, k, b1)
    decreases n
  {
    hide C.BottomAfter, C.NextBottom, M.Step;
    var t := M.Step(im, s);
    assert im.code[s.pc] == code[0] && k > 0;
    if !t.Running? {
      M.RunStopped(im, t, 0, k - 1);
      NeitherHalts(im, s);
      assert false;
    } else if n > 0 {
      M.CodeSplit(im.code, s.pc, code[..1], code[1..]);
      assert code[..1] + code[1..] == code;
      OneStep(im, s);
      Wiped(im, t, code[1..], n - 1, k - 1);
    } else {
      WritesNow(im, s);
    }
    forall b, b1 ensures C.BottomAfter(im, s, k, b) == C.BottomAfter(im, s, k, b1) {
      BottomNext(im, s, k, b);
      BottomNext(im, s, k, b1);
    }
  }

  lemma BottomNext(im: M.Image, s: M.State, k: nat, b: int)
    requires k > 0
    ensures C.BottomAfter(im, s, k, b) == C.BottomAfter(im, M.Step(im, s), k - 1, C.NextBottom(im, s, b))
  {
  }

  lemma NeitherHalts(im: M.Image, s: M.State)
    requires s.Running? && s.pc < |im.code|
    requires GoesOn(im.code[s.pc]) || Def(im.code[s.pc]).Some?
    ensures !M.Step(im, s).Halted?
  {
  }

  lemma OneStep(im: M.Image, s: M.State)
    requires s.Running? && s.pc < |im.code| && GoesOn(im.code[s.pc]) && M.Step(im, s).Running?
    ensures M.Step(im, s).pc == s.pc + 1
  {
  }

  lemma WritesNow(im: M.Image, s: M.State)
    requires s.Running? && s.pc < |im.code| && Def(im.code[s.pc]) == Some(Temp(0)) && M.Step(im, s).Running?
    ensures forall b, b1 :: C.NextBottom(im, s, b) == C.NextBottom(im, s, b1)
  {
    hide M.Step;
  }

  function WithRbp(x: X86.State, b: int): X86.State
    requires x.On?
  {
    x.(regs := x.regs.(rbp := b))
  }

  /** The call at x comes back, as promised, with r in rbp. */
  ghost predicate CallLeaves(mc: X86.Machine, x: X86.State, r: int, v: Option<Word>, tr: seq<Event>)
    requires x.On?
  {
    exists j: nat :: BackWith(x, X86.Run(mc, x, j), r, v, tr)
  }

  ghost predicate BackWith(x: X86.State, y: X86.State, r: int, v: Option<Word>, tr: seq<Event>)
    requires x.On?
  {
    Back(x, y, v, tr) && y.regs.rbp == r
  }

  // What an idle function returns: 0 if it falls off its end.
  function IdleValue(body: Stmt): Option<Word> {
    if FirstAct(body).Nothing? then Some(0) else None
  }

  /**
   A call of an idle function of the same program, whatever its body contains
   behind its end, comes back with rbp and the stack as they were.
   */
  lemma IdleCall(fs: seq<TopLevel>, i: nat, mc: X86.Machine, x: X86.State) returns (j: nat)
    requires i < |fs| && fs[i].Function? && x.On?
    requires Loaded(fs, mc) && AtCall(fs, i, mc, x) && Idle(fs[i].body)
    ensures BackWith(x, X86.Run(mc, x, j), x.regs.rbp, IdleValue(fs[i].body), x.tr)
  {
    hide *;
    var y := X86.Step(mc, x);
    CallEnters(fs, i, mc, x);
    AtFunc(fs, i, mc, y);
    IdleCode(fs, i);
    j := IdleRun(ImageOf(fs, mc), mc, FrameOf(fs, i, y), PlaceOf(fs, START, i).pc, y);
    C.RunThenStep(mc, y, j);
    IdleValueIs(fs[i].body);
    IdleBack(fs, i, mc, x, y, X86.Run(mc, y, j), IdleValue(fs[i].body));
    FromSecond(mc, x, j + 1);
    j := j + 2;
  }

  lemma IdleValueIs(body: Stmt)
    ensures IdleValue(body).Some? ==> FirstAct(body).Nothing? && IdleValue(body).value == 0
  {
  }

  lemma IdleBack(fs: seq<TopLevel>, i: nat, mc: X86.Machine, x: X86.State, y: X86.State, z: X86.State, v: Option<Word>)
    requires i < |fs| && fs[i].Function? && x.On? && y.On? && y.regs == x.regs.(rsp := x.regs.rsp - 8) && y.tr == x.tr
    requires X86.At(y.mem, y.regs.rsp) == mc.origin + x.pc + 1 && X86.InCode(mc, X86.At(y.mem, y.regs.rsp))
    requires forall a | a >= x.regs.rsp :: X86.At(y.mem, a) == X86.At(x.mem, a)
    requires AtEnd(mc, FrameOf(fs, i, y), z) && z.tr == y.tr && (v.Some? ==> z.regs.rax == v.value)
    ensures BackWith(x, X86.Step(mc, z), x.regs.rbp, v, x.tr)
  {
    hide KeptFrame, CodeOf, C.Layout, GenProgram;
  }

  /**
   A returning callee of the same program gives every caller its rbp back exactly
   if it is idle; any other leaves the same word there for all callers.
   */
  lemma HarmlessCall(fs: seq<TopLevel>, i: nat, m: Slots, env: Env, mc: X86.Machine, x: X86.State, v: Option<Word>,
                     tr: seq<Event>) returns (word: int)
    requires SelfContained(fs, i, m) && Loaded(fs, mc) && AtCall(fs, i, mc, x)
    requires SourceEnds(mc.world, fs[i].body, env, x.tr, Gives(v, tr))
    ensures forall b: int :: CallLeaves(mc, WithRbp(x, b), if Idle(fs[i].body) then b else word, v, tr)
  {
    var im, s := ImageOf(fs, mc), StartState(fs, i, m, env, x.tr);
    CodeMeans(fs, i, m, env, mc, x.tr);
    var k: nat :| M.Run(im, s, k) == M.Halted(v, tr);
    word := C.BottomAfter(im, s, k, 0);
    BottomAtEnd(fs, i, m, env, mc, x.tr, k);
    forall b: int ensures CallLeaves(mc, WithRbp(x, b), if Idle(fs[i].body) then b else word, v, tr) {
      OneCaller(fs, i, m, env, mc, WithRbp(x, b), v, tr, k, if Idle(fs[i].body) then b else word);
    }
  }

  lemma OneCaller(fs: seq<TopLevel>, i: nat, m: Slots, env: Env, mc: X86.Machine, x: X86.State, v: Option<Word>,
                  tr: seq<Event>, k: nat, r: int)
    requires i < |fs| && fs[i].Function? && x.On?
    requires SelfContained(fs, i, m) && Loaded(fs, mc) && AtCall(fs, i, mc, x)
    requires M.Run(ImageOf(fs, mc), StartState(fs, i, m, env, x.tr), k) == M.Halted(v, tr)
    requires C.BottomAfter(ImageOf(fs, mc), StartState(fs, i, m, env, x.tr), k, x.regs.rbp) == r
    ensures CallLeaves(mc, x, r, v, tr)
  {
    NothingToFind(fs, i, m, env, mc, x);
    var j := InternalCall(fs, i, m, env, mc, x, v, tr, k);
    assert BackWith(x, X86.Run(mc, x, j), r, v, tr);
  }

  lemma BottomAtEnd(fs: seq<TopLevel>, i: nat, m: Slots, env: Env, mc: X86.Machine, tr: seq<Event>, k: nat)
    requires Right(fs, i, m) && Loaded(fs, mc)
    requires M.Run(ImageOf(fs, mc), StartState(fs, i, m, env, tr), k).Halted?
    ensures var im, s := ImageOf(fs, mc), StartState(fs, i, m, env, tr);
      if Idle(fs[i].body) then forall b :: C.BottomAfter(im, s, k, b) == b
      else forall b, b1 :: C.BottomAfter(im, s, k, b) == C.BottomAfter(im, s, k, b1)
  {
    hide GenStmt, GenProgram, FirstAct, Ahead, Loaded;
    var im, s, p := ImageOf(fs, mc), StartState(fs, i, m, env, tr), PlaceOf(fs, START, i);
    var body, c := fs[i].body, p.c.(temp := 0);
    if Idle(body) {
      IdleCode(fs, i);
      StopsIdle(im, s, k);
    } else {
      var code := GenStmt(body, c).code;
      FunctionPlaced(fs, START, i);
      M.CodeSplit3(im.code, p.pc, [Func(fs[i].name)], code, [EndFunc]);
      M.CodeHead(im.code, p.pc, Func(fs[i].name));
      var n := StmtAhead(body, c);
      Wiped(im, M.Step(im, s), code, n, k - 1);
      C.BottomStays(im, s, 0);
      forall b, b1 ensures C.BottomAfter(im, s, k, b) == C.BottomAfter(im, s, k, b1) {
        C.BottomStays(im, s, b);
        C.BottomStays(im, s, b1);
      }
    }
  }

  // `func`, and then the end at once.
  lemma StopsIdle(im: M.Image, s: M.State, k: nat)
    requires s.Running? && s.pc + 1 < |im.code| && im.code[s.pc].Func?
    requires Ends(im.code[s.pc + 1])
    requires M.Run(im, s, k).Halted?
    ensures forall b :: C.BottomAfter(im, s, k, b) == b
  {
    var t := M.Step(im, s);
    var u := M.Step(im, t);
    assert u.Halted?;
    assert k >= 2;
    forall b ensures C.BottomAfter(im, s, k, b) == b {
      C.BottomStopped(im, u, k - 2, b);
      assert C.BottomAfter(im, t, k - 1, b) == C.BottomAfter(im, u, k - 2, b);
    }
  }
}
