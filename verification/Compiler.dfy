/**
 From a resolved function to running machine code: the whole back end at once.
 */
module Compiler {
  import opened Words
  import opened Ast
  import opened Source
  import opened Ir
  import M = IrMachine
  import opened Lowering
  import opened IrShape
  import opened Liveness
  import opened Sharing
  import X86
  import Codegen
  import C = CodegenCorrect

  const START: Counters := Counters(0, 0, 0)

  // Where a function's code starts in the program's list, and the counters there.
  datatype Place = Place(pc: nat, c: Counters)

  function PlaceOf(fs: seq<TopLevel>, c: Counters, i: nat): Place
    requires i < |fs| && fs[i].Function?
  {
    if fs[0].Global? then PlaceOf(fs[1..], c, i - 1)
    else if i == 0 then Place(0, c)
    else
      var g := GenFunction(fs[0].name, fs[0].body, c);
      var p := PlaceOf(fs[1..], g.next, i - 1);
      Place(|g.code| + p.pc, p.c)
  }

  function CodeOf(fs: seq<TopLevel>, i: nat): StmtCode
    requires i < |fs| && fs[i].Function?
  {
    GenFunction(fs[i].name, fs[i].body, PlaceOf(fs, START, i).c)
  }

  lemma {:induction false} FunctionPlaced(fs: seq<TopLevel>, c: Counters, i: nat)
    requires i < |fs| && fs[i].Function?
    ensures var p := PlaceOf(fs, c, i);
      M.CodeAt(GenProgram(fs, c).code, p.pc, GenFunction(fs[i].name, fs[i].body, p.c).code)
  {
    if fs[0].Global? {
      FunctionPlaced(fs[1..], c, i - 1);
    } else if i == 0 {
      InFront(GenFunction(fs[0].name, fs[0].body, c).code,
              GenProgram(fs[1..], GenFunction(fs[0].name, fs[0].body, c).next).code);
    } else {
      var g := GenFunction(fs[0].name, fs[0].body, c);
      var p := PlaceOf(fs[1..], g.next, i - 1);
      FunctionPlaced(fs[1..], g.next, i - 1);
      Behind(g.code, GenProgram(fs[1..], g.next).code, p.pc, GenFunction(fs[i].name, fs[i].body, p.c).code);
    }
  }

  lemma InFront(a: seq<Instr>, b: seq<Instr>)
    ensures M.CodeAt(a + b, 0, a)
  {
  }

  lemma Behind(a: seq<Instr>, b: seq<Instr>, pc: nat, part: seq<Instr>)
    requires M.CodeAt(b, pc, part)
    ensures M.CodeAt(a + b, |a| + pc, part)
  {
  }

  lemma {:induction false} CountPositive(code: seq<Instr>, p: Instr -> bool)
    requires Count(code, p) > 0
    ensures exists i :: 0 <= i < |code| && p(code[i])
  {
    if p(code[0]) {
    } else {
      CountPositive(code[1..], p);
      var j :| 0 <= j < |code[1..]| && p(code[1..][j]);
      assert p(code[j + 1]);
    }
  }

  // A resolved body of supported statements in which no shared stack word is written while it is needed.
  ghost predicate Compilable(body: Stmt, m: Slots, locals: nat) {
    && body.Block? && SupportedStmt(body) && ClearBody(body)
    && ResolvedStmt(body, m) && Injective(m) && Below(m, locals)
  }

  lemma BodyFits(name: string, body: Stmt, c: Counters, m: Slots, locals: nat, words: nat, i: nat)
    requires Compilable(body, m, locals)
    requires GenFunction(name, body, c).next.temp <= words && locals <= words
    requires i < |BodyCode(body, c)|
    ensures C.InstrFits(BodyCode(body, c), i, words)
  {
    var code := GenFunction(name, body, c).code;
    FunctionInOrder(name, body, c, m, locals);
    assert code == [Func(name)] + BodyCode(body, c);
    assert code[i + 1] == BodyCode(body, c)[i];
    assert InOrderAt(code, i + 1, c.(temp := 0), GenFunction(name, body, c).next, locals);
    if i > 0 {
      assert code[i] == BodyCode(body, c)[i - 1];
    }
    if i + 1 < |BodyCode(body, c)| {
      assert code[i + 2] == BodyCode(body, c)[i + 1];
    }
  }

  /** The region that the emitter's proof asks for. */
  lemma RegionFor(im: M.Image, name: string, body: Stmt, c: Counters, m: Slots, locals: nat, pc: nat, f: C.Frame)
    returns (g: C.Region)
    requires Compilable(body, m, locals) && M.UniqueLabels(im.code)
    requires M.CodeAt(im.code, pc, GenFunction(name, body, c).code)
    requires GenFunction(name, body, c).next.temp <= f.words && locals <= f.words
    ensures C.RegionOk(im, g, f) && g.start == pc + 1 && g.code == BodyCode(body, c)
    ensures g.lives != [] && g.lives[0] == Vars(Wanted(body))
  {
    var lives, marks := BodyLives(body, c);
    var code := BodyCode(body, c);
    g := C.Region(pc + 1, code, lives, marks);
    assert GenFunction(name, body, c).code == [Func(name)] + code;
    M.CodeSplit(im.code, pc, [Func(name)], code);
    forall i | 0 <= i < |code| ensures C.InstrFits(code, i, f.words) {
      BodyFits(name, body, c, m, locals, f.words, i);
    }
    forall l | l in marks ensures C.DefinesLabel(code, l) {
      StmtOnce(body, c.(temp := 0), LabelMark(l));
      var body0 := GenStmt(body, c.(temp := 0)).code;
      CountPositive(body0, IrShape.Marks(LabelMark(l)));
      var i :| 0 <= i < |body0| && body0[i] == Label(l);
      assert code[i] == Label(l);
    }
  }

  function OwnNames(fs: seq<TopLevel>): set<string> {
    set i | 0 <= i < |fs| && fs[i].Function? :: fs[i].name
  }

  /** Only a function of the program has an entry in the code. */
  lemma {:induction false} EntryIsOwn(fs: seq<TopLevel>, c: Counters, size: nat, name: string)
    requires X86.Entry(name) in Codegen.EmitAll(GenProgram(fs, c).code, size)
    ensures name in OwnNames(fs)
  {
    if fs != [] && fs[0].Global? {
      EntryIsOwn(fs[1..], c, size, name);
      OwnNamesGrow(fs);
    } else if fs != [] {
      var g := GenFunction(fs[0].name, fs[0].body, c);
      var rest := GenProgram(fs[1..], g.next).code;
      C.EmitAdds(g.code, rest, size);
      if X86.Entry(name) in Codegen.EmitAll(g.code, size) {
        FunctionEntry(fs[0].name, fs[0].body, c, size, name);
        assert fs[0].name in OwnNames(fs);
      } else {
        EntryIsOwn(fs[1..], g.next, size, name);
        OwnNamesGrow(fs);
      }
    }
  }

  lemma OwnNamesGrow(fs: seq<TopLevel>)
    requires fs != []
    ensures OwnNames(fs[1..]) <= OwnNames(fs)
  {
    forall x | x in OwnNames(fs[1..]) ensures x in OwnNames(fs) {
      var i :| 0 <= i < |fs[1..]| && fs[1..][i].Function? && fs[1..][i].name == x;
      assert fs[i + 1].name == x;
    }
  }

  lemma FunctionEntry(f: string, body: Stmt, c: Counters, size: nat, name: string)
    requires X86.Entry(name) in Codegen.EmitAll(GenFunction(f, body, c).code, size)
    ensures name == f
  {
    hide Codegen.EmitAll, OutsideStmt, GenStmt, Codegen.StackOffset;
    var g := GenStmt(body, c.(temp := 0)).code;
    assert GenFunction(f, body, c).code == [Func(f)] + (g + [EndFunc]);
    CallsNoneOfNone(body);
    StmtKin(body, c.(temp := 0), {});
    NoEntries(g + [EndFunc], size, name);
    C.EmitHead(Func(f), g + [EndFunc], size);
  }

  lemma {:induction false} NoEntries(code: seq<Instr>, size: nat, name: string)
    requires forall i | 0 <= i < |code| :: !code[i].Func?
    ensures X86.Entry(name) !in Codegen.EmitAll(code, size)
  {
    if code != [] {
      NoEntry(code[0], size, name);
      NoEntries(code[1..], size, name);
    }
  }

  lemma NoEntry(i: Instr, size: nat, name: string)
    requires i != Func(name)
    ensures X86.Entry(name) !in Codegen.EmitInstr(i, size)
  {
    hide Codegen.Combine, Codegen.EmitCall, Codegen.EmitLoad, Codegen.EmitStore, Codegen.StackOffset;
    match i
    case CallTo(f, args) => NoEntryCall(f, args, name);
    case Alu(op, d, a, b) =>
      NoEntryCombine(op, b, name);
      NoEntryMove(d, a, name);
      NoEntryMove(d, b, name);
    case Mov(d, a) => NoEntryMove(d, a, name);
    case Un(op, d, a) => NoEntryMove(d, a, name);
    case GetRet(d) => NoEntryMove(d, d, name);
    case Brz(a, l) => NoEntryMove(a, a, name);
    case Ret(v) =>
      if v.Some? {
        NoEntryMove(v.value, v.value, name);
      }
    case Label(_) | Jmp(_) | EndFunc | Func(_) | StringDef(_, _) =>
  }

  lemma NoEntryMove(d: Operand, a: Operand, name: string)
    ensures X86.Entry(name) !in Codegen.EmitLoad(a) && X86.Entry(name) !in Codegen.EmitStore(d)
  {
  }

  lemma NoEntryCombine(op: AluOp, b: Operand, name: string)
    ensures X86.Entry(name) !in Codegen.Combine(op, b)
  {
  }

  lemma NoEntryCall(f: string, args: seq<Operand>, name: string)
    ensures X86.Entry(name) !in Codegen.EmitCall(f, args)
  {
    NoEntryPushes(args, Codegen.InRegs(|args|), name);
    NoEntryLoads(args, Codegen.InRegs(|args|), name);
  }

  lemma {:induction false} NoEntryPushes(args: seq<Operand>, lo: nat, name: string)
    requires lo <= |args|
    ensures X86.Entry(name) !in Codegen.PushArgs(args, lo)
    decreases |args| - lo
  {
    if lo < |args| {
      NoEntryPushes(args, lo + 1, name);
    }
  }

  lemma {:induction false} NoEntryLoads(args: seq<Operand>, k: nat, name: string)
    requires k <= |args| && k <= 6
    ensures X86.Entry(name) !in Codegen.RegArgs(args, k)
  {
    if k > 0 {
      NoEntryLoads(args, k - 1, name);
    }
  }

  // ---------- a program in the machine ----------

  // The one frame size that the program is emitted with.
  function KeptFrame(fs: seq<TopLevel>): nat {
    ProgramFrame(fs, START, 0)
  }

  function ImageOf(fs: seq<TopLevel>, mc: X86.Machine): M.Image {
    M.Image(GenProgram(fs, START).code, mc.world, mc.stringAt)
  }

  /** The machine runs what the compiler emits, and its strings are where the program expects them. */
  ghost predicate Loaded(fs: seq<TopLevel>, mc: X86.Machine) {
    mc.code == Codegen.EmitAll(GenProgram(fs, START).code, KeptFrame(fs)) && StringsLinked(ImageOf(fs, mc))
  }

  // Where function i starts in the emitted code.
  function StartOf(fs: seq<TopLevel>, i: nat): nat
    requires i < |fs| && fs[i].Function?
  {
    FunctionPlaced(fs, START, i);
    C.Pos(GenProgram(fs, START).code, KeptFrame(fs), PlaceOf(fs, START, i).pc)
  }

  // The frame of function i, entered at x.
  function FrameOf(fs: seq<TopLevel>, i: nat, x: X86.State): C.Frame
    requires i < |fs| && fs[i].Function? && x.On?
  {
    C.Frame(x.regs.rsp - 8, KeptFrame(fs), fs[i].locals + CodeOf(fs, i).next.temp, C.EntryMemory(x),
            C.Layout(GenProgram(fs, START).code, KeptFrame(fs)))
  }

  /** The kept frame is at most 16 bytes smaller than the one function i asks for. */
  predicate Fits(fs: seq<TopLevel>, i: nat)
    requires i < |fs| && fs[i].Function?
  {
    FrameSize(fs[i].locals, CodeOf(fs, i).next.temp) <= KeptFrame(fs) + 16
  }

  // The body calls nothing at all.
  ghost predicate CallsNoName(s: Stmt) {
    forall name :: OutsideStmt(s, {name})
  }

  /** Nothing that function i still needs is lost when it calls something. */
  ghost predicate HasRoom(fs: seq<TopLevel>, i: nat)
    requires i < |fs| && fs[i].Function?
  {
    Fits(fs, i) || CallsNoName(fs[i].body)
  }

  /** A call has just been made: the return address is on the stack, which was aligned before. */
  predicate Called(fs: seq<TopLevel>, i: nat, x: X86.State)
    requires i < |fs| && fs[i].Function?
  {
    x.On? && x.pc == StartOf(fs, i) && x.regs.rsp % 16 == 8
  }

  predicate FromOutside(mc: X86.Machine, x: X86.State)
    requires x.On?
  {
    !X86.InCode(mc, X86.At(x.mem, x.regs.rsp))
  }

  lemma {:induction false} FrameMultiple(fs: seq<TopLevel>, c: Counters, before: nat)
    requires before % 16 == 0
    ensures ProgramFrame(fs, c, before) % 16 == 0
  {
    if fs != [] {
      if fs[0].Global? {
        FrameMultiple(fs[1..], c, before);
      } else {
        var g := GenFunction(fs[0].name, fs[0].body, c);
        FrameMultiple(fs[1..], g.next, FrameSize(fs[0].locals, g.next.temp));
      }
    }
  }

  /**
   Every function is emitted with the frame of the last one.  All its slots lie
   in the stack, at or above rsp, exactly if it needs at most 16 bytes more.
   */
  lemma FrameSuffices(fs: seq<TopLevel>, i: nat, x: X86.State)
    requires i < |fs| && fs[i].Function? && x.On? && x.regs.rsp % 16 == 8
    ensures C.FrameOk(FrameOf(fs, i, x))
    ensures C.Roomy(FrameOf(fs, i, x)) <==> Fits(fs, i)
  {
    hide GenProgram, GenFunction, Codegen.EmitAll, ProgramFrame, PlaceOf, C.Pos;
    FrameMultiple(fs, START, 0);
    FrameIsLeast(fs[i].locals, CodeOf(fs, i).next.temp, KeptFrame(fs) + 16);
  }

  /** The last function always has room. */
  lemma {:induction false} LastFunctionFits(fs: seq<TopLevel>, c: Counters, before: nat)
    requires fs != [] && fs[|fs| - 1].Function?
    ensures var f := fs[|fs| - 1];
      ProgramFrame(fs, c, before)
      == FrameSize(f.locals, GenFunction(f.name, f.body, PlaceOf(fs, c, |fs| - 1).c).next.temp)
  {
    if fs[0].Global? {
      LastFunctionFits(fs[1..], c, before);
    } else {
      var g := GenFunction(fs[0].name, fs[0].body, c);
      if |fs| > 1 {
        LastFunctionFits(fs[1..], g.next, FrameSize(fs[0].locals, g.next.temp));
      } else {
        assert fs[1..] == [];
      }
    }
  }

  // What the back end is right about: function i of the program, with its shared words
  // clear, room in the frame for what it calls, and no call of a function of the program.
  ghost predicate Right(fs: seq<TopLevel>, i: nat, m: Slots) {
    && i < |fs| && fs[i].Function? && Compilable(fs[i].body, m, fs[i].locals)
    && OutsideStmt(fs[i].body, OwnNames(fs)) && HasRoom(fs, i)
  }

  /** The word of slot k when the function entered at x has set up its frame. */
  function SlotWord(x: X86.State, k: nat): Word
    requires x.On?
  {
    Wrap(X86.At(C.EntryMemory(x), x.regs.rsp - 8 + Codegen.StackOffset(k)))
  }

  /**
   The variables that a body reads before it writes them, its parameters among
   them, start with the words that their slots happen to hold.
   */
  ghost predicate StartsFrom(body: Stmt, m: Slots, env: Env, x: X86.State)
    requires x.On?
  {
    forall y | y in m && m[y] in Wanted(body) :: Lookup(env, y) == SlotWord(x, m[y])
  }

  // A function of Right that reads nothing it has not written.
  ghost predicate SelfContained(fs: seq<TopLevel>, i: nat, m: Slots) {
    Right(fs, i, m) && Wanted(fs[i].body) == {}
  }

  /**
   Those words are not the arguments: slot 0 holds the caller's rbp, slot 1 its
   r12, and every other slot what was in the memory below the return address.
   */
  lemma SlotWords(x: X86.State, k: nat)
    requires x.On?
    ensures SlotWord(x, k) ==
      if k == 0 then Wrap(x.regs.rbp) else if k == 1 then x.regs.r12 else Wrap(X86.At(x.mem, x.regs.rsp - 16 - 8 * k))
  {
    WrapWord(x.regs.r12);
  }

  lemma CodeIsOutward(fs: seq<TopLevel>, mc: X86.Machine, body: Stmt, c: Counters)
    requires Loaded(fs, mc) && OutsideStmt(body, OwnNames(fs))
    ensures C.AllOutward(mc, BodyCode(body, c))
  {
    var code := BodyCode(body, c);
    StmtKin(body, c.(temp := 0), OwnNames(fs));
    forall i | 0 <= i < |code| && code[i].CallTo? ensures C.Outward(mc, code[i]) {
      assert code[i] == GenStmt(body, c.(temp := 0)).code[i];
      if X86.Entry(LinkName(code[i].callee)) in mc.code {
        EntryIsOwn(fs, START, KeptFrame(fs), LinkName(code[i].callee));
      }
    }
  }

  /** The hypotheses of the emitter's proof hold when such a function is called. */
  lemma EntryHolds(fs: seq<TopLevel>, i: nat, m: Slots, env: Env, mc: X86.Machine, x: X86.State)
    returns (g: C.Region)
    requires Right(fs, i, m) && Loaded(fs, mc) && Called(fs, i, x) && StartsFrom(fs[i].body, m, env, x)
    ensures C.AtEntry(ImageOf(fs, mc), mc, g, FrameOf(fs, i, x), StartState(fs, i, m, env, x.tr), x)
  {
    hide GenProgram, GenFunction, C.RegionOk, C.SameMachine, C.AllOutward, BodyCode, X86.Step, C.Holds, C.EntryMemory,
         Wanted, StartsFrom, SlotValues, HasRoom, C.CallsNothing;
    var im, f, p := ImageOf(fs, mc), FrameOf(fs, i, x), PlaceOf(fs, START, i);
    LabelsAreUnique(fs, START);
    FunctionPlaced(fs, START, i);
    g := RegionFor(im, fs[i].name, fs[i].body, p.c, m, fs[i].locals, p.pc, f);
    CodeIsOutward(fs, mc, fs[i].body, p.c);
    RoomOrNoCalls(fs, i, x);
    EntryMemoryHolds(fs, i, m, env, mc, x);
    FuncFirst(im.code, p.pc, fs[i].name, fs[i].body, p.c);
    C.EmittedMachine(im, mc, f);
    FrameSuffices(fs, i, x);
  }

  lemma RoomOrNoCalls(fs: seq<TopLevel>, i: nat, x: X86.State)
    requires i < |fs| && fs[i].Function? && HasRoom(fs, i) && x.On? && x.regs.rsp % 16 == 8
    ensures C.Roomy(FrameOf(fs, i, x)) || C.CallsNothing(BodyCode(fs[i].body, PlaceOf(fs, START, i).c))
  {
    FrameSuffices(fs, i, x);
    if CallsNoName(fs[i].body) {
      NoCallsInCode(fs[i].body, PlaceOf(fs, START, i).c);
    }
  }

  lemma NoCallsInCode(body: Stmt, c: Counters)
    requires CallsNoName(body)
    ensures C.CallsNothing(BodyCode(body, c))
  {
    var code := BodyCode(body, c);
    forall i | 0 <= i < |code| ensures !code[i].CallTo? {
      if code[i].CallTo? {
        assert code[i] == GenStmt(body, c.(temp := 0)).code[i];
        StmtKin(body, c.(temp := 0), {LinkName(code[i].callee)});
        assert false;
      }
    }
  }

  // Memory holds what the body needs of it.
  lemma EntryWords(fs: seq<TopLevel>, i: nat, m: Slots, env: Env, x: X86.State)
    requires Right(fs, i, m) && x.On? && StartsFrom(fs[i].body, m, env, x)
    ensures forall o | o in Vars(Wanted(fs[i].body)) ::
      && o.Var? && o.n < FrameOf(fs, i, x).words
      && SlotWord(x, o.n) == Lookup(SlotValues(m, env), o.n)
  {
    hide ClearBody, SupportedStmt, ResolvedStmt, OutsideStmt, HasRoom, C.EntryMemory, C.Layout;
    NeedsResolved(fs[i].body, {}, m);
    StartMatches(fs, i, m, env, x.tr);
    forall o | o in Vars(Wanted(fs[i].body))
      ensures o.n < fs[i].locals && SlotWord(x, o.n) == Lookup(SlotValues(m, env), o.n)
    {
      assert o.n in m.Values;
      var y :| y in m && m[y] == o.n;
    }
  }

  lemma EntryMemoryHolds(fs: seq<TopLevel>, i: nat, m: Slots, env: Env, mc: X86.Machine, x: X86.State)
    requires Right(fs, i, m) && x.On? && StartsFrom(fs[i].body, m, env, x)
    ensures var f := FrameOf(fs, i, x);
      C.Holds(ImageOf(fs, mc), f, Vars(Wanted(fs[i].body)), StartState(fs, i, m, env, x.tr), f.saved)
  {
    hide C.EntryMemory, SlotValues, GenProgram, GenFunction, Right, StartsFrom, Wanted;
    EntryWords(fs, i, m, env, x);
  }

  lemma FuncFirst(code: seq<Instr>, pc: nat, name: string, body: Stmt, c: Counters)
    requires M.CodeAt(code, pc, GenFunction(name, body, c).code)
    ensures pc < |code| && code[pc] == Func(name)
  {
    M.CodeSplit3(code, pc, [Func(name)], GenStmt(body, c.(temp := 0)).code, [EndFunc]);
    M.CodeHead(code, pc, Func(name));
  }

  /** What the machine does, from x, is what the function's body means. */
  ghost predicate MachineAgrees(w: World, body: Stmt, env: Env, mc: X86.Machine, x: X86.State)
    requires x.On?
  {
    && (forall v, tr :: SourceEnds(w, body, env, x.tr, Gives(v, tr)) ==> C.MachineReturns(mc, x, v, tr))
    && (forall tr :: SourceEnds(w, body, env, x.tr, Dies(tr)) <==> C.MachineFaults(mc, x, tr))
    && (forall j: nat | !X86.Run(mc, x, j).On? :: StopsAs(w, body, env, x, X86.Run(mc, x, j)))
  }

  ghost predicate StopsAs(w: World, body: Stmt, env: Env, x: X86.State, y: X86.State)
    requires x.On?
  {
    || (exists v, tr :: SourceEnds(w, body, env, x.tr, Gives(v, tr)) && C.ReturnsWith(x, y, v, tr))
    || (exists tr :: SourceEnds(w, body, env, x.tr, Dies(tr)) && y == X86.Fault(tr))
  }

  /**
   Source program to machine code, for a function that calls no other one of its
   program, called from outside with any register and memory contents: whenever
   the source function returns a value or faults, after some calls to the
   outside, so does the machine code, with the value in rax and the stack as its
   caller left it; and the machine code never stops except as the source does.
   What the function reads before it writes it, its parameters above all, starts
   with the words of its slots.
   */
  lemma CompilerCorrect(fs: seq<TopLevel>, i: nat, m: Slots, env: Env, mc: X86.Machine, x: X86.State)
    requires Right(fs, i, m) && Loaded(fs, mc) && Called(fs, i, x) && FromOutside(mc, x)
    requires StartsFrom(fs[i].body, m, env, x)
    ensures MachineAgrees(mc.world, fs[i].body, env, mc, x)
  {
    hide C.AtEntry, StartState, GenProgram, GenFunction, FrameOf, X86.Run, ImageOf, StopsAs, SourceEnds, IrEnds, C.MachineReturns;
    var im, s := ImageOf(fs, mc), StartState(fs, i, m, env, x.tr);
    var g := EntryHolds(fs, i, m, env, mc, x);
    CodeMeans(fs, i, m, env, mc, x.tr);
    C.EmissionCorrect(im, mc, g, FrameOf(fs, i, x), s, x);
    forall j: nat | !X86.Run(mc, x, j).On?
      ensures StopsAs(mc.world, fs[i].body, env, x, X86.Run(mc, x, j))
    {
      EndingMeans(im, mc.world, fs[i].body, env, s, x, X86.Run(mc, x, j));
    }
  }

  lemma EndingMeans(im: M.Image, w: World, body: Stmt, env: Env, s: M.State, x: X86.State, y: X86.State)
    requires x.On? && C.Ending(im, s, x, y)
    requires forall v, tr :: SourceEnds(w, body, env, x.tr, Gives(v, tr)) <==> IrEnds(im, s, M.Halted(v, tr))
    requires forall tr :: SourceEnds(w, body, env, x.tr, Dies(tr)) <==> IrEnds(im, s, M.Trapped(tr))
    ensures StopsAs(w, body, env, x, y)
  {
    if v, tr :| IrEnds(im, s, M.Halted(v, tr)) && C.ReturnsWith(x, y, v, tr) {
      assert SourceEnds(w, body, env, x.tr, Gives(v, tr));
    } else {
      var tr :| IrEnds(im, s, M.Trapped(tr)) && y == X86.Fault(tr);
      assert SourceEnds(w, body, env, x.tr, Dies(tr));
    }
  }

  /** The intermediate code of the function means what its body means. */
  lemma CodeMeans(fs: seq<TopLevel>, i: nat, m: Slots, env: Env, mc: X86.Machine, tr0: seq<Event>)
    requires Right(fs, i, m) && Loaded(fs, mc)
    ensures var im, s := ImageOf(fs, mc), StartState(fs, i, m, env, tr0);
      && (forall v, tr ::
            SourceEnds(mc.world, fs[i].body, env, tr0, Gives(v, tr)) <==> IrEnds(im, s, M.Halted(v, tr)))
      && (forall tr :: SourceEnds(mc.world, fs[i].body, env, tr0, Dies(tr)) <==> IrEnds(im, s, M.Trapped(tr)))
  {
    LabelsAreUnique(fs, START);
    FunctionPlaced(fs, START, i);
    StartMatches(fs, i, m, env, tr0);
    FunctionCorrect(ImageOf(fs, mc), fs[i].name, fs[i].body, PlaceOf(fs, START, i).c, StartState(fs, i, m, env, tr0),
                    env, m);
  }

  // At the function's first instruction, with slots that hold what env says.
  ghost function StartState(fs: seq<TopLevel>, i: nat, m: Slots, env: Env, tr: seq<Event>): M.State
    requires i < |fs| && fs[i].Function?
  {
    M.Running(PlaceOf(fs, START, i).pc, map[], SlotValues(m, env), 0, tr)
  }

  ghost function SlotValues(m: Slots, env: Env): M.Cells {
    map k: nat | k in m.Values :: ValueOf(k, m, env)
  }

  ghost function ValueOf(k: nat, m: Slots, env: Env): Word {
    if exists x :: x in m && m[x] == k then
      var x :| x in m && m[x] == k;
      Lookup(env, x)
    else
      0
  }

  lemma StartMatches(fs: seq<TopLevel>, i: nat, m: Slots, env: Env, tr: seq<Event>)
    requires i < |fs| && fs[i].Function? && Injective(m)
    ensures Matches(m, env, StartState(fs, i, m, env, tr).vars)
  {
    forall x | x in m ensures Lookup(SlotValues(m, env), m[x]) == Lookup(env, x) {
      assert m[x] in m.Values;
    }
  }
}
