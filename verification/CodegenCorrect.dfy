/**
 The emitted x86-64 code does what the intermediate code means
 (src/codegen.c:77-375), for one function of a program and any frame size that
 covers its slots.
 */
module CodegenCorrect {
  import opened Words
  import opened Source
  import Ir
  import M = IrMachine
  import Lowering
  import opened IrShape
  import opened Liveness
  import opened X86
  import opened Codegen

  // ---------- layout ----------

  lemma {:induction false} EmitAdds(a: seq<Ir.Instr>, b: seq<Ir.Instr>, frame: nat)
    ensures EmitAll(a + b, frame) == EmitAll(a, frame) + EmitAll(b, frame)
  {
    if a == [] {
      assert a + b == b;
    } else {
      assert (a + b)[0] == a[0] && (a + b)[1..] == a[1..] + b;
      EmitAdds(a[1..], b, frame);
      Assoc(EmitInstr(a[0], frame), EmitAll(a[1..], frame), EmitAll(b, frame));
    }
  }

  // Where the code of the instruction at `pc` starts.
  function Pos(code: seq<Ir.Instr>, frame: nat, pc: nat): nat
    requires pc <= |code|
  {
    |EmitAll(code[..pc], frame)|
  }

  lemma EmittedAt(code: seq<Ir.Instr>, frame: nat, pc: nat)
    requires pc < |code|
    ensures X86.CodeAt(EmitAll(code, frame), Pos(code, frame, pc), EmitInstr(code[pc], frame))
    ensures Pos(code, frame, pc + 1) == Pos(code, frame, pc) + |EmitInstr(code[pc], frame)|
    ensures Pos(code, frame, pc + 1) <= |EmitAll(code, frame)|
  {
    var a, b := code[..pc], code[pc + 1..];
    assert code == a + ([code[pc]] + b) && code[..pc + 1] == a + [code[pc]];
    EmitAdds(a, [code[pc]] + b, frame);
    EmitAdds(a, [code[pc]], frame);
    EmitHead(code[pc], b, frame);
    EmitHead(code[pc], [], frame);
    Middle(EmitAll(a, frame), EmitInstr(code[pc], frame), EmitAll(b, frame));
  }

  lemma EmitHead(i: Ir.Instr, b: seq<Ir.Instr>, frame: nat)
    ensures EmitAll([i] + b, frame) == EmitInstr(i, frame) + EmitAll(b, frame)
    ensures [i] + [] == [i]
  {
    assert ([i] + b)[1..] == b;
  }

  lemma Middle(a: seq<X86.Instr>, b: seq<X86.Instr>, c: seq<X86.Instr>)
    ensures X86.CodeAt(a + (b + c), |a|, b)
  {
  }

  lemma NoLabelsInside(i: Ir.Instr, frame: nat, l: nat)
    requires i != Ir.Label(l)
    ensures Label(l) !in EmitInstr(i, frame)
  {
    hide EmitCall, LinkName, StackOffset, OperandOffset, AlignTo16, Combine, EmitLoad, EmitStore;
    match i
    case CallTo(f, args) => CallPlain(f, args);
    case Alu(op, d, a, b) =>
      CombinePlain(op, b);
      MovePlain(d, a);
      MovePlain(d, b);
    case Mov(d, a) => MovePlain(d, a);
    case Un(_, d, a) => MovePlain(d, a);
    case GetRet(d) => MovePlain(d, d);
    case Brz(a, _) => MovePlain(a, a);
    case Ret(v) =>
      if v.Some? {
        MovePlain(v.value, v.value);
      }
    case Label(_) | Jmp(_) | EndFunc | Func(_) | StringDef(_, _) =>
  }

  lemma MovePlain(d: Ir.Operand, a: Ir.Operand)
    ensures Plain(EmitLoad(a)) && Plain(EmitStore(d)) && NoCalls(EmitLoad(a)) && NoCalls(EmitStore(d))
  {
  }

  lemma CombinePlain(op: AluOp, b: Ir.Operand)
    ensures Plain(Combine(op, b)) && NoCalls(Combine(op, b))
  {
  }

  lemma CallPlain(f: string, args: seq<Ir.Operand>)
    ensures Plain(EmitCall(f, args))
  {
    PushesPlain(args, InRegs(|args|));
    LoadsPlain(args, InRegs(|args|));
  }

  predicate Plain(code: seq<X86.Instr>) {
    forall i | i in code :: !Jumps(i) && !i.Label?
  }

  lemma {:induction false} PushesPlain(args: seq<Ir.Operand>, lo: nat)
    requires lo <= |args|
    ensures Plain(PushArgs(args, lo))
    decreases |args| - lo
  {
    if lo < |args| {
      PushesPlain(args, lo + 1);
    }
  }

  lemma {:induction false} LoadsPlain(args: seq<Ir.Operand>, k: nat)
    requires k <= |args| && k <= 6
    ensures Plain(RegArgs(args, k))
  {
    if k > 0 {
      LoadsPlain(args, k - 1);
    }
  }

  lemma {:induction false} FindSkips(a: seq<X86.Instr>, b: seq<X86.Instr>, l: nat)
    requires Label(l) !in a
    ensures FindLabel(a + b, l) == |a| + FindLabel(b, l)
  {
    if a == [] {
      assert a + b == b;
    } else {
      assert (a + b)[0] == a[0] && (a + b)[1..] == a[1..] + b;
      FindSkips(a[1..], b, l);
    }
  }

  /** A label is found where the intermediate code has it. */
  lemma {:induction false} LabelsAgree(code: seq<Ir.Instr>, frame: nat, l: nat, pc: nat)
    requires pc < |code| && code[pc] == Ir.Label(l)
    requires forall j | 0 <= j < pc :: code[j] != Ir.Label(l)
    ensures FindLabel(EmitAll(code, frame), l) == Pos(code, frame, pc)
  {
    if pc == 0 {
      assert EmitAll(code, frame)[0] == Label(l);
    } else {
      NoLabelsInside(code[0], frame, l);
      FindSkips(EmitInstr(code[0], frame), EmitAll(code[1..], frame), l);
      LabelsAgree(code[1..], frame, l, pc - 1);
      assert code[..pc][0] == code[0] && code[..pc][1..] == code[1..][..pc - 1];
    }
  }

  // ---------- short runs ----------

  function Then(mc: Machine, i: X86.Instr, s: X86.State): X86.State
    requires !Jumps(i)
  {
    if s.On? then Effect(mc, i, s) else s
  }

  lemma Exec1(mc: Machine, a: X86.Instr, s: X86.State)
    requires !Jumps(a)
    ensures RunStraight(mc, [a], s) == Then(mc, a, s)
  {
    assert [a][1..] == [];
  }

  lemma Exec2(mc: Machine, a: X86.Instr, b: X86.Instr, s: X86.State)
    requires !Jumps(a) && !Jumps(b)
    ensures RunStraight(mc, [a, b], s) == Then(mc, b, Then(mc, a, s))
  {
    assert [a, b] == [a] + [b];
    RunStraightAdds(mc, [a], [b], s);
    Exec1(mc, a, s);
    Exec1(mc, b, Then(mc, a, s));
  }

  lemma Exec3(mc: Machine, a: X86.Instr, b: X86.Instr, c: X86.Instr, s: X86.State)
    requires !Jumps(a) && !Jumps(b) && !Jumps(c)
    ensures RunStraight(mc, [a, b, c], s) == Then(mc, c, Then(mc, b, Then(mc, a, s)))
  {
    assert [a, b, c] == [a, b] + [c];
    RunStraightAdds(mc, [a, b], [c], s);
    Exec2(mc, a, b, s);
    Exec1(mc, c, RunStraight(mc, [a, b], s));
  }

  // What an operand load puts into rax.
  function Value(mc: Machine, o: Ir.Operand, s: X86.State): Word
    requires s.On?
  {
    match o
    case Temp(n) => Wrap(At(s.mem, s.regs.rbp + StackOffset(n)))
    case Var(n) => Wrap(At(s.mem, s.regs.rbp + StackOffset(n)))
    case Imm(v) => v
    case StrRef(n) => mc.stringAt(n)
  }

  lemma LoadExec(mc: Machine, o: Ir.Operand, s: X86.State)
    requires s.On?
    ensures Plain(EmitLoad(o)) && |EmitLoad(o)| == 1
    ensures RunStraight(mc, EmitLoad(o), s) == s.(pc := s.pc + 1, regs := s.regs.(rax := Value(mc, o, s)))
  {
    Exec1(mc, EmitLoad(o)[0], s);
    assert EmitLoad(o) == [EmitLoad(o)[0]];
  }

  /** The stack and the memory are as before, `n` instructions on. */
  predicate Calm(s: X86.State, t: X86.State, n: int) {
    && s.On? && t.On? && t.pc == s.pc + n && t.tr == s.tr && t.mem == s.mem
    && t.regs.rsp == s.regs.rsp && t.regs.rbp == s.regs.rbp
  }

  /** Both operands in place, the operation's own instructions leave its value in rax. */
  lemma CombineExec(mc: Machine, op: AluOp, right: Ir.Operand, s: X86.State, a: Word, b: Word)
    requires s.On? && s.regs.rbx == a && s.regs.rax == b
    requires op == Div || op == Mod ==> IsSlot(right) && Value(mc, right, s) == b
    ensures Plain(Combine(op, right))
    ensures var t := RunStraight(mc, Combine(op, right), s);
      match AluValue(op, a, b)
      case Some(v) => Calm(s, t, |Combine(op, right)|) && t.regs.rax == v
      case None => t == Fault(s.tr)
  {
    if IsCompare(op) {
      ComparisonExec(mc, op, right, s);
    } else if op == Div || op == Mod {
      DivideExec(mc, op, right, s, a, b);
    } else if op == Shl || op == Shr {
      ShiftExec(mc, op, s);
    } else if op == And || op == Or || op == Xor {
      BitwiseExec(mc, op, right, s);
    } else {
      ArithmeticExec(mc, op, right, s);
    }
  }

  lemma ArithmeticExec(mc: Machine, op: AluOp, right: Ir.Operand, s: X86.State)
    requires s.On? && (op == Add || op == Sub || op == Mul)
    ensures Plain(Combine(op, right))
    ensures var t := RunStraight(mc, Combine(op, right), s);
      Calm(s, t, |Combine(op, right)|) && Some(t.regs.rax) == AluValue(op, s.regs.rbx, s.regs.rax)
  {
    hide RunStraight, Effect;
    ArithmeticEffects(mc, s);
    if op == Add {
      Exec1(mc, AddRR(RBX, RAX), s);
    } else if op == Sub {
      Exec2(mc, SubRR(RAX, RBX), MovRR(RBX, RAX), s);
    } else {
      Exec1(mc, ImulRR(RBX, RAX), s);
      assert s.regs.rax * s.regs.rbx == s.regs.rbx * s.regs.rax;
    }
  }

  lemma ArithmeticEffects(mc: Machine, s: X86.State)
    requires s.On?
    ensures Effect(mc, AddRR(RBX, RAX), s)
         == s.(pc := s.pc + 1, regs := s.regs.(rax := Wrap(s.regs.rax + s.regs.rbx)))
    ensures Effect(mc, ImulRR(RBX, RAX), s)
         == s.(pc := s.pc + 1, regs := s.regs.(rax := Wrap(s.regs.rax * s.regs.rbx)))
    ensures var t := s.(pc := s.pc + 1, regs := s.regs.(rbx := Wrap(s.regs.rbx - s.regs.rax)));
      && Effect(mc, SubRR(RAX, RBX), s) == t
      && Effect(mc, MovRR(RBX, RAX), t) == t.(pc := t.pc + 1, regs := t.regs.(rax := t.regs.rbx))
  {
  }

  lemma BitwiseExec(mc: Machine, op: AluOp, right: Ir.Operand, s: X86.State)
    requires s.On? && (op == And || op == Or || op == Xor)
    ensures Plain(Combine(op, right))
    ensures var t := RunStraight(mc, Combine(op, right), s);
      Calm(s, t, |Combine(op, right)|) && Some(t.regs.rax) == AluValue(op, s.regs.rbx, s.regs.rax)
  {
    if op == And {
      BitsExec(mc, AndRR(RBX, RAX), BitAnd, s);
    } else if op == Or {
      BitsExec(mc, OrRR(RBX, RAX), BitOr, s);
    } else {
      BitsExec(mc, XorRR(RBX, RAX), BitXor, s);
    }
  }

  predicate IsCompare(op: AluOp) {
    op == Lt || op == Le || op == Gt || op == Ge || op == Eq || op == Ne
  }

  lemma ComparisonExec(mc: Machine, op: AluOp, right: Ir.Operand, s: X86.State)
    requires s.On? && IsCompare(op)
    ensures Plain(Combine(op, right))
    ensures var t := RunStraight(mc, Combine(op, right), s);
      Calm(s, t, |Combine(op, right)|) && Some(t.regs.rax) == AluValue(op, s.regs.rbx, s.regs.rax)
  {
    match op
    case Lt => CompareExec(mc, L, s);
    case Le => CompareExec(mc, LE, s);
    case Gt => CompareExec(mc, G, s);
    case Ge => CompareExec(mc, GE, s);
    case Eq => CompareExec(mc, E, s);
    case Ne => CompareExec(mc, NE, s);
  }

  lemma BitsExec(mc: Machine, i: X86.Instr, op: BitOp, s: X86.State)
    requires s.On?
    requires match op
             case BitAnd => i == AndRR(RBX, RAX)
             case BitOr => i == OrRR(RBX, RAX)
             case BitXor => i == XorRR(RBX, RAX)
    ensures var t := RunStraight(mc, [i], s);
      Calm(s, t, 1) && t.regs.rax == WordBits(op, s.regs.rbx, s.regs.rax)
  {
    Exec1(mc, i, s);
    BitwiseCommutes(op, s.regs.rax, s.regs.rbx);
  }

  lemma ShiftExec(mc: Machine, op: AluOp, s: X86.State)
    requires s.On? && (op == Shl || op == Shr)
    ensures var code := [MovRR(RAX, RCX), MovRR(RBX, RAX), if op == Shl then ShlCl else ShrCl];
      var t := RunStraight(mc, code, s);
      Plain(code) && Calm(s, t, 3) && Some(t.regs.rax) == AluValue(op, s.regs.rbx, s.regs.rax)
  {
    hide RunStraight, Division, AfterCall;
    Exec3(mc, MovRR(RAX, RCX), MovRR(RBX, RAX), if op == Shl then ShlCl else ShrCl, s);
  }

  lemma CompareExec(mc: Machine, cc: Cond, s: X86.State)
    requires s.On?
    ensures var code := [CmpRR(RAX, RBX), SetAl(cc), MovzxAl];
      var t := RunStraight(mc, code, s);
      && Plain(code) && Calm(s, t, 3)
      && t.regs.rax == FromBool(CondHolds(cc, s.regs.rbx == s.regs.rax, s.regs.rbx < s.regs.rax))
  {
    hide RunStraight;
    Exec3(mc, CmpRR(RAX, RBX), SetAl(cc), MovzxAl, s);
  }

  /** `cqo; idivq` divides the sign-extended rax. */
  lemma DivisionExec(mc: Machine, s: X86.State, off: int, b: Word)
    requires s.On? && Wrap(At(s.mem, s.regs.rbp + off)) == b
    ensures var r := Idiv(s.regs.rax, b);
      var t := Then(mc, IdivMem(off), Then(mc, Cqo, s));
      if r.None? then t == Fault(s.tr) else Calm(s, t, 2) && t.regs.rax == r.value.0 && t.regs.rdx == r.value.1
  {
    SignExtended(s.regs.rax);
  }

  lemma DivideExec(mc: Machine, op: AluOp, right: Ir.Operand, s: X86.State, a: Word, b: Word)
    requires op == Div || op == Mod
    requires s.On? && s.regs.rbx == a && s.regs.rax == b && IsSlot(right) && Value(mc, right, s) == b
    ensures var t := RunStraight(mc, Combine(op, right), s);
      match AluValue(op, a, b)
      case Some(v) => Calm(s, t, |Combine(op, right)|) && t.regs.rax == v
      case None => t == Fault(s.tr)
  {
    hide RunStraight, Remainder, Quotient;
    var head := [MovRR(RBX, RAX), Cqo, IdivMem(OperandOffset(right))];
    Exec3(mc, head[0], head[1], head[2], s);
    DivisionExec(mc, Then(mc, MovRR(RBX, RAX), s), OperandOffset(right), b);
    IdivOfWord(a, b);
    if op == Mod {
      assert Combine(op, right) == head + [MovRR(RDX, RAX)];
      RunStraightAdds(mc, head, [MovRR(RDX, RAX)], s);
      Exec1(mc, MovRR(RDX, RAX), RunStraight(mc, head, s));
    }
  }

  // ---------- calls ----------

  // Every stack slot among the operands lies at or above `floor`.
  predicate Above(args: seq<Ir.Operand>, rbp: int, floor: int) {
    forall a | a in args && IsSlot(a) :: rbp + StackOffset(a.n) >= floor
  }

  lemma ValueStays(mc: Machine, o: Ir.Operand, s: X86.State, t: X86.State, floor: int)
    requires s.On? && t.On? && t.regs.rbp == s.regs.rbp
    requires IsSlot(o) ==> s.regs.rbp + StackOffset(o.n) >= floor
    requires forall a | a >= floor :: At(t.mem, a) == At(s.mem, a)
    ensures Value(mc, o, t) == Value(mc, o, s)
  {
  }

  /** The stack arguments, in order from rsp upward. */
  lemma {:induction false} PushExec(mc: Machine, args: seq<Ir.Operand>, lo: nat, s: X86.State)
    requires s.On? && lo <= |args| && Above(args, s.regs.rbp, s.regs.rsp)
    ensures Plain(PushArgs(args, lo))
    ensures var t := RunStraight(mc, PushArgs(args, lo), s);
      && t.On? && t.pc == s.pc + |PushArgs(args, lo)| && t.tr == s.tr
      && t.regs.rsp == s.regs.rsp - 8 * (|args| - lo) && t.regs.rbp == s.regs.rbp
      && (forall a | a >= s.regs.rsp :: At(t.mem, a) == At(s.mem, a))
      && (forall i | lo <= i < |args| :: At(t.mem, t.regs.rsp + 8 * (i - lo)) == Value(mc, args[i], s))
    decreases |args| - lo
  {
    hide At, Effect, Value;
    PushesPlain(args, lo);
    if lo < |args| {
      PushExec(mc, args, lo + 1, s);
      PushCode(args, lo);
      PushNext(mc, args, lo, s, PushArgs(args, lo + 1));
    }
  }

  lemma PushCode(args: seq<Ir.Operand>, lo: nat)
    requires lo < |args|
    ensures PushArgs(args, lo) == PushArgs(args, lo + 1) + (EmitLoad(args[lo]) + [Push(RAX)])
  {
    Assoc(PushArgs(args, lo + 1), EmitLoad(args[lo]), [Push(RAX)]);
  }

  // One more push behind those of `p`.
  lemma PushNext(mc: Machine, args: seq<Ir.Operand>, lo: nat, s: X86.State, p: seq<X86.Instr>)
    requires s.On? && lo < |args| && Above(args, s.regs.rbp, s.regs.rsp) && Plain(p)
    requires var t := RunStraight(mc, p, s);
      && t.On? && t.pc == s.pc + |p| && t.tr == s.tr
      && t.regs.rsp == s.regs.rsp - 8 * (|args| - lo - 1) && t.regs.rbp == s.regs.rbp
      && (forall a | a >= s.regs.rsp :: At(t.mem, a) == At(s.mem, a))
      && (forall i | lo < i < |args| :: At(t.mem, t.regs.rsp + 8 * (i - lo - 1)) == Value(mc, args[i], s))
    ensures var l := EmitLoad(args[lo]) + [Push(RAX)];
      Plain(p + l) &&
      var u := RunStraight(mc, p + l, s);
      && u.On? && u.pc == s.pc + |p + l| && u.tr == s.tr
      && u.regs.rsp == s.regs.rsp - 8 * (|args| - lo) && u.regs.rbp == s.regs.rbp
      && (forall a | a >= s.regs.rsp :: At(u.mem, a) == At(s.mem, a))
      && (forall i | lo <= i < |args| :: At(u.mem, u.regs.rsp + 8 * (i - lo)) == Value(mc, args[i], s))
  {
    var l := EmitLoad(args[lo]) + [Push(RAX)];
    PushOne(mc, args[lo], RunStraight(mc, p, s));
    RunStraightAdds(mc, p, l, s);
    PushMore(mc, args, lo, s, RunStraight(mc, p, s), RunStraight(mc, p + l, s));
  }

  // From the pushes down to lo + 1 to those down to lo.
  lemma PushMore(mc: Machine, args: seq<Ir.Operand>, lo: nat, s: X86.State, t: X86.State, u: X86.State)
    requires s.On? && t.On? && u.On? && lo < |args| && Above(args, s.regs.rbp, s.regs.rsp)
    requires t.regs.rsp == s.regs.rsp - 8 * (|args| - lo - 1) && t.regs.rbp == s.regs.rbp
    requires forall a | a >= s.regs.rsp :: At(t.mem, a) == At(s.mem, a)
    requires forall i | lo < i < |args| :: At(t.mem, t.regs.rsp + 8 * (i - lo - 1)) == Value(mc, args[i], s)
    requires u.regs.rsp == t.regs.rsp - 8 && u.mem == t.mem[t.regs.rsp - 8 := Value(mc, args[lo], t)]
    ensures forall a | a >= s.regs.rsp :: At(u.mem, a) == At(s.mem, a)
    ensures forall i | lo <= i < |args| :: At(u.mem, u.regs.rsp + 8 * (i - lo)) == Value(mc, args[i], s)
  {
    ValueStays(mc, args[lo], s, t, s.regs.rsp);
    forall i | lo <= i < |args| ensures At(u.mem, u.regs.rsp + 8 * (i - lo)) == Value(mc, args[i], s) {
      if i > lo {
        assert u.regs.rsp + 8 * (i - lo) == t.regs.rsp + 8 * (i - lo - 1);
      }
    }
  }

  lemma PushOne(mc: Machine, o: Ir.Operand, s: X86.State)
    requires s.On?
    ensures var code := EmitLoad(o) + [Push(RAX)];
      var t := RunStraight(mc, code, s);
      && Plain(code) && t.On? && t.pc == s.pc + |code| && t.tr == s.tr
      && t.regs.rsp == s.regs.rsp - 8 && t.regs.rbp == s.regs.rbp
      && t.mem == s.mem[s.regs.rsp - 8 := Value(mc, o, s)]
  {
    LoadExec(mc, o, s);
    RunStraightAdds(mc, EmitLoad(o), [Push(RAX)], s);
    Exec1(mc, Push(RAX), RunStraight(mc, EmitLoad(o), s));
  }

  /** The register arguments; each load leaves the earlier ones alone. */
  lemma {:induction false} RegExec(mc: Machine, args: seq<Ir.Operand>, k: nat, s: X86.State)
    requires s.On? && k <= |args| && k <= 6
    ensures Plain(RegArgs(args, k))
    ensures var t := RunStraight(mc, RegArgs(args, k), s);
      && Calm(s, t, |RegArgs(args, k)|)
      && forall i | 0 <= i < k :: Get(t.regs, ArgReg(i)) == Value(mc, args[i], s)
  {
    hide Effect;
    LoadsPlain(args, k);
    if k > 0 {
      RegExec(mc, args, k - 1, s);
      var p, l := RegArgs(args, k - 1), EmitLoad(args[k - 1]) + [MovRR(RAX, ArgReg(k - 1))];
      RegLoad(mc, args[k - 1], k - 1, RunStraight(mc, p, s));
      Assoc(p, EmitLoad(args[k - 1]), [MovRR(RAX, ArgReg(k - 1))]);
      RunStraightAdds(mc, p, l, s);
    }
  }

  lemma RegLoad(mc: Machine, o: Ir.Operand, i: nat, s: X86.State)
    requires s.On? && i < 6
    ensures var code := EmitLoad(o) + [MovRR(RAX, ArgReg(i))];
      var t := RunStraight(mc, code, s);
      && Plain(code) && Calm(s, t, |code|) && Get(t.regs, ArgReg(i)) == Value(mc, o, s)
      && forall j | 0 <= j < 6 && j != i :: Get(t.regs, ArgReg(j)) == Get(s.regs, ArgReg(j))
  {
    hide AfterCall, RunStraight, StackOffset;
    LoadExec(mc, o, s);
    RunStraightAdds(mc, EmitLoad(o), [MovRR(RAX, ArgReg(i))], s);
    Exec1(mc, MovRR(RAX, ArgReg(i)), RunStraight(mc, EmitLoad(o), s));
  }

  // Everything that happens before the `call` itself.
  function CallSetup(args: seq<Ir.Operand>): seq<X86.Instr> {
    var n := |args|;
    (if Padding(n) > 0 then [SubRsp(8)] else []) + PushArgs(args, InRegs(n)) + RegArgs(args, InRegs(n))
  }

  /**
   At every `call` the stack is aligned and the arguments are where the ABI
   wants them (sections 3.2.2 and 3.2.3), for any number of arguments.
   */
  lemma CallSetupExec(mc: Machine, args: seq<Ir.Operand>, s: X86.State)
    requires s.On? && Above(args, s.regs.rbp, s.regs.rsp) && s.regs.rsp % 16 == 0
    ensures Plain(CallSetup(args))
    ensures var t := RunStraight(mc, CallSetup(args), s);
      && t.On? && t.pc == s.pc + |CallSetup(args)| && t.tr == s.tr
      && t.regs.rsp == s.regs.rsp - 8 * StackArgs(|args|) - Padding(|args|) && t.regs.rbp == s.regs.rbp
      && t.regs.rsp % 16 == 0
      && (forall a | a >= s.regs.rsp :: At(t.mem, a) == At(s.mem, a))
      && (forall i | 0 <= i < |args| :: Argument(t.regs, t.mem, i) == Value(mc, args[i], s))
  {
    hide RunStraight, RegArgs, PushArgs;
    var n := |args|;
    var pad := if Padding(n) > 0 then [SubRsp(8)] else [];
    var pushes, loads := PushArgs(args, InRegs(n)), RegArgs(args, InRegs(n));
    var s1 := RunStraight(mc, pad, s);
    PadExec(mc, n, s);
    PushExec(mc, args, InRegs(n), s1);
    var s2 := RunStraight(mc, pushes, s1);
    RegExec(mc, args, InRegs(n), s2);
    var t := RunStraight(mc, loads, s2);
    PartsLead(mc, pad, pushes, loads, s, s1, s2, t);
    SetupDone(mc, args, s, s1, s2, t, |pad|, |pushes|, |loads|);
    assert CallSetup(args) == pad + pushes + loads;
  }

  lemma PartsLead(mc: Machine, a: seq<X86.Instr>, b: seq<X86.Instr>, c: seq<X86.Instr>, s: X86.State,
                  s1: X86.State, s2: X86.State, t: X86.State)
    requires Plain(a) && Plain(b) && Plain(c)
    requires RunStraight(mc, a, s) == s1 && RunStraight(mc, b, s1) == s2 && RunStraight(mc, c, s2) == t
    ensures Plain(a + b + c) && RunStraight(mc, a + b + c, s) == t && |a + b + c| == |a| + |b| + |c|
  {
    ThreeParts(mc, a, b, c, s);
  }

  // Padding, pushes and register loads, put together.
  lemma SetupDone(mc: Machine, args: seq<Ir.Operand>, s: X86.State, s1: X86.State, s2: X86.State, t: X86.State,
                  a: nat, b: nat, c: nat)
    requires s.On? && Above(args, s.regs.rbp, s.regs.rsp) && s.regs.rsp % 16 == 0
    requires s1 == s.(pc := s.pc + a, regs := s.regs.(rsp := s.regs.rsp - Padding(|args|)))
    requires s2.On? && s2.pc == s1.pc + b && s2.tr == s1.tr && s2.regs.rbp == s1.regs.rbp
    requires s2.regs.rsp == s1.regs.rsp - 8 * (|args| - InRegs(|args|))
    requires forall a | a >= s1.regs.rsp :: At(s2.mem, a) == At(s1.mem, a)
    requires forall i | InRegs(|args|) <= i < |args| ::
               At(s2.mem, s2.regs.rsp + 8 * (i - InRegs(|args|))) == Value(mc, args[i], s1)
    requires Calm(s2, t, c)
    requires forall i | 0 <= i < InRegs(|args|) :: Get(t.regs, ArgReg(i)) == Value(mc, args[i], s2)
    ensures && t.On? && t.pc == s.pc + a + b + c && t.tr == s.tr
      && t.regs.rsp == s.regs.rsp - 8 * StackArgs(|args|) - Padding(|args|) && t.regs.rbp == s.regs.rbp
      && t.regs.rsp % 16 == 0
      && (forall a | a >= s.regs.rsp :: At(t.mem, a) == At(s.mem, a))
      && (forall i | 0 <= i < |args| :: Argument(t.regs, t.mem, i) == Value(mc, args[i], s))
  {
    ArgumentsPlaced(mc, args, s, s1, s2, t);
    PaddingAligns(s.regs.rsp, |args|);
  }

  lemma ThreeParts(mc: Machine, a: seq<X86.Instr>, b: seq<X86.Instr>, c: seq<X86.Instr>, s: X86.State)
    requires Plain(a) && Plain(b) && Plain(c)
    ensures Plain(a + b + c)
    ensures RunStraight(mc, a + b + c, s) == RunStraight(mc, c, RunStraight(mc, b, RunStraight(mc, a, s)))
  {
    RunStraightAdds(mc, a, b, s);
    RunStraightAdds(mc, a + b, c, s);
  }

  lemma PaddingAligns(rsp: int, n: nat)
    requires rsp % 16 == 0
    ensures (rsp - 8 * StackArgs(n) - Padding(n)) % 16 == 0
  {
  }

  lemma PadExec(mc: Machine, n: nat, s: X86.State)
    requires s.On?
    ensures var pad := if Padding(n) > 0 then [SubRsp(8)] else [];
      Plain(pad) && RunStraight(mc, pad, s) == s.(pc := s.pc + |pad|, regs := s.regs.(rsp := s.regs.rsp - Padding(n)))
  {
    if Padding(n) > 0 {
      Exec1(mc, SubRsp(8), s);
    }
  }

  lemma ArgumentsPlaced(mc: Machine, args: seq<Ir.Operand>, s: X86.State, s1: X86.State, s2: X86.State, t: X86.State)
    requires s.On? && s1.On? && s2.On? && Above(args, s.regs.rbp, s.regs.rsp)
    requires s1.regs.rbp == s.regs.rbp && s2.regs.rbp == s.regs.rbp && s1.mem == s.mem
    requires s1.regs.rsp <= s.regs.rsp && forall a | a >= s1.regs.rsp :: At(s2.mem, a) == At(s.mem, a)
    requires forall i | InRegs(|args|) <= i < |args| ::
               At(s2.mem, s2.regs.rsp + 8 * (i - InRegs(|args|))) == Value(mc, args[i], s1)
    requires t.On? && Calm(s2, t, t.pc - s2.pc)
    requires forall i | 0 <= i < InRegs(|args|) :: Get(t.regs, ArgReg(i)) == Value(mc, args[i], s2)
    ensures forall i | 0 <= i < |args| :: Argument(t.regs, t.mem, i) == Value(mc, args[i], s)
  {
    forall i | 0 <= i < |args|
      ensures Argument(t.regs, t.mem, i) == Value(mc, args[i], s)
    {
      ValueStays(mc, args[i], s, s1, s.regs.rsp);
      if i < 6 {
        ValueStays(mc, args[i], s, s2, s.regs.rsp);
      } else {
        assert At(t.mem, t.regs.rsp + 8 * (i - 6)) == Value(mc, args[i], s1);
      }
    }
  }

  /** Register by register: the first six arguments, and the others from rsp upward. */
  lemma RegisterArguments(mc: Machine, args: seq<Ir.Operand>, s: X86.State)
    requires s.On? && Above(args, s.regs.rbp, s.regs.rsp) && s.regs.rsp % 16 == 0
    ensures Plain(CallSetup(args))
    ensures var t, n := RunStraight(mc, CallSetup(args), s), |args|;
      && t.On?
      && (n > 0 ==> t.regs.rdi == Value(mc, args[0], s)) && (n > 1 ==> t.regs.rsi == Value(mc, args[1], s))
      && (n > 2 ==> t.regs.rdx == Value(mc, args[2], s)) && (n > 3 ==> t.regs.rcx == Value(mc, args[3], s))
      && (n > 4 ==> t.regs.r8 == Value(mc, args[4], s)) && (n > 5 ==> t.regs.r9 == Value(mc, args[5], s))
      && forall i | 6 <= i < n :: Wrap(At(t.mem, t.regs.rsp + 8 * (i - 6))) == Value(mc, args[i], s)
  {
    hide RunStraight, CallSetup, Value;
    CallSetupExec(mc, args, s);
    ghost var t := RunStraight(mc, CallSetup(args), s);
    forall i: nat ensures i < |args| ==> Argument(t.regs, t.mem, i) == Value(mc, args[i], s) {
    }
    assert |args| > 0 ==> Argument(t.regs, t.mem, 0) == t.regs.rdi;
    assert |args| > 1 ==> Argument(t.regs, t.mem, 1) == t.regs.rsi;
    assert |args| > 2 ==> Argument(t.regs, t.mem, 2) == t.regs.rdx;
    assert |args| > 3 ==> Argument(t.regs, t.mem, 3) == t.regs.rcx;
    assert |args| > 4 ==> Argument(t.regs, t.mem, 4) == t.regs.r8;
    assert |args| > 5 ==> Argument(t.regs, t.mem, 5) == t.regs.r9;
  }

  /** The one call that is emitted is of the name itself, but of puts for print_str. */
  lemma CalledSymbol(f: string, args: seq<Ir.Operand>, i: X86.Instr)
    requires i in EmitCall(f, args) && i.Call?
    ensures i.callee == (if f == "print_str" then "puts" else f) && i.argc == |args|
  {
    PushesNoCalls(args, InRegs(|args|));
    LoadsNoCalls(args, InRegs(|args|));
  }

  lemma CallExec(mc: Machine, f: string, args: seq<Ir.Operand>, s: X86.State, vs: seq<Word>)
    requires s.On? && Above(args, s.regs.rbp, s.regs.rsp) && s.regs.rsp % 16 == 0
    requires |vs| == |args| && forall i | 0 <= i < |args| :: vs[i] == Value(mc, args[i], s)
    ensures Plain(EmitCall(f, args))
    ensures var t := RunStraight(mc, EmitCall(f, args), s);
      var ev := CallResult(mc.world, f, vs, s.tr);
      && t.On? && t.pc == s.pc + |EmitCall(f, args)| && t.tr == s.tr + [ev] && t.regs.rax == ev.result
      && t.regs.rsp == s.regs.rsp && t.regs.rbp == s.regs.rbp
      && forall a | a >= s.regs.rsp :: At(t.mem, a) == At(s.mem, a)
  {
    CallPlain(f, args);
    CallCode(f, args);
    CallSetupExec(mc, args, s);
    CallAndCleanup(mc, f, args, CallSetup(args), s, vs);
  }

  function CallEnd(n: nat): seq<X86.Instr> {
    if StackArgs(n) * 8 + Padding(n) > 0 then [AddRsp(StackArgs(n) * 8 + Padding(n))] else []
  }

  lemma CallCode(f: string, args: seq<Ir.Operand>)
    ensures EmitCall(f, args) == CallSetup(args) + [X86.Call(LinkName(f), |args|)] + CallEnd(|args|)
  {
  }

  // After any `setup` that leaves the arguments in place and the stack aligned.
  lemma CallAndCleanup(mc: Machine, f: string, args: seq<Ir.Operand>, setup: seq<X86.Instr>, s: X86.State, vs: seq<Word>)
    requires s.On? && Plain(setup) && |vs| == |args|
    requires var t := RunStraight(mc, setup, s);
      && t.On? && t.pc == s.pc + |setup| && t.tr == s.tr
      && t.regs.rsp == s.regs.rsp - 8 * StackArgs(|args|) - Padding(|args|) && t.regs.rbp == s.regs.rbp
      && t.regs.rsp % 16 == 0
      && (forall a | a >= s.regs.rsp :: At(t.mem, a) == At(s.mem, a))
      && (forall i | 0 <= i < |args| :: Argument(t.regs, t.mem, i) == vs[i])
    ensures var code := setup + [X86.Call(LinkName(f), |args|)] + CallEnd(|args|);
      var t := RunStraight(mc, code, s);
      var ev := CallResult(mc.world, f, vs, s.tr);
      && Plain(code)
      && t.On? && t.pc == s.pc + |code| && t.tr == s.tr + [ev] && t.regs.rax == ev.result
      && t.regs.rsp == s.regs.rsp && t.regs.rbp == s.regs.rbp
      && forall a | a >= s.regs.rsp :: At(t.mem, a) == At(s.mem, a)
  {
    hide RunStraight, Effect, Argument, AfterCall, CallResult;
    var n, call := |args|, X86.Call(LinkName(f), |args|);
    var s1 := RunStraight(mc, setup, s);
    CalleeRuns(mc, f, n, s1, vs);
    var s2 := RunStraight(mc, [call], s1);
    CleanupExec(mc, StackArgs(n) * 8 + Padding(n), s2);
    ThreeParts(mc, setup, [call], CallEnd(n), s);
    CallDone(s, s1, s2, RunStraight(mc, CallEnd(n), s2), n, |setup|, |CallEnd(n)|);
  }

  // The stack pointer is back, and nothing above it has changed.
  lemma CallDone(s: X86.State, s1: X86.State, s2: X86.State, t: X86.State, n: nat, a: nat, b: nat)
    requires s.On? && s1.On? && s2.On? && s1.pc == s.pc + a && s2.pc == s1.pc + 1
    requires s1.regs.rsp == s.regs.rsp - 8 * StackArgs(n) - Padding(n) && s1.regs.rbp == s.regs.rbp
    requires s2.regs.rsp == s1.regs.rsp && s2.regs.rbp == s1.regs.rbp
    requires forall a | a >= s.regs.rsp :: At(s1.mem, a) == At(s.mem, a)
    requires forall a | a >= s1.regs.rsp + 8 * StackArgs(n) :: At(s2.mem, a) == At(s1.mem, a)
    requires t == s2.(pc := s2.pc + b, regs := s2.regs.(rsp := s2.regs.rsp + StackArgs(n) * 8 + Padding(n)))
    ensures t.pc == s.pc + a + 1 + b && t.regs.rsp == s.regs.rsp && t.regs.rbp == s.regs.rbp
    ensures forall a | a >= s.regs.rsp :: At(t.mem, a) == At(s.mem, a)
  {
  }

  lemma CalleeRuns(mc: Machine, f: string, n: nat, s: X86.State, vs: seq<Word>)
    requires s.On? && s.regs.rsp % 16 == 0 && |vs| == n
    requires forall i | 0 <= i < n :: Argument(s.regs, s.mem, i) == vs[i]
    ensures Plain([X86.Call(LinkName(f), n)])
    ensures var t := RunStraight(mc, [X86.Call(LinkName(f), n)], s);
      var ev := CallResult(mc.world, f, vs, s.tr);
      && t.On? && t.pc == s.pc + 1 && t.tr == s.tr + [ev] && t.regs.rax == ev.result
      && t.regs.rsp == s.regs.rsp && t.regs.rbp == s.regs.rbp
      && forall a | a >= s.regs.rsp + 8 * StackArgs(n) :: At(t.mem, a) == At(s.mem, a)
  {
    hide RunStraight, WordBits;
    assert X86.Arguments(s.regs, s.mem, n) == vs;
    Exec1(mc, X86.Call(LinkName(f), n), s);
  }

  lemma CleanupExec(mc: Machine, n: nat, s: X86.State)
    requires s.On?
    ensures var code := if n > 0 then [AddRsp(n)] else [];
      Plain(code) && RunStraight(mc, code, s) == s.(pc := s.pc + |code|, regs := s.regs.(rsp := s.regs.rsp + n))
  {
    if n > 0 {
      Exec1(mc, AddRsp(n), s);
    }
  }

  // ---------- one instruction at a time ----------

  // The stack frame of the running function: its rbp, its frame size, how many
  // stack words its names may use, and the memory its prologue left.
  // `pos` says where each instruction's code starts.
  datatype Frame = Frame(rbp: int, size: nat, words: nat, saved: Memory, pos: seq<nat>)

  predicate FrameOk(f: Frame) {
    f.rbp % 16 == 0 && f.size % 16 == 0
  }

  // All slots lie at or above the stack pointer of the body, rbp - 16 - size.
  predicate Roomy(f: Frame) {
    8 * f.words <= f.size + 16
  }

  predicate InSlots(f: Frame, a: int) {
    f.words > 0 && (a == f.rbp || f.rbp - 8 * f.words <= a <= f.rbp - 16)
  }

  /** Nothing at or above the body's stack pointer has changed, apart from the slots. */
  ghost predicate Untouched(f: Frame, mem: Memory) {
    forall a | a >= f.rbp - 16 - f.size && !InSlots(f, a) :: At(mem, a) == At(f.saved, a)
  }

  // A function's code at `start` in the program, with its live sets.
  datatype Region = Region(start: nat, code: seq<Ir.Instr>, lives: seq<LiveSet>, marks: Marks)

  ghost predicate RegionOk(im: M.Image, g: Region, f: Frame) {
    && M.CodeAt(im.code, g.start, g.code)
    && Consistent(g.code, g.lives, {}, g.marks)
    && g.code != [] && g.code[|g.code| - 1].EndFunc?
    && (forall i | 0 <= i < |g.code| :: InstrFits(g.code, i, f.words))
    && (forall l | l in g.marks :: DefinesLabel(g.code, l))
    && M.UniqueLabels(im.code)
  }

  ghost predicate DefinesLabel(code: seq<Ir.Instr>, l: nat) {
    exists i :: 0 <= i < |code| && code[i] == Ir.Label(l)
  }

  // What the emitter relies on at each instruction.
  predicate InstrFits(code: seq<Ir.Instr>, i: nat, words: nat)
    requires i < |code|
  {
    && (forall o | o in Uses(code[i]) && IsSlot(o) :: o.n < words)
    && (Def(code[i]).Some? ==> IsSlot(Def(code[i]).value) && Def(code[i]).value.n < words)
    && (code[i].Alu? ==> IsSlot(code[i].b))
    && (code[i].GetRet? ==> i > 0 && code[i - 1].CallTo?)
    && (code[i].StringDef? ==> i + 1 < |code| && code[i + 1].Mov?)
  }

  /** The instruction calls no function of the program. */
  predicate Outward(mc: Machine, i: Ir.Instr) {
    i.CallTo? ==> Entry(LinkName(i.callee)) !in mc.code
  }

  ghost predicate AllOutward(mc: Machine, code: seq<Ir.Instr>) {
    forall i | 0 <= i < |code| :: Outward(mc, code[i])
  }

  // The two machines agree on the outside world.
  ghost predicate SameWorld(im: M.Image, mc: Machine) {
    mc.world == im.world && forall n :: mc.stringAt(n) == im.stringAt(n)
  }

  ghost predicate SameMachine(im: M.Image, mc: Machine, f: Frame) {
    && SameWorld(im, mc)
    && |f.pos| == |im.code| + 1
    && (forall pc | 0 <= pc < |im.code| :: Placed(im, mc, f, pc))
    && (forall l, q: nat | q < |im.code| && im.code[q] == Ir.Label(l) && M.FindLabel(im.code, l) == q ::
          FindLabel(mc.code, l) == f.pos[q])
  }

  ghost predicate Placed(im: M.Image, mc: Machine, f: Frame, pc: nat)
    requires pc < |im.code| && |f.pos| == |im.code| + 1
  {
    var code := EmitInstr(im.code[pc], f.size);
    X86.CodeAt(mc.code, f.pos[pc], code) && f.pos[pc + 1] == f.pos[pc] + |code|
  }

  function Layout(code: seq<Ir.Instr>, size: nat): (pos: seq<nat>)
    ensures |pos| == |code| + 1 && forall i | 0 <= i <= |code| :: pos[i] == Pos(code, size, i)
  {
    seq(|code| + 1, i requires 0 <= i <= |code| => Pos(code, size, i))
  }

  /** What the emitter writes out is laid out as the proof needs. */
  lemma EmittedMachine(im: M.Image, mc: Machine, f: Frame)
    requires mc.code == EmitAll(im.code, f.size) && f.pos == Layout(im.code, f.size)
    requires mc.world == im.world && forall n :: mc.stringAt(n) == im.stringAt(n)
    ensures SameMachine(im, mc, f)
  {
    forall pc | 0 <= pc < |im.code| ensures Placed(im, mc, f, pc) {
      EmittedAt(im.code, f.size, pc);
    }
    forall l, q: nat | q < |im.code| && im.code[q] == Ir.Label(l) && M.FindLabel(im.code, l) == q
      ensures FindLabel(mc.code, l) == f.pos[q]
    {
      LabelsAgree(im.code, f.size, l, q);
    }
  }

  /** Every needed name's stack word holds its value, as far as a load can tell. */
  ghost predicate Holds(im: M.Image, f: Frame, live: LiveSet, s: M.State, mem: Memory)
    requires s.Running?
  {
    forall o | o in live ::
      IsSlot(o) && o.n < f.words && Wrap(At(mem, f.rbp + StackOffset(o.n))) == M.Read(im, o, s)
  }

  ghost predicate Related(im: M.Image, g: Region, f: Frame, s: M.State, x: X86.State) {
    && s.Running? && x.On?
    && g.start <= s.pc < g.start + |g.code| && s.pc < |im.code| && |g.lives| == |g.code|
    && |f.pos| == |im.code| + 1 && x.pc == f.pos[s.pc] && x.tr == s.tr
    && x.regs.rbp == f.rbp && x.regs.rsp == f.rbp - 16 - f.size
    && Untouched(f, x.mem)
    && Holds(im, f, g.lives[s.pc - g.start], s, x.mem)
    && (im.code[s.pc].GetRet? ==> x.regs.rax == s.ret)
  }

  /** Right before the final `retq`: the value is in rax, and the registers are as the epilogue pops them. */
  ghost predicate AtReturn(mc: Machine, f: Frame, x: X86.State, bottom: int, v: Option<Word>, tr: seq<Event>) {
    && x.On? && x.pc < |mc.code| && mc.code[x.pc] == Retq && x.tr == tr
    && (v.Some? ==> x.regs.rax == v.value)
    && x.regs.rsp == f.rbp + 8 && x.regs.rbp == bottom == At(x.mem, f.rbp) && Untouched(f, x.mem)
    && x.regs.rbx == Wrap(At(x.mem, f.rbp - 8 - f.size)) && x.regs.r12 == Wrap(At(x.mem, f.rbp - 16 - f.size))
  }

  // How the two runs correspond, also when the intermediate code has stopped;
  // `bottom` is the word at rbp, which is that of slot 0 and was the caller's rbp.
  ghost predicate Corresponds(im: M.Image, mc: Machine, g: Region, f: Frame, bottom: int, s: M.State, x: X86.State) {
    match s
    case Running(_, _, _, _, _) => Related(im, g, f, s, x) && At(x.mem, f.rbp) == bottom
    case Halted(v, tr) => AtReturn(mc, f, x, bottom, v, tr)
    case Trapped(tr) => x == Fault(tr)
    case Stuck => false
  }

  /** The word at rbp after a step, when it was `bottom` before. */
  function NextBottom(im: M.Image, s: M.State, bottom: int): int {
    if s.Running? && s.pc < |im.code| && WritesBottom(im.code[s.pc]) && M.Step(im, s).Running? then
      M.Read(im, Def(im.code[s.pc]).value, M.Step(im, s))
    else
      bottom
  }

  predicate WritesBottom(i: Ir.Instr) {
    Def(i).Some? && IsSlot(Def(i).value) && Def(i).value.n == 0
  }

  /** What k steps leave there: the last value written to a name of index 0, if there is one. */
  function BottomAfter(im: M.Image, s: M.State, k: nat, bottom: int): int
    decreases k
  {
    if k == 0 then bottom else BottomAfter(im, M.Step(im, s), k - 1, NextBottom(im, s, bottom))
  }

  // The instruction at a point of the region, and what the checks say of it.
  ghost predicate Point(im: M.Image, g: Region, f: Frame, pc: nat, i: Ir.Instr, live: LiveSet, next: LiveSet) {
    && g.start <= pc < g.start + |g.code| && pc < |im.code| && |g.lives| == |g.code|
    && im.code[pc] == i && g.code[pc - g.start] == i && live == g.lives[pc - g.start]
    && Local(i, live, next, g.marks) && InstrFits(g.code, pc - g.start, f.words)
    && (!i.EndFunc? ==>
          && pc + 1 < g.start + |g.code| && pc + 1 < |im.code| && next == g.lives[pc + 1 - g.start]
          && (im.code[pc + 1].GetRet? ==> i.CallTo?))
  }

  lemma AtPoint(im: M.Image, g: Region, f: Frame, pc: nat) returns (i: Ir.Instr, live: LiveSet, next: LiveSet)
    requires RegionOk(im, g, f) && g.start <= pc < g.start + |g.code|
    ensures Point(im, g, f, pc, i, live, next)
  {
    var k := pc - g.start;
    i, live, next := g.code[k], g.lives[k], LiveAfter(g.lives, {}, k);
    assert i == im.code[pc];
    assert LocalAt(g.code, g.lives, {}, g.marks, k);
    assert InstrFits(g.code, k, f.words);
    if !i.EndFunc? {
      FollowedBy(im, g, f, k);
    }
  }

  lemma FollowedBy(im: M.Image, g: Region, f: Frame, k: nat)
    requires RegionOk(im, g, f) && k < |g.code| && !g.code[k].EndFunc?
    ensures k + 1 < |g.code| && g.start + k + 1 < |im.code|
    ensures im.code[g.start + k + 1].GetRet? ==> g.code[k].CallTo?
  {
    assert g.code[k + 1] == im.code[g.start + (k + 1)];
    assert InstrFits(g.code, k + 1, f.words);
  }

  lemma ValueRead(im: M.Image, mc: Machine, f: Frame, live: LiveSet, s: M.State, x: X86.State, o: Ir.Operand)
    requires s.Running? && x.On? && x.regs.rbp == f.rbp && Holds(im, f, live, s, x.mem)
    requires SameWorld(im, mc) && (IsSlot(o) ==> o in live)
    ensures Value(mc, o, x) == M.Read(im, o, s)
  {
  }

  lemma HoldsAfterStore(im: M.Image, f: Frame, live: LiveSet, next: LiveSet, s: M.State, mem: Memory,
                        d: Ir.Operand, v: Word)
    requires s.Running? && Holds(im, f, live, s, mem) && IsSlot(d) && d.n < f.words
    requires forall o | o in next :: IsSlot(o) && (o == d || (o in live && o.n != d.n))
    ensures Holds(im, f, next, M.Write(d, v, s), mem[f.rbp + StackOffset(d.n) := v])
  {
    WrapWord(v);
  }

  lemma HoldsStays(im: M.Image, f: Frame, live: LiveSet, next: LiveSet, s: M.State, t: M.State, mem: Memory, mem1: Memory)
    requires s.Running? && t.Running? && s.temps == t.temps && s.vars == t.vars
    requires Holds(im, f, live, s, mem) && next <= live
    requires mem1 == mem || (Roomy(f) && forall a | a >= f.rbp - 16 - f.size :: At(mem1, a) == At(mem, a))
    ensures Holds(im, f, next, t, mem1)
  {
  }

  lemma UntouchedStays(f: Frame, mem: Memory, mem1: Memory)
    requires Untouched(f, mem)
    requires forall a | a >= f.rbp - 16 - f.size :: At(mem1, a) == At(mem, a)
    ensures Untouched(f, mem1)
  {
  }

  lemma UntouchedAfterStore(f: Frame, mem: Memory, n: nat, v: Word)
    requires Untouched(f, mem) && n < f.words
    ensures Untouched(f, mem[f.rbp + StackOffset(n) := v])
  {
  }

  lemma BottomStays(im: M.Image, s: M.State, bottom: int)
    requires s.Running? && s.pc < |im.code| && Def(im.code[s.pc]).None?
    ensures NextBottom(im, s, bottom) == bottom
  {
  }

  lemma BottomWritten(im: M.Image, f: Frame, s: M.State, mem: Memory, d: Ir.Operand, v: Word)
    requires s.Running? && s.pc < |im.code| && Def(im.code[s.pc]) == Some(d) && IsSlot(d)
    requires M.Step(im, s) == M.Write(d, v, s)
    ensures At(mem[f.rbp + StackOffset(d.n) := v], f.rbp) == NextBottom(im, s, At(mem, f.rbp))
  {
  }

  /** Moving on to the next instruction, with nothing written. */
  lemma MovesOn(im: M.Image, g: Region, f: Frame, s: M.State, x: X86.State, t: M.State, y: X86.State,
                i: Ir.Instr, live: LiveSet, next: LiveSet)
    requires Related(im, g, f, s, x) && Point(im, g, f, s.pc, i, live, next)
    requires Def(i).None? && !i.Jmp? && !i.Ret? && !i.EndFunc?
    requires t.Running? && t.pc == s.pc + 1 && t.temps == s.temps && t.vars == s.vars
    requires y.On? && y.tr == t.tr && y.pc == f.pos[s.pc + 1]
    requires y.regs.rbp == x.regs.rbp && y.regs.rsp == x.regs.rsp
    requires y.mem == x.mem || (Roomy(f) && forall a | a >= x.regs.rsp :: At(y.mem, a) == At(x.mem, a))
    requires i.CallTo? ==> y.regs.rax == t.ret
    ensures Related(im, g, f, t, y) && At(y.mem, f.rbp) == NextBottom(im, s, At(x.mem, f.rbp))
  {
    HoldsStays(im, f, live, next, s, t, x.mem, y.mem);
    UntouchedStays(f, x.mem, y.mem);
    BottomStays(im, s, At(x.mem, f.rbp));
  }

  /** Storing a value: the word may be shared, but no other name that is still needed has it. */
  lemma Stores(im: M.Image, g: Region, f: Frame, s: M.State, x: X86.State, v: Word, y: X86.State,
               i: Ir.Instr, live: LiveSet, next: LiveSet)
    requires Related(im, g, f, s, x) && Point(im, g, f, s.pc, i, live, next)
    requires Def(i).Some?
    requires y.On? && y.pc == f.pos[s.pc + 1] && y.tr == x.tr
    requires y.regs.rbp == x.regs.rbp && y.regs.rsp == x.regs.rsp
    requires IsSlot(Def(i).value) && y.mem == x.mem[f.rbp + StackOffset(Def(i).value.n) := v]
    requires M.Step(im, s) == M.Write(Def(i).value, v, s)
    ensures Related(im, g, f, M.Write(Def(i).value, v, s), y) && At(y.mem, f.rbp) == NextBottom(im, s, At(x.mem, f.rbp))
  {
    HoldsAfterStore(im, f, live, next, s, x.mem, Def(i).value, v);
    UntouchedAfterStore(f, x.mem, Def(i).value.n, v);
    BottomWritten(im, f, s, x.mem, Def(i).value, v);
  }

  // ---------- what each instruction does ----------

  /** Code in place at x.pc runs to where `RunStraight` says. */
  lemma InPlace(im: M.Image, mc: Machine, g: Region, f: Frame, s: M.State, x: X86.State, code: seq<X86.Instr>)
    requires Related(im, g, f, s, x) && Placed(im, mc, f, s.pc) && Outward(mc, im.code[s.pc])
    requires code <= EmitInstr(im.code[s.pc], f.size) && forall i | i in code :: !Jumps(i)
    ensures X86.CodeAt(mc.code, x.pc, code)
    ensures X86.Run(mc, x, |code|) == RunStraight(mc, code, x)
  {
    PrefixInPlace(mc.code, x.pc, EmitInstr(im.code[s.pc], f.size), code);
    OwnCalls(im.code[s.pc], f.size);
    RunStraightInPlace(mc, code, x);
  }

  lemma PlainInPlace(im: M.Image, mc: Machine, g: Region, f: Frame, s: M.State, x: X86.State, code: seq<X86.Instr>)
    requires s.Running? && x.On? && s.pc < |im.code|
    requires Related(im, g, f, s, x) && Placed(im, mc, f, s.pc) && Outward(mc, im.code[s.pc])
    requires code <= EmitInstr(im.code[s.pc], f.size) && Plain(code)
    ensures X86.CodeAt(mc.code, x.pc, code)
    ensures X86.Run(mc, x, |code|) == RunStraight(mc, code, x)
  {
    hide Related, Placed, X86.CodeAt, X86.Run, RunStraight, EmitInstr, Outward;
    InPlace(im, mc, g, f, s, x, code);
  }

  // The only call among an instruction's code is its own.
  lemma OwnCalls(i: Ir.Instr, size: nat)
    ensures forall k | k in EmitInstr(i, size) && k.Call? :: i.CallTo? && k.callee == LinkName(i.callee)
  {
    hide LinkName, EmitCall, StackOffset, Combine, EmitLoad, EmitStore;
    match i
    case CallTo(f, args) => CallOnly(f, args);
    case Alu(op, d, a, b) =>
      CombinePlain(op, b);
      MovePlain(d, a);
      MovePlain(d, b);
    case Mov(d, a) => MovePlain(d, a);
    case Un(_, d, a) => MovePlain(d, a);
    case GetRet(d) => MovePlain(d, d);
    case Brz(a, _) => MovePlain(a, a);
    case Ret(v) =>
      if v.Some? {
        MovePlain(v.value, v.value);
      }
    case Label(_) | Jmp(_) | EndFunc | Func(_) | StringDef(_, _) =>
  }

  predicate NoCalls(code: seq<X86.Instr>) {
    forall k | k in code :: !k.Call?
  }

  lemma CallOnly(f: string, args: seq<Ir.Operand>)
    ensures forall k | k in EmitCall(f, args) && k.Call? :: k.callee == LinkName(f)
  {
    PushesNoCalls(args, InRegs(|args|));
    LoadsNoCalls(args, InRegs(|args|));
  }

  lemma {:induction false} PushesNoCalls(args: seq<Ir.Operand>, lo: nat)
    requires lo <= |args|
    ensures NoCalls(PushArgs(args, lo))
    decreases |args| - lo
  {
    if lo < |args| {
      PushesNoCalls(args, lo + 1);
    }
  }

  lemma {:induction false} LoadsNoCalls(args: seq<Ir.Operand>, k: nat)
    requires k <= |args| && k <= 6
    ensures NoCalls(RegArgs(args, k))
  {
    if k > 0 {
      LoadsNoCalls(args, k - 1);
    }
  }

  lemma PrefixInPlace(code: seq<X86.Instr>, pc: nat, whole: seq<X86.Instr>, part: seq<X86.Instr>)
    requires X86.CodeAt(code, pc, whole) && part <= whole
    ensures X86.CodeAt(code, pc, part)
  {
    forall k | 0 <= k < |part| ensures part[k] == code[pc + k] {
      assert part[k] == whole[k];
    }
  }

  // The code that leaves an instruction's value in rax, and that value.
  function Compute(i: Ir.Instr): seq<X86.Instr> {
    match i
    case Mov(_, a) => EmitLoad(a)
    case Alu(op, _, a, b) => EmitLoad(a) + [MovRR(RAX, RBX)] + EmitLoad(b) + Combine(op, b)
    case Un(op, _, a) => EmitLoad(a) + (if op.Neg? then [NegRax] else if op.Not? then [NotRax] else [])
    case _ => []
  }

  lemma ComputePlain(i: Ir.Instr)
    ensures Plain(Compute(i)) && forall k | k in Compute(i) :: !Jumps(k)
  {
    hide Combine, EmitLoad;
    match i
    case Mov(_, a) => MovePlain(a, a);
    case Alu(op, _, a, b) =>
      CombinePlain(op, b);
      MovePlain(a, a);
      MovePlain(b, b);
    case Un(_, _, a) => MovePlain(a, a);
    case _ =>
  }

  function Result(im: M.Image, i: Ir.Instr, s: M.State): Option<Word>
    requires s.Running?
  {
    match i
    case Mov(_, a) => Some(M.Read(im, a, s))
    case Alu(op, _, a, b) => AluValue(op, M.Read(im, a, s), M.Read(im, b, s))
    case Un(op, _, a) => Some(M.UnaryValue(op, M.Read(im, a, s)))
    case _ => Some(s.ret)
  }

  lemma UnaryExec(mc: Machine, op: Ir.UnaryInstr, s: X86.State)
    requires s.On?
    ensures var code := if op.Neg? then [NegRax] else if op.Not? then [NotRax] else [];
      var t := RunStraight(mc, code, s);
      Plain(code) && Calm(s, t, |code|) && t.regs.rax == M.UnaryValue(op, s.regs.rax)
  {
    if op.Neg? {
      Exec1(mc, NegRax, s);
    } else if op.Not? {
      Exec1(mc, NotRax, s);
    }
  }

  lemma AluExec(mc: Machine, op: AluOp, a: Ir.Operand, b: Ir.Operand, s: X86.State)
    requires s.On? && IsSlot(b)
    ensures var code := EmitLoad(a) + [MovRR(RAX, RBX)] + EmitLoad(b) + Combine(op, b);
      var t := RunStraight(mc, code, s);
      && Plain(code)
      && match AluValue(op, Value(mc, a, s), Value(mc, b, s))
         case Some(v) => Calm(s, t, |code|) && t.regs.rax == v
         case None => t == Fault(s.tr)
  {
    hide RunStraight, AluValue;
    var la, mv, lb := EmitLoad(a), [MovRR(RAX, RBX)], EmitLoad(b);
    LoadExec(mc, a, s);
    var s1 := RunStraight(mc, la, s);
    Exec1(mc, MovRR(RAX, RBX), s1);
    var s2 := RunStraight(mc, mv, s1);
    LoadExec(mc, b, s2);
    var s3 := RunStraight(mc, lb, s2);
    CombineExec(mc, op, b, s3, Value(mc, a, s), Value(mc, b, s));
    RunStraightAdds(mc, la, mv, s);
    RunStraightAdds(mc, la + mv, lb, s);
    RunStraightAdds(mc, la + mv + lb, Combine(op, b), s);
  }

  /** The value of any instruction that has one reaches rax, or the machine faults as it should. */
  lemma ComputeExec(im: M.Image, mc: Machine, f: Frame, live: LiveSet, s: M.State, x: X86.State, i: Ir.Instr)
    requires s.Running? && x.On? && x.regs.rbp == f.rbp && Holds(im, f, live, s, x.mem) && SameWorld(im, mc)
    requires Def(i).Some? && (i.Alu? ==> IsSlot(i.b)) && (i.GetRet? ==> x.regs.rax == s.ret)
    requires (forall o | o in Uses(i) && IsSlot(o) :: o in live) && Plain(Compute(i))
    ensures var t := RunStraight(mc, Compute(i), x);
      match Result(im, i, s)
         case Some(v) => Calm(x, t, |Compute(i)|) && t.regs.rax == v
         case None => t == Fault(x.tr)
  {
    match i
    case Mov(_, a) =>
      ValueRead(im, mc, f, live, s, x, a);
      LoadExec(mc, a, x);
    case Alu(op, _, a, b) =>
      ValueRead(im, mc, f, live, s, x, a);
      ValueRead(im, mc, f, live, s, x, b);
      AluExec(mc, op, a, b, x);
    case Un(op, _, a) =>
      ValueRead(im, mc, f, live, s, x, a);
      LoadExec(mc, a, x);
      UnaryExec(mc, op, RunStraight(mc, EmitLoad(a), x));
      RunStraightAdds(mc, EmitLoad(a), Compute(i)[1..], x);
      assert Compute(i) == EmitLoad(a) + Compute(i)[1..];
    case GetRet(_) =>
  }

  lemma ComputeThenStore(i: Ir.Instr, size: nat)
    requires Def(i).Some? && IsSlot(Def(i).value)
    ensures EmitInstr(i, size) == Compute(i) + [Store(StackOffset(Def(i).value.n))]
  {
  }

  lemma ValueStep(im: M.Image, mc: Machine, g: Region, f: Frame, s: M.State, x: X86.State,
                  i: Ir.Instr, live: LiveSet, next: LiveSet) returns (j: nat)
    requires Related(im, g, f, s, x) && Point(im, g, f, s.pc, i, live, next)
    requires SameWorld(im, mc) && Placed(im, mc, f, s.pc) && Def(i).Some?
    ensures j > 0 && Corresponds(im, mc, g, f, NextBottom(im, s, At(x.mem, f.rbp)), M.Step(im, s), X86.Run(mc, x, j))
  {
    hide *;
    Agrees(im, g, f, s, x, i, live, next);
    ValuePlaced(mc, i, f.size);
    ComputePlain(i);
    ComputeExec(im, mc, f, live, s, x, i);
    var code, t := Compute(i), RunStraight(mc, Compute(i), x);
    if Result(im, i, s).None? {
      j := |code|;
      PlainInPlace(im, mc, g, f, s, x, code);
      FaultHasCode(im, i, s);
      FaultDone(im, mc, g, f, s, x, i, X86.Run(mc, x, j));
    } else {
      var off := StackOffset(Def(i).value.n);
      j := |code| + 1;
      StoreAfter(mc, code, off, x);
      PlainInPlace(im, mc, g, f, s, x, code + [Store(off)]);
      ValueDone(im, mc, g, f, s, x, i, live, next, t, X86.Run(mc, x, j));
    }
  }

  // What the state says about the operands, and the check about the instruction.
  lemma Agrees(im: M.Image, g: Region, f: Frame, s: M.State, x: X86.State, i: Ir.Instr, live: LiveSet, next: LiveSet)
    requires Related(im, g, f, s, x) && Point(im, g, f, s.pc, i, live, next) && Def(i).Some?
    ensures s.Running? && x.On? && x.regs.rbp == f.rbp && Holds(im, f, live, s, x.mem)
    ensures (i.Alu? ==> IsSlot(i.b)) && (i.GetRet? ==> x.regs.rax == s.ret)
    ensures (forall o | o in Uses(i) && IsSlot(o) :: o in live) && IsSlot(Def(i).value)
    ensures s.pc < |im.code| && im.code[s.pc] == i
  {
  }

  lemma ValuePlaced(mc: Machine, i: Ir.Instr, size: nat)
    requires Def(i).Some? && IsSlot(Def(i).value)
    ensures EmitInstr(i, size) == Compute(i) + [Store(StackOffset(Def(i).value.n))]
    ensures Compute(i) <= EmitInstr(i, size) && Outward(mc, i)
  {
    ComputeThenStore(i, size);
  }

  lemma FaultHasCode(im: M.Image, i: Ir.Instr, s: M.State)
    requires s.Running? && Result(im, i, s).None?
    ensures Compute(i) != []
  {
  }

  lemma FaultDone(im: M.Image, mc: Machine, g: Region, f: Frame, s: M.State, x: X86.State, i: Ir.Instr, y: X86.State)
    requires s.Running? && x.On? && Def(i).Some? && s.pc < |im.code| && im.code[s.pc] == i
    requires Related(im, g, f, s, x) && Result(im, i, s).None? && y == Fault(x.tr)
    ensures Corresponds(im, mc, g, f, NextBottom(im, s, At(x.mem, f.rbp)), M.Step(im, s), y)
  {
    hide Result, NextBottom, Holds, Untouched, M.Step;
    StepIs(im, i, s);
  }

  // The value is in rax at t and stored at y.
  lemma ValueDone(im: M.Image, mc: Machine, g: Region, f: Frame, s: M.State, x: X86.State, i: Ir.Instr, live: LiveSet,
                  next: LiveSet, t: X86.State, y: X86.State)
    requires s.Running? && x.On? && Def(i).Some? && IsSlot(Def(i).value) && s.pc < |im.code| && im.code[s.pc] == i
    requires Related(im, g, f, s, x) && Point(im, g, f, s.pc, i, live, next) && Placed(im, mc, f, s.pc)
    requires EmitInstr(i, f.size) == Compute(i) + [Store(StackOffset(Def(i).value.n))]
    requires Result(im, i, s).Some? && Calm(x, t, |Compute(i)|) && t.regs.rax == Result(im, i, s).value
    requires y == t.(pc := t.pc + 1, mem := t.mem[t.regs.rbp + StackOffset(Def(i).value.n) := t.regs.rax])
    ensures Corresponds(im, mc, g, f, NextBottom(im, s, At(x.mem, f.rbp)), M.Step(im, s), y)
  {
    hide EmitInstr, Compute, Holds, Untouched, NextBottom, Point, X86.CodeAt, Result, M.Step, IsSlot, StackOffset, Def;
    StepIs(im, i, s);
    Stores(im, g, f, s, x, t.regs.rax, y, i, live, next);
  }

  lemma StepIs(im: M.Image, i: Ir.Instr, s: M.State)
    requires s.Running? && s.pc < |im.code| && im.code[s.pc] == i && Def(i).Some?
    ensures M.Step(im, s) == match Result(im, i, s)
                             case None => M.Trapped(s.tr)
                             case Some(v) => M.Write(Def(i).value, v, s)
  {
  }

  lemma StoreAfter(mc: Machine, code: seq<X86.Instr>, off: int, x: X86.State)
    requires Plain(code) && RunStraight(mc, code, x).On?
    ensures Plain(code + [X86.Store(off)])
    ensures var t := RunStraight(mc, code, x);
      RunStraight(mc, code + [X86.Store(off)], x) == t.(pc := t.pc + 1, mem := t.mem[t.regs.rbp + off := t.regs.rax])
  {
    hide RunStraight, Then;
    PlainStore(code, off);
    RunStraightAdds(mc, code, [X86.Store(off)], x);
    Exec1(mc, X86.Store(off), RunStraight(mc, code, x));
    StoreEffect(mc, off, RunStraight(mc, code, x));
  }

  lemma PlainStore(code: seq<X86.Instr>, off: int)
    requires Plain(code)
    ensures Plain(code + [X86.Store(off)])
  {
  }

  lemma StoreEffect(mc: Machine, off: int, t: X86.State)
    requires t.On?
    ensures Then(mc, X86.Store(off), t) == t.(pc := t.pc + 1, mem := t.mem[t.regs.rbp + off := t.regs.rax])
  {
  }

  lemma CallStep(im: M.Image, mc: Machine, g: Region, f: Frame, s: M.State, x: X86.State,
                 i: Ir.Instr, live: LiveSet, next: LiveSet) returns (j: nat)
    requires Related(im, g, f, s, x) && Point(im, g, f, s.pc, i, live, next)
    requires SameWorld(im, mc) && Placed(im, mc, f, s.pc) && FrameOk(f) && Roomy(f) && i.CallTo? && Outward(mc, i)
    ensures j > 0 && Corresponds(im, mc, g, f, NextBottom(im, s, At(x.mem, f.rbp)), M.Step(im, s), X86.Run(mc, x, j))
  {
    hide RunStraight, Run, Holds, Untouched;
    var code := EmitCall(i.callee, i.args);
    var vs := M.ReadAll(im, i.args, s);
    forall k | 0 <= k < |i.args| ensures vs[k] == Value(mc, i.args[k], x) {
      assert i.args[k] in Uses(i);
      ValueRead(im, mc, f, live, s, x, i.args[k]);
    }
    SlotsAbove(i.args, f);
    CallExec(mc, i.callee, i.args, x, vs);
    InPlace(im, mc, g, f, s, x, code);
    j := |code|;
    MovesOn(im, g, f, s, x, M.Step(im, s), RunStraight(mc, code, x), i, live, next);
  }

  lemma SlotsAbove(args: seq<Ir.Operand>, f: Frame)
    requires Roomy(f) && forall o | o in args && IsSlot(o) :: o.n < f.words
    ensures Above(args, f.rbp, f.rbp - 16 - f.size)
  {
  }

  /** `label` is one instruction, a string definition none: it goes to the data section. */
  lemma PassStep(im: M.Image, mc: Machine, g: Region, f: Frame, s: M.State, x: X86.State,
                 i: Ir.Instr, live: LiveSet, next: LiveSet) returns (j: nat)
    requires Related(im, g, f, s, x) && Point(im, g, f, s.pc, i, live, next)
    requires Placed(im, mc, f, s.pc) && (i.Label? || i.StringDef?)
    ensures j == if i.Label? then 1 else 0
    ensures Corresponds(im, mc, g, f, NextBottom(im, s, At(x.mem, f.rbp)), M.Step(im, s), X86.Run(mc, x, j))
  {
    var code := EmitInstr(i, f.size);
    InPlace(im, mc, g, f, s, x, code);
    j := |code|;
    if i.Label? {
      Exec1(mc, code[0], x);
    }
    MovesOn(im, g, f, s, x, M.Step(im, s), RunStraight(mc, code, x), i, live, next);
  }

  // Both machines find label l at the instruction q, with the same names needed there.
  ghost predicate Target(im: M.Image, mc: Machine, g: Region, f: Frame, l: nat, q: nat) {
    && g.start <= q < g.start + |g.code| && q < |im.code| && im.code[q] == Ir.Label(l)
    && |f.pos| == |im.code| + 1 && |g.lives| == |g.code|
    && M.FindLabel(im.code, l) == q && FindLabel(mc.code, l) == f.pos[q]
    && l in g.marks && g.lives[q - g.start] == g.marks[l]
  }

  lemma JumpTarget(im: M.Image, mc: Machine, g: Region, f: Frame, l: nat) returns (q: nat)
    requires RegionOk(im, g, f) && SameMachine(im, mc, f) && l in g.marks
    ensures Target(im, mc, g, f, l, q)
  {
    hide FindLabel, Placed, InstrFits;
    assert DefinesLabel(g.code, l);
    var k :| 0 <= k < |g.code| && g.code[k] == Ir.Label(l);
    q := g.start + k;
    assert im.code[q] == g.code[k];
    M.LabelFound(im.code, q, l);
    assert LocalAt(g.code, g.lives, {}, g.marks, k);
  }

  /** Arriving at a label. */
  lemma Arrives(im: M.Image, mc: Machine, g: Region, f: Frame, s: M.State, x: X86.State, l: nat, q: nat, y: X86.State)
    requires Related(im, g, f, s, x) && Target(im, mc, g, f, l, q)
    requires g.marks[l] <= g.lives[s.pc - g.start]
    requires y.On? && y.pc == FindLabel(mc.code, l) && y.tr == x.tr && y.mem == x.mem
    requires y.regs.rbp == x.regs.rbp && y.regs.rsp == x.regs.rsp
    ensures Related(im, g, f, s.(pc := q), y)
  {
  }

  lemma RunThenStep(mc: Machine, x: X86.State, j: nat)
    ensures X86.Run(mc, x, j + 1) == X86.Step(mc, X86.Run(mc, x, j))
  {
    X86.RunAdds(mc, x, j, 1);
    assert X86.Run(mc, X86.Run(mc, x, j), 1) == X86.Run(mc, X86.Step(mc, X86.Run(mc, x, j)), 0);
  }

  lemma JumpStep(im: M.Image, mc: Machine, g: Region, f: Frame, s: M.State, x: X86.State,
                 i: Ir.Instr, live: LiveSet, next: LiveSet, q: nat) returns (j: nat)
    requires Related(im, g, f, s, x) && Point(im, g, f, s.pc, i, live, next)
    requires Placed(im, mc, f, s.pc) && i.Jmp? && Target(im, mc, g, f, i.l, q)
    ensures j > 0 && Corresponds(im, mc, g, f, NextBottom(im, s, At(x.mem, f.rbp)), M.Step(im, s), X86.Run(mc, x, j))
  {
    assert mc.code[x.pc] == EmitInstr(i, f.size)[0];
    j := 1;
    var y := X86.Step(mc, x);
    assert X86.Run(mc, x, 1) == X86.Run(mc, y, 0);
    Arrives(im, mc, g, f, s, x, i.l, q, y);
  }

  lemma BranchStep(im: M.Image, mc: Machine, g: Region, f: Frame, s: M.State, x: X86.State,
                   i: Ir.Instr, live: LiveSet, next: LiveSet, q: nat) returns (j: nat)
    requires Related(im, g, f, s, x) && Point(im, g, f, s.pc, i, live, next)
    requires SameWorld(im, mc) && Placed(im, mc, f, s.pc) && i.Brz? && Target(im, mc, g, f, i.l, q)
    ensures j > 0 && Corresponds(im, mc, g, f, NextBottom(im, s, At(x.mem, f.rbp)), M.Step(im, s), X86.Run(mc, x, j))
  {
    hide RunStraight, Step, FindLabel, Untouched;
    var code := EmitLoad(i.a) + [TestRax];
    TestExec(mc, i.a, x);
    ValueRead(im, mc, f, live, s, x, i.a);
    assert EmitInstr(i, f.size) == code + [Jz(i.l)];
    InPlace(im, mc, g, f, s, x, code);
    var t := RunStraight(mc, code, x);
    assert mc.code[t.pc] == EmitInstr(i, f.size)[2];
    j := |code| + 1;
    var y := JumpTaken(mc, t, i.l);
    RunThenStep(mc, x, |code|);
    if M.Read(im, i.a, s) == 0 {
      Arrives(im, mc, g, f, s, x, i.l, q, y);
    } else {
      MovesOn(im, g, f, s, x, M.Step(im, s), y, i, live, next);
    }
  }

  lemma JumpTaken(mc: Machine, t: X86.State, l: nat) returns (y: X86.State)
    requires t.On? && t.pc < |mc.code| && mc.code[t.pc] == Jz(l)
    ensures y == X86.Step(mc, t) == t.(pc := if t.zf then FindLabel(mc.code, l) else t.pc + 1)
  {
    y := X86.Step(mc, t);
  }

  lemma TestExec(mc: Machine, o: Ir.Operand, x: X86.State)
    requires x.On?
    ensures var code := EmitLoad(o) + [TestRax];
      var t := RunStraight(mc, code, x);
      Plain(code) && Calm(x, t, 2) && (t.zf <==> Value(mc, o, x) == 0)
  {
    LoadExec(mc, o, x);
    RunStraightAdds(mc, EmitLoad(o), [TestRax], x);
    Exec1(mc, TestRax, RunStraight(mc, EmitLoad(o), x));
  }

  /**
   The epilogue returns to the address above the saved rbp with rax kept.  It
   pops r12 and rbx from the bottom of the frame.
   */
  lemma EpilogueRun(mc: Machine, x: X86.State)
    requires x.On? && X86.CodeAt(mc.code, x.pc, EPILOGUE)
    ensures Popped(mc, x, X86.Run(mc, x, 3))
    ensures X86.Run(mc, x, 4) == Return(mc, X86.Run(mc, x, 3))
  {
    hide RunStraight, Effect;
    var code := [Pop(R12), Pop(RBX), Leave];
    EpilogueCode(mc.code, x.pc);
    RunStraightInPlace(mc, code, x);
    EpilogueExec(mc, x);
    RunThenStep(mc, x, 3);
  }

  /** From x to right before `retq`. */
  ghost predicate Popped(mc: Machine, x: X86.State, y: X86.State)
    requires x.On?
  {
    && y.On? && y.pc < |mc.code| && mc.code[y.pc] == Retq && y.tr == x.tr && y.mem == x.mem
    && y.regs.rax == x.regs.rax && y.regs.rsp == x.regs.rbp + 8 && y.regs.rbp == At(x.mem, x.regs.rbp)
    && y.regs.r12 == Wrap(At(x.mem, x.regs.rsp)) && y.regs.rbx == Wrap(At(x.mem, x.regs.rsp + 8))
  }

  lemma EpilogueCode(code: seq<X86.Instr>, pc: nat)
    requires X86.CodeAt(code, pc, EPILOGUE)
    ensures X86.CodeAt(code, pc, [Pop(R12), Pop(RBX), Leave]) && pc + 3 < |code| && code[pc + 3] == Retq
  {
    var part := [Pop(R12), Pop(RBX), Leave];
    forall k | 0 <= k < 3 ensures part[k] == code[pc + k] {
      assert part[k] == EPILOGUE[k];
    }
    assert EPILOGUE[3] == code[pc + 3];
  }

  lemma EpilogueExec(mc: Machine, x: X86.State)
    requires x.On?
    ensures var t := RunStraight(mc, [Pop(R12), Pop(RBX), Leave], x);
      && t.On? && t.pc == x.pc + 3 && t.tr == x.tr && t.mem == x.mem && t.regs.rax == x.regs.rax
      && t.regs.rsp == x.regs.rbp + 8 && t.regs.rbp == At(x.mem, x.regs.rbp)
      && t.regs.r12 == Wrap(At(x.mem, x.regs.rsp)) && t.regs.rbx == Wrap(At(x.mem, x.regs.rsp + 8))
  {
    hide RunStraight, Division, AfterCall, WordBits;
    Exec3(mc, Pop(R12), Pop(RBX), Leave, x);
  }

  lemma ReturnStep(im: M.Image, mc: Machine, g: Region, f: Frame, s: M.State, x: X86.State,
                   i: Ir.Instr, live: LiveSet, next: LiveSet) returns (j: nat)
    requires Related(im, g, f, s, x) && Point(im, g, f, s.pc, i, live, next)
    requires SameWorld(im, mc) && Placed(im, mc, f, s.pc) && (i.Ret? || i.EndFunc?)
    ensures j > 0 && Corresponds(im, mc, g, f, NextBottom(im, s, At(x.mem, f.rbp)), M.Step(im, s), X86.Run(mc, x, j))
  {
    hide RunStraight, Run, Effect, Step, EmitInstr, Popped;
    var head := ReturnHead(i);
    ReturnValue(im, mc, f, live, s, x, i);
    InPlace(im, mc, g, f, s, x, head);
    var t := RunStraight(mc, head, x);
    EpilogueAfter(mc.code, x.pc, head);
    EpilogueRun(mc, t);
    j := |head| + 3;
    X86.RunAdds(mc, x, |head|, 3);
    BottomStays(im, s, At(x.mem, f.rbp));
    ReturnDone(mc, f, x, t, |head|, X86.Run(mc, x, j), ReturnedValue(im, i, s));
  }

  function ReturnedValue(im: M.Image, i: Ir.Instr, s: M.State): Option<Word>
    requires s.Running? && (i.Ret? || i.EndFunc?)
  {
    if i.EndFunc? then Some(0) else if i.result.None? then None else Some(M.Read(im, i.result.value, s))
  }

  lemma ReturnDone(mc: Machine, f: Frame, x: X86.State, t: X86.State, n: nat, y: X86.State, v: Option<Word>)
    requires Calm(x, t, n) && Popped(mc, t, y) && (v.Some? ==> t.regs.rax == v.value)
    requires x.regs.rbp == f.rbp && x.regs.rsp == f.rbp - 16 - f.size && Untouched(f, x.mem)
    ensures AtReturn(mc, f, y, At(x.mem, f.rbp), v, x.tr)
  {
  }

  // What comes before the epilogue.
  function ReturnHead(i: Ir.Instr): seq<X86.Instr>
    requires i.Ret? || i.EndFunc?
    ensures forall size :: EmitInstr(i, size) == ReturnHead(i) + EPILOGUE
  {
    if i.EndFunc? then [XorRR(RAX, RAX)] else if i.result.Some? then EmitLoad(i.result.value) else []
  }

  lemma EpilogueAfter(code: seq<X86.Instr>, pc: nat, head: seq<X86.Instr>)
    requires X86.CodeAt(code, pc, head + EPILOGUE)
    ensures X86.CodeAt(code, pc + |head|, EPILOGUE)
  {
    forall k | 0 <= k < |EPILOGUE| ensures EPILOGUE[k] == code[pc + |head| + k] {
      assert EPILOGUE[k] == (head + EPILOGUE)[|head| + k];
    }
  }

  lemma ReturnValue(im: M.Image, mc: Machine, f: Frame, live: LiveSet, s: M.State, x: X86.State, i: Ir.Instr)
    requires i.Ret? || i.EndFunc?
    requires s.Running? && x.On? && x.regs.rbp == f.rbp && Holds(im, f, live, s, x.mem) && SameWorld(im, mc)
    requires forall o | o in Uses(i) && IsSlot(o) :: o in live
    ensures var t := RunStraight(mc, ReturnHead(i), x);
      && Plain(ReturnHead(i)) && Calm(x, t, |ReturnHead(i)|)
      && (i.EndFunc? ==> t.regs.rax == 0)
      && (i.Ret? && i.result.Some? ==> t.regs.rax == M.Read(im, i.result.value, s))
  {
    if i.EndFunc? {
      ZeroExec(mc, x);
    } else if i.result.Some? {
      ValueRead(im, mc, f, live, s, x, i.result.value);
      LoadExec(mc, i.result.value, x);
    }
  }

  lemma ZeroExec(mc: Machine, x: X86.State)
    requires x.On?
    ensures var t := RunStraight(mc, [XorRR(RAX, RAX)], x); Calm(x, t, 1) && t.regs.rax == 0
  {
    Exec1(mc, XorRR(RAX, RAX), x);
    XorSelf(x.regs.rax);
  }

  lemma {:induction false} XorSelf(a: int)
    ensures Bitwise(BitXor, a, a) == 0
    decreases Abs(a)
  {
    if !(-1 <= a <= 0) {
      XorSelf(a / 2);
    }
  }

  // A region of the program, laid out in the machine, that calls no function of it
  // and has room for its slots if it calls anything.
  ghost predicate Runnable(im: M.Image, mc: Machine, g: Region, f: Frame) {
    && RegionOk(im, g, f) && SameMachine(im, mc, f) && AllOutward(mc, g.code) && FrameOk(f)
    && (Roomy(f) || CallsNothing(g.code))
  }

  ghost predicate CallsNothing(code: seq<Ir.Instr>) {
    forall i | 0 <= i < |code| :: !code[i].CallTo?
  }

  /** One step of the intermediate code, and the machine steps it becomes. */
  lemma StepSim(im: M.Image, mc: Machine, g: Region, f: Frame, s: M.State, x: X86.State) returns (j: nat)
    requires Related(im, g, f, s, x) && Runnable(im, mc, g, f)
    ensures Corresponds(im, mc, g, f, NextBottom(im, s, At(x.mem, f.rbp)), M.Step(im, s), X86.Run(mc, x, j))
    ensures j > 0 || im.code[s.pc].StringDef?
  {
    var i, live, next := AtPoint(im, g, f, s.pc);
    assert Placed(im, mc, f, s.pc);
    assert Outward(mc, g.code[s.pc - g.start]);
    if Def(i).Some? {
      j := ValueStep(im, mc, g, f, s, x, i, live, next);
    } else {
      match i
      case CallTo(_, _) => j := CallStep(im, mc, g, f, s, x, i, live, next);
      case Label(_) => j := PassStep(im, mc, g, f, s, x, i, live, next);
      case StringDef(_, _) => j := PassStep(im, mc, g, f, s, x, i, live, next);
      case Jmp(l) =>
        var q := JumpTarget(im, mc, g, f, l);
        j := JumpStep(im, mc, g, f, s, x, i, live, next, q);
      case Brz(_, l) =>
        var q := JumpTarget(im, mc, g, f, l);
        j := BranchStep(im, mc, g, f, s, x, i, live, next, q);
      case Ret(_) => j := ReturnStep(im, mc, g, f, s, x, i, live, next);
      case EndFunc => j := ReturnStep(im, mc, g, f, s, x, i, live, next);
    }
  }

  // ---------- whole runs ----------

  /** Any number of steps; no two of them in a row are free. */
  lemma {:induction false} RunSim(im: M.Image, mc: Machine, g: Region, f: Frame, s: M.State, x: X86.State, k: nat)
    returns (j: nat)
    requires Related(im, g, f, s, x) && Runnable(im, mc, g, f)
    ensures Corresponds(im, mc, g, f, BottomAfter(im, s, k, At(x.mem, f.rbp)), M.Run(im, s, k), X86.Run(mc, x, j))
    ensures M.Run(im, s, k).Running? ==> k <= 2 * j + if im.code[s.pc].StringDef? then 1 else 0
    decreases k
  {
    hide Effect, AtReturn, M.Read, NextBottom, SameMachine, X86.Step;
    if k == 0 {
      j := 0;
    } else {
      j := StepSim(im, mc, g, f, s, x);
      var t, y := M.Step(im, s), X86.Run(mc, x, j);
      if t.Running? {
        NoTwoStrings(im, g, f, s.pc);
        var i := RunSim(im, mc, g, f, t, y, k - 1);
        X86.RunAdds(mc, x, j, i);
        j := j + i;
      } else {
        M.RunStopped(im, t, 0, k - 1);
        BottomStopped(im, t, k - 1, NextBottom(im, s, At(x.mem, f.rbp)));
      }
    }
  }

  lemma {:induction false} BottomStopped(im: M.Image, s: M.State, k: nat, bottom: int)
    requires !s.Running?
    ensures BottomAfter(im, s, k, bottom) == bottom
  {
    if k > 0 {
      BottomStopped(im, s, k - 1, bottom);
    }
  }

  lemma NoTwoStrings(im: M.Image, g: Region, f: Frame, pc: nat)
    requires RegionOk(im, g, f) && g.start <= pc < g.start + |g.code|
    ensures pc < |im.code|
    ensures im.code[pc].StringDef? ==> pc + 1 < |im.code| && !im.code[pc + 1].StringDef?
  {
    var i := pc - g.start;
    assert g.code[i] == im.code[pc] && InstrFits(g.code, i, f.words);
    if g.code[i].StringDef? {
      assert g.code[i + 1] == im.code[pc + 1];
    }
  }

  // A call has just pushed the return address; the stack was aligned before.
  predicate Entering(f: Frame, x: X86.State) {
    x.On? && x.regs.rsp == f.rbp + 8 && f.saved == EntryMemory(x) && FrameOk(f)
  }

  // Memory once the prologue has saved its registers.
  function EntryMemory(x: X86.State): Memory
    requires x.On?
  {
    x.mem[x.regs.rsp - 8 := x.regs.rbp][x.regs.rsp - 16 := x.regs.rbx][x.regs.rsp - 24 := x.regs.r12]
  }

  lemma PrologueExec(mc: Machine, f: Frame, name: string, x: X86.State)
    requires Entering(f, x)
    ensures Plain(Prologue(name, f.size))
    ensures var t := RunStraight(mc, Prologue(name, f.size), x);
      && t.On? && t.pc == x.pc + |Prologue(name, f.size)| && t.tr == x.tr && t.mem == f.saved
      && t.regs.rbp == f.rbp && t.regs.rsp == f.rbp - 16 - f.size
  {
    var a, b := [Entry(name), PushRbp, MovRspRbp], [Push(RBX), Push(R12)];
    var c := if f.size > 0 then [SubRsp(f.size), LeaProbe(f.size), CmpProbe] else [];
    assert Prologue(name, f.size) == a + b + c;
    SaveExec(mc, name, x);
    ProbeExec(mc, f.size, RunStraight(mc, a + b, x));
    RunStraightAdds(mc, a + b, c, x);
  }

  lemma SaveExec(mc: Machine, name: string, x: X86.State)
    requires x.On?
    ensures var code := [Entry(name), PushRbp, MovRspRbp] + [Push(RBX), Push(R12)];
      var t := RunStraight(mc, code, x);
      && Plain(code) && t.On? && t.pc == x.pc + 5 && t.tr == x.tr && t.mem == EntryMemory(x)
      && t.regs.rbp == x.regs.rsp - 8 && t.regs.rsp == x.regs.rsp - 24
  {
    hide RunStraight, Effect;
    var a, b := [Entry(name), PushRbp, MovRspRbp], [Push(RBX), Push(R12)];
    EntryEffects(mc, name, x);
    PushEffect(mc, RBX, Effect(mc, MovRspRbp, Effect(mc, PushRbp, Effect(mc, Entry(name), x))));
    PushEffect(mc, R12, Effect(mc, Push(RBX), Effect(mc, MovRspRbp, Effect(mc, PushRbp, Effect(mc, Entry(name), x)))));
    Exec3(mc, a[0], a[1], a[2], x);
    Exec2(mc, b[0], b[1], RunStraight(mc, a, x));
    RunStraightAdds(mc, a, b, x);
  }

  lemma EntryEffects(mc: Machine, name: string, x: X86.State)
    requires x.On?
    ensures var y := Effect(mc, Entry(name), x);
      y.On? && var z := Effect(mc, PushRbp, y);
      z.On? && Effect(mc, MovRspRbp, z)
        == x.(pc := x.pc + 3, mem := x.mem[x.regs.rsp - 8 := x.regs.rbp],
              regs := x.regs.(rsp := x.regs.rsp - 8, rbp := x.regs.rsp - 8))
  {
  }

  lemma PushEffect(mc: Machine, g: Reg, x: X86.State)
    requires x.On?
    ensures Effect(mc, Push(g), x)
         == x.(pc := x.pc + 1, regs := x.regs.(rsp := x.regs.rsp - 8), mem := x.mem[x.regs.rsp - 8 := Get(x.regs, g)])
  {
  }

  lemma ProbeExec(mc: Machine, n: nat, x: X86.State)
    requires x.On?
    ensures var code := if n > 0 then [SubRsp(n), LeaProbe(n), CmpProbe] else [];
      var t := RunStraight(mc, code, x);
      && Plain(code) && t.On? && t.pc == x.pc + |code| && t.tr == x.tr && t.mem == x.mem
      && t.regs.rbp == x.regs.rbp && t.regs.rsp == x.regs.rsp - n
  {
    if n > 0 {
      ProbeSteps(mc, n, x);
    }
  }

  lemma ProbeSteps(mc: Machine, n: nat, x: X86.State)
    requires x.On?
    ensures var code := [SubRsp(n), LeaProbe(n), CmpProbe];
      var t := RunStraight(mc, code, x);
      && Plain(code) && t.On? && t.pc == x.pc + 3 && t.tr == x.tr && t.mem == x.mem
      && t.regs.rbp == x.regs.rbp && t.regs.rsp == x.regs.rsp - n
  {
    hide RunStraight, Effect;
    Exec3(mc, SubRsp(n), LeaProbe(n), CmpProbe, x);
    SubRspEffect(mc, n, x);
    var y := Effect(mc, SubRsp(n), x);
    ProbeEffect(mc, n, y);
    CmpEffect(mc, Effect(mc, LeaProbe(n), y));
  }

  lemma SubRspEffect(mc: Machine, n: nat, x: X86.State)
    requires x.On?
    ensures Effect(mc, SubRsp(n), x) == x.(pc := x.pc + 1, regs := x.regs.(rsp := x.regs.rsp - n))
  {
  }

  lemma ProbeEffect(mc: Machine, n: nat, x: X86.State)
    requires x.On?
    ensures Effect(mc, LeaProbe(n), x) == x.(pc := x.pc + 1, regs := x.regs.(rax := Wrap(x.regs.rsp - n)))
  {
  }

  lemma CmpEffect(mc: Machine, x: X86.State)
    requires x.On?
    ensures var t := Effect(mc, CmpProbe, x);
      t.On? && t.pc == x.pc + 1 && t.tr == x.tr && t.mem == x.mem && t.regs == x.regs
  {
  }

  // The function's entry: its `func` instruction is right before the region, and
  // memory holds what is needed there.
  ghost predicate AtEntry(im: M.Image, mc: Machine, g: Region, f: Frame, s: M.State, x: X86.State) {
    && Runnable(im, mc, g, f) && Entering(f, x)
    && s.Running? && s.pc + 1 == g.start && im.code[s.pc].Func?
    && x.pc == f.pos[s.pc] && x.tr == s.tr && Holds(im, f, g.lives[0], s, f.saved)
  }

  lemma PrologueRun(im: M.Image, mc: Machine, f: Frame, pc: nat, x: X86.State) returns (j: nat)
    requires pc < |im.code| && im.code[pc].Func? && |f.pos| == |im.code| + 1
    requires Placed(im, mc, f, pc) && Entering(f, x) && x.pc == f.pos[pc]
    ensures var y := X86.Run(mc, x, j);
      && y.On? && y.pc == f.pos[pc + 1] && y.tr == x.tr && y.mem == f.saved
      && y.regs.rbp == f.rbp && y.regs.rsp == f.rbp - 16 - f.size
  {
    var code := Prologue(im.code[pc].name, f.size);
    PrologueExec(mc, f, im.code[pc].name, x);
    OwnCalls(im.code[pc], f.size);
    RunStraightInPlace(mc, code, x);
    j := |code|;
  }

  lemma EntrySim(im: M.Image, mc: Machine, g: Region, f: Frame, s: M.State, x: X86.State) returns (j: nat)
    requires AtEntry(im, mc, g, f, s, x)
    ensures var y := X86.Run(mc, x, j); Related(im, g, f, M.Step(im, s), y) && At(y.mem, f.rbp) == x.regs.rbp
  {
    assert Placed(im, mc, f, s.pc);
    j := PrologueRun(im, mc, f, s.pc, x);
    var i, live, next := AtPoint(im, g, f, g.start);
    StartsRelated(im, g, f, s, x, X86.Run(mc, x, j), i, live, next);
    assert M.Step(im, s) == s.(pc := s.pc + 1);
  }

  lemma StartsRelated(im: M.Image, g: Region, f: Frame, s: M.State, x: X86.State, y: X86.State,
                      i: Ir.Instr, live: LiveSet, next: LiveSet)
    requires Point(im, g, f, g.start, i, live, next) && InstrFits(g.code, 0, f.words)
    requires s.Running? && Holds(im, f, live, s, f.saved) && s.pc + 1 == g.start && Entering(f, x) && x.tr == s.tr && |f.pos| == |im.code| + 1
    requires y.On? && y.pc == f.pos[g.start] && y.tr == x.tr && y.mem == f.saved
    requires y.regs.rbp == f.rbp && y.regs.rsp == f.rbp - 16 - f.size
    ensures Related(im, g, f, s.(pc := g.start), y) && At(y.mem, f.rbp) == x.regs.rbp
  {
    HoldsStays(im, f, live, live, s, s.(pc := g.start), f.saved, y.mem);
  }

  lemma EntryRun(im: M.Image, mc: Machine, g: Region, f: Frame, s: M.State, x: X86.State, k: nat) returns (j: nat)
    requires AtEntry(im, mc, g, f, s, x)
    ensures Corresponds(im, mc, g, f, BottomAfter(im, s, k + 1, x.regs.rbp), M.Run(im, s, k + 1), X86.Run(mc, x, j))
    ensures M.Run(im, s, k + 1).Running? ==> k <= 2 * j + 1
  {
    hide Effect, AtReturn, M.Read, NextBottom, SameMachine, X86.Step;
    var j0 := EntrySim(im, mc, g, f, s, x);
    var j1 := RunSim(im, mc, g, f, M.Step(im, s), X86.Run(mc, x, j0), k);
    X86.RunAdds(mc, x, j0, j1);
    BottomStays(im, s, x.regs.rbp);
    j := j0 + j1;
  }

  // ---------- what the caller gets ----------

  /** The stack and everything above it, as at x, once the return address has been popped. */
  ghost predicate StackBack(x: X86.State, r: Regs, mem: Memory)
    requires x.On?
  {
    r.rsp == x.regs.rsp + 8 && forall a | a >= x.regs.rsp :: At(mem, a) == At(x.mem, a)
  }

  /** The machine has returned to an outside caller, whose stack it left as it was. */
  ghost predicate ReturnsWith(x: X86.State, y: X86.State, v: Option<Word>, tr: seq<Event>)
    requires x.On?
  {
    && y.Exited? && y.to == At(x.mem, x.regs.rsp) && y.tr == tr && (v.Some? ==> y.left.rax == v.value)
    && StackBack(x, y.left, y.memory)
  }

  /** The machine is back in the program, at the return address. */
  ghost predicate ReturnsTo(mc: Machine, x: X86.State, y: X86.State, v: Option<Word>, tr: seq<Event>)
    requires x.On?
  {
    && y.On? && mc.origin + y.pc == At(x.mem, x.regs.rsp) && y.tr == tr && (v.Some? ==> y.regs.rax == v.value)
    && StackBack(x, y.regs, y.mem)
  }

  ghost predicate MachineReturns(mc: Machine, x: X86.State, v: Option<Word>, tr: seq<Event>)
    requires x.On?
  {
    exists j: nat :: ReturnsWith(x, X86.Run(mc, x, j), v, tr)
  }

  ghost predicate MachineFaults(mc: Machine, x: X86.State, tr: seq<Event>) {
    exists j: nat :: X86.Run(mc, x, j) == Fault(tr)
  }

  /** From right before `retq`. */
  lemma Leaves(mc: Machine, f: Frame, x: X86.State, y: X86.State, bottom: int, v: Option<Word>, tr: seq<Event>)
    requires Entering(f, x) && AtReturn(mc, f, y, bottom, v, tr)
    ensures var z := X86.Step(mc, y);
      if InCode(mc, At(x.mem, x.regs.rsp)) then
        ReturnsTo(mc, x, z, v, tr) && z.regs.rbp == bottom
      else
        ReturnsWith(x, z, v, tr) && RegistersFrom(f, bottom, z.left)
  {
    StackKept(f, x, y.mem);
    SlotsOrNot(f, y.mem);
  }

  // Where the epilogue took the saved registers from.
  ghost predicate RegistersFrom(f: Frame, bottom: int, r: Regs) {
    && r.rbp == bottom && (f.words == 0 ==> bottom == At(f.saved, f.rbp))
    && (!InSlots(f, f.rbp - 8 - f.size) ==> r.rbx == Wrap(At(f.saved, f.rbp - 8 - f.size)))
    && (!InSlots(f, f.rbp - 16 - f.size) ==> r.r12 == Wrap(At(f.saved, f.rbp - 16 - f.size)))
  }

  lemma SlotsOrNot(f: Frame, mem: Memory)
    requires Untouched(f, mem)
    ensures forall a | a >= f.rbp - 16 - f.size :: InSlots(f, a) || At(mem, a) == At(f.saved, a)
    ensures f.words == 0 ==> At(mem, f.rbp) == At(f.saved, f.rbp)
  {
  }

  lemma StackKept(f: Frame, x: X86.State, mem: Memory)
    requires Entering(f, x) && Untouched(f, mem)
    ensures forall a | a >= x.regs.rsp :: At(mem, a) == At(x.mem, a)
  {
  }

  /** A run of the intermediate code that halts, up to the machine's return. */
  lemma ReturnRun(im: M.Image, mc: Machine, g: Region, f: Frame, s: M.State, x: X86.State, k: nat) returns (j: nat)
    requires AtEntry(im, mc, g, f, s, x) && M.Run(im, s, k).Halted?
    ensures var t := M.Run(im, s, k);
      var y := X86.Run(mc, x, j);
      var bottom := BottomAfter(im, s, k, x.regs.rbp);
      if InCode(mc, At(x.mem, x.regs.rsp)) then
        ReturnsTo(mc, x, y, t.v, t.tr) && y.regs.rbp == bottom
      else
        ReturnsWith(x, y, t.v, t.tr) && RegistersFrom(f, bottom, y.left)
  {
    hide Effect, RunStraight, Step, M.Step, NextBottom;
    var t := M.Run(im, s, k);
    var i := EntryRun(im, mc, g, f, s, x, k - 1);
    Leaves(mc, f, x, X86.Run(mc, x, i), BottomAfter(im, s, k, x.regs.rbp), t.v, t.tr);
    RunThenStep(mc, x, i);
    j := i + 1;
  }

  // How the machine can have stopped.
  ghost predicate Ending(im: M.Image, s: M.State, x: X86.State, y: X86.State)
    requires x.On?
  {
    || (exists v, tr :: Lowering.IrEnds(im, s, M.Halted(v, tr)) && ReturnsWith(x, y, v, tr))
    || (exists tr :: Lowering.IrEnds(im, s, M.Trapped(tr)) && y == Fault(tr))
  }

  /**
   The emitted function, entered from outside, returns to its caller, with the
   value in rax and after the same calls, when the intermediate code halts,
   faults when it traps, and never stops in any other way: not in a misaligned
   call, not past its end.
   */
  lemma EmissionCorrect(im: M.Image, mc: Machine, g: Region, f: Frame, s: M.State, x: X86.State)
    requires x.On? && AtEntry(im, mc, g, f, s, x) && !InCode(mc, At(x.mem, x.regs.rsp))
    ensures forall v, tr :: Lowering.IrEnds(im, s, M.Halted(v, tr)) ==> MachineReturns(mc, x, v, tr)
    ensures forall tr :: Lowering.IrEnds(im, s, M.Trapped(tr)) <==> MachineFaults(mc, x, tr)
    ensures forall j: nat | !X86.Run(mc, x, j).On? :: Ending(im, s, x, X86.Run(mc, x, j))
  {
    hide *;
    forall v, tr | Lowering.IrEnds(im, s, M.Halted(v, tr))
      ensures MachineReturns(mc, x, v, tr)
    {
      HaltReturns(im, mc, g, f, s, x, v, tr);
    }
    forall tr
      ensures Lowering.IrEnds(im, s, M.Trapped(tr)) <==> MachineFaults(mc, x, tr)
    {
      TrapFaults(im, mc, g, f, s, x, tr);
    }
    forall j: nat | !X86.Run(mc, x, j).On?
      ensures Ending(im, s, x, X86.Run(mc, x, j))
    {
      StopsTogether(im, mc, g, f, s, x, j);
    }
  }

  lemma HaltReturns(im: M.Image, mc: Machine, g: Region, f: Frame, s: M.State, x: X86.State, v: Option<Word>,
                    tr: seq<Event>)
    requires x.On? && AtEntry(im, mc, g, f, s, x) && !InCode(mc, At(x.mem, x.regs.rsp))
    requires Lowering.IrEnds(im, s, M.Halted(v, tr))
    ensures MachineReturns(mc, x, v, tr)
  {
    var k: nat :| M.Run(im, s, k) == M.Halted(v, tr);
    var j := ReturnRun(im, mc, g, f, s, x, k);
  }

  lemma TrapFaults(im: M.Image, mc: Machine, g: Region, f: Frame, s: M.State, x: X86.State, tr: seq<Event>)
    requires x.On? && AtEntry(im, mc, g, f, s, x) && !InCode(mc, At(x.mem, x.regs.rsp))
    ensures Lowering.IrEnds(im, s, M.Trapped(tr)) <==> MachineFaults(mc, x, tr)
  {
    if Lowering.IrEnds(im, s, M.Trapped(tr)) {
      var k: nat :| M.Run(im, s, k) == M.Trapped(tr);
      var j := EntryRun(im, mc, g, f, s, x, k - 1);
    }
    if MachineFaults(mc, x, tr) {
      var j: nat :| X86.Run(mc, x, j) == Fault(tr);
      StopsTogether(im, mc, g, f, s, x, j);
    }
  }

  lemma StopsTogether(im: M.Image, mc: Machine, g: Region, f: Frame, s: M.State, x: X86.State, j: nat)
    requires AtEntry(im, mc, g, f, s, x) && !InCode(mc, At(x.mem, x.regs.rsp)) && !X86.Run(mc, x, j).On?
    ensures Ending(im, s, x, X86.Run(mc, x, j))
  {
    hide Step, M.Step, Run, M.Run;
    var k: nat := 2 * j + 2;
    var t := M.Run(im, s, k + 1);
    var i := EntryRun(im, mc, g, f, s, x, k);
    if t.Running? {
      X86.RunStopped(mc, x, j, i);
      assert false;
    } else if t.Halted? {
      i := ReturnRun(im, mc, g, f, s, x, k + 1);
      SameStop(mc, x, i, j);
      assert Lowering.IrEnds(im, s, M.Halted(t.v, t.tr)) && ReturnsWith(x, X86.Run(mc, x, j), t.v, t.tr);
    } else {
      SameStop(mc, x, i, j);
      assert Lowering.IrEnds(im, s, M.Trapped(t.tr));
    }
  }

  lemma SameStop(mc: Machine, x: X86.State, i: nat, j: nat)
    requires !X86.Run(mc, x, i).On? && !X86.Run(mc, x, j).On?
    ensures X86.Run(mc, x, i) == X86.Run(mc, x, j)
  {
    if i <= j {
      X86.RunStopped(mc, x, i, j);
    } else {
      X86.RunStopped(mc, x, j, i);
    }
  }
}
