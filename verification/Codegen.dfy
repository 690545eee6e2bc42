/**
 The x86-64 emitter (src/codegen.c:77-375): one function per IR instruction
 giving the instructions it becomes, and the emitter that writes them out.
 The stack probe is on, as in the default configuration.
 */
module Codegen {
  import opened Words
  import Source
  import Ir
  import opened X86

  // get_stack_offset: the letter of the name does not matter, and 0 stays 0
  function StackOffset(n: nat): int {
    if n > 0 then -(n * 8 + 8) else 0
  }

  function AlignTo16(v: nat): (r: nat)
    ensures v <= r < v + 16 && r % 16 == 0
  {
    v + 15 - (v + 15) % 16
  }

  function EmitLoad(o: Ir.Operand): seq<Instr> {
    match o
    case Imm(v) => [MovImm(v)]
    case Var(n) => [Load(StackOffset(n))]
    case Temp(n) => [Load(StackOffset(n))]
    case StrRef(n) => [LeaString(n)]
  }

  function EmitStore(d: Ir.Operand): seq<Instr> {
    match d
    case Var(n) => [Store(StackOffset(n))]
    case Temp(n) => [Store(StackOffset(n))]
    case _ => []
  }

  // The memory operand of idivq; only names have an offset.
  function OperandOffset(o: Ir.Operand): int {
    if o.Var? || o.Temp? then StackOffset(o.n) else 0
  }

  // With the left operand in rbx and the right one in rax.
  function Combine(op: AluOp, right: Ir.Operand): seq<Instr> {
    match op
    case Add => [AddRR(RBX, RAX)]
    case Sub => [SubRR(RAX, RBX), MovRR(RBX, RAX)]
    case Mul => [ImulRR(RBX, RAX)]
    case Div => [MovRR(RBX, RAX), Cqo, IdivMem(OperandOffset(right))]
    case Mod => [MovRR(RBX, RAX), Cqo, IdivMem(OperandOffset(right)), MovRR(RDX, RAX)]
    case Lt => [CmpRR(RAX, RBX), SetAl(L), MovzxAl]
    case Le => [CmpRR(RAX, RBX), SetAl(LE), MovzxAl]
    case Gt => [CmpRR(RAX, RBX), SetAl(G), MovzxAl]
    case Ge => [CmpRR(RAX, RBX), SetAl(GE), MovzxAl]
    case Eq => [CmpRR(RAX, RBX), SetAl(E), MovzxAl]
    case Ne => [CmpRR(RAX, RBX), SetAl(NE), MovzxAl]
    case And => [AndRR(RBX, RAX)]
    case Or => [OrRR(RBX, RAX)]
    case Xor => [XorRR(RBX, RAX)]
    case Shl => [MovRR(RAX, RCX), MovRR(RBX, RAX), ShlCl]
    case Shr => [MovRR(RAX, RCX), MovRR(RBX, RAX), ShrCl]
  }

  function Prologue(name: string, frame: nat): seq<Instr> {
    var aligned := AlignTo16(frame);
    [Entry(name), PushRbp, MovRspRbp, Push(RBX), Push(R12)]
    + if aligned > 0 then [SubRsp(aligned), LeaProbe(aligned), CmpProbe] else []
  }

  const EPILOGUE: seq<Instr> := [Pop(R12), Pop(RBX), Leave, Retq]

  /** Arguments |args| down to lo + 1, last first, onto the stack. */
  function PushArgs(args: seq<Ir.Operand>, lo: nat): seq<Instr>
    requires lo <= |args|
    decreases |args| - lo
  {
    if lo == |args| then [] else PushArgs(args, lo + 1) + EmitLoad(args[lo]) + [Push(RAX)]
  }

  /** The first k arguments into their registers. */
  function RegArgs(args: seq<Ir.Operand>, k: nat): seq<Instr>
    requires k <= |args| && k <= 6
  {
    if k == 0 then [] else RegArgs(args, k - 1) + EmitLoad(args[k - 1]) + [MovRR(RAX, ArgReg(k - 1))]
  }

  function InRegs(n: nat): nat {
    if n > 6 then 6 else n
  }

  // 8 when an odd number of arguments goes onto the stack
  function Padding(n: nat): nat {
    if StackArgs(n) * 8 % 16 != 0 then 8 else 0
  }

  function EmitCall(f: string, args: seq<Ir.Operand>): seq<Instr> {
    var n := |args|;
    var cleanup := StackArgs(n) * 8 + Padding(n);
    (if Padding(n) > 0 then [SubRsp(8)] else [])
    + PushArgs(args, InRegs(n)) + RegArgs(args, InRegs(n))
    + [Call(Source.LinkName(f), n)]
    + if cleanup > 0 then [AddRsp(cleanup)] else []
  }

  function EmitInstr(i: Ir.Instr, frame: nat): seq<Instr> {
    match i
    case Mov(d, a) => EmitLoad(a) + EmitStore(d)
    case Alu(op, d, a, b) => EmitLoad(a) + [MovRR(RAX, RBX)] + EmitLoad(b) + Combine(op, b) + EmitStore(d)
    case Un(op, d, a) =>
      EmitLoad(a) + (if op.Neg? then [NegRax] else if op.Not? then [NotRax] else []) + EmitStore(d)
    case CallTo(f, args) => EmitCall(f, args)
    case GetRet(d) => EmitStore(d)
    case Label(l) => [Label(l)]
    case Jmp(l) => [Jmp(l)]
    case Brz(a, l) => EmitLoad(a) + [TestRax, Jz(l)]
    case Ret(v) => (if v.Some? then EmitLoad(v.value) else []) + EPILOGUE
    case EndFunc => [XorRR(RAX, RAX)] + EPILOGUE
    case Func(name) => Prologue(name, frame)
    case StringDef(_, _) => []
  }

  function EmitAll(code: seq<Ir.Instr>, frame: nat): seq<Instr> {
    if code == [] then [] else EmitInstr(code[0], frame) + EmitAll(code[1..], frame)
  }

  /** The emitter: an output stream that only grows. */
  class Emitter {
    var out: seq<Instr>

    constructor ()
      ensures out == []
    {
      out := [];
    }

    method Write(xs: seq<Instr>)
      modifies this
      ensures out == old(out) + xs
    {
      out := out + xs;
    }

    method LoadOperand(o: Ir.Operand)
      modifies this
      ensures out == old(out) + EmitLoad(o)
    {
      match o {
        case Imm(v) => Write([MovImm(v)]);
        case Var(n) => Write([Load(StackOffset(n))]);
        case Temp(n) => Write([Load(StackOffset(n))]);
        case StrRef(n) => Write([LeaString(n)]);
      }
    }

    method StoreOperand(d: Ir.Operand)
      modifies this
      ensures out == old(out) + EmitStore(d)
    {
      if d.Var? || d.Temp? {
        Write([Store(StackOffset(d.n))]);
      }
    }

    method PushArguments(args: seq<Ir.Operand>)
      modifies this
      ensures out == old(out) + PushArgs(args, InRegs(|args|))
    {
      var i := |args|;
      while i > 6
        invariant InRegs(|args|) <= i <= |args|
        invariant out == old(out) + PushArgs(args, i)
      {
        LoadOperand(args[i - 1]);
        Write([Push(RAX)]);
        i := i - 1;
        Assoc(old(out) + PushArgs(args, i + 1), EmitLoad(args[i]), [Push(RAX)]);
        Assoc(old(out), PushArgs(args, i + 1), EmitLoad(args[i]) + [Push(RAX)]);
        Assoc(PushArgs(args, i + 1), EmitLoad(args[i]), [Push(RAX)]);
      }
    }

    method LoadArgumentRegisters(args: seq<Ir.Operand>)
      modifies this
      ensures out == old(out) + RegArgs(args, InRegs(|args|))
    {
      var i := 0;
      while i < |args| && i < 6
        invariant 0 <= i <= InRegs(|args|)
        invariant out == old(out) + RegArgs(args, i)
      {
        LoadOperand(args[i]);
        Write([MovRR(RAX, ArgReg(i))]);
        Assoc(old(out) + RegArgs(args, i), EmitLoad(args[i]), [MovRR(RAX, ArgReg(i))]);
        Assoc(old(out), RegArgs(args, i), EmitLoad(args[i]) + [MovRR(RAX, ArgReg(i))]);
        Assoc(RegArgs(args, i), EmitLoad(args[i]), [MovRR(RAX, ArgReg(i))]);
        i := i + 1;
      }
    }

    method CallFunction(f: string, args: seq<Ir.Operand>)
      modifies this
      ensures out == old(out) + EmitCall(f, args)
    {
      ghost var p := out;
      var n := |args|;
      var onStack := if n > 6 then n - 6 else 0;
      var needAlign := onStack * 8 % 16 != 0;
      ghost var start := if needAlign then [SubRsp(8)] else [];
      if needAlign {
        Write([SubRsp(8)]);
      }
      assert out == p + start;
      ghost var pushes, loads := PushArgs(args, InRegs(n)), RegArgs(args, InRegs(n));
      PushArguments(args);
      Assoc(p, start, pushes);
      LoadArgumentRegisters(args);
      Assoc(p, start + pushes, loads);
      var call := Call(if f == "print_str" then "puts" else f, n);
      Write([call]);
      Assoc(p, start + pushes + loads, [call]);
      var cleanup := onStack * 8 + if needAlign then 8 else 0;
      if onStack > 0 || needAlign {
        Write([AddRsp(cleanup)]);
      }
      ghost var end := if cleanup > 0 then [AddRsp(cleanup)] else [];
      Assoc(p, start + pushes + loads + [call], end);
    }

    method Operation(op: AluOp, d: Ir.Operand, a: Ir.Operand, b: Ir.Operand)
      modifies this
      ensures out == old(out) + (EmitLoad(a) + [MovRR(RAX, RBX)] + EmitLoad(b) + Combine(op, b) + EmitStore(d))
    {
      ghost var p := out;
      LoadOperand(a);
      Write([MovRR(RAX, RBX)]);
      LoadOperand(b);
      ghost var loads := EmitLoad(a) + [MovRR(RAX, RBX)] + EmitLoad(b);
      assert out == p + loads;
      Write(Combine(op, b));
      Assoc(p, loads, Combine(op, b));
      StoreOperand(d);
      Assoc(p, loads + Combine(op, b), EmitStore(d));
    }

    method Instruction(i: Ir.Instr, frame: nat)
      modifies this
      ensures out == old(out) + EmitInstr(i, frame)
    {
      match i {
        case Mov(d, a) =>
          LoadOperand(a);
          StoreOperand(d);
        case Alu(op, d, a, b) =>
          Operation(op, d, a, b);
        case Un(op, d, a) =>
          LoadOperand(a);
          if op.Neg? {
            Write([NegRax]);
          } else if op.Not? {
            Write([NotRax]);
          }
          StoreOperand(d);
        case CallTo(f, args) => CallFunction(f, args);
        case GetRet(d) => StoreOperand(d);
        case Label(l) => Write([Label(l)]);
        case Jmp(l) => Write([Jmp(l)]);
        case Brz(a, l) =>
          LoadOperand(a);
          Write([TestRax, Jz(l)]);
        case Ret(v) =>
          if v.Some? {
            LoadOperand(v.value);
          }
          Write(EPILOGUE);
        case EndFunc =>
          Write([XorRR(RAX, RAX)]);
          Write(EPILOGUE);
        case Func(name) => Write(Prologue(name, frame));
        case StringDef(_, _) =>
      }
    }

    method Program(code: seq<Ir.Instr>, frame: nat)
      modifies this
      ensures out == old(out) + EmitAll(code, frame)
    {
      assert code[0..] == code;
      var i := 0;
      while i < |code|
        invariant 0 <= i <= |code|
        invariant old(out) + EmitAll(code, frame) == out + EmitAll(code[i..], frame)
      {
        ghost var before := out;
        assert code[i..][0] == code[i] && code[i..][1..] == code[i + 1..];
        Instruction(code[i], frame);
        Assoc(before, EmitInstr(code[i], frame), EmitAll(code[i + 1..], frame));
        i := i + 1;
      }
    }
  }
}
