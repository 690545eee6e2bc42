/**
 The x86-64 instructions that the compiler emits and a machine that runs them:
 eleven registers, byte-addressed memory used in eight-byte words, calls inside
 the program by return address, and calls to outside functions under the System
 V ABI.
 */
module X86 {
  import opened Words
  import opened Source

  datatype Reg = RAX | RBX | RCX | RDX | RDI | RSI | R8 | R9 | R12

  datatype Cond = L | LE | G | GE | E | NE

  // Operand order follows the AT&T text: source first.
  datatype Instr =
    | Entry(name: string)              // name:
    | MovImm(v: Word)                  // movq $v, %rax
    | Load(off: int)                   // movq off(%rbp), %rax
    | Store(off: int)                  // movq %rax, off(%rbp)
    | LeaString(n: nat)                // leaq .Lstr<n>(%rip), %rax
    | MovRR(src: Reg, dst: Reg)
    | AddRR(src: Reg, dst: Reg)
    | SubRR(src: Reg, dst: Reg)
    | ImulRR(src: Reg, dst: Reg)
    | AndRR(src: Reg, dst: Reg)
    | OrRR(src: Reg, dst: Reg)
    | XorRR(src: Reg, dst: Reg)
    | CmpRR(src: Reg, dst: Reg)        // flags of dst - src
    | Cqo
    | IdivMem(off: int)                // idivq off(%rbp)
    | SetAl(cc: Cond)
    | MovzxAl                          // movzbq %al, %rax
    | ShlCl                            // shlq %cl, %rax
    | ShrCl
    | NegRax
    | NotRax
    | TestRax                          // testq %rax, %rax
    | Label(l: nat)
    | Jmp(l: nat)
    | Jz(l: nat)
    | PushRbp
    | MovRspRbp                        // movq %rsp, %rbp
    | Push(reg: Reg)
    | Pop(reg: Reg)
    | SubRsp(n: nat)
    | AddRsp(n: nat)
    | LeaProbe(n: nat)                 // leaq -n(%rsp), %rax
    | CmpProbe                         // cmpq $0, (%rax)
    | Call(callee: string, argc: nat)  // argc: how many arguments the callee takes
    | Leave
    | Retq

  // rsp and rbp are addresses; the address space is not taken to be exhausted.
  datatype Regs = Regs(
    rax: Word, rbx: Word, rcx: Word, rdx: Word, rdi: Word, rsi: Word, r8: Word, r9: Word, r12: Word,
    rsp: int, rbp: int)

  type Memory = map<int, int>

  function At(m: Memory, a: int): int {
    if a in m then m[a] else 0
  }

  function Get(r: Regs, g: Reg): Word {
    match g
    case RAX => r.rax
    case RBX => r.rbx
    case RCX => r.rcx
    case RDX => r.rdx
    case RDI => r.rdi
    case RSI => r.rsi
    case R8 => r.r8
    case R9 => r.r9
    case R12 => r.r12
  }

  function Set(r: Regs, g: Reg, v: Word): Regs {
    match g
    case RAX => r.(rax := v)
    case RBX => r.(rbx := v)
    case RCX => r.(rcx := v)
    case RDX => r.(rdx := v)
    case RDI => r.(rdi := v)
    case RSI => r.(rsi := v)
    case R8 => r.(r8 := v)
    case R9 => r.(r9 := v)
    case R12 => r.(r12 := v)
  }

  // zf and lt: the last comparison found equality, or less (SF != OF).
  datatype State =
    | On(pc: nat, regs: Regs, mem: Memory, zf: bool, lt: bool, tr: seq<Event>)
    | Exited(to: int, left: Regs, memory: Memory, tr: seq<Event>)
    | Fault(tr: seq<Event>)
    | Bad

  // Whatever an outside callee leaves in all registers but rax, rsp and rbp, the
  // flags and the memory below its arguments' end.
  datatype Debris = Debris(regs: Regs, mem: Memory, zf: bool, lt: bool)

  // The instruction at index k of `code` has the address origin + k.
  datatype Machine = Machine(
    code: seq<Instr>, origin: int, world: World, stringAt: nat -> Word,
    debris: (Regs, Memory, seq<Event>) -> Debris)

  // Section 3.2.3 of the ABI: six registers, then the stack from rsp upward.
  function ArgReg(i: nat): Reg
    requires i < 6
  {
    match i
    case 0 => RDI
    case 1 => RSI
    case 2 => RDX
    case 3 => RCX
    case 4 => R8
    case _ => R9
  }

  function Argument(r: Regs, m: Memory, i: nat): Word {
    if i < 6 then Get(r, ArgReg(i)) else Wrap(At(m, r.rsp + 8 * (i - 6)))
  }

  function Arguments(r: Regs, m: Memory, n: nat): (vs: seq<Word>)
    ensures |vs| == n && forall i | 0 <= i < n :: vs[i] == Argument(r, m, i)
  {
    seq(n, i requires 0 <= i < n => Argument(r, m, i))
  }

  function StackArgs(n: nat): nat {
    if n > 6 then n - 6 else 0
  }

  /** Memory at and above `limit` survives a call. */
  function Overwritten(m: Memory, junk: Memory, limit: int): (r: Memory)
    ensures forall a | a >= limit :: At(r, a) == At(m, a)
  {
    map a | a in m.Keys + junk.Keys :: if a < limit then At(junk, a) else At(m, a)
  }

  /** An outside callee sees its arguments and an aligned stack; of the saved registers only rbp and rsp are relied on. */
  function AfterCall(mc: Machine, s: State, f: string, n: nat): State
    requires s.On?
  {
    if s.regs.rsp % 16 != 0 then Bad
    else
      var ev := CallResult(mc.world, f, Arguments(s.regs, s.mem, n), s.tr);
      var d := mc.debris(s.regs, s.mem, s.tr);
      var r := d.regs.(rax := ev.result, rsp := s.regs.rsp, rbp := s.regs.rbp);
      On(s.pc + 1, r, Overwritten(s.mem, d.mem, s.regs.rsp + 8 * StackArgs(n)), d.zf, d.lt, s.tr + [ev])
  }

  predicate CondHolds(cc: Cond, zf: bool, lt: bool) {
    match cc
    case L => lt
    case LE => lt || zf
    case G => !lt && !zf
    case GE => !lt
    case E => zf
    case NE => !zf
  }

  function Division(s: State, d: Word): State
    requires s.On?
  {
    var r := Idiv(s.regs.rdx * MODULUS + Unsigned(s.regs.rax), d);
    if r.None? then Fault(s.tr)
    else s.(pc := s.pc + 1, regs := s.regs.(rax := r.value.0, rdx := r.value.1))
  }

  predicate Jumps(i: Instr) {
    i.Jmp? || i.Jz? || i.Retq?
  }

  /** A call of a function that is part of the code. */
  predicate Enters(code: seq<Instr>, i: Instr) {
    i.Call? && Entry(i.callee) in code
  }

  /** Every instruction that goes on to the next one; a call is to the outside. */
  function Effect(mc: Machine, i: Instr, s: State): State
    requires s.On? && !Jumps(i)
  {
    var r := s.regs;
    var t := s.(pc := s.pc + 1);
    match i
    case Entry(_) => t
    case MovImm(v) => t.(regs := r.(rax := v))
    case Load(off) => t.(regs := r.(rax := Wrap(At(s.mem, r.rbp + off))))
    case Store(off) => t.(mem := s.mem[r.rbp + off := r.rax])
    case LeaString(n) => t.(regs := r.(rax := mc.stringAt(n)))
    case MovRR(a, b) => t.(regs := Set(r, b, Get(r, a)))
    case AddRR(a, b) => t.(regs := Set(r, b, Wrap(Get(r, b) + Get(r, a))))
    case SubRR(a, b) => t.(regs := Set(r, b, Wrap(Get(r, b) - Get(r, a))))
    case ImulRR(a, b) => t.(regs := Set(r, b, Wrap(Get(r, b) * Get(r, a))))
    case AndRR(a, b) => t.(regs := Set(r, b, WordBits(BitAnd, Get(r, b), Get(r, a))))
    case OrRR(a, b) => t.(regs := Set(r, b, WordBits(BitOr, Get(r, b), Get(r, a))))
    case XorRR(a, b) => t.(regs := Set(r, b, WordBits(BitXor, Get(r, b), Get(r, a))))
    case CmpRR(a, b) => t.(zf := Get(r, b) == Get(r, a), lt := Get(r, b) < Get(r, a))
    case Cqo => t.(regs := r.(rdx := if r.rax < 0 then -1 else 0))
    case IdivMem(off) => Division(s, Wrap(At(s.mem, r.rbp + off)))
    case SetAl(cc) => t.(regs := r.(rax := 256 * (r.rax / 256) + FromBool(CondHolds(cc, s.zf, s.lt))))
    case MovzxAl => t.(regs := r.(rax := r.rax % 256))
    case ShlCl => t.(regs := r.(rax := Wrap(r.rax * Pow2(r.rcx % 64))))
    case ShrCl => t.(regs := r.(rax := Wrap(Unsigned(r.rax) / Pow2(r.rcx % 64))))
    case NegRax => t.(regs := r.(rax := Negate(r.rax)))
    case NotRax => t.(regs := r.(rax := Complement(r.rax)))
    case TestRax => t.(zf := r.rax == 0, lt := r.rax < 0)
    case Label(_) => t
    case PushRbp => t.(regs := r.(rsp := r.rsp - 8), mem := s.mem[r.rsp - 8 := r.rbp])
    case MovRspRbp => t.(regs := r.(rbp := r.rsp))
    case Push(g) => t.(regs := r.(rsp := r.rsp - 8), mem := s.mem[r.rsp - 8 := Get(r, g)])
    case Pop(g) => t.(regs := Set(r.(rsp := r.rsp + 8), g, Wrap(At(s.mem, r.rsp))))
    case SubRsp(n) => t.(regs := r.(rsp := r.rsp - n))
    case AddRsp(n) => t.(regs := r.(rsp := r.rsp + n))
    case LeaProbe(n) => t.(regs := r.(rax := Wrap(r.rsp - n)))
    case CmpProbe => t.(zf := At(s.mem, r.rax) == 0, lt := At(s.mem, r.rax) < 0)
    case Call(f, n) => AfterCall(mc, s, f, n)
    case Leave => t.(regs := r.(rsp := r.rbp + 8, rbp := At(s.mem, r.rbp)))
    case _ => Bad
  }

  function FindLabel(code: seq<Instr>, l: nat): nat {
    if code == [] || code[0] == Label(l) then 0 else 1 + FindLabel(code[1..], l)
  }

  function FindEntry(code: seq<Instr>, f: string): nat {
    if code == [] || code[0] == Entry(f) then 0 else 1 + FindEntry(code[1..], f)
  }

  /** A call inside the program pushes its return address and goes to the function's first instruction. */
  function EnterCall(mc: Machine, f: string, s: State): State
    requires s.On?
  {
    var top := s.regs.rsp - 8;
    s.(pc := FindEntry(mc.code, f), regs := s.regs.(rsp := top), mem := s.mem[top := mc.origin + s.pc + 1])
  }

  predicate InCode(mc: Machine, a: int) {
    mc.origin <= a < mc.origin + |mc.code|
  }

  /** To the instruction at the popped address, or out of the program. */
  function Return(mc: Machine, s: State): State
    requires s.On?
  {
    var a, r := At(s.mem, s.regs.rsp), s.regs.(rsp := s.regs.rsp + 8);
    if InCode(mc, a) then s.(pc := a - mc.origin, regs := r) else Exited(a, r, s.mem, s.tr)
  }

  function Step(mc: Machine, s: State): State {
    if !s.On? then s
    else if s.pc >= |mc.code| then Bad
    else
      var i := mc.code[s.pc];
      if Enters(mc.code, i) then EnterCall(mc, i.callee, s)
      else if !Jumps(i) then Effect(mc, i, s)
      else
        match i
        case Jmp(l) => s.(pc := FindLabel(mc.code, l))
        case Jz(l) => s.(pc := if s.zf then FindLabel(mc.code, l) else s.pc + 1)
        case _ => Return(mc, s)
  }

  function Run(mc: Machine, s: State, k: nat): State
    decreases k
  {
    if k == 0 then s else Run(mc, Step(mc, s), k - 1)
  }

  lemma {:induction false} RunAdds(mc: Machine, s: State, j: nat, k: nat)
    ensures Run(mc, s, j + k) == Run(mc, Run(mc, s, j), k)
    decreases j
  {
    if j > 0 {
      RunAdds(mc, Step(mc, s), j - 1, k);
    }
  }

  lemma {:induction false} RunStopped(mc: Machine, s: State, j: nat, k: nat)
    requires j <= k && !Run(mc, s, j).On?
    ensures Run(mc, s, k) == Run(mc, s, j)
    decreases k
  {
    if j > 0 {
      RunStopped(mc, Step(mc, s), j - 1, k - 1);
    } else if k > 0 {
      RunStopped(mc, s, 0, k - 1);
    }
  }

  /** A run of straight instructions, executed one after the other. */
  function RunStraight(mc: Machine, code: seq<Instr>, s: State): State
    requires forall i | i in code :: !Jumps(i)
  {
    if code == [] || !s.On? then s else RunStraight(mc, code[1..], Effect(mc, code[0], s))
  }

  lemma {:induction false} RunStraightAdds(mc: Machine, a: seq<Instr>, b: seq<Instr>, s: State)
    requires forall i | i in a :: !Jumps(i)
    requires forall i | i in b :: !Jumps(i)
    ensures forall i | i in a + b :: !Jumps(i)
    ensures RunStraight(mc, a + b, s) == RunStraight(mc, b, RunStraight(mc, a, s))
  {
    if a == [] {
      assert a + b == b;
    } else if s.On? {
      assert (a + b)[1..] == a[1..] + b;
      RunStraightAdds(mc, a[1..], b, Effect(mc, a[0], s));
    }
  }

  ghost predicate CodeAt(code: seq<Instr>, pc: nat, part: seq<Instr>) {
    pc + |part| <= |code| && forall i | 0 <= i < |part| :: part[i] == code[pc + i]
  }

  /** Straight code in place that calls nothing in the program runs as `RunStraight` says. */
  lemma {:induction false} RunStraightInPlace(mc: Machine, part: seq<Instr>, s: State)
    requires forall i | i in part :: !Jumps(i) && !Enters(mc.code, i)
    requires s.On? && CodeAt(mc.code, s.pc, part)
    ensures Run(mc, s, |part|) == RunStraight(mc, part, s)
    decreases part
  {
    if part != [] {
      var t := Effect(mc, part[0], s);
      assert part[0] == mc.code[s.pc] && Step(mc, s) == t;
      if t.On? {
        assert t.pc == s.pc + 1;
        forall i | 0 <= i < |part[1..]| ensures part[1..][i] == mc.code[t.pc + i] {
          assert part[1..][i] == part[i + 1];
        }
        RunStraightInPlace(mc, part[1..], t);
      } else {
        RunStopped(mc, t, 0, |part| - 1);
        assert RunStraight(mc, part[1..], t) == t;
      }
    }
  }
}
