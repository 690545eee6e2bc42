/**
 What the intermediate code means: a machine with numbered temps and variable
 slots, one return register, and jumps to labels.
 */
module IrMachine {
  import opened Words
  import opened Ir
  import opened Source

  // `stringAt(n)` is the address of the string labelled .Lstr<n>.
  datatype Image = Image(code: seq<Instr>, world: World, stringAt: nat -> Word)

  type Cells = map<nat, Word>

  datatype State =
    | Running(pc: nat, temps: Cells, vars: Cells, ret: Word, tr: seq<Event>)
    | Halted(v: Option<Word>, tr: seq<Event>)
    | Trapped(tr: seq<Event>)
    | Stuck

  function Read(im: Image, o: Operand, s: State): Word
    requires s.Running?
  {
    match o
    case Temp(n) => Lookup(s.temps, n)
    case Var(n) => Lookup(s.vars, n)
    case Imm(v) => v
    case StrRef(n) => im.stringAt(n)
  }

  function ReadAll(im: Image, ops: seq<Operand>, s: State): (vs: seq<Word>)
    requires s.Running?
    ensures |vs| == |ops| && forall i | 0 <= i < |ops| :: vs[i] == Read(im, ops[i], s)
  {
    seq(|ops|, i requires 0 <= i < |ops| => Read(im, ops[i], s))
  }

  // Stores v in a temp or a slot and moves on; other destinations do not exist.
  function Write(d: Operand, v: Word, s: State): State
    requires s.Running?
  {
    match d
    case Temp(n) => s.(temps := s.temps[n := v], pc := s.pc + 1)
    case Var(n) => s.(vars := s.vars[n := v], pc := s.pc + 1)
    case _ => Stuck
  }

  function FindLabel(code: seq<Instr>, l: nat): (i: nat)
    ensures i <= |code|
    ensures i < |code| ==> code[i] == Label(l)
    ensures forall j | 0 <= j < i :: code[j] != Label(l)
  {
    FindFrom(code, l, 0)
  }

  function FindFrom(code: seq<Instr>, l: nat, from: nat): (i: nat)
    requires from <= |code|
    ensures from <= i <= |code|
    ensures i < |code| ==> code[i] == Label(l)
    ensures forall j | from <= j < i :: code[j] != Label(l)
    decreases |code| - from
  {
    if from == |code| || code[from] == Label(l) then from else FindFrom(code, l, from + 1)
  }

  function UnaryValue(op: UnaryInstr, a: Word): Word {
    match op
    case Neg => Negate(a)
    case Not => Complement(a)
    case Copy => a
  }

  function Step(im: Image, s: State): State {
    if !s.Running? then s
    else if s.pc >= |im.code| then Stuck
    else
      var next := s.(pc := s.pc + 1);
      match im.code[s.pc]
      case Mov(d, a) => Write(d, Read(im, a, s), s)
      case Alu(op, d, a, b) =>
        var v := AluValue(op, Read(im, a, s), Read(im, b, s));
        if v.Some? then Write(d, v.value, s) else Trapped(s.tr)
      case Un(op, d, a) => Write(d, UnaryValue(op, Read(im, a, s)), s)
      case CallTo(f, args) =>
        var ev := CallResult(im.world, f, ReadAll(im, args, s), s.tr);
        next.(ret := ev.result, tr := s.tr + [ev])
      case GetRet(d) => Write(d, s.ret, s)
      case Jmp(l) => s.(pc := FindLabel(im.code, l))
      case Brz(a, l) => if Read(im, a, s) == 0 then s.(pc := FindLabel(im.code, l)) else next
      case Ret(v) => Halted(if v.Some? then Some(Read(im, v.value, s)) else None, s.tr)
      case EndFunc => Halted(Some(0), s.tr)
      case Label(_) => next
      case Func(_) => next
      case StringDef(_, _) => next
  }

  function Run(im: Image, s: State, k: nat): State
    decreases k
  {
    if k == 0 then s else Run(im, Step(im, s), k - 1)
  }

  lemma {:induction false} RunAdds(im: Image, s: State, j: nat, k: nat)
    ensures Run(im, s, j + k) == Run(im, Run(im, s, j), k)
    decreases j
  {
    if j > 0 {
      RunAdds(im, Step(im, s), j - 1, k);
    }
  }

  lemma RunThenStep(im: Image, s: State, j: nat)
    ensures Run(im, s, j + 1) == Step(im, Run(im, s, j))
  {
    RunAdds(im, s, j, 1);
    assert Run(im, Run(im, s, j), 1) == Run(im, Step(im, Run(im, s, j)), 0);
  }

  /** A machine that has stopped stays as it is, so it has one final state. */
  lemma {:induction false} RunStopped(im: Image, s: State, j: nat, k: nat)
    requires j <= k && !Run(im, s, j).Running?
    ensures Run(im, s, k) == Run(im, s, j)
    decreases k
  {
    if j > 0 {
      RunStopped(im, Step(im, s), j - 1, k - 1);
    } else if k > 0 {
      RunStopped(im, s, 0, k - 1);
    }
  }

  /** `part` stands in the code at `pc`. */
  ghost predicate CodeAt(code: seq<Instr>, pc: nat, part: seq<Instr>) {
    pc + |part| <= |code| && forall i | 0 <= i < |part| :: part[i] == code[pc + i]
  }

  lemma CodeSplit(code: seq<Instr>, pc: nat, a: seq<Instr>, b: seq<Instr>)
    requires CodeAt(code, pc, a + b)
    ensures CodeAt(code, pc, a) && CodeAt(code, pc + |a|, b)
  {
    forall i | 0 <= i < |a| ensures a[i] == code[pc + i] {
      assert (a + b)[i] == a[i];
    }
    forall i | 0 <= i < |b| ensures b[i] == code[pc + |a| + i] {
      assert (a + b)[|a| + i] == b[i];
    }
  }

  lemma CodeSplit3(code: seq<Instr>, pc: nat, a: seq<Instr>, b: seq<Instr>, c: seq<Instr>)
    requires CodeAt(code, pc, a + b + c)
    ensures CodeAt(code, pc, a) && CodeAt(code, pc + |a|, b) && CodeAt(code, pc + |a| + |b|, c)
  {
    CodeSplit(code, pc, a + b, c);
    CodeSplit(code, pc, a, b);
  }

  lemma CodeSplit4(code: seq<Instr>, pc: nat, a: seq<Instr>, b: seq<Instr>, c: seq<Instr>, d: seq<Instr>)
    requires CodeAt(code, pc, a + b + c + d)
    ensures CodeAt(code, pc, a) && CodeAt(code, pc + |a|, b) && CodeAt(code, pc + |a| + |b|, c)
    ensures CodeAt(code, pc + |a| + |b| + |c|, d)
  {
    CodeSplit(code, pc, a + b + c, d);
    CodeSplit3(code, pc, a, b, c);
  }

  lemma CodeHead(code: seq<Instr>, pc: nat, i: Instr)
    requires CodeAt(code, pc, [i])
    ensures pc < |code| && code[pc] == i
  {
    assert [i][0] == i;
  }

  lemma CodeTwo(code: seq<Instr>, pc: nat, i: Instr, j: Instr)
    requires CodeAt(code, pc, [i, j])
    ensures pc + 1 < |code| && code[pc] == i && code[pc + 1] == j
  {
    assert [i, j][0] == i && [i, j][1] == j;
  }

  ghost predicate UniqueLabels(code: seq<Instr>) {
    forall i, j | 0 <= i < j < |code| && code[i].Label? && code[j].Label? :: code[i].l != code[j].l
  }

  lemma LabelFound(code: seq<Instr>, pc: nat, l: nat)
    requires UniqueLabels(code) && pc < |code| && code[pc] == Label(l)
    ensures FindLabel(code, l) == pc
  {
  }
}
