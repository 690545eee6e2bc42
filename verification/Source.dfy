/**
 What UwU-C programs mean, stated on named variables and without any reference
 to the compiler: the yardstick for the generated code.  The constructs mean what
 docs/syntax.md says; the values are those of the code, which treats a variable
 of any declared type as a signed 64-bit word.
 */
module Source {
  import opened Words
  import opened Ast

  datatype Event = Event(callee: string, args: seq<Word>, result: Word)

  // Calls are answered by the outside world, which may look at the whole history;
  // `literal` is where the program's copy of a string literal lies.
  datatype World = World(call: (string, seq<Word>, seq<Event>) -> Word, literal: string -> Word)

  type Env = map<string, Word>

  function Lookup<K>(m: map<K, Word>, k: K): Word {
    if k in m then m[k] else 0
  }

  // The back end links `print_str` to `puts`.
  function LinkName(f: string): string {
    if f == "print_str" then "puts" else f
  }

  function CallResult(w: World, f: string, args: seq<Word>, tr: seq<Event>): Event {
    Event(LinkName(f), args, w.call(LinkName(f), args, tr))
  }

  // Undefined: a construct these rules give no meaning to.
  datatype Value = Val(v: Word, tr: seq<Event>) | Faulted(tr: seq<Event>) | Undefined

  datatype Values = Vals(vs: seq<Word>, tr: seq<Event>) | ArgsFaulted(tr: seq<Event>) | ArgsUndefined

  /**
   What a binary operator makes of its operands' values: None where the processor
   faults.  Shifts take their count modulo 64 and shift zeros in.
   */
  function BinaryValue(op: BinaryOp, a: Word, b: Word): Option<Word> {
    match op
    case Plus => Some(Wrap(a + b))
    case Minus => Some(Wrap(a - b))
    case Times => Some(Wrap(a * b))
    case Divide => if DivFaults(a, b) then None else QuotientFits(a, b); Some(Quotient(a, b))
    case Modulo => if DivFaults(a, b) then None else Some(Remainder(a, b))
    case Equal => Some(FromBool(a == b))
    case NotEqual => Some(FromBool(a != b))
    case Less => Some(FromBool(a < b))
    case Greater => Some(FromBool(a > b))
    case LessEq => Some(FromBool(a <= b))
    case GreaterEq => Some(FromBool(a >= b))
    case LogicalAnd => Some(FromBool(a != 0 && b != 0))
    case LogicalOr => Some(FromBool(a != 0 || b != 0))
    case BitAndOp => Some(WordBits(BitAnd, a, b))
    case BitOrOp => Some(WordBits(BitOr, a, b))
    case BitXorOp => Some(WordBits(BitXor, a, b))
    case ShiftLeft => Some(Wrap(a * Pow2(b % 64)))
    case ShiftRight => Some(Wrap(Unsigned(a) / Pow2(b % 64)))
  }

  /** Expression evaluation: left to right, `&&` and `||` short-circuit. */
  function Eval(w: World, e: Expr, env: Env, tr: seq<Event>): Value
    decreases e, 1
  {
    match e
    case Number(n) => Val(Wrap(n), tr)
    case Str(text) => Val(w.literal(text), tr)
    case Ident(x, _) => Val(Lookup(env, x), tr)
    case Binary(op, l, r) =>
      var a := Eval(w, l, env, tr);
      if !a.Val? then a
      else if op == LogicalAnd && a.v == 0 then Val(0, a.tr)
      else if op == LogicalOr && a.v != 0 then Val(1, a.tr)
      else
        var b := Eval(w, r, env, a.tr);
        if b.Val? then OfResult(BinaryValue(op, a.v, b.v), b.tr) else b
    case Unary(op, x) =>
      var a := Eval(w, x, env, tr);
      if !a.Val? then a
      else if op == Minus1 then Val(Negate(a.v), a.tr)
      else if op == Tilde then Val(Complement(a.v), a.tr)
      else if op == LogicalNot then Val(FromBool(a.v == 0), a.tr)
      else Undefined
    case Call(f, args) =>
      var vs := EvalArgs(w, args, env, tr);
      if !f.Ident? || vs.ArgsUndefined? then Undefined
      else if vs.ArgsFaulted? then Faulted(vs.tr)
      else
        var ev := CallResult(w, f.name, vs.vs, vs.tr);
        Val(ev.result, vs.tr + [ev])
    case _ => Undefined
  }

  function OfResult(r: Option<Word>, tr: seq<Event>): Value {
    if r.Some? then Val(r.value, tr) else Faulted(tr)
  }

  function EvalArgs(w: World, args: seq<Expr>, env: Env, tr: seq<Event>): (r: Values)
    ensures r.Vals? ==> |r.vs| == |args|
    decreases args, 0
  {
    if args == [] then Vals([], tr)
    else
      var a := Eval(w, args[0], env, tr);
      if a.Undefined? then ArgsUndefined
      else if a.Faulted? then ArgsFaulted(a.tr)
      else
        var rest := EvalArgs(w, args[1..], env, a.tr);
        if rest.Vals? then Vals([a.v] + rest.vs, rest.tr) else rest
  }

  // Timeout: `fuel` loop iterations did not suffice.
  datatype Outcome =
    | Normal(env: Env, tr: seq<Event>)
    | Broke(env: Env, tr: seq<Event>)
    | Continued(env: Env, tr: seq<Event>)
    | Returned(v: Option<Word>, tr: seq<Event>)
    | Crashed(tr: seq<Event>)
    | Meaningless
    | Timeout

  // Used where evaluation did not give a value.
  function Stopped(r: Value): Outcome {
    if r.Faulted? then Crashed(r.tr) else Meaningless
  }

  function AssignedValue(op: AssignOp, before: Word, v: Word): Option<Word> {
    match op
    case Set => Some(v)
    case PlusSet => BinaryValue(Plus, before, v)
    case MinusSet => BinaryValue(Minus, before, v)
    case TimesSet => BinaryValue(Times, before, v)
    case DivideSet => BinaryValue(Divide, before, v)
  }

  /** `x op= e`, where `op` may be absent. */
  function Store(w: World, x: string, op: AssignOp, e: Expr, env: Env, tr: seq<Event>): Outcome {
    var a := Eval(w, e, env, tr);
    if !a.Val? then Stopped(a)
    else
      var u := AssignedValue(op, Lookup(env, x), a.v);
      if u.Some? then Normal(env[x := u.value], a.tr) else Crashed(a.tr)
  }

  /** Statement execution.  A `fow` has a meaning when all three clauses are there. */
  function Exec(w: World, s: Stmt, env: Env, tr: seq<Event>, fuel: nat): Outcome
    decreases fuel, s, 3
  {
    match s
    case Block(ss) => ExecAll(w, ss, env, tr, fuel)
    case Decl(x, _, init, _) =>
      if init.None? then Normal(env, tr) else Store(w, x, Set, init.value, env, tr)
    case ExprStmt(e) =>
      if e.Assign? && e.target.Ident? then
        Store(w, e.target.name, e.aop, e.source, env, tr)
      else
        var a := Eval(w, e, env, tr);
        if a.Val? then Normal(env, a.tr) else Stopped(a)
    case Return(e) =>
      if e.None? then Returned(None, tr)
      else
        var a := Eval(w, e.value, env, tr);
        if a.Val? then Returned(Some(a.v), a.tr) else Stopped(a)
    case If(c, thn, els) =>
      var a := Eval(w, c, env, tr);
      if !a.Val? then Stopped(a)
      else if a.v != 0 then Exec(w, thn, env, a.tr, fuel)
      else if els.Some? then Exec(w, els.value, env, a.tr, fuel)
      else Normal(env, a.tr)
    case While(c, body) => Loop(w, s, c, body, None, env, tr, fuel)
    case For(cs, body) =>
      if |cs| == 3 && cs[1].ExprStmt? then
        var r := Exec(w, cs[0], env, tr, fuel);
        if r.Normal? then Loop(w, s, cs[1].expr, body, Some(cs[2]), r.env, r.tr, fuel) else r
      else
        Meaningless
    case Break => Broke(env, tr)
    case Continue => Continued(env, tr)
  }

  function ExecAll(w: World, ss: seq<Stmt>, env: Env, tr: seq<Event>, fuel: nat): Outcome
    decreases fuel, ss, 0
  {
    if ss == [] then Normal(env, tr)
    else
      var r := Exec(w, ss[0], env, tr, fuel);
      if r.Normal? then ExecAll(w, ss[1..], r.env, r.tr, fuel) else r
  }

  /** The iterations of the loop statement `s` with condition `c`, body and increment. */
  function Loop(w: World, s: Stmt, c: Expr, body: Stmt, inc: Option<Stmt>,
                env: Env, tr: seq<Event>, fuel: nat): Outcome
    requires body < s && (inc.Some? ==> inc.value < s)
    decreases fuel, s, 2
  {
    if fuel == 0 then Timeout
    else
      var a := Eval(w, c, env, tr);
      if !a.Val? then Stopped(a)
      else if a.v == 0 then Normal(env, a.tr)
      else AfterTest(w, s, c, body, inc, env, a.tr, fuel)
  }

  /** One iteration, its condition having held, and all the later ones. */
  function AfterTest(w: World, s: Stmt, c: Expr, body: Stmt, inc: Option<Stmt>,
                     env: Env, tr: seq<Event>, fuel: nat): Outcome
    requires body < s && (inc.Some? ==> inc.value < s) && fuel > 0
    decreases fuel, s, 1
  {
    var r := Exec(w, body, env, tr, fuel);
    if r.Broke? then Normal(r.env, r.tr)
    else if !r.Normal? && !r.Continued? then r
    else AfterBody(w, s, c, body, inc, r.env, r.tr, fuel)
  }

  /** The increment, if there is one, and the next iteration. */
  function AfterBody(w: World, s: Stmt, c: Expr, body: Stmt, inc: Option<Stmt>,
                     env: Env, tr: seq<Event>, fuel: nat): Outcome
    requires body < s && (inc.Some? ==> inc.value < s) && fuel > 0
    decreases fuel, s, 0
  {
    if inc.None? then Loop(w, s, c, body, inc, env, tr, fuel - 1)
    else
      var q := Exec(w, inc.value, env, tr, fuel);
      if q.Normal? then Loop(w, s, c, body, inc, q.env, q.tr, fuel - 1) else q
  }

  // How a whole function body ends: a value, a crash, no meaning, or not within `fuel`.
  datatype Answer = Gives(v: Option<Word>, tr: seq<Event>) | Dies(tr: seq<Event>) | NoMeaning | NotYet

  /** A body that falls off its end gives 0. */
  function RunBody(w: World, body: Stmt, env: Env, tr: seq<Event>, fuel: nat): Answer {
    match Exec(w, body, env, tr, fuel)
    case Normal(_, tr1) => Gives(Some(0), tr1)
    case Returned(v, tr1) => Gives(v, tr1)
    case Crashed(tr1) => Dies(tr1)
    case Timeout => NotYet
    case _ => NoMeaning
  }
}
