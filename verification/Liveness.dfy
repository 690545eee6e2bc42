/**
 v<k> and t<k> share a stack word (src/codegen.c:69-83).  Emitted code is right
 when at no point both are still needed; this module says so as a check on the
 intermediate code, and as one on the tree that implies it.
 */
module Liveness {
  import opened Words
  import opened Ast
  import opened Ir
  import opened Lowering
  import opened IrShape

  type LiveSet = set<Operand>

  predicate IsSlot(o: Operand) {
    o.Temp? || o.Var?
  }

  // The names that are needed on entry to each label.
  type Marks = map<nat, LiveSet>

  /** `live` is what is needed before `i`, `next` what is needed after it if it goes on. */
  predicate Local(i: Instr, live: LiveSet, next: LiveSet, marks: Marks) {
    && (forall o | o in live :: IsSlot(o))
    && (forall o | o in Uses(i) && IsSlot(o) :: o in live)
    && match i
       case Jmp(l) => l in marks && marks[l] <= live
       case Brz(_, l) => l in marks && marks[l] <= live && next <= live
       case Ret(_) => true
       case EndFunc => true
       case Label(l) => l in marks && marks[l] == live && next <= live
       case Func(_) => false
       case _ =>
         if Def(i).None? then next <= live
         else
           var d := Def(i).value;
           IsSlot(d) && forall o | o in next :: IsSlot(o) && (o == d || (o in live && o.n != d.n))
  }

  function LiveAfter(lives: seq<LiveSet>, out: LiveSet, i: nat): LiveSet
    requires i < |lives|
  {
    if i + 1 < |lives| then lives[i + 1] else out
  }

  /** A live set for every instruction, `out` being needed after the last one. */
  ghost predicate Consistent(code: seq<Instr>, lives: seq<LiveSet>, out: LiveSet, marks: Marks) {
    && |lives| == |code|
    && forall i | 0 <= i < |code| :: LocalAt(code, lives, out, marks, i)
  }

  predicate LocalAt(code: seq<Instr>, lives: seq<LiveSet>, out: LiveSet, marks: Marks, i: nat)
    requires i < |code| == |lives|
  {
    Local(code[i], lives[i], LiveAfter(lives, out, i), marks)
  }

  // What is needed when `lives` is entered at its start.
  function Entry(lives: seq<LiveSet>, out: LiveSet): LiveSet {
    if lives == [] then out else lives[0]
  }

  lemma Joins(a: seq<Instr>, la: seq<LiveSet>, b: seq<Instr>, lb: seq<LiveSet>, out: LiveSet, marks: Marks)
    requires Consistent(a, la, Entry(lb, out), marks) && Consistent(b, lb, out, marks)
    ensures Consistent(a + b, la + lb, out, marks)
    ensures Entry(la + lb, out) == Entry(la, Entry(lb, out))
  {
    forall i | 0 <= i < |a + b|
      ensures LocalAt(a + b, la + lb, out, marks, i)
    {
      if i < |a| {
        assert LocalAt(a, la, Entry(lb, out), marks, i);
      } else {
        assert LocalAt(b, lb, out, marks, i - |a|);
      }
    }
  }

  lemma Weakens(code: seq<Instr>, lives: seq<LiveSet>, out: LiveSet, less: LiveSet, m: Marks, more: Marks)
    requires Consistent(code, lives, out, m) && less <= out
    requires forall l | l in m :: l in more && more[l] == m[l]
    ensures Consistent(code, lives, less, more)
  {
    forall i | 0 <= i < |code| ensures LocalAt(code, lives, less, more, i) {
      assert LocalAt(code, lives, out, m, i);
    }
  }

  lemma OneConsistent(i: Instr, live: LiveSet, out: LiveSet, m: Marks)
    requires Local(i, live, out, m)
    ensures Consistent([i], [live], out, m)
  {
  }

  // ---------- what a tree needs ----------

  // The slots that the code of e reads.
  function Reads(e: Expr): set<nat>
    decreases e, 1
  {
    match e
    case Ident(_, slot) => {slot}
    case Binary(_, l, r) => Reads(l) + Reads(r)
    case Unary(_, x) => Reads(x)
    case Call(_, args) => ReadsAll(args)
    case _ => {}
  }

  function ReadsAll(es: seq<Expr>): set<nat>
    decreases es, 0
  {
    if es == [] then {} else Reads(es[0]) + ReadsAll(es[1..])
  }

  // How many temps it takes.
  function Temps(e: Expr): nat
    decreases e, 1
  {
    match e
    case Binary(_, l, r) => Temps(l) + Temps(r) + 1
    case Unary(_, x) => Temps(x) + 1
    case Call(_, args) => 1 + TempsAll(args)
    case _ => 1
  }

  function TempsAll(es: seq<Expr>): nat
    decreases es, 0
  {
    if es == [] then 0 else Temps(es[0]) + TempsAll(es[1..])
  }

  /**
   No temp that e takes, from t on, has the word of a slot that is read later:
   in the rest of e, or in `out` after it.
   */
  predicate ClearExpr(e: Expr, t: nat, out: set<nat>)
    decreases e, 1
  {
    match e
    case Binary(_, l, r) =>
      && ClearExpr(l, t, out + Reads(r)) && ClearExpr(r, t + Temps(l), out)
      && t + Temps(l) + Temps(r) !in out
    case Unary(_, x) => ClearExpr(x, t, out) && t + Temps(x) !in out
    case Call(_, args) => t !in out && ClearArgs(args, t + 1, out)
    case _ => t !in out
  }

  predicate ClearArgs(es: seq<Expr>, t: nat, out: set<nat>)
    decreases es, 0
  {
    es != [] ==> ClearExpr(es[0], t, out + ReadsAll(es[1..])) && ClearArgs(es[1..], t + Temps(es[0]), out)
  }

  /** The slots whose words are read, by s or after it, before they are written; `out` is read after s. */
  function Needs(s: Stmt, out: set<nat>): set<nat>
    decreases s, 1
  {
    match s
    case If(c, t, e) => Reads(c) + Needs(t, out) + if e.None? then out else Needs(e.value, out)
    case While(c, b) => LoopNeeds(c, b, None, out)
    case For(cs, b) =>
      if |cs| == 3 && cs[1].ExprStmt? && cs[2].ExprStmt? then
        Needs(cs[0], LoopNeeds(cs[1].expr, b, Some(cs[2].expr), out))
      else
        out
    case Return(e) => if e.None? then {} else Reads(e.value)
    case Block(ss) => NeedsAll(ss, out)
    case Decl(_, _, init, slot) => if init.None? then out else Reads(init.value) + (out - {slot})
    case ExprStmt(e) =>
      if e.Assign? then Reads(e.source) + (out - {SlotOf(e.target)})
      else if HasCode(e) then out + Reads(e)
      else out
    case Break | Continue => out
  }

  function NeedsAll(ss: seq<Stmt>, out: set<nat>): set<nat>
    decreases ss, 0
  {
    if ss == [] then out else Needs(ss[0], NeedsAll(ss[1..], out))
  }

  // At the head of a loop; one pass through the body tells what all passes need.
  function LoopNeeds(c: Expr, b: Stmt, inc: Option<Expr>, out: set<nat>): set<nat>
    decreases b, 2
  {
    out + Reads(c) + Needs(b, StepReads(inc))
  }

  function StepReads(inc: Option<Expr>): set<nat> {
    if inc.None? then {} else Reads(inc.value)
  }

  // An expression statement that is lowered to something.
  predicate HasCode(e: Expr) {
    e.Binary? || e.Unary? || e.Call?
  }

  function TempsOf(s: Stmt): nat
    decreases s, 1
  {
    match s
    case If(c, t, e) => Temps(c) + TempsOf(t) + if e.None? then 0 else TempsOf(e.value)
    case While(c, b) => Temps(c) + TempsOf(b)
    case For(cs, b) =>
      if |cs| == 3 && cs[1].ExprStmt? && cs[2].ExprStmt? then
        TempsOf(cs[0]) + Temps(cs[1].expr) + TempsOf(b) + Temps(cs[2].expr)
      else
        0
    case Return(e) => if e.None? then 0 else Temps(e.value)
    case Block(ss) => TempsOfAll(ss)
    case Decl(_, _, init, _) => if init.None? then 0 else Temps(init.value)
    case ExprStmt(e) => if e.Assign? then Temps(e.source) else if HasCode(e) then Temps(e) else 0
    case Break | Continue => 0
  }

  function TempsOfAll(ss: seq<Stmt>): nat
    decreases ss, 0
  {
    if ss == [] then 0 else TempsOf(ss[0]) + TempsOfAll(ss[1..])
  }

  /** The same for a statement: nowhere in it, from temp t on, is a word written that is still needed. */
  predicate Clear(s: Stmt, t: nat, out: set<nat>)
    decreases s, 1
  {
    match s
    case If(c, thn, e) =>
      && ClearExpr(c, t, Needs(thn, out) + if e.None? then out else Needs(e.value, out))
      && Clear(thn, t + Temps(c), out)
      && (e.Some? ==> Clear(e.value, t + Temps(c) + TempsOf(thn), out))
    case While(c, b) => ClearLoop(c, b, None, t, out)
    case For(cs, b) =>
      && |cs| == 3 && cs[1].ExprStmt? && cs[2].ExprStmt?
      && Clear(cs[0], t, LoopNeeds(cs[1].expr, b, Some(cs[2].expr), out))
      && ClearLoop(cs[1].expr, b, Some(cs[2].expr), t + TempsOf(cs[0]), out)
    case Return(e) => e.Some? ==> ClearExpr(e.value, t, {})
    case Block(ss) => ClearAll(ss, t, out)
    case Decl(_, _, init, slot) => init.Some? ==> ClearExpr(init.value, t, out - {slot})
    case ExprStmt(e) =>
      if e.Assign? then ClearExpr(e.source, t, out - {SlotOf(e.target)}) else HasCode(e) ==> ClearExpr(e, t, out)
    case Break | Continue => true
  }

  predicate ClearAll(ss: seq<Stmt>, t: nat, out: set<nat>)
    decreases ss, 0
  {
    ss != [] ==> Clear(ss[0], t, NeedsAll(ss[1..], out)) && ClearAll(ss[1..], t + TempsOf(ss[0]), out)
  }

  predicate ClearLoop(c: Expr, b: Stmt, inc: Option<Expr>, t: nat, out: set<nat>)
    decreases b, 2
  {
    var head := LoopNeeds(c, b, inc, out);
    var after := head + StepReads(inc);
    && ClearExpr(c, t, out + Needs(b, after))
    && Clear(b, t + Temps(c), after)
    && (inc.Some? ==> ClearExpr(inc.value, t + Temps(c) + TempsOf(b), head))
  }

  lemma {:induction false} TempsTaken(e: Expr, c: Counters)
    ensures GenExpr(e, c).next.temp == c.temp + Temps(e)
    decreases e, 1
  {
    match e
    case Binary(_, l, r) =>
      TempsTaken(l, c);
      TempsTaken(r, GenExpr(l, c).next);
    case Unary(_, x) => TempsTaken(x, c);
    case Call(_, args) => TempsTakenByAll(args, c.(temp := c.temp + 1));
    case _ =>
  }

  lemma {:induction false} TempsTakenByAll(es: seq<Expr>, c: Counters)
    ensures GenArgs(es, c).next.temp == c.temp + TempsAll(es)
    decreases es, 0
  {
    if es != [] {
      TempsTaken(es[0], c);
      TempsTakenByAll(es[1..], GenExpr(es[0], c).next);
    }
  }

  lemma {:induction false} TempsTakenBy(s: Stmt, c: Counters)
    requires SupportedStmt(s)
    ensures GenStmt(s, c).next.temp == c.temp + TempsOf(s)
    decreases s, 1
  {
    hide GenExpr, Temps, GenFor;
    match s
    case If(_, _, _) => TempsTakenByIf(s, c);
    case While(cond, b) =>
      var c1 := c.(lab := c.lab + 2);
      TempsTaken(cond, c1);
      TempsTakenBy(b, GenExpr(cond, c1).next);
    case For(_, _) => TempsTakenByFor(s, c);
    case Return(e) =>
      if e.Some? {
        TempsTaken(e.value, c);
      }
    case Block(ss) => TempsTakenInBlock(ss, c);
    case Decl(_, _, init, _) =>
      if init.Some? {
        TempsTaken(init.value, c);
      }
    case ExprStmt(e) =>
      TempsTaken(e, c);
      if e.Assign? {
        TempsTaken(e.source, c);
      }
  }

  lemma {:induction false} TempsTakenByIf(s: Stmt, c: Counters)
    requires s.If? && SupportedStmt(s)
    ensures GenIf(s, c).next.temp == c.temp + TempsOf(s)
    decreases s, 0
  {
    hide GenExpr, Temps, GenStmt;
    var h := ShapeOfIf(s, c);
    var c1 := GenExpr(s.cond, c).next.(lab := h.other + 1);
    IfCode(s, c);
    TempsTaken(s.cond, c);
    TempsTakenBy(s.thn, c1);
    if s.els.Some? {
      TempsTakenBy(s.els.value, h.thn.next.(lab := h.end + 1));
    }
  }

  lemma {:induction false} TempsTakenByFor(s: Stmt, c: Counters)
    requires s.For? && SupportedStmt(s)
    ensures GenFor(s, c).next.temp == c.temp + TempsOf(s)
    ensures LoopTemps(ShapeOfFor(s, c)) && ShapeOfFor(s, c).cc.temp == c.temp + TempsOf(s.clauses[0])
    decreases s, 0
  {
    hide GenExpr, Temps;
    var h := ShapeOfFor(s, c);
    TempsTakenBy(s.clauses[0], c);
    TempsTaken(h.cond, h.cc);
    TempsTakenBy(s.body, h.cb);
    TempsTaken(h.inc.value, h.ci);
  }

  lemma {:induction false} TempsTakenInBlock(ss: seq<Stmt>, c: Counters)
    requires forall s | s in ss :: SupportedStmt(s)
    ensures GenStmts(ss, c).next.temp == c.temp + TempsOfAll(ss)
    decreases ss, 0
  {
    if ss != [] {
      TempsTakenBy(ss[0], c);
      TempsTakenInBlock(ss[1..], GenStmt(ss[0], c).next);
    }
  }

  // The temps of a loop, in the order of its code.
  predicate LoopTemps(h: LoopShape) {
    && h.cb.temp == h.cc.temp + Temps(h.cond)
    && (h.inc.Some? ==> h.ci.temp == h.cb.temp + TempsOf(h.body))
  }

  /** What is read after a statement, and not only in the next pass of a loop, is all it adds. */
  lemma {:induction false} NeedsSplit(s: Stmt, a: set<nat>, b: set<nat>)
    ensures Needs(s, a) <= Needs(s, a + b) <= Needs(s, a) + b
    decreases s, 1
  {
    match s
    case If(_, t, e) =>
      NeedsSplit(t, a, b);
      if e.Some? {
        NeedsSplit(e.value, a, b);
      }
    case While(_, _) =>
    case For(cs, body) =>
      if |cs| == 3 && cs[1].ExprStmt? && cs[2].ExprStmt? {
        var head := LoopNeeds(cs[1].expr, body, Some(cs[2].expr), a);
        NeedsSplit(cs[0], head, b);
        assert LoopNeeds(cs[1].expr, body, Some(cs[2].expr), a + b) == head + b;
      }
    case Block(ss) => NeedsAllSplit(ss, a, b);
    case _ =>
  }

  lemma {:induction false} NeedsAllSplit(ss: seq<Stmt>, a: set<nat>, b: set<nat>)
    ensures NeedsAll(ss, a) <= NeedsAll(ss, a + b) <= NeedsAll(ss, a) + b
    decreases ss, 0
  {
    if ss != [] {
      var after, more := NeedsAll(ss[1..], a), NeedsAll(ss[1..], a + b);
      NeedsAllSplit(ss[1..], a, b);
      NeedsSplit(ss[0], after, b);
      NeedsSplit(ss[0], after, more);
      NeedsSplit(ss[0], more, after + b);
      assert after + more == more && more + (after + b) == after + b;
    }
  }

  // ---------- expressions ----------

  function Vars(d: set<nat>): LiveSet {
    set k | k in d :: Var(k)
  }

  lemma VarsAdd(a: set<nat>, b: set<nat>)
    ensures Vars(a + b) == Vars(a) + Vars(b) && (a <= b ==> Vars(a) <= Vars(b))
  {
  }

  // Temps that are held while code starting at temp t runs.
  predicate Held(hold: LiveSet, t: nat) {
    forall o | o in hold :: o.Temp? && o.n < t
  }

  // A temp is written; the slots of `read` are read for it.
  lemma TempLives(i: Instr, t: nat, read: set<nat>, out: set<nat>, hold: LiveSet)
    requires Def(i) == Some(Temp(t)) && (forall o | o in Uses(i) && IsSlot(o) :: o in Vars(read))
    requires t !in out && Held(hold, t)
    ensures Consistent([i], [Vars(out + read) + hold], Vars(out) + hold + {Temp(t)}, map[])
  {
    VarsAdd(out, read);
    OneConsistent(i, Vars(out + read) + hold, Vars(out) + hold + {Temp(t)}, map[]);
  }

  /** Code for an expression needs what it reads, what is read later and what is held, and adds its result. */
  lemma {:induction false} ExprLives(e: Expr, c: Counters, out: set<nat>, hold: LiveSet) returns (lives: seq<LiveSet>)
    requires SupportedExpr(e) && ClearExpr(e, c.temp, out) && Held(hold, c.temp)
    ensures var g := GenExpr(e, c);
      var after := Vars(out) + hold + {g.res};
      Consistent(g.code, lives, after, map[]) && Entry(lives, after) == Vars(out + Reads(e)) + hold && lives != []
    decreases e, 1
  {
    var g := GenExpr(e, c);
    match e
    case Number(v) =>
      TempLives(Mov(Temp(c.temp), Imm(Wrap(v))), c.temp, {}, out, hold);
      lives := [Vars(out + {}) + hold];
    case Str(_) =>
      lives := StrLives(e, c, out, hold);
    case Ident(_, slot) =>
      TempLives(Mov(Temp(c.temp), Var(slot)), c.temp, {slot}, out, hold);
      lives := [Vars(out + {slot}) + hold];
    case Binary(_, _, _) => lives := BinaryLives(e, c, out, hold);
    case Unary(op, x) => lives := UnaryLives(e, c, out, hold);
    case Call(_, _) => lives := CallLives(e, c, out, hold);
  }

  lemma StrLives(e: Expr, c: Counters, out: set<nat>, hold: LiveSet) returns (lives: seq<LiveSet>)
    requires e.Str? && c.temp !in out && Held(hold, c.temp)
    ensures var g := GenExpr(e, c);
      var after := Vars(out) + hold + {g.res};
      Consistent(g.code, lives, after, map[]) && Entry(lives, after) == Vars(out + Reads(e)) + hold && lives != []
  {
    var live := Vars(out + {}) + hold;
    TempLives(Mov(Temp(c.temp), StrRef(c.str)), c.temp, {}, out, hold);
    OneConsistent(StringDef(c.str, e.text), live, live, map[]);
    Joins([StringDef(c.str, e.text)], [live], [Mov(Temp(c.temp), StrRef(c.str))], [live],
          Vars(out) + hold + {Temp(c.temp)}, map[]);
    assert [StringDef(c.str, e.text)] + [Mov(Temp(c.temp), StrRef(c.str))] == GenExpr(e, c).code;
    lives := [live] + [live];
  }

  // The operands are in temps; the result is written to t.
  lemma OpLives(i: Instr, t: nat, ops: LiveSet, out: set<nat>, hold: LiveSet)
    requires Def(i) == Some(Temp(t)) && Uses(i) <= ops && t !in out && Held(hold + ops, t)
    ensures Consistent([i], [Vars(out) + hold + ops], Vars(out) + hold + {Temp(t)}, map[])
  {
    OneConsistent(i, Vars(out) + hold + ops, Vars(out) + hold + {Temp(t)}, map[]);
  }

  lemma {:induction false} UnaryLives(e: Expr, c: Counters, out: set<nat>, hold: LiveSet) returns (lives: seq<LiveSet>)
    requires e.Unary? && SupportedExpr(e) && ClearExpr(e, c.temp, out) && Held(hold, c.temp)
    ensures var g := GenExpr(e, c);
      var after := Vars(out) + hold + {g.res};
      Consistent(g.code, lives, after, map[]) && Entry(lives, after) == Vars(out + Reads(e)) + hold && lives != []
    decreases e, 0
  {
    var g, gx := GenExpr(e, c), GenExpr(e.operand, c);
    var i := Un(UnaryOf(e.uop), g.res, gx.res);
    TempsTaken(e.operand, c);
    var lx := ExprLives(e.operand, c, out, hold);
    OpLives(i, g.res.n, {gx.res}, out, hold);
    Joins(gx.code, lx, [i], [Vars(out) + hold + {gx.res}], Vars(out) + hold + {g.res}, map[]);
    lives := lx + [Vars(out) + hold + {gx.res}];
  }

  /** The left result is held while the right operand is computed. */
  lemma {:induction false} BinaryLives(e: Expr, c: Counters, out: set<nat>, hold: LiveSet) returns (lives: seq<LiveSet>)
    requires e.Binary? && SupportedExpr(e) && ClearExpr(e, c.temp, out) && Held(hold, c.temp)
    ensures var g := GenExpr(e, c);
      var after := Vars(out) + hold + {g.res};
      Consistent(g.code, lives, after, map[]) && Entry(lives, after) == Vars(out + Reads(e)) + hold && lives != []
    decreases e, 0
  {
    var g, gl := GenExpr(e, c), GenExpr(e.left, c);
    var gr := GenExpr(e.right, gl.next);
    var i := Alu(OpOf(e.op), g.res, gl.res, gr.res);
    TempsTaken(e.left, c);
    TempsTaken(e.right, gl.next);
    var ll := ExprLives(e.left, c, out + Reads(e.right), hold);
    var lr := ExprLives(e.right, gl.next, out, hold + {gl.res});
    var before, after := Vars(out) + hold + {gl.res, gr.res}, Vars(out) + hold + {g.res};
    OpLives(i, g.res.n, {gl.res, gr.res}, out, hold);
    assert Vars(out) + (hold + {gl.res}) + {gr.res} == before;
    Regroup(Vars(out + Reads(e.right)), hold, gl.res);
    Joins(gl.code, ll, gr.code, lr, before, map[]);
    Joins(gl.code + gr.code, ll + lr, [i], [before], after, map[]);
    assert out + Reads(e.right) + Reads(e.left) == out + Reads(e);
    lives := ll + lr + [before];
  }

  lemma {:induction false} CallLives(e: Expr, c: Counters, out: set<nat>, hold: LiveSet) returns (lives: seq<LiveSet>)
    requires e.Call? && SupportedExpr(e) && ClearExpr(e, c.temp, out) && Held(hold, c.temp)
    ensures var g := GenExpr(e, c);
      var after := Vars(out) + hold + {g.res};
      Consistent(g.code, lives, after, map[]) && Entry(lives, after) == Vars(out + Reads(e)) + hold && lives != []
    decreases e, 0
  {
    var g, ga := GenExpr(e, c), GenArgs(e.args, c.(temp := c.temp + 1));
    var ops := Ops(ga.res);
    var call, get := CallTo(CalleeName(e.callee), FirstArgs(ga.res)), GetRet(g.res);
    var live, after := Vars(out) + hold, Vars(out) + hold + {g.res};
    var la := ArgsLives(e.args, c.(temp := c.temp + 1), out, hold);
    OneConsistent(call, live + ops, live, map[]);
    OneConsistent(get, live, after, map[]);
    Joins([call], [live + ops], [get], [live], after, map[]);
    Joins(ga.code, la, [call] + [get], [live + ops] + [live], after, map[]);
    assert [call] + [get] == [call, get];
    lives := la + ([live + ops] + [live]);
  }

  function Ops(args: seq<Operand>): LiveSet {
    set o | o in args
  }

  lemma OneOpMore(a: LiveSet, hold: LiveSet, o: Operand, more: seq<Operand>)
    ensures a + (hold + {o}) + Ops(more) == a + hold + Ops([o] + more)
  {
    assert Ops([o] + more) == {o} + Ops(more);
  }

  lemma Regroup(a: LiveSet, hold: LiveSet, o: Operand)
    ensures a + (hold + {o}) == a + hold + {o}
  {
  }

  lemma {:induction false} ArgsLives(args: seq<Expr>, c: Counters, out: set<nat>, hold: LiveSet)
    returns (lives: seq<LiveSet>)
    requires forall a | a in args :: SupportedExpr(a)
    requires ClearArgs(args, c.temp, out) && Held(hold, c.temp)
    ensures var g := GenArgs(args, c);
      var after := Vars(out) + hold + Ops(g.res);
      Consistent(g.code, lives, after, map[]) && Entry(lives, after) == Vars(out + ReadsAll(args)) + hold
    decreases args, 0
  {
    if args == [] {
      lives := [];
    } else {
      hide Consistent, ClearExpr, SupportedExpr, Vars, Ops;
      var g := GenExpr(args[0], c);
      var rest := GenArgs(args[1..], g.next);
      var later := out + ReadsAll(args[1..]);
      TempsTaken(args[0], c);
      var lg := ExprLives(args[0], c, later, hold);
      var lr := ArgsLives(args[1..], g.next, out, hold + {g.res});
      var after := Vars(out) + (hold + {g.res}) + Ops(rest.res);
      OneOpMore(Vars(out), hold, g.res, rest.res);
      Regroup(Vars(later), hold, g.res);
      Joins(g.code, lg, rest.code, lr, after, map[]);
      assert later + Reads(args[0]) == out + ReadsAll(args);
      lives := lg + lr;
    }
  }

  // ---------- statements ----------

  /** Live sets for code before which the slots of d are needed, and after which those of `out` are. */
  ghost predicate Lives(code: seq<Instr>, lives: seq<LiveSet>, d: set<nat>, out: set<nat>, m: Marks,
                        from: nat, to: nat)
  {
    && Consistent(code, lives, Vars(out), m) && Entry(lives, Vars(out)) == Vars(d)
    && forall l | l in m :: from <= l < to
  }

  // For an expression whose value goes nowhere, or to the one instruction behind it.
  lemma ExprThen(e: Expr, c: Counters, out: set<nat>, i: Instr, after: LiveSet, m: Marks) returns (lives: seq<LiveSet>)
    requires SupportedExpr(e) && ClearExpr(e, c.temp, out)
    requires Consistent([i], [Vars(out) + {GenExpr(e, c).res}], after, m)
    ensures Consistent(GenExpr(e, c).code + [i], lives, after, m) && lives != []
    ensures Entry(lives, after) == Vars(out + Reads(e))
  {
    var g := GenExpr(e, c);
    var before := Vars(out) + {g.res};
    var le := ExprLives(e, c, out, {});
    assert Vars(out) + {} + {g.res} == before && Vars(out + Reads(e)) + {} == Vars(out + Reads(e));
    Weakens(g.code, le, before, before, map[], m);
    Joins(g.code, le, [i], [before], after, m);
    lives := le + [before];
  }

  lemma ExprAlone(e: Expr, c: Counters, out: set<nat>) returns (lives: seq<LiveSet>)
    requires SupportedExpr(e) && ClearExpr(e, c.temp, out)
    ensures Lives(GenExpr(e, c).code, lives, out + Reads(e), out, map[], 0, 0) && lives != []
  {
    var g := GenExpr(e, c);
    lives := ExprLives(e, c, out, {});
    assert Vars(out + Reads(e)) + {} == Vars(out + Reads(e));
    Weakens(g.code, lives, Vars(out) + {} + {g.res}, Vars(out), map[], map[]);
  }

  /** A statement that is clear on the tree has consistent live sets in its code. */
  lemma {:induction false} StmtLives(s: Stmt, c: Counters, out: set<nat>) returns (lives: seq<LiveSet>, m: Marks)
    requires SupportedStmt(s) && Clear(s, c.temp, out)
    ensures Lives(GenStmt(s, c).code, lives, Needs(s, out), out, m, c.lab, GenStmt(s, c).next.lab)
    decreases s, 2
  {
    m := map[];
    match s
    case Return(e) =>
      if e.None? {
        assert Vars({}) == {};
        OneConsistent(Ret(None), {}, Vars(out), m);
        lives := [{}];
      } else {
        var g := GenExpr(e.value, c);
        OneConsistent(Ret(Some(g.res)), Vars({}) + {g.res}, Vars(out), m);
        lives := ExprThen(e.value, c, {}, Ret(Some(g.res)), Vars(out), m);
        assert {} + Reads(e.value) == Reads(e.value);
      }
    case Decl(_, _, init, slot) =>
      if init.None? {
        lives := [];
      } else {
        lives := StoreLives(slot, init.value, c, out);
      }
    case ExprStmt(e) =>
      if e.Assign? {
        lives := StoreLives(e.target.slot, e.source, c, out);
      } else if HasCode(e) {
        lives := ExprAlone(e, c, out);
      } else {
        lives := [];
      }
    case If(_, _, _) => lives, m := IfLives(s, c, out);
    case While(cond, body) => lives, m := WhileLives(s, c, out);
    case For(_, _) => lives, m := ForLives(s, c, out);
    case Block(ss) => lives, m := BlockLives(ss, c, out);
  }

  lemma StoreLives(slot: nat, e: Expr, c: Counters, out: set<nat>) returns (lives: seq<LiveSet>)
    requires SupportedExpr(e) && ClearExpr(e, c.temp, out - {slot})
    ensures Lives(StoreTo(slot, e, c).code, lives, Reads(e) + (out - {slot}), out, map[], 0, 0)
  {
    var g := GenExpr(e, c);
    var mov := Mov(Var(slot), g.res);
    OneConsistent(mov, Vars(out - {slot}) + {g.res}, Vars(out), map[]);
    lives := ExprThen(e, c, out - {slot}, mov, Vars(out), map[]);
    assert out - {slot} + Reads(e) == Reads(e) + (out - {slot});
  }

  lemma {:induction false} BlockLives(ss: seq<Stmt>, c: Counters, out: set<nat>)
    returns (lives: seq<LiveSet>, m: Marks)
    requires (forall s | s in ss :: SupportedStmt(s)) && ClearAll(ss, c.temp, out)
    ensures Lives(GenStmts(ss, c).code, lives, NeedsAll(ss, out), out, m, c.lab, GenStmts(ss, c).next.lab)
    decreases ss, 0
  {
    if ss == [] {
      lives, m := [], map[];
    } else {
      var g := GenStmt(ss[0], c);
      var rest := GenStmts(ss[1..], g.next);
      var later := NeedsAll(ss[1..], out);
      TempsTakenBy(ss[0], c);
      var l0, m0 := StmtLives(ss[0], c, later);
      var l1, m1 := BlockLives(ss[1..], g.next, out);
      m := m0 + m1;
      Weakens(g.code, l0, Vars(later), Vars(later), m0, m);
      Weakens(rest.code, l1, Vars(out), Vars(out), m1, m);
      Joins(g.code, l0, rest.code, l1, Vars(out), m);
      lives := l0 + l1;
    }
  }

  lemma LabelLives(l: nat, live: LiveSet, next: LiveSet, m: Marks)
    requires l in m && m[l] == live && next <= live && forall o | o in live :: IsSlot(o)
    ensures Consistent([Label(l)], [live], next, m)
  {
    OneConsistent(Label(l), live, next, m);
  }

  lemma JumpLives(l: nat, live: LiveSet, next: LiveSet, m: Marks)
    requires l in m && m[l] <= live && forall o | o in live :: IsSlot(o)
    ensures Consistent([Jmp(l)], [live], next, m)
  {
    OneConsistent(Jmp(l), live, next, m);
  }

  /** A condition and its branch: `thn` is read when it goes on, `els` at the label. */
  lemma TestLives(e: Expr, l: nat, c: Counters, thn: set<nat>, els: set<nat>, m: Marks) returns (lives: seq<LiveSet>)
    requires SupportedExpr(e) && ClearExpr(e, c.temp, thn + els) && l in m && m[l] == Vars(els)
    ensures Consistent(GenExpr(e, c).code + [Brz(GenExpr(e, c).res, l)], lives, Vars(thn), m)
    ensures Entry(lives, Vars(thn)) == Vars(thn + els + Reads(e)) && lives != []
  {
    var g := GenExpr(e, c);
    OneConsistent(Brz(g.res, l), Vars(thn + els) + {g.res}, Vars(thn), m);
    lives := ExprThen(e, c, thn + els, Brz(g.res, l), Vars(thn), m);
  }

  lemma IfCode(s: Stmt, c: Counters)
    requires s.If?
    ensures var h := ShapeOfIf(s, c); GenIf(s, c) == StmtCode(h.test + h.thn.code + h.last, h.els.next)
  {
  }

  lemma {:induction false} IfLives(s: Stmt, c: Counters, out: set<nat>) returns (lives: seq<LiveSet>, m: Marks)
    requires s.If? && SupportedStmt(s) && Clear(s, c.temp, out)
    ensures Lives(GenIf(s, c).code, lives, Needs(s, out), out, m, c.lab, GenIf(s, c).next.lab)
    decreases s, 1
  {
    hide GenExpr, GenStmt, Consistent, SupportedExpr, ClearExpr, TempsOf, Temps, Reads;
    var h := ShapeOfIf(s, c);
    IfCode(s, c);
    var c1 := GenExpr(s.cond, c).next.(lab := h.other + 1);
    TempsTaken(s.cond, c);
    TempsTakenBy(s.thn, c1);
    var lt, mt := StmtLives(s.thn, c1, out);
    var thn, els := Needs(s.thn, out), if s.els.None? then out else Needs(s.els.value, out);
    var ll: seq<LiveSet>;
    if s.els.None? {
      m := mt[h.other := Vars(out)];
      LabelLives(h.other, Vars(out), Vars(out), m);
      ll := [Vars(out)];
    } else {
      var le, me := StmtLives(s.els.value, h.thn.next.(lab := h.end + 1), out);
      m := (mt + me)[h.other := Vars(els)][h.end := Vars(out)];
      Weakens(h.els.code, le, Vars(out), Vars(out), me, m);
      ll := ElseLives(h.els.code, le, h.other, h.end, els, out, m);
    }
    var lc := TestLives(s.cond, h.other, c, thn, els, m);
    Weakens(h.thn.code, lt, Vars(out), Vars(out), mt, m);
    Joins(h.test, lc, h.thn.code, lt, Vars(out), m);
    Joins(h.test + h.thn.code, lc + lt, h.last, ll, Vars(out), m);
    assert thn + els + Reads(s.cond) == Needs(s, out);
    lives := lc + lt + ll;
  }

  // The second branch with the labels around it.
  lemma ElseLives(code: seq<Instr>, le: seq<LiveSet>, other: nat, end: nat, els: set<nat>, out: set<nat>, m: Marks)
    returns (lives: seq<LiveSet>)
    requires Consistent(code, le, Vars(out), m) && Entry(le, Vars(out)) == Vars(els)
    requires other in m && end in m && m[other] == Vars(els) && m[end] == Vars(out)
    ensures Consistent([Jmp(end), Label(other)] + code + [Label(end)], lives, Vars(out), m)
    ensures lives != [] && lives[0] == Vars(out)
  {
    hide Consistent;
    var a, b := Vars(out), Vars(els);
    JumpLives(end, a, b, m);
    LabelLives(other, b, b, m);
    LabelLives(end, a, a, m);
    Joins([Jmp(end)], [a], [Label(other)], [b], b, m);
    Joins([Jmp(end)] + [Label(other)], [a] + [b], code, le, a, m);
    Joins([Jmp(end)] + [Label(other)] + code, [a] + [b] + le, [Label(end)], [a], a, m);
    assert [Jmp(end)] + [Label(other)] == [Jmp(end), Label(other)];
    lives := [a] + [b] + le + [a];
  }

  lemma {:induction false} WhileLives(s: Stmt, c: Counters, out: set<nat>) returns (lives: seq<LiveSet>, m: Marks)
    requires s.While? && SupportedStmt(s) && Clear(s, c.temp, out)
    ensures Lives(GenWhile(s, c).code, lives, Needs(s, out), out, m, c.lab, GenWhile(s, c).next.lab)
    decreases s, 1
  {
    hide GenExpr, GenStmt, Consistent, SupportedExpr, ClearExpr;
    var h := ShapeOfWhile(s, c);
    TempsTaken(h.cond, h.cc);
    var lb, mb := StmtLives(s.body, h.cb, LoopNeeds(s.cond, s.body, None, out) + {});
    lives, m := LoopLives(h, out, lb, mb, c.lab);
  }

  lemma {:induction false} LoopLives(h: LoopShape, out: set<nat>, lb: seq<LiveSet>, mb: Marks, from: nat)
    returns (lives: seq<LiveSet>, m: Marks)
    requires SupportedExpr(h.cond) && (h.inc.Some? ==> SupportedExpr(h.inc.value)) && LoopTemps(h)
    requires ClearLoop(h.cond, h.body, h.inc, h.cc.temp, out)
    requires var after := LoopNeeds(h.cond, h.body, h.inc, out) + StepReads(h.inc);
      Lives(GenStmt(h.body, h.cb).code, lb, Needs(h.body, after), after, mb, h.cb.lab, GenStmt(h.body, h.cb).next.lab)
    requires from <= h.start < h.cb.lab && from <= h.end < h.cb.lab && h.start != h.end
    requires h.inc.Some? ==> from <= h.again < h.cb.lab && h.again != h.start && h.again != h.end
    ensures Lives(LoopCode(h), lives, LoopNeeds(h.cond, h.body, h.inc, out), out, m, from,
                  GenStmt(h.body, h.cb).next.lab)
    ensures lives != []
  {
    hide GenExpr, GenStmt, Consistent, SupportedExpr, ClearExpr, TempsOf, Temps, Reads;
    var head := LoopNeeds(h.cond, h.body, h.inc, out);
    var after := head + StepReads(h.inc);
    var body, need := GenStmt(h.body, h.cb).code, Needs(h.body, after);
    m := mb[h.start := Vars(head)][h.end := Vars(out)];
    if h.inc.Some? {
      m := m[h.again := Vars(after)];
    }
    NeedsSplit(h.body, StepReads(h.inc), head);
    assert StepReads(h.inc) + head == after && need + out == out + need;
    var lt := TestLives(h.cond, h.end, h.cc, need, out, m);
    VarsAdd(need + out + Reads(h.cond), head);
    LabelLives(h.start, Vars(head), Vars(need + out + Reads(h.cond)), m);
    Weakens(body, lb, Vars(after), Vars(after), mb, m);
    var ls := StepLives(h, head, m);
    JumpLives(h.start, Vars(head), Vars(out), m);
    LabelLives(h.end, Vars(out), Vars(out), m);
    Joins([Jmp(h.start)], [Vars(head)], [Label(h.end)], [Vars(out)], Vars(out), m);
    lives := LoopJoins(h, lt, lb, ls, head, need, after, out, need + out + Reads(h.cond), m);
  }

  lemma LoopJoins(h: LoopShape, lt: seq<LiveSet>, lb: seq<LiveSet>, ls: seq<LiveSet>, head: set<nat>, need: set<nat>,
                  after: set<nat>, out: set<nat>, test: set<nat>, m: Marks) returns (lives: seq<LiveSet>)
    requires Consistent([Label(h.start)], [Vars(head)], Vars(test), m)
    requires Consistent(LoopTest(h), lt, Vars(need), m) && Entry(lt, Vars(need)) == Vars(test)
    requires Consistent(GenStmt(h.body, h.cb).code, lb, Vars(after), m) && Entry(lb, Vars(after)) == Vars(need)
    requires Consistent(LoopStep(h), ls, Vars(head), m) && Entry(ls, Vars(head)) == Vars(after)
    requires Consistent([Jmp(h.start)] + [Label(h.end)], [Vars(head)] + [Vars(out)], Vars(out), m)
    ensures Consistent(LoopCode(h), lives, Vars(out), m) && lives != [] && lives[0] == Vars(head)
  {
    hide Consistent, LoopTest, LoopStep, GenStmt;
    var body := GenStmt(h.body, h.cb).code;
    var l0, end := [Vars(head)], [Vars(head)] + [Vars(out)];
    Joins([Label(h.start)], l0, LoopTest(h), lt, Vars(need), m);
    Joins([Label(h.start)] + LoopTest(h), l0 + lt, body, lb, Vars(after), m);
    Joins([Label(h.start)] + LoopTest(h) + body, l0 + lt + lb, LoopStep(h), ls, Vars(head), m);
    Joins([Label(h.start)] + LoopTest(h) + body + LoopStep(h), l0 + lt + lb + ls, [Jmp(h.start)] + [Label(h.end)], end,
          Vars(out), m);
    assert [Jmp(h.start)] + [Label(h.end)] == [Jmp(h.start), Label(h.end)];
    lives := l0 + lt + lb + ls + end;
  }

  lemma StepLives(h: LoopShape, head: set<nat>, m: Marks) returns (lives: seq<LiveSet>)
    requires h.inc.Some? ==>
      && SupportedExpr(h.inc.value) && ClearExpr(h.inc.value, h.ci.temp, head)
      && h.again in m && m[h.again] == Vars(head + Reads(h.inc.value))
    ensures Consistent(LoopStep(h), lives, Vars(head), m)
    ensures Entry(lives, Vars(head)) == Vars(head + StepReads(h.inc))
  {
    if h.inc.None? {
      assert head + {} == head;
      lives := [];
    } else {
      var g := GenExpr(h.inc.value, h.ci);
      var live := Vars(head + Reads(h.inc.value));
      LabelLives(h.again, live, live, m);
      var l1 := ExprAlone(h.inc.value, h.ci, head);
      Weakens(g.code, l1, Vars(head), Vars(head), map[], m);
      Joins([Label(h.again)], [live], g.code, l1, Vars(head), m);
      lives := [live] + l1;
    }
  }

  lemma {:induction false} ForLives(s: Stmt, c: Counters, out: set<nat>) returns (lives: seq<LiveSet>, m: Marks)
    requires s.For? && SupportedStmt(s) && Clear(s, c.temp, out)
    ensures Lives(GenFor(s, c).code, lives, Needs(s, out), out, m, c.lab, GenFor(s, c).next.lab)
    decreases s, 1
  {
    hide GenExpr, GenStmt, Consistent, SupportedExpr, ClearExpr, TempsOf, Temps, Reads;
    var h := ShapeOfFor(s, c);
    var g0 := GenStmt(s.clauses[0], c);
    var head := LoopNeeds(h.cond, h.body, h.inc, out);
    TempsTakenByFor(s, c);
    var l0, m0 := StmtLives(s.clauses[0], c, head);
    var lb, mb := StmtLives(s.body, h.cb, head + StepReads(h.inc));
    var l1, m1 := LoopLives(h, out, lb, mb, g0.next.lab);
    m := m0 + m1;
    Weakens(g0.code, l0, Vars(head), Vars(head), m0, m);
    Weakens(LoopCode(h), l1, Vars(out), Vars(out), m1, m);
    Joins(g0.code, l0, LoopCode(h), l1, Vars(out), m);
    lives := l0 + l1;
  }
}
