/**
 The whole compiler: from source text over tokens, tree, slots and intermediate
 code to machine code.
 */
module Pipeline {
  import opened Words
  import opened Ast
  import opened Source
  import opened Lowering
  import opened Liveness
  import opened Sharing
  import opened IrShape
  import opened Semantic
  import opened Scoping
  import opened Compiler
  import opened Ir
  import Lexing
  import Grammar
  import M = IrMachine
  import X86
  import opened Codegen
  import C = CodegenCorrect

  // ---------- resolution keeps the supported fragment ----------

  lemma {:induction false} ResolvedKeepsExpr(e: Expr, d: Names)
    requires LexExpr(e, d).Some?
    ensures var e1 := LexExpr(e, d).value;
      && IsBoolean(e1) == IsBoolean(e) && IsPure(e1) == IsPure(e) && SupportedExpr(e1) == SupportedExpr(e)
      && e1.Assign? == e.Assign? && e1.Ident? == e.Ident?
    decreases e, 1
  {
    match e
    case Binary(_, l, r) =>
      ResolvedKeepsExpr(l, d);
      ResolvedKeepsExpr(r, d);
    case Unary(_, x) => ResolvedKeepsExpr(x, d);
    case Call(f, args) =>
      ResolvedKeepsArgs(args, d);
    case Ident(_, _) | Number(_) | Str(_) | Null | SizeofType(_) =>
    case Assign(_, _, _) | SizeofExpr(_) | Index(_, _) | Member(_, _) =>
  }

  lemma {:induction false} ResolvedKeepsArgs(args: seq<Expr>, d: Names)
    requires LexAll(args, d).Some?
    ensures (forall a | a in LexAll(args, d).value :: SupportedExpr(a)) <==> (forall a | a in args :: SupportedExpr(a))
    decreases args, 0
  {
    hide LexExpr, LexAll, SupportedExpr;
    var as1 := LexAll(args, d).value;
    forall i | 0 <= i < |args| ensures SupportedExpr(as1[i]) == SupportedExpr(args[i]) {
      LexAllAt(args, d, i);
      ResolvedKeepsExpr(args[i], d);
    }
    assert forall i | 0 <= i < |args| :: as1[i] in as1 && args[i] in args;
  }

  lemma {:induction false} LexAllAt(es: seq<Expr>, d: Names, i: nat)
    requires LexAll(es, d).Some? && i < |es|
    ensures LexExpr(es[i], d) == Some(LexAll(es, d).value[i])
  {
    if i > 0 {
      LexAllAt(es[1..], d, i - 1);
    }
  }

  lemma {:induction false} LexItemAt(ss: seq<Stmt>, d: Names, n: nat, i: nat) returns (d1: Names, n1: nat)
    requires LexAllItems(ss, d, n).Some? && i < |ss|
    ensures LexStmt(ss[i], d1, n1).Some? && LexStmt(ss[i], d1, n1).value.tree == LexAllItems(ss, d, n).value.trees[i]
  {
    if i == 0 {
      d1, n1 := d, n;
    } else {
      var s := LexStmt(ss[0], d, n).value;
      d1, n1 := LexItemAt(ss[1..], s.inside, s.next, i - 1);
    }
  }

  lemma ThreeClauses(cs: seq<Stmt>, d: Names)
    requires |cs| == 3 && LexClauses(cs, d).Some?
    ensures var cs1 := LexClauses(cs, d).value;
      forall i | 0 <= i < 3 ::
        cs[i].ExprStmt? && LexExpr(cs[i].expr, d).Some? && cs1[i] == ExprStmt(LexExpr(cs[i].expr, d).value)
  {
    ClauseAt(cs, d, 0);
    ClauseAt(cs, d, 1);
    ClauseAt(cs, d, 2);
  }

  lemma {:induction false} ClauseAt(cs: seq<Stmt>, d: Names, i: nat)
    requires LexClauses(cs, d).Some? && i < |cs|
    ensures cs[i].ExprStmt? && LexExpr(cs[i].expr, d).Some?
    ensures LexClauses(cs, d).value[i] == ExprStmt(LexExpr(cs[i].expr, d).value)
  {
    if i > 0 {
      ClauseAt(cs[1..], d, i - 1);
    }
  }

  lemma {:induction false} ResolvedKeepsStmt(s: Stmt, d: Names, n: nat)
    requires LexStmt(s, d, n).Some? && SupportedStmt(s)
    ensures SupportedStmt(LexStmt(s, d, n).value.tree)
    decreases s, 1
  {
    hide LexExpr, SupportedExpr;
    match s
    case If(c, t, e) =>
      ResolvedKeepsExpr(c, d);
      ResolvedKeepsStmt(t, d, n);
      if e.Some? {
        ResolvedKeepsStmt(e.value, d, LexStmt(t, d, n).value.next);
      }
    case While(c, b) =>
      ResolvedKeepsExpr(c, d);
      ResolvedKeepsStmt(b, d, n);
    case For(cs, b) =>
      ResolvedKeepsClauses(cs, d);
      ResolvedKeepsStmt(b, d, n);
    case Return(e) =>
      if e.Some? {
        ResolvedKeepsExpr(e.value, d);
      }
    case Block(ss) => ResolvedKeepsItems(ss, d, n);
    case Decl(x, _, init, _) =>
      if init.Some? {
        ResolvedKeepsExpr(init.value, d[x := n]);
      }
    case ExprStmt(e) => ResolvedKeepsSimple(e, d);
    case Break | Continue =>
  }

  lemma ResolvedKeepsClauses(cs: seq<Stmt>, d: Names)
    requires |cs| == 3 && LexClauses(cs, d).Some? && SupportedStmt(cs[0])
    requires cs[1].ExprStmt? && SupportedExpr(cs[1].expr) && cs[2].ExprStmt? && SupportedExpr(cs[2].expr)
    ensures var cs1 := LexClauses(cs, d).value;
      && SupportedStmt(cs1[0]) && cs1[1].ExprStmt? && SupportedExpr(cs1[1].expr)
      && cs1[2].ExprStmt? && SupportedExpr(cs1[2].expr)
  {
    ThreeClauses(cs, d);
    ResolvedKeepsSimple(cs[0].expr, d);
    ResolvedKeepsExpr(cs[1].expr, d);
    ResolvedKeepsExpr(cs[2].expr, d);
  }

  lemma {:induction false} ResolvedKeepsItems(ss: seq<Stmt>, d: Names, n: nat)
    requires LexAllItems(ss, d, n).Some? && forall t | t in ss :: SupportedStmt(t)
    ensures forall t | t in LexAllItems(ss, d, n).value.trees :: SupportedStmt(t)
    decreases ss, 0
  {
    var ss1 := LexAllItems(ss, d, n).value.trees;
    forall t | t in ss1 ensures SupportedStmt(t) {
      var i :| 0 <= i < |ss1| && ss1[i] == t;
      var d1, n1 := LexItemAt(ss, d, n, i);
      assert ss[i] in ss;
      ResolvedKeepsStmt(ss[i], d1, n1);
    }
  }

  lemma ResolvedKeepsSimple(e: Expr, d: Names)
    requires LexExpr(e, d).Some? && SupportedStmt(ExprStmt(e))
    ensures SupportedStmt(ExprStmt(LexExpr(e, d).value))
  {
    ResolvedKeepsExpr(e, d);
    if e.Assign? {
      ResolvedKeepsExpr(e.target, d);
      ResolvedKeepsExpr(e.source, d);
    }
  }

  lemma {:induction false} ResolvedCallsSame(e: Expr, d: Names, own: set<string>)
    requires LexExpr(e, d).Some? && OutsideExpr(e, own)
    ensures OutsideExpr(LexExpr(e, d).value, own)
    decreases e
  {
    match e
    case Binary(_, l, r) =>
      ResolvedCallsSame(l, d, own);
      ResolvedCallsSame(r, d, own);
    case Unary(_, x) => ResolvedCallsSame(x, d, own);
    case Assign(_, l, r) =>
      ResolvedCallsSame(l, d, own);
      ResolvedCallsSame(r, d, own);
    case SizeofExpr(x) => ResolvedCallsSame(x, d, own);
    case Call(f, args) =>
      var as1 := LexAll(args, d).value;
      forall a | a in as1 ensures OutsideExpr(a, own) {
        var i :| 0 <= i < |as1| && as1[i] == a;
        LexAllAt(args, d, i);
        ResolvedCallsSame(args[i], d, own);
      }
    case Index(a, b) =>
      ResolvedCallsSame(a, d, own);
      ResolvedCallsSame(b, d, own);
    case Member(x, _) => ResolvedCallsSame(x, d, own);
    case Ident(_, _) | Number(_) | Str(_) | Null | SizeofType(_) =>
  }

  /** Resolution changes no called name. */
  lemma {:induction false} ResolvedOutside(s: Stmt, d: Names, n: nat, own: set<string>)
    requires LexStmt(s, d, n).Some? && OutsideStmt(s, own)
    ensures OutsideStmt(LexStmt(s, d, n).value.tree, own)
    decreases s, 1
  {
    match s
    case If(c, t, e) =>
      ResolvedCallsSame(c, d, own);
      ResolvedOutside(t, d, n, own);
      if e.Some? {
        ResolvedOutside(e.value, d, LexStmt(t, d, n).value.next, own);
      }
    case While(c, b) =>
      ResolvedCallsSame(c, d, own);
      ResolvedOutside(b, d, n, own);
    case For(cs, b) =>
      ResolvedClausesOutside(cs, d, own);
      ResolvedOutside(b, d, n, own);
    case Return(e) =>
      if e.Some? {
        ResolvedCallsSame(e.value, d, own);
      }
    case Block(ss) => ResolvedItemsOutside(ss, d, n, own);
    case Decl(x, _, init, _) =>
      if init.Some? {
        ResolvedCallsSame(init.value, d[x := n], own);
      }
    case ExprStmt(e) => ResolvedCallsSame(e, d, own);
    case Break | Continue =>
  }

  lemma ResolvedClausesOutside(cs: seq<Stmt>, d: Names, own: set<string>)
    requires LexClauses(cs, d).Some? && forall t | t in cs :: OutsideStmt(t, own)
    ensures forall t | t in LexClauses(cs, d).value :: OutsideStmt(t, own)
  {
    var cs1 := LexClauses(cs, d).value;
    forall t | t in cs1 ensures OutsideStmt(t, own) {
      var i :| 0 <= i < |cs1| && cs1[i] == t;
      ClauseAt(cs, d, i);
      assert OutsideStmt(cs[i], own);
      ResolvedCallsSame(cs[i].expr, d, own);
    }
  }

  lemma {:induction false} ResolvedItemsOutside(ss: seq<Stmt>, d: Names, n: nat, own: set<string>)
    requires LexAllItems(ss, d, n).Some? && forall t | t in ss :: OutsideStmt(t, own)
    ensures forall t | t in LexAllItems(ss, d, n).value.trees :: OutsideStmt(t, own)
    decreases ss, 0
  {
    var ss1 := LexAllItems(ss, d, n).value.trees;
    forall t | t in ss1 ensures OutsideStmt(t, own) {
      var i :| 0 <= i < |ss1| && ss1[i] == t;
      var d1, n1 := LexItemAt(ss, d, n, i);
      assert ss[i] in ss;
      ResolvedOutside(ss[i], d1, n1, own);
    }
  }

  // ---------- resolution keeps the meaning ----------

  lemma {:induction false} SameValue(w: World, e: Expr, d: Names, env: Env, tr: seq<Event>)
    requires LexExpr(e, d).Some?
    ensures Eval(w, LexExpr(e, d).value, env, tr) == Eval(w, e, env, tr)
    decreases e, 1
  {
    match e
    case Binary(_, l, r) =>
      SameValue(w, l, d, env, tr);
      var a := Eval(w, l, env, tr);
      if a.Val? {
        SameValue(w, r, d, env, a.tr);
      }
    case Unary(_, x) => SameValue(w, x, d, env, tr);
    case Call(_, args) => SameValues(w, args, d, env, tr);
    case Ident(_, _) | Number(_) | Str(_) | Null | SizeofType(_) =>
    case Assign(_, _, _) | SizeofExpr(_) | Index(_, _) | Member(_, _) =>
  }

  lemma {:induction false} SameValues(w: World, es: seq<Expr>, d: Names, env: Env, tr: seq<Event>)
    requires LexAll(es, d).Some?
    ensures EvalArgs(w, LexAll(es, d).value, env, tr) == EvalArgs(w, es, env, tr)
    decreases es, 0
  {
    if es != [] {
      SameValue(w, es[0], d, env, tr);
      var a := Eval(w, es[0], env, tr);
      if a.Val? {
        SameValues(w, es[1..], d, env, a.tr);
      }
      assert LexAll(es, d).value[1..] == LexAll(es[1..], d).value;
    }
  }

  lemma SameExprStmt(w: World, e: Expr, d: Names, env: Env, tr: seq<Event>, fuel: nat)
    requires LexExpr(e, d).Some?
    ensures Exec(w, ExprStmt(LexExpr(e, d).value), env, tr, fuel) == Exec(w, ExprStmt(e), env, tr, fuel)
  {
    SameValue(w, e, d, env, tr);
    if e.Assign? {
      SameValue(w, e.source, d, env, tr);
    }
  }

  /** Slots play no part in what a statement means. */
  lemma {:induction false} SameOutcome(w: World, s: Stmt, d: Names, n: nat, env: Env, tr: seq<Event>, fuel: nat)
    requires LexStmt(s, d, n).Some?
    ensures Exec(w, LexStmt(s, d, n).value.tree, env, tr, fuel) == Exec(w, s, env, tr, fuel)
    decreases fuel, s, 3
  {
    hide Eval, LexExpr;
    match s
    case If(c, t, e) =>
      SameValue(w, c, d, env, tr);
      var a := Eval(w, c, env, tr);
      if a.Val? {
        SameOutcome(w, t, d, n, env, a.tr, fuel);
        if e.Some? {
          SameOutcome(w, e.value, d, LexStmt(t, d, n).value.next, env, a.tr, fuel);
        }
      }
    case While(c, b) =>
      var s1 := LexStmt(s, d, n).value.tree;
      SameLoop(w, s, s1, c, b, None, d, n, s1.cond, s1.body, None, env, tr, fuel);
    case For(cs, b) =>
      if |cs| == 3 {
        ThreeClauses(cs, d);
        SameExprStmt(w, cs[0].expr, d, env, tr, fuel);
        var r := Exec(w, cs[0], env, tr, fuel);
        if r.Normal? {
          var s1 := LexStmt(s, d, n).value.tree;
          SameLoop(w, s, s1, cs[1].expr, b, Some(cs[2].expr), d, n, s1.clauses[1].expr, s1.body,
                   Some(s1.clauses[2].expr), r.env, r.tr, fuel);
        }
      }
    case Return(e) =>
      if e.Some? {
        SameValue(w, e.value, d, env, tr);
      }
    case Block(ss) => SameOutcomes(w, ss, d, n, env, tr, fuel);
    case Decl(x, _, init, _) =>
      if init.Some? {
        SameValue(w, init.value, d[x := n], env, tr);
      }
    case ExprStmt(e) => SameExprStmt(w, e, d, env, tr, fuel);
    case Break | Continue =>
  }

  lemma {:induction false} SameOutcomes(w: World, ss: seq<Stmt>, d: Names, n: nat, env: Env, tr: seq<Event>, fuel: nat)
    requires LexAllItems(ss, d, n).Some?
    ensures ExecAll(w, LexAllItems(ss, d, n).value.trees, env, tr, fuel) == ExecAll(w, ss, env, tr, fuel)
    decreases fuel, ss, 0
  {
    if ss != [] {
      SameOutcome(w, ss[0], d, n, env, tr, fuel);
      var s, r := LexStmt(ss[0], d, n).value, Exec(w, ss[0], env, tr, fuel);
      if r.Normal? {
        SameOutcomes(w, ss[1..], s.inside, s.next, r.env, r.tr, fuel);
      }
      assert LexAllItems(ss, d, n).value.trees[1..] == LexAllItems(ss[1..], s.inside, s.next).value.trees;
    }
  }

  // An increment is an expression statement.
  function Increment(inc: Option<Expr>): Option<Stmt> {
    if inc.None? then None else Some(ExprStmt(inc.value))
  }

  // Loop parts and their resolved forms.
  ghost predicate SameParts(c: Expr, b: Stmt, inc: Option<Expr>, d: Names, n: nat, c1: Expr, b1: Stmt, inc1: Option<Expr>) {
    && LexExpr(c, d) == Some(c1) && LexOptional(inc, d) == Some(inc1)
    && LexStmt(b, d, n).Some? && LexStmt(b, d, n).value.tree == b1
  }

  ghost predicate Inside(s: Stmt, b: Stmt, inc: Option<Expr>) {
    b < s && (inc.Some? ==> ExprStmt(inc.value) < s)
  }

  lemma {:induction false} SameLoop(w: World, s: Stmt, s1: Stmt, c: Expr, b: Stmt, inc: Option<Expr>, d: Names, n: nat,
                                    c1: Expr, b1: Stmt, inc1: Option<Expr>, env: Env, tr: seq<Event>, fuel: nat)
    requires SameParts(c, b, inc, d, n, c1, b1, inc1) && Inside(s, b, inc) && Inside(s1, b1, inc1)
    ensures Loop(w, s1, c1, b1, Increment(inc1), env, tr, fuel) == Loop(w, s, c, b, Increment(inc), env, tr, fuel)
    decreases fuel, s, 2
  {
    if fuel > 0 {
      SameValue(w, c, d, env, tr);
      var a := Eval(w, c, env, tr);
      if a.Val? && a.v != 0 {
        SameAfterTest(w, s, s1, c, b, inc, d, n, c1, b1, inc1, env, a.tr, fuel);
      }
      FromTest(w, s, s1, c, b, Increment(inc), c1, b1, Increment(inc1), env, tr, fuel);
    }
  }

  lemma FromTest(w: World, s: Stmt, s1: Stmt, c: Expr, b: Stmt, inc: Option<Stmt>, c1: Expr, b1: Stmt,
                 inc1: Option<Stmt>, env: Env, tr: seq<Event>, fuel: nat)
    requires b < s && b1 < s1 && (inc.Some? ==> inc.value < s) && (inc1.Some? ==> inc1.value < s1) && fuel > 0
    requires Eval(w, c1, env, tr) == Eval(w, c, env, tr)
    requires var a := Eval(w, c, env, tr);
      a.Val? && a.v != 0 ==> AfterTest(w, s1, c1, b1, inc1, env, a.tr, fuel) == AfterTest(w, s, c, b, inc, env, a.tr, fuel)
    ensures Loop(w, s1, c1, b1, inc1, env, tr, fuel) == Loop(w, s, c, b, inc, env, tr, fuel)
  {
    hide AfterTest, Eval;
  }

  lemma {:induction false} SameAfterTest(w: World, s: Stmt, s1: Stmt, c: Expr, b: Stmt, inc: Option<Expr>, d: Names,
                                         n: nat, c1: Expr, b1: Stmt, inc1: Option<Expr>, env: Env, tr: seq<Event>,
                                         fuel: nat)
    requires SameParts(c, b, inc, d, n, c1, b1, inc1) && Inside(s, b, inc) && Inside(s1, b1, inc1) && fuel > 0
    ensures AfterTest(w, s1, c1, b1, Increment(inc1), env, tr, fuel)
         == AfterTest(w, s, c, b, Increment(inc), env, tr, fuel)
    decreases fuel, s, 1
  {
    SameOutcome(w, b, d, n, env, tr, fuel);
    var r := Exec(w, b, env, tr, fuel);
    if r.Normal? || r.Continued? {
      SameAfterBody(w, s, s1, c, b, inc, d, n, c1, b1, inc1, r.env, r.tr, fuel);
    }
    FromBody(w, s, s1, c, b, Increment(inc), c1, b1, Increment(inc1), env, tr, fuel);
  }

  lemma FromBody(w: World, s: Stmt, s1: Stmt, c: Expr, b: Stmt, inc: Option<Stmt>, c1: Expr, b1: Stmt,
                 inc1: Option<Stmt>, env: Env, tr: seq<Event>, fuel: nat)
    requires b < s && b1 < s1 && (inc.Some? ==> inc.value < s) && (inc1.Some? ==> inc1.value < s1) && fuel > 0
    requires Exec(w, b1, env, tr, fuel) == Exec(w, b, env, tr, fuel)
    requires var r := Exec(w, b, env, tr, fuel);
      r.Normal? || r.Continued? ==>
        AfterBody(w, s1, c1, b1, inc1, r.env, r.tr, fuel) == AfterBody(w, s, c, b, inc, r.env, r.tr, fuel)
    ensures AfterTest(w, s1, c1, b1, inc1, env, tr, fuel) == AfterTest(w, s, c, b, inc, env, tr, fuel)
  {
    hide AfterBody, Exec;
  }

  lemma {:induction false} SameStep(w: World, s: Stmt, s1: Stmt, c: Expr, b: Stmt, i: Stmt, c1: Expr, b1: Stmt, i1: Stmt,
                                    env: Env, tr: seq<Event>, fuel: nat)
    requires b < s && i < s && b1 < s1 && i1 < s1 && fuel > 0
    requires Exec(w, i1, env, tr, fuel) == Exec(w, i, env, tr, fuel)
    requires var q := Exec(w, i, env, tr, fuel);
      q.Normal? ==> Loop(w, s1, c1, b1, Some(i1), q.env, q.tr, fuel - 1) == Loop(w, s, c, b, Some(i), q.env, q.tr, fuel - 1)
    ensures AfterBody(w, s1, c1, b1, Some(i1), env, tr, fuel) == AfterBody(w, s, c, b, Some(i), env, tr, fuel)
  {
  }

  lemma {:induction false} SameAfterBody(w: World, s: Stmt, s1: Stmt, c: Expr, b: Stmt, inc: Option<Expr>, d: Names,
                                         n: nat, c1: Expr, b1: Stmt, inc1: Option<Expr>, env: Env, tr: seq<Event>,
                                         fuel: nat)
    requires SameParts(c, b, inc, d, n, c1, b1, inc1) && Inside(s, b, inc) && Inside(s1, b1, inc1) && fuel > 0
    ensures AfterBody(w, s1, c1, b1, Increment(inc1), env, tr, fuel)
         == AfterBody(w, s, c, b, Increment(inc), env, tr, fuel)
    decreases fuel, s, 0
  {
    if inc.None? {
      SameLoop(w, s, s1, c, b, inc, d, n, c1, b1, inc1, env, tr, fuel - 1);
    } else {
      SameExprStmt(w, inc.value, d, env, tr, fuel);
      var q := Exec(w, ExprStmt(inc.value), env, tr, fuel);
      if q.Normal? {
        SameLoop(w, s, s1, c, b, inc, d, n, c1, b1, inc1, q.env, q.tr, fuel - 1);
      }
      SameStep(w, s, s1, c, b, ExprStmt(inc.value), c1, b1, ExprStmt(inc1.value), env, tr, fuel);
    }
  }

  lemma SameAnswers(w: World, body: Stmt, d: Names, n: nat, env: Env, tr: seq<Event>, r: Answer)
    requires LexStmt(body, d, n).Some?
    ensures SourceEnds(w, LexStmt(body, d, n).value.tree, env, tr, r) <==> SourceEnds(w, body, env, tr, r)
  {
    forall fuel: nat
      ensures RunBody(w, LexStmt(body, d, n).value.tree, env, tr, fuel) == RunBody(w, body, env, tr, fuel)
    {
      SameOutcome(w, body, d, n, env, tr, fuel);
    }
  }

  // ---------- what resolution provides for the back end ----------

  /** Every variable is declared with an initialiser that does not mention it. */
  predicate Initialised(s: Stmt)
    decreases s, 0
  {
    match s
    case If(_, t, e) => Initialised(t) && (e.Some? ==> Initialised(e.value))
    case While(_, b) => Initialised(b)
    case For(_, b) => Initialised(b)
    case Block(ss) => AllInitialised(ss)
    case Decl(x, _, init, _) => init.Some? && x !in Used(init.value)
    case Return(_) | Break | Continue | ExprStmt(_) => true
  }

  predicate AllInitialised(ss: seq<Stmt>)
    decreases ss, 1
  {
    ss != [] ==> Initialised(ss[0]) && AllInitialised(ss[1..])
  }

  lemma {:induction false} UsesScope(e: Expr, d: Names, slots: set<nat>)
    requires LexExpr(e, d).Some? && forall x | x in Used(e) && x in d :: d[x] in slots
    ensures UsesOnly(LexExpr(e, d).value, slots)
    decreases e
  {
    match e
    case Binary(_, l, r) =>
      UsesScope(l, d, slots);
      UsesScope(r, d, slots);
    case Unary(_, x) => UsesScope(x, d, slots);
    case Call(_, args) =>
      var as1 := LexAll(args, d).value;
      forall a | a in as1 ensures UsesOnly(a, slots) {
        var i :| 0 <= i < |as1| && as1[i] == a;
        LexAllAt(args, d, i);
        UsedInArgument(args, i);
        UsesScope(args[i], d, slots);
      }
    case Ident(_, _) | Number(_) | Str(_) | Null | SizeofType(_) =>
    case Assign(_, _, _) | SizeofExpr(_) | Index(_, _) | Member(_, _) =>
  }

  lemma {:induction false} UsedInArgument(es: seq<Expr>, i: nat)
    requires i < |es|
    ensures Used(es[i]) <= UsedInAll(es)
  {
    if i > 0 {
      UsedInArgument(es[1..], i - 1);
    }
  }

  lemma ScopedExprStmt(e: Expr, d: Names, slots: set<nat>, n: nat)
    requires LexExpr(e, d).Some? && SupportedStmt(ExprStmt(e)) && d.Values <= slots
    ensures WellScoped(ExprStmt(LexExpr(e, d).value), slots, n)
  {
    UsesScope(e, d, slots);
    if e.Assign? {
      UsesScope(e.source, d, slots);
      UsesScope(e.target, d, slots);
    }
  }

  /** Lexical resolution leaves the slots in the order and the scopes that the back end asks for. */
  lemma {:induction false} ResolvedIsScoped(s: Stmt, d: Names, slots: set<nat>, n: nat)
    requires LexStmt(s, d, n).Some? && SupportedStmt(s) && Initialised(s) && d.Values <= slots
    ensures var l := LexStmt(s, d, n).value;
      && WellScoped(l.tree, slots, n) && l.next == n + Decls(l.tree)
      && l.inside.Values <= ScopeAfter(l.tree, slots)
    decreases s, 1
  {
    hide LexExpr;
    var s1 := LexStmt(s, d, n).value.tree;
    match s
    case If(_, _, _) => ResolvedIfIsScoped(s, d, slots, n);
    case While(c, b) =>
      UsesScope(c, d, slots);
      ResolvedIsScoped(b, d, slots, n);
    case For(cs, b) => ResolvedForIsScoped(cs, b, d, slots, n);
    case Return(e) =>
      if e.Some? {
        UsesScope(e.value, d, slots);
      }
    case Block(ss) => ResolvedAreScoped(ss, d, slots, n);
    case Decl(x, _, init, _) => UsesScope(init.value, d[x := n], slots);
    case ExprStmt(e) => ScopedExprStmt(e, d, slots, n);
    case Break | Continue =>
  }

  lemma {:induction false} ResolvedIfIsScoped(s: Stmt, d: Names, slots: set<nat>, n: nat)
    requires s.If? && LexStmt(s, d, n).Some? && SupportedStmt(s) && Initialised(s) && d.Values <= slots
    ensures var l := LexStmt(s, d, n).value;
      && WellScoped(l.tree, slots, n) && l.next == n + Decls(l.tree)
      && l.inside.Values <= ScopeAfter(l.tree, slots)
    decreases s, 0
  {
    UsesScope(s.cond, d, slots);
    ResolvedIsScoped(s.thn, d, slots, n);
    if s.els.Some? {
      ResolvedIsScoped(s.els.value, d, slots, LexStmt(s.thn, d, n).value.next);
    }
  }

  lemma {:induction false} ResolvedForIsScoped(cs: seq<Stmt>, b: Stmt, d: Names, slots: set<nat>, n: nat)
    requires var s := For(cs, b);
      LexStmt(s, d, n).Some? && SupportedStmt(s) && Initialised(s) && d.Values <= slots
    ensures var l := LexStmt(For(cs, b), d, n).value;
      WellScoped(l.tree, slots, n) && l.next == n + Decls(l.tree)
    decreases For(cs, b), 0
  {
    hide LexExpr, SupportedExpr, UsesOnly, LexClauses;
    ThreeClauses(cs, d);
    var cs1 := LexClauses(cs, d).value;
    ScopedExprStmt(cs[0].expr, d, slots, n);
    UsesScope(cs[1].expr, d, slots);
    UsesScope(cs[2].expr, d, slots);
    ResolvedIsScoped(b, d, slots, n);
    NoDecls(cs1);
  }

  lemma {:induction false} NoDecls(cs: seq<Stmt>)
    requires forall i | 0 <= i < |cs| :: cs[i].ExprStmt?
    ensures AllDecls(cs) == 0
  {
    if cs != [] {
      NoDecls(cs[1..]);
    }
  }

  lemma {:induction false} ResolvedAreScoped(ss: seq<Stmt>, d: Names, slots: set<nat>, n: nat)
    requires LexAllItems(ss, d, n).Some? && (forall t | t in ss :: SupportedStmt(t)) && AllInitialised(ss)
    requires d.Values <= slots
    ensures var l := LexAllItems(ss, d, n).value;
      AllWellScoped(l.trees, slots, n) && l.next == n + AllDecls(l.trees)
    decreases ss, 0
  {
    if ss != [] {
      ResolvedIsScoped(ss[0], d, slots, n);
      var s := LexStmt(ss[0], d, n).value;
      ResolvedAreScoped(ss[1..], s.inside, ScopeAfter(s.tree, slots), s.next);
      var l := LexAllItems(ss, d, n).value;
      assert l.trees[1..] == LexAllItems(ss[1..], s.inside, s.next).value.trees;
    }
  }

  /** m gives the names of xs the slots from n. */
  ghost predicate SlotsFrom(m: Slots, xs: seq<string>, n: nat) {
    forall i: nat | i < |xs| :: xs[i] in m && m[xs[i]] == n + i
  }

  ghost predicate Extends(m: Slots, d: Names) {
    forall x | x in d :: x in m && m[x] == d[x]
  }

  lemma {:induction false} ResolvedByMap(e: Expr, d: Names, m: Slots)
    requires LexExpr(e, d).Some? && Extends(m, d)
    ensures ResolvedExpr(LexExpr(e, d).value, m)
    decreases e
  {
    match e
    case Binary(_, l, r) =>
      ResolvedByMap(l, d, m);
      ResolvedByMap(r, d, m);
    case Unary(_, x) => ResolvedByMap(x, d, m);
    case Assign(_, l, r) =>
      ResolvedByMap(l, d, m);
      ResolvedByMap(r, d, m);
    case Call(_, args) =>
      var as1 := LexAll(args, d).value;
      forall a | a in as1 ensures ResolvedExpr(a, m) {
        var i :| 0 <= i < |as1| && as1[i] == a;
        LexAllAt(args, d, i);
        ResolvedByMap(args[i], d, m);
      }
    case Ident(_, _) | Number(_) | Str(_) | Null | SizeofType(_) | SizeofExpr(_) | Index(_, _) | Member(_, _) =>
  }

  lemma SlotsSplit(m: Slots, xs: seq<string>, ys: seq<string>, n: nat)
    requires SlotsFrom(m, xs + ys, n)
    ensures SlotsFrom(m, xs, n) && SlotsFrom(m, ys, n + |xs|)
  {
    forall i: nat | i < |xs| ensures xs[i] in m && m[xs[i]] == n + i {
      assert (xs + ys)[i] == xs[i];
    }
    forall i: nat | i < |ys| ensures ys[i] in m && m[ys[i]] == n + |xs| + i {
      assert (xs + ys)[|xs| + i] == ys[i];
    }
  }

  /** One map describes all scopes of a regular statement. */
  lemma {:induction false} ResolvedByOneMap(s: Stmt, d: Names, n: nat, m: Slots)
    requires Regular(s) && LexStmt(s, d, n).Some? && Extends(m, d) && SlotsFrom(m, DeclaredItem(s), n)
    ensures var l := LexStmt(s, d, n).value;
      ResolvedStmt(l.tree, m) && Extends(m, l.inside) && l.next == n + |DeclaredItem(s)|
    decreases s, 1
  {
    match s
    case If(c, t, e) =>
      ResolvedByMap(c, d, m);
      if e.Some? {
        assert DeclaredItem(s) == Declared(t) + Declared(e.value);
        SlotsSplit(m, Declared(t), Declared(e.value), n);
        ResolvedByOneMap(t, d, n, m);
        ResolvedByOneMap(e.value, d, LexStmt(t, d, n).value.next, m);
      } else {
        assert DeclaredItem(s) == Declared(t) + [] == Declared(t);
        ResolvedByOneMap(t, d, n, m);
      }
    case While(c, b) =>
      ResolvedByMap(c, d, m);
      assert DeclaredItem(b) == DeclaredItem(s);
      ResolvedByOneMap(b, d, n, m);
    case For(cs, b) =>
      ResolvedClausesByMap(cs, d, m);
      assert DeclaredItem(b) == DeclaredItem(s);
      ResolvedByOneMap(b, d, n, m);
    case Return(e) =>
      if e.Some? {
        ResolvedByMap(e.value, d, m);
      }
    case Block(ss) =>
      assert DeclaredItem(s) == DeclaredIn(ss);
      ResolvedItemsByMap(ss, d, n, m);
    case Decl(x, _, init, _) =>
      assert DeclaredItem(s)[0] == x;
      if init.Some? {
        ResolvedByMap(init.value, d[x := n], m);
      }
    case ExprStmt(e) => ResolvedByMap(e, d, m);
    case Break | Continue =>
  }

  lemma ResolvedClausesByMap(cs: seq<Stmt>, d: Names, m: Slots)
    requires |cs| == 3 && LexClauses(cs, d).Some? && Extends(m, d)
    ensures forall t | t in LexClauses(cs, d).value :: ResolvedStmt(t, m)
  {
    ThreeClauses(cs, d);
    var cs1 := LexClauses(cs, d).value;
    forall t | t in cs1 ensures ResolvedStmt(t, m) {
      var i :| 0 <= i < 3 && cs1[i] == t;
      ResolvedByMap(cs[i].expr, d, m);
    }
  }

  lemma {:induction false} ResolvedItemsByMap(ss: seq<Stmt>, d: Names, n: nat, m: Slots)
    requires RegularItems(ss) && LexAllItems(ss, d, n).Some? && Extends(m, d) && SlotsFrom(m, DeclaredIn(ss), n)
    ensures var l := LexAllItems(ss, d, n).value;
      (forall t | t in l.trees :: ResolvedStmt(t, m)) && l.next == n + |DeclaredIn(ss)|
    decreases ss, 0
  {
    if ss != [] {
      SlotsSplit(m, DeclaredItem(ss[0]), DeclaredIn(ss[1..]), n);
      ResolvedByOneMap(ss[0], d, n, m);
      var s := LexStmt(ss[0], d, n).value;
      ResolvedItemsByMap(ss[1..], s.inside, s.next, m);
    }
  }

  // ---------- the whole compiler ----------

  /**
   The functions for which the compiler is right, told from the source tree alone:
   different names, every use in the scope of its declaration, only constructs
   that are lowered to their meaning, and no temp in a word that is still needed.
   */
  predicate Compiles(f: TopLevel) {
    && f.Function? && f.body.Block? && Regular(f.body) && SupportedStmt(f.body)
    && Distinct(AllNames(f)) && LexBody(f).Some? && ClearBody(LexBody(f).value.tree)
  }

  function AllNames(f: TopLevel): seq<string>
    requires f.Function?
  {
    ParamNames(f.params) + Declared(f.body)
  }

  // The body with its parameters in scope.
  function LexBody(f: TopLevel): Option<Lex>
    requires f.Function?
  {
    LexStmt(f.body, Slotted(ParamNames(f.params), 0), |f.params|)
  }

  function SlotMap(f: TopLevel): Slots
    requires f.Function?
  {
    Slotted(AllNames(f), 0)
  }

  lemma DistinctSlots(xs: seq<string>)
    requires Distinct(xs)
    ensures SlotsFrom(Slotted(xs, 0), xs, 0) && Injective(Slotted(xs, 0)) && Below(Slotted(xs, 0), |xs|)
  {
  }

  lemma MapExtends(ps: seq<string>, xs: seq<string>)
    requires Distinct(ps + xs)
    ensures Extends(Slotted(ps + xs, 0), Slotted(ps, 0))
  {
    var m, d := Slotted(ps + xs, 0), Slotted(ps, 0);
    DistinctSlots(ps + xs);
    forall x | x in d ensures x in m && m[x] == d[x] {
      var i := IndexOf(ps, x);
      assert (ps + xs)[i] == x;
    }
  }

  /** Analysis accepts such a function and hands the back end what it needs. */
  lemma CompilesIsCompilable(f: TopLevel, globals: Scope)
    requires Compiles(f)
    ensures ResolveFunction(f, globals).Some?
    ensures var r := ResolveFunction(f, globals).value;
      && r.Function? && r.name == f.name && Compilable(r.body, SlotMap(f), r.locals)
      && r.body == LexBody(f).value.tree
  {
    hide Regular, LexStmt, ClearBody, SupportedStmt, ResolvedStmt, ResolveFunction;
    var ps, xs := ParamNames(f.params), Declared(f.body);
    ParamsStack(f.params, [], 0);
    FunctionIsLexical(f, globals);
    DistinctSlots(ps + xs);
    MapExtends(ps, xs);
    SlotsSplit(SlotMap(f), ps, xs, 0);
    assert DeclaredItem(f.body) == xs;
    ResolvedByOneMap(f.body, Slotted(ps, 0), |ps|, SlotMap(f));
    ResolvedKeepsStmt(f.body, Slotted(ps, 0), |ps|);
    BlockStays(f.body, Slotted(ps, 0), |ps|);
  }

  lemma BlockStays(s: Stmt, d: Names, n: nat)
    requires s.Block? && LexStmt(s, d, n).Some?
    ensures LexStmt(s, d, n).value.tree.Block?
  {
  }

  /**
   In a function without parameters it is enough that every variable is
   initialised where it is declared; then nothing is read before it is written.
   */
  lemma InitialisedCompiles(f: TopLevel)
    requires f.Function? && f.params == [] && f.body.Block? && Regular(f.body) && SupportedStmt(f.body)
    requires Initialised(f.body) && Distinct(Declared(f.body)) && LexStmt(f.body, map[], 0).Some?
    ensures Compiles(f) && Wanted(LexBody(f).value.tree) == {}
  {
    assert ParamNames(f.params) == [] && AllNames(f) == Declared(f.body) && Slotted([], 0) == map[];
    ResolvedIsScoped(f.body, map[], {}, 0);
    ScopedIsClear(LexBody(f).value.tree, {}, 0, 0, {});
  }

  lemma {:induction false} FunctionResolved(ds: seq<TopLevel>, globals: Scope, n: nat, i: nat) returns (g: Scope)
    requires ResolveProgram(ds, globals, n).Some? && i < |ds| && ds[i].Function?
    ensures |ResolveProgram(ds, globals, n).value| == |ds|
    ensures ResolveFunction(ds[i], g) == Some(ResolveProgram(ds, globals, n).value[i])
  {
    if ds[0].Function? {
      var f := ResolveFunction(ds[0], globals).value;
      if i == 0 {
        g := globals;
        ResolvedLength(ds, globals, n);
      } else {
        g := FunctionResolved(ds[1..], globals, f.locals, i - 1);
      }
    } else {
      var p := ResolveGlobal(ds[0].decl, globals, n).value;
      g := FunctionResolved(ds[1..], p.scope, p.next, i - 1);
    }
  }

  lemma {:induction false} ResolvedLength(ds: seq<TopLevel>, globals: Scope, n: nat)
    requires ResolveProgram(ds, globals, n).Some?
    ensures |ResolveProgram(ds, globals, n).value| == |ds|
  {
    if ds != [] {
      if ds[0].Function? {
        ResolvedLength(ds[1..], globals, ResolveFunction(ds[0], globals).value.locals);
      } else {
        var p := ResolveGlobal(ds[0].decl, globals, n).value;
        ResolvedLength(ds[1..], p.scope, p.next);
      }
    }
  }

  /** Slots lie between the stack pointer of the body and the return address, each in its own word. */
  lemma SlotsInFrame(f: C.Frame, k: nat, j: nat)
    requires C.FrameOk(f) && C.Roomy(f) && k < f.words && j < f.words
    ensures f.rbp - 16 - f.size <= f.rbp + StackOffset(k) < f.rbp + 8
    ensures f.rbp + StackOffset(k) == f.rbp + StackOffset(j) <==> k == j
    ensures (f.rbp + StackOffset(k)) % 8 == 0
  {
  }

  lemma SameNames(ds: seq<TopLevel>, fs: seq<TopLevel>)
    requires ResolveProgram(ds, [], 0) == Some(fs)
    ensures OwnNames(fs) == OwnNames(ds)
  {
    ResolvedLength(ds, [], 0);
    forall x | x in OwnNames(fs) ensures x in OwnNames(ds) {
      var i :| 0 <= i < |fs| && fs[i].Function? && fs[i].name == x;
      StaysGlobal(ds, [], 0, i);
      var g := FunctionResolved(ds, [], 0, i);
      assert ds[i].name == x;
    }
    forall x | x in OwnNames(ds) ensures x in OwnNames(fs) {
      var i :| 0 <= i < |ds| && ds[i].Function? && ds[i].name == x;
      var g := FunctionResolved(ds, [], 0, i);
      assert fs[i].name == x;
    }
  }

  lemma {:induction false} StaysGlobal(ds: seq<TopLevel>, globals: Scope, n: nat, i: nat)
    requires ResolveProgram(ds, globals, n).Some? && i < |ds| == |ResolveProgram(ds, globals, n).value|
    ensures ds[i].Global? ==> ResolveProgram(ds, globals, n).value[i].Global?
  {
    if i > 0 && ds[0].Function? {
      StaysGlobal(ds[1..], globals, ResolveFunction(ds[0], globals).value.locals, i - 1);
    } else if i > 0 {
      var p := ResolveGlobal(ds[0].decl, globals, n).value;
      StaysGlobal(ds[1..], p.scope, p.next, i - 1);
    }
  }

  /**
   Source text to machine code.  If a text is accepted by the parser and the
   analyser, then every function of it that satisfies Compiles, fits the kept
   frame or calls nothing, and calls no function of the same text is executed by
   the emitted program, when it is called from outside, as the tree of the text
   means: same answer, same faults, same calls in the same order, and no other way
   of stopping.  What it reads before it writes it, a parameter above all, starts
   with the word of its slot.
   */
  lemma TextToMachine(bits: Lexing.FloatBits, text: string, ds: seq<TopLevel>, fs: seq<TopLevel>, i: nat, env: Env,
                      mc: X86.Machine, x: X86.State)
    requires Accepted(bits, text, ds, fs)
    requires i < |ds| == |fs| && ds[i].Function? && fs[i].Function?
    requires Compiles(ds[i]) && OutsideStmt(ds[i].body, OwnNames(ds)) && (Fits(fs, i) || CallsNoName(ds[i].body))
    requires x.On? && Loaded(fs, mc) && Called(fs, i, x) && FromOutside(mc, x)
    requires FindsInSlots(ds[i], env, x)
    ensures MachineAgrees(mc.world, ds[i].body, env, mc, x)
  {
    hide *;
    AcceptedIsResolved(bits, text, ds, fs);
    FoundInSlots(ds[i], env, x);
    CompiledIsRight(ds, fs, i);
    CompilerCorrect(fs, i, SlotMap(ds[i]), env, mc, x);
    TreeMeans(ds[i], env, mc, x);
  }

  // env says what the slots hold of all that the function reads before it writes it.
  ghost predicate FindsInSlots(f: TopLevel, env: Env, x: X86.State) {
    Compiles(f) && x.On? && StartsFrom(LexBody(f).value.tree, SlotMap(f), env, x)
  }

  lemma FoundInSlots(f: TopLevel, env: Env, x: X86.State)
    requires FindsInSlots(f, env, x)
    ensures f.Function? && x.On? && LexBody(f).Some? && StartsFrom(LexBody(f).value.tree, SlotMap(f), env, x)
  {
  }

  // The parser and the analyser let the text pass.
  ghost predicate Accepted(bits: Lexing.FloatBits, text: string, ds: seq<TopLevel>, fs: seq<TopLevel>) {
    Grammar.ParseText(bits, text) == Some(ds) && ResolveProgram(ds, [], 0) == Some(fs)
  }

  lemma AcceptedIsResolved(bits: Lexing.FloatBits, text: string, ds: seq<TopLevel>, fs: seq<TopLevel>)
    requires Accepted(bits, text, ds, fs)
    ensures ResolveProgram(ds, [], 0) == Some(fs)
  {
  }

  lemma TreeMeans(f: TopLevel, env: Env, mc: X86.Machine, x: X86.State)
    requires f.Function? && x.On? && LexBody(f).Some? && MachineAgrees(mc.world, LexBody(f).value.tree, env, mc, x)
    ensures MachineAgrees(mc.world, f.body, env, mc, x)
  {
    hide MachineAgrees, LexStmt;
    SameMeaning(mc.world, f.body, Slotted(ParamNames(f.params), 0), |f.params|, env, mc, x);
  }

  lemma CompiledIsRight(ds: seq<TopLevel>, fs: seq<TopLevel>, i: nat)
    requires ResolveProgram(ds, [], 0) == Some(fs)
    requires i < |ds| == |fs| && ds[i].Function? && fs[i].Function?
    requires Compiles(ds[i]) && OutsideStmt(ds[i].body, OwnNames(ds)) && (Fits(fs, i) || CallsNoName(ds[i].body))
    ensures LexBody(ds[i]).Some?
    ensures Right(fs, i, SlotMap(ds[i])) && fs[i].body == LexBody(ds[i]).value.tree
  {
    hide LexStmt, Regular, ClearBody, SupportedStmt, Compilable, ResolveProgram, OutsideStmt, Fits, OwnNames;
    var g := FunctionResolved(ds, [], 0, i);
    CompilesIsCompilable(ds[i], g);
    SameNames(ds, fs);
    var d := Slotted(ParamNames(ds[i].params), 0);
    ResolvedOutside(ds[i].body, d, |ds[i].params|, OwnNames(fs));
    if CallsNoName(ds[i].body) {
      forall name ensures OutsideStmt(fs[i].body, {name}) {
        ResolvedOutside(ds[i].body, d, |ds[i].params|, {name});
      }
    }
  }

  lemma SameMeaning(w: World, body: Stmt, d: Names, n: nat, env: Env, mc: X86.Machine, x: X86.State)
    requires x.On? && LexStmt(body, d, n).Some?
    requires MachineAgrees(w, LexStmt(body, d, n).value.tree, env, mc, x)
    ensures MachineAgrees(w, body, env, mc, x)
  {
    var body1 := LexStmt(body, d, n).value.tree;
    forall r ensures SourceEnds(w, body1, env, x.tr, r) <==> SourceEnds(w, body, env, x.tr, r) {
      SameAnswers(w, body, d, n, env, x.tr, r);
    }
    forall j: nat | !X86.Run(mc, x, j).On? ensures StopsAs(w, body, env, x, X86.Run(mc, x, j)) {
      SameStops(w, body1, body, env, x, X86.Run(mc, x, j));
    }
  }

  lemma SameStops(w: World, body1: Stmt, body: Stmt, env: Env, x: X86.State, y: X86.State)
    requires x.On? && StopsAs(w, body1, env, x, y)
    requires forall r :: SourceEnds(w, body1, env, x.tr, r) <==> SourceEnds(w, body, env, x.tr, r)
    ensures StopsAs(w, body, env, x, y)
  {
    hide SourceEnds, C.ReturnsWith;
    if v, tr :| SourceEnds(w, body1, env, x.tr, Gives(v, tr)) && C.ReturnsWith(x, y, v, tr) {
      assert SourceEnds(w, body, env, x.tr, Gives(v, tr));
    } else {
      var tr :| SourceEnds(w, body1, env, x.tr, Dies(tr)) && y == X86.Fault(tr);
      assert SourceEnds(w, body, env, x.tr, Dies(tr));
    }
  }
}
