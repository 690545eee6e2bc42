/**
 Slot numbering and name resolution (src/semantic.c): a first pass numbers the
 declarations it reaches and a second one looks up every name in the table the
 first pass left.  Node types are not modelled; nothing later reads them.
 */
module Semantic {
  import opened Words
  import opened Ast
  import opened Lowering
  import opened Liveness

  datatype Symbol = Symbol(name: string, slot: nat, isFunction: bool)

  // Newest first; a function's own names stand before the globals.
  type Scope = seq<Symbol>

  function Find(sc: Scope, x: string): Option<Symbol> {
    if sc == [] then None else if sc[0].name == x then Some(sc[0]) else Find(sc[1..], x)
  }

  function Declare(sc: Scope, x: string, slot: nat): Scope {
    [Symbol(x, slot, false)] + sc
  }

  // ---------- second pass ----------

  /** Every name the checker reaches takes the slot of the newest symbol; None is an undefined name. */
  function ResolveExpr(e: Expr, sc: Scope): Option<Expr> {
    match e
    case Ident(x, _) =>
      var y :- Find(sc, x);
      Some(Ident(x, y.slot))
    case Binary(op, l, r) =>
      var l1 :- ResolveExpr(l, sc);
      var r1 :- ResolveExpr(r, sc);
      Some(Binary(op, l1, r1))
    case Unary(op, x) =>
      var x1 :- ResolveExpr(x, sc);
      Some(Unary(op, x1))
    case Assign(op, l, r) =>
      var l1 :- ResolveExpr(l, sc);
      var r1 :- ResolveExpr(r, sc);
      Some(Assign(op, l1, r1))
    case Call(f, args) =>
      var as1 :- ResolveAll(args, sc);
      Some(Call(f, as1))
    case Number(_) | Str(_) | Null | SizeofType(_) | SizeofExpr(_) | Index(_, _) | Member(_, _) => Some(e)
  }

  function ResolveAll(es: seq<Expr>, sc: Scope): (r: Option<seq<Expr>>)
    ensures r.Some? ==> |r.value| == |es|
  {
    if es == [] then Some([])
    else
      var e :- ResolveExpr(es[0], sc);
      var more :- ResolveAll(es[1..], sc);
      Some([e] + more)
  }

  function ResolveOptional(e: Option<Expr>, sc: Scope): Option<Option<Expr>> {
    if e.None? then Some(None)
    else
      var e1 :- ResolveExpr(e.value, sc);
      Some(Some(e1))
  }

  function ResolveStmt(s: Stmt, sc: Scope): Option<Stmt>
    decreases s, 1
  {
    match s
    case If(c, t, e) =>
      var c1 :- ResolveExpr(c, sc);
      var t1 :- ResolveStmt(t, sc);
      if e.None? then Some(If(c1, t1, None))
      else
        var e1 :- ResolveStmt(e.value, sc);
        Some(If(c1, t1, Some(e1)))
    case While(c, b) =>
      var c1 :- ResolveExpr(c, sc);
      var b1 :- ResolveStmt(b, sc);
      Some(While(c1, b1))
    case For(cs, b) =>
      var cs1 :- ResolveClauses(cs, 0, sc);
      var b1 :- ResolveChild(b, |cs|, sc);
      Some(For(cs1, b1))
    case Return(e) =>
      var e1 :- ResolveOptional(e, sc);
      Some(Return(e1))
    case Block(ss) =>
      var ss1 :- ResolveItems(ss, sc);
      Some(Block(ss1))
    case Decl(x, ty, init, slot) =>
      var i1 :- ResolveOptional(init, sc);
      Some(Decl(x, ty, i1, slot))
    case ExprStmt(e) =>
      var e1 :- ResolveExpr(e, sc);
      Some(ExprStmt(e1))
    case Break | Continue => Some(s)
  }

  // A child of a `fow`, by its place in the child list: the middle two are read as expressions.
  function ResolveChild(s: Stmt, place: nat, sc: Scope): Option<Stmt>
    decreases s, 2
  {
    if place == 0 || place == 3 || s.ExprStmt? then ResolveStmt(s, sc) else Some(s)
  }

  function ResolveClauses(cs: seq<Stmt>, place: nat, sc: Scope): (r: Option<seq<Stmt>>)
    ensures r.Some? ==> |r.value| == |cs|
    decreases cs, 3
  {
    if cs == [] then Some([])
    else
      var c :- ResolveChild(cs[0], place, sc);
      var more :- ResolveClauses(cs[1..], place + 1, sc);
      Some([c] + more)
  }

  function ResolveItems(ss: seq<Stmt>, sc: Scope): (r: Option<seq<Stmt>>)
    ensures r.Some? ==> |r.value| == |ss|
    decreases ss, 2
  {
    if ss == [] then Some([])
    else
      var s :- ResolveStmt(ss[0], sc);
      var more :- ResolveItems(ss[1..], sc);
      Some([s] + more)
  }

  // ---------- first pass ----------

  datatype Pass = Pass(tree: Stmt, scope: Scope, next: nat)

  datatype ItemsPass = ItemsPass(trees: seq<Stmt>, scope: Scope, next: nat)

  /** Declarations directly in a block get the next slot; their initialisers are resolved on the way. */
  function Collect(s: Stmt, sc: Scope, n: nat): Option<Pass>
    decreases s, 1
  {
    match s
    case If(c, t, e) =>
      var t1 :- Collect(t, sc, n);
      if e.None? then Some(Pass(If(c, t1.tree, None), t1.scope, t1.next))
      else
        var e1 :- Collect(e.value, t1.scope, t1.next);
        Some(Pass(If(c, t1.tree, Some(e1.tree)), e1.scope, e1.next))
    case While(c, b) =>
      var b1 :- Collect(b, sc, n);
      Some(Pass(While(c, b1.tree), b1.scope, b1.next))
    case For(cs, b) =>
      // Only the second child is visited, which is the body when there is one clause.
      if |cs| == 1 then
        var b1 :- Collect(b, sc, n);
        Some(Pass(For(cs, b1.tree), b1.scope, b1.next))
      else Some(Pass(s, sc, n))
    case Block(ss) =>
      var p :- CollectItems(ss, sc, n);
      Some(Pass(Block(p.trees), p.scope, p.next))
    case Return(_) | Break | Continue | Decl(_, _, _, _) | ExprStmt(_) => Some(Pass(s, sc, n))
  }

  function CollectItem(s: Stmt, sc: Scope, n: nat): Option<Pass>
    decreases s, 2
  {
    if s.Decl? then
      var sc1 := Declare(sc, s.name, n);
      var init :- ResolveOptional(s.init, sc1);
      Some(Pass(Decl(s.name, s.ty, init, n), sc1, n + 1))
    else Collect(s, sc, n)
  }

  function CollectItems(ss: seq<Stmt>, sc: Scope, n: nat): Option<ItemsPass>
    decreases ss, 3
  {
    if ss == [] then Some(ItemsPass([], sc, n))
    else
      var s :- CollectItem(ss[0], sc, n);
      var more :- CollectItems(ss[1..], s.scope, s.next);
      Some(ItemsPass([s.tree] + more.trees, more.scope, more.next))
  }

  // ---------- functions and programs ----------

  function Numbered(ps: seq<Param>, n: nat): (r: seq<Param>)
    ensures |r| == |ps|
  {
    if ps == [] then [] else [Param(ps[0].name, ps[0].ty, n)] + Numbered(ps[1..], n + 1)
  }

  function DeclareParams(ps: seq<Param>, sc: Scope, n: nat): Scope {
    if ps == [] then sc else DeclareParams(ps[1..], Declare(sc, ps[0].name, n), n + 1)
  }

  function ResolveFunction(f: TopLevel, globals: Scope): Option<TopLevel>
    requires f.Function?
  {
    var sc := DeclareParams(f.params, [Symbol(f.name, 0, true)] + globals, 0);
    var p :- Collect(f.body, sc, |f.params|);
    var body :- ResolveStmt(p.tree, p.scope);
    Some(Function(f.name, Numbered(f.params, 0), f.ret, body, p.next))
  }

  // `n` is the counter as the declaration before it left it; only functions reset it.
  function ResolveProgram(ds: seq<TopLevel>, globals: Scope, n: nat): Option<seq<TopLevel>> {
    if ds == [] then Some([])
    else
      match ds[0]
      case Function(_, _, _, _, _) =>
        var f :- ResolveFunction(ds[0], globals);
        var more :- ResolveProgram(ds[1..], globals, f.locals);
        Some([f] + more)
      case Global(d) =>
        var g :- ResolveGlobal(d, globals, n);
        var more :- ResolveProgram(ds[1..], g.scope, g.next);
        Some([Global(g.tree)] + more)
  }

  function ResolveGlobal(d: Stmt, globals: Scope, n: nat): Option<Pass> {
    if d.Decl? then CollectItem(d, globals, n) else Some(Pass(d, globals, n))
  }

  // ---------- what the first pass does, for any program ----------

  /** The names that get a slot, in order. */
  function Declared(s: Stmt): seq<string>
    decreases s, 0
  {
    match s
    case If(_, t, e) => Declared(t) + if e.Some? then Declared(e.value) else []
    case While(_, b) => Declared(b)
    case For(cs, b) => if |cs| == 1 then Declared(b) else []
    case Block(ss) => DeclaredIn(ss)
    case Return(_) | Break | Continue | Decl(_, _, _, _) | ExprStmt(_) => []
  }

  function DeclaredItem(s: Stmt): seq<string>
    decreases s, 1
  {
    if s.Decl? then [s.name] else Declared(s)
  }

  function DeclaredIn(ss: seq<Stmt>): seq<string>
    decreases ss, 2
  {
    if ss == [] then [] else DeclaredItem(ss[0]) + DeclaredIn(ss[1..])
  }

  /** Symbols for xs with slots from n, the last of them in front. */
  function Stack(xs: seq<string>, n: nat, sc: Scope): Scope {
    if xs == [] then sc else Stack(xs[1..], n + 1, Declare(sc, xs[0], n))
  }

  lemma {:induction false} StackJoins(xs: seq<string>, ys: seq<string>, n: nat, sc: Scope)
    ensures Stack(xs + ys, n, sc) == Stack(ys, n + |xs|, Stack(xs, n, sc))
  {
    if xs == [] {
      assert xs + ys == ys;
    } else {
      assert (xs + ys)[1..] == xs[1..] + ys;
      StackJoins(xs[1..], ys, n + 1, Declare(sc, xs[0], n));
    }
  }

  /** Slots are given out one by one, in the order of Declared. */
  lemma {:induction false} CollectNumbers(s: Stmt, sc: Scope, n: nat)
    requires Collect(s, sc, n).Some?
    ensures var p := Collect(s, sc, n).value;
      p.next == n + |Declared(s)| && p.scope == Stack(Declared(s), n, sc)
    decreases s, 1
  {
    match s
    case If(_, t, e) =>
      CollectNumbers(t, sc, n);
      if e.Some? {
        var t1 := Collect(t, sc, n).value;
        CollectNumbers(e.value, t1.scope, t1.next);
        StackJoins(Declared(t), Declared(e.value), n, sc);
      } else {
        assert Declared(t) + [] == Declared(t);
      }
    case While(_, b) => CollectNumbers(b, sc, n);
    case For(cs, b) =>
      if |cs| == 1 {
        CollectNumbers(b, sc, n);
      }
    case Block(ss) => CollectItemsNumber(ss, sc, n);
    case Return(_) | Break | Continue | Decl(_, _, _, _) | ExprStmt(_) =>
  }

  lemma {:induction false} CollectItemNumbers(s: Stmt, sc: Scope, n: nat)
    requires CollectItem(s, sc, n).Some?
    ensures var p := CollectItem(s, sc, n).value;
      p.next == n + |DeclaredItem(s)| && p.scope == Stack(DeclaredItem(s), n, sc)
    decreases s, 2
  {
    if !s.Decl? {
      CollectNumbers(s, sc, n);
    }
  }

  lemma {:induction false} CollectItemsNumber(ss: seq<Stmt>, sc: Scope, n: nat)
    requires CollectItems(ss, sc, n).Some?
    ensures var p := CollectItems(ss, sc, n).value;
      p.next == n + |DeclaredIn(ss)| && p.scope == Stack(DeclaredIn(ss), n, sc)
    decreases ss, 3
  {
    if ss != [] {
      CollectItemNumbers(ss[0], sc, n);
      var s := CollectItem(ss[0], sc, n).value;
      CollectItemsNumber(ss[1..], s.scope, s.next);
      StackJoins(DeclaredItem(ss[0]), DeclaredIn(ss[1..]), n, sc);
    }
  }

  /** The table answers with the last declaration of a name, and only then with what was there before. */
  lemma {:induction false} FindInStack(xs: seq<string>, n: nat, sc: Scope, x: string)
    ensures var r := Find(Stack(xs, n, sc), x);
      if x in xs then
        r.Some? && exists i: nat :: i < |xs| && xs[i] == x && x !in xs[i + 1..] && r.value == Symbol(x, n + i, false)
      else r == Find(sc, x)
  {
    if xs != [] {
      var sc1 := Declare(sc, xs[0], n);
      FindInStack(xs[1..], n + 1, sc1, x);
      assert sc1[1..] == sc;
      if x in xs[1..] {
        var r := Find(Stack(xs, n, sc), x);
        var i: nat :| i < |xs[1..]| && xs[1..][i] == x && x !in xs[1..][i + 1..] &&
          r.value == Symbol(x, n + 1 + i, false);
        assert xs[i + 1] == x && xs[i + 1 + 1..] == xs[1..][i + 1..];
      } else if xs[0] == x {
        assert xs[0 + 1..] == xs[1..];
      }
    }
  }

  /** A declaration keeps its own slot in the table exactly when its name is not declared again later. */
  lemma OwnSlot(xs: seq<string>, n: nat, sc: Scope, i: nat)
    requires i < |xs|
    ensures Find(Stack(xs, n, sc), xs[i]).Some?
    ensures Find(Stack(xs, n, sc), xs[i]).value.slot == n + i <==> xs[i] !in xs[i + 1..]
  {
    FindInStack(xs, n, sc, xs[i]);
    var r := Find(Stack(xs, n, sc), xs[i]).value;
    var j: nat :| j < |xs| && xs[j] == xs[i] && xs[i] !in xs[j + 1..] && r == Symbol(xs[i], n + j, false);
    if j > i {
      assert xs[i + 1..][j - i - 1] == xs[i];
    }
  }

  // ---------- undefined names ----------

  /** The names that the checker looks up; it never enters indexing, member access or sizeof. */
  function Used(e: Expr): set<string> {
    match e
    case Ident(x, _) => {x}
    case Binary(_, l, r) => Used(l) + Used(r)
    case Unary(_, x) => Used(x)
    case Assign(_, l, r) => Used(l) + Used(r)
    case Call(_, args) => UsedInAll(args)
    case Number(_) | Str(_) | Null | SizeofType(_) | SizeofExpr(_) | Index(_, _) | Member(_, _) => {}
  }

  function UsedInAll(es: seq<Expr>): set<string> {
    if es == [] then {} else Used(es[0]) + UsedInAll(es[1..])
  }

  predicate Covers(sc: Scope, xs: set<string>) {
    forall x | x in xs :: Find(sc, x).Some?
  }

  /** Resolution fails exactly on a name that is not in the table. */
  lemma {:induction false} UndefinedName(e: Expr, sc: Scope)
    ensures ResolveExpr(e, sc).Some? <==> Covers(sc, Used(e))
  {
    match e
    case Binary(_, l, r) =>
      UndefinedName(l, sc);
      UndefinedName(r, sc);
    case Unary(_, x) => UndefinedName(x, sc);
    case Assign(_, l, r) =>
      UndefinedName(l, sc);
      UndefinedName(r, sc);
    case Call(_, args) => UndefinedNames(args, sc);
    case Ident(_, _) | Number(_) | Str(_) | Null | SizeofType(_) | SizeofExpr(_) | Index(_, _) | Member(_, _) =>
  }

  lemma {:induction false} UndefinedNames(es: seq<Expr>, sc: Scope)
    ensures ResolveAll(es, sc).Some? <==> Covers(sc, UsedInAll(es))
  {
    if es != [] {
      UndefinedName(es[0], sc);
      UndefinedNames(es[1..], sc);
    }
  }

  /** What the first pass wrote into an expression does not matter to the second. */
  lemma {:induction false} ResolveAgain(e: Expr, first: Scope, last: Scope)
    requires ResolveExpr(e, first).Some?
    ensures ResolveExpr(ResolveExpr(e, first).value, last) == ResolveExpr(e, last)
  {
    match e
    case Binary(_, l, r) =>
      ResolveAgain(l, first, last);
      ResolveAgain(r, first, last);
    case Unary(_, x) => ResolveAgain(x, first, last);
    case Assign(_, l, r) =>
      ResolveAgain(l, first, last);
      ResolveAgain(r, first, last);
    case Call(_, args) => ResolveAllAgain(args, first, last);
    case Ident(_, _) | Number(_) | Str(_) | Null | SizeofType(_) | SizeofExpr(_) | Index(_, _) | Member(_, _) =>
  }

  lemma {:induction false} ResolveAllAgain(es: seq<Expr>, first: Scope, last: Scope)
    requires ResolveAll(es, first).Some?
    ensures ResolveAll(ResolveAll(es, first).value, last) == ResolveAll(es, last)
  {
    if es != [] {
      ResolveAgain(es[0], first, last);
      ResolveAllAgain(es[1..], first, last);
    }
  }
}
