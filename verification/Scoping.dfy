/**
 Lexical scoping, written without tables or passes, and when the two passes of
 the semantic analysis amount to it.
 */
module Scoping {
  import opened Words
  import opened Ast
  import opened Semantic

  // The variables in scope and their slots.
  type Names = map<string, nat>

  function LexExpr(e: Expr, d: Names): Option<Expr> {
    match e
    case Ident(x, _) => if x in d then Some(Ident(x, d[x])) else None
    case Binary(op, l, r) =>
      var l1 :- LexExpr(l, d);
      var r1 :- LexExpr(r, d);
      Some(Binary(op, l1, r1))
    case Unary(op, x) =>
      var x1 :- LexExpr(x, d);
      Some(Unary(op, x1))
    case Assign(op, l, r) =>
      var l1 :- LexExpr(l, d);
      var r1 :- LexExpr(r, d);
      Some(Assign(op, l1, r1))
    case Call(f, args) =>
      var as1 :- LexAll(args, d);
      Some(Call(f, as1))
    case SizeofExpr(x) =>
      var x1 :- LexExpr(x, d);
      Some(SizeofExpr(x1))
    case Index(a, i) =>
      var a1 :- LexExpr(a, d);
      var i1 :- LexExpr(i, d);
      Some(Index(a1, i1))
    case Member(o, field) =>
      var o1 :- LexExpr(o, d);
      Some(Member(o1, field))
    case Number(_) | Str(_) | Null | SizeofType(_) => Some(e)
  }

  function LexAll(es: seq<Expr>, d: Names): (r: Option<seq<Expr>>)
    ensures r.Some? ==> |r.value| == |es|
  {
    if es == [] then Some([])
    else
      var e :- LexExpr(es[0], d);
      var more :- LexAll(es[1..], d);
      Some([e] + more)
  }

  function LexOptional(e: Option<Expr>, d: Names): Option<Option<Expr>> {
    if e.None? then Some(None)
    else
      var e1 :- LexExpr(e.value, d);
      Some(Some(e1))
  }

  datatype Lex = Lex(tree: Stmt, inside: Names, next: nat)

  datatype LexItems = LexItems(trees: seq<Stmt>, next: nat)

  /**
   A declaration is in scope from itself to the end of its block; slots are given
   out in textual order and never again.  `inside` is the scope behind the statement.
   */
  function LexStmt(s: Stmt, d: Names, n: nat): Option<Lex>
    decreases s, 0
  {
    match s
    case If(c, t, e) =>
      var c1 :- LexExpr(c, d);
      var t1 :- LexStmt(t, d, n);
      if e.None? then Some(Lex(If(c1, t1.tree, None), d, t1.next))
      else
        var e1 :- LexStmt(e.value, d, t1.next);
        Some(Lex(If(c1, t1.tree, Some(e1.tree)), d, e1.next))
    case While(c, b) =>
      var c1 :- LexExpr(c, d);
      var b1 :- LexStmt(b, d, n);
      Some(Lex(While(c1, b1.tree), d, b1.next))
    case For(cs, b) =>
      var cs1 :- LexClauses(cs, d);
      var b1 :- LexStmt(b, d, n);
      Some(Lex(For(cs1, b1.tree), d, b1.next))
    case Return(e) =>
      var e1 :- LexOptional(e, d);
      Some(Lex(Return(e1), d, n))
    case Block(ss) =>
      var ss1 :- LexAllItems(ss, d, n);
      Some(Lex(Block(ss1.trees), d, ss1.next))
    case Decl(x, ty, init, _) =>
      var i1 :- LexOptional(init, d[x := n]);
      Some(Lex(Decl(x, ty, i1, n), d[x := n], n + 1))
    case ExprStmt(e) =>
      var e1 :- LexExpr(e, d);
      Some(Lex(ExprStmt(e1), d, n))
    case Break | Continue => Some(Lex(s, d, n))
  }

  // Clauses of a `fow` that are expressions.
  function LexClauses(cs: seq<Stmt>, d: Names): (r: Option<seq<Stmt>>)
    ensures r.Some? ==> |r.value| == |cs|
  {
    if cs == [] then Some([])
    else if !cs[0].ExprStmt? then None
    else
      var e :- LexExpr(cs[0].expr, d);
      var more :- LexClauses(cs[1..], d);
      Some([ExprStmt(e)] + more)
  }

  function LexAllItems(ss: seq<Stmt>, d: Names, n: nat): (r: Option<LexItems>)
    ensures r.Some? ==> |r.value.trees| == |ss|
    decreases ss, 1
  {
    if ss == [] then Some(LexItems([], n))
    else
      var s :- LexStmt(ss[0], d, n);
      var more :- LexAllItems(ss[1..], s.inside, s.next);
      Some(LexItems([s.tree] + more.trees, more.next))
  }

  // ---------- the programs whose every name and declaration the two passes reach ----------

  predicate RegularExpr(e: Expr) {
    match e
    case Binary(_, l, r) => RegularExpr(l) && RegularExpr(r)
    case Unary(_, x) => RegularExpr(x)
    case Assign(_, l, r) => RegularExpr(l) && RegularExpr(r)
    case Call(f, args) => f.Ident? && RegularExprs(args)
    case Ident(_, _) | Number(_) | Str(_) | Null | SizeofType(_) => true
    case SizeofExpr(_) | Index(_, _) | Member(_, _) => false
  }

  predicate RegularExprs(es: seq<Expr>) {
    es != [] ==> RegularExpr(es[0]) && RegularExprs(es[1..])
  }

  predicate RegularOptional(e: Option<Expr>) {
    e.Some? ==> RegularExpr(e.value)
  }

  /** Declarations stand directly in blocks, and none stands under a `fow`, which has all its clauses. */
  predicate Regular(s: Stmt)
    decreases s, 0
  {
    match s
    case If(c, t, e) =>
      RegularExpr(c) && Regular(t) && !t.Decl? && (e.Some? ==> Regular(e.value) && !e.value.Decl?)
    case While(c, b) => RegularExpr(c) && Regular(b) && !b.Decl?
    case For(cs, b) =>
      |cs| == 3 && RegularClauses(cs) && Regular(b) && !b.Decl? && Declared(b) == []
    case Return(e) => RegularOptional(e)
    case Block(ss) => RegularItems(ss)
    case Decl(_, _, init, _) => RegularOptional(init)
    case ExprStmt(e) => RegularExpr(e)
    case Break | Continue => true
  }

  predicate RegularClauses(cs: seq<Stmt>) {
    cs != [] ==> cs[0].ExprStmt? && RegularExpr(cs[0].expr) && RegularClauses(cs[1..])
  }

  predicate RegularItems(ss: seq<Stmt>)
    decreases ss, 1
  {
    ss != [] ==> Regular(ss[0]) && RegularItems(ss[1..])
  }

  // ---------- two passes against one walk ----------

  /** The table says what lexical scoping says, as far as the names of d go. */
  ghost predicate Agrees(sc: Scope, d: Names) {
    forall x | x in d :: Find(sc, x).Some? && Find(sc, x).value.slot == d[x]
  }

  ghost predicate Placed(sc: Scope, xs: seq<string>, n: nat) {
    forall i: nat | i < |xs| :: Find(sc, xs[i]).Some? && Find(sc, xs[i]).value.slot == n + i
  }

  lemma {:induction false} AgreedExpr(e: Expr, d: Names, sc: Scope)
    requires RegularExpr(e) && LexExpr(e, d).Some? && Agrees(sc, d)
    ensures ResolveExpr(e, sc) == LexExpr(e, d)
  {
    match e
    case Binary(_, l, r) =>
      AgreedExpr(l, d, sc);
      AgreedExpr(r, d, sc);
    case Unary(_, x) => AgreedExpr(x, d, sc);
    case Assign(_, l, r) =>
      AgreedExpr(l, d, sc);
      AgreedExpr(r, d, sc);
    case Call(_, args) => AgreedExprs(args, d, sc);
    case Ident(_, _) | Number(_) | Str(_) | Null | SizeofType(_) =>
  }

  lemma {:induction false} AgreedExprs(es: seq<Expr>, d: Names, sc: Scope)
    requires RegularExprs(es) && LexAll(es, d).Some? && Agrees(sc, d)
    ensures ResolveAll(es, sc) == LexAll(es, d)
  {
    if es != [] {
      AgreedExpr(es[0], d, sc);
      AgreedExprs(es[1..], d, sc);
    }
  }

  lemma AgreedOptional(e: Option<Expr>, d: Names, sc: Scope)
    requires RegularOptional(e) && LexOptional(e, d).Some? && Agrees(sc, d)
    ensures ResolveOptional(e, sc) == LexOptional(e, d)
  {
    if e.Some? {
      AgreedExpr(e.value, d, sc);
    }
  }

  lemma {:induction false} LexUses(e: Expr, d: Names)
    requires LexExpr(e, d).Some?
    ensures Used(e) <= d.Keys
  {
    match e
    case Binary(_, l, r) =>
      LexUses(l, d);
      LexUses(r, d);
    case Unary(_, x) => LexUses(x, d);
    case Assign(_, l, r) =>
      LexUses(l, d);
      LexUses(r, d);
    case Call(_, args) => LexAllUses(args, d);
    case Ident(_, _) | Number(_) | Str(_) | Null | SizeofType(_) | SizeofExpr(_) | Index(_, _) | Member(_, _) =>
  }

  lemma {:induction false} LexAllUses(es: seq<Expr>, d: Names)
    requires LexAll(es, d).Some?
    ensures UsedInAll(es) <= d.Keys
  {
    if es != [] {
      LexUses(es[0], d);
      LexAllUses(es[1..], d);
    }
  }

  // An initialiser that the first pass has been through is resolved by the second as if it had not.
  lemma InitialiserTwice(init: Option<Expr>, d: Names, first: Scope, last: Scope)
    requires RegularOptional(init) && LexOptional(init, d).Some? && Covers(first, d.Keys) && Agrees(last, d)
    ensures ResolveOptional(init, first).Some?
    ensures ResolveOptional(ResolveOptional(init, first).value, last) == LexOptional(init, d)
  {
    if init.Some? {
      LexUses(init.value, d);
      UndefinedName(init.value, first);
      ResolveAgain(init.value, first, last);
      AgreedExpr(init.value, d, last);
    }
  }

  lemma StackCovers(xs: seq<string>, n: nat, sc: Scope, d: Names)
    requires Covers(sc, d.Keys)
    ensures Covers(Stack(xs, n, sc), d.Keys)
  {
    forall x | x in d.Keys ensures Find(Stack(xs, n, sc), x).Some? {
      FindInStack(xs, n, sc, x);
    }
  }

  lemma PlacedSplit(sc: Scope, xs: seq<string>, ys: seq<string>, n: nat)
    requires Placed(sc, xs + ys, n)
    ensures Placed(sc, xs, n) && Placed(sc, ys, n + |xs|)
  {
    forall i: nat | i < |xs| ensures Find(sc, xs[i]).Some? && Find(sc, xs[i]).value.slot == n + i {
      assert (xs + ys)[i] == xs[i];
    }
    forall i: nat | i < |ys| ensures Find(sc, ys[i]).Some? && Find(sc, ys[i]).value.slot == n + |xs| + i {
      assert (xs + ys)[|xs| + i] == ys[i];
    }
  }

  /** `first` is the table when the first pass comes to s, `last` the one it leaves at the end. */
  ghost predicate Setting(xs: seq<string>, d: Names, n: nat, first: Scope, last: Scope) {
    Covers(first, d.Keys) && Agrees(last, d) && Placed(last, xs, n)
  }

  /** Both passes over a statement give its lexical resolution. */
  ghost predicate TwoPasses(s: Stmt, d: Names, n: nat, first: Scope, last: Scope) {
    var l, p := LexStmt(s, d, n), CollectItem(s, first, n);
    && l.Some? && p.Some? && p.value.next == l.value.next
    && ResolveStmt(p.value.tree, last) == Some(l.value.tree)
    && Agrees(last, l.value.inside) && Covers(p.value.scope, l.value.inside.Keys)
  }

  lemma {:induction false} StmtTwoPasses(s: Stmt, d: Names, n: nat, first: Scope, last: Scope)
    requires Regular(s) && LexStmt(s, d, n).Some? && Setting(DeclaredItem(s), d, n, first, last)
    ensures TwoPasses(s, d, n, first, last)
    decreases s, 1
  {
    if !s.Decl? {
      StmtScope(s, d, n, first);
    }
    match s
    case If(c, t, e) => IfTwoPasses(c, t, e, d, n, first, last);
    case While(c, b) =>
      AgreedExpr(c, d, last);
      assert DeclaredItem(b) == DeclaredItem(s);
      StmtTwoPasses(b, d, n, first, last);
    case For(cs, b) => ForTwoPasses(cs, b, d, n, first, last);
    case Return(e) => AgreedOptional(e, d, last);
    case Block(ss) =>
      assert DeclaredItem(s) == DeclaredIn(ss);
      ItemsTwoPasses(ss, d, n, first, last);
    case Decl(x, ty, init, _) => DeclTwoPasses(x, ty, init, d, n, first, last, s.slot);
    case ExprStmt(e) => AgreedExpr(e, d, last);
    case Break | Continue =>
  }

  // Scope behind a statement that is no declaration.
  lemma StmtScope(s: Stmt, d: Names, n: nat, first: Scope)
    requires !s.Decl? && LexStmt(s, d, n).Some? && Covers(first, d.Keys)
    ensures LexStmt(s, d, n).value.inside == d
    ensures CollectItem(s, first, n).Some? ==> Covers(CollectItem(s, first, n).value.scope, d.Keys)
  {
    if CollectItem(s, first, n).Some? {
      CollectItemNumbers(s, first, n);
      StackCovers(DeclaredItem(s), n, first, d);
    }
  }

  lemma DeclTwoPasses(x: string, ty: TypeExpr, init: Option<Expr>, d: Names, n: nat, first: Scope, last: Scope, k: nat)
    requires var s := Decl(x, ty, init, k);
      Regular(s) && LexStmt(s, d, n).Some? && Setting([x], d, n, first, last)
    ensures TwoPasses(Decl(x, ty, init, k), d, n, first, last)
  {
    var first1 := Declare(first, x, n);
    assert first1[1..] == first;
    assert Placed(last, [x], n) && [x][0] == x;
    InitialiserTwice(init, d[x := n], first1, last);
  }

  lemma {:induction false} IfTwoPasses(c: Expr, t: Stmt, e: Option<Stmt>, d: Names, n: nat, first: Scope, last: Scope)
    requires var s := If(c, t, e);
      Regular(s) && LexStmt(s, d, n).Some? && Setting(Declared(s), d, n, first, last)
    ensures var s := If(c, t, e);
      CollectItem(s, first, n).Some? && CollectItem(s, first, n).value.next == LexStmt(s, d, n).value.next &&
      ResolveStmt(CollectItem(s, first, n).value.tree, last) == Some(LexStmt(s, d, n).value.tree)
    decreases If(c, t, e), 0
  {
    AgreedExpr(c, d, last);
    if e.None? {
      assert Declared(t) + [] == Declared(t);
      StmtTwoPasses(t, d, n, first, last);
    } else {
      PlacedSplit(last, Declared(t), Declared(e.value), n);
      StmtTwoPasses(t, d, n, first, last);
      var t1 := Collect(t, first, n).value;
      CollectNumbers(t, first, n);
      StmtScope(t, d, n, first);
      StmtTwoPasses(e.value, d, t1.next, t1.scope, last);
    }
  }

  lemma {:induction false} ForTwoPasses(cs: seq<Stmt>, b: Stmt, d: Names, n: nat, first: Scope, last: Scope)
    requires Regular(For(cs, b)) && LexStmt(For(cs, b), d, n).Some? && Setting([], d, n, first, last)
    ensures var s := For(cs, b);
      CollectItem(s, first, n).Some? && CollectItem(s, first, n).value.next == LexStmt(s, d, n).value.next &&
      ResolveStmt(CollectItem(s, first, n).value.tree, last) == Some(LexStmt(s, d, n).value.tree)
    decreases For(cs, b), 0
  {
    ClausesResolve(cs, 0, d, last);
    StmtTwoPasses(b, d, n, first, last);
    CollectNumbers(b, first, n);
    NothingCollected(b, first, n);
  }

  lemma {:induction false} ClausesResolve(cs: seq<Stmt>, place: nat, d: Names, sc: Scope)
    requires RegularClauses(cs) && LexClauses(cs, d).Some? && Agrees(sc, d)
    ensures ResolveClauses(cs, place, sc) == LexClauses(cs, d)
  {
    if cs != [] {
      AgreedExpr(cs[0].expr, d, sc);
      assert ResolveChild(cs[0], place, sc) == Some(ExprStmt(LexExpr(cs[0].expr, d).value));
      ClausesResolve(cs[1..], place + 1, d, sc);
    }
  }

  /** The first pass leaves a statement without declarations as it is. */
  lemma {:induction false} NothingCollected(s: Stmt, sc: Scope, n: nat)
    requires Declared(s) == [] && Collect(s, sc, n).Some?
    ensures Collect(s, sc, n) == Some(Pass(s, sc, n))
    decreases s, 0
  {
    match s
    case If(_, t, e) =>
      NothingCollected(t, sc, n);
      if e.Some? {
        assert Declared(e.value) == [];
        NothingCollected(e.value, sc, n);
      }
    case While(_, b) => NothingCollected(b, sc, n);
    case For(cs, b) =>
      if |cs| == 1 {
        NothingCollected(b, sc, n);
      }
    case Block(ss) => NothingCollectedIn(ss, sc, n);
    case Return(_) | Break | Continue | Decl(_, _, _, _) | ExprStmt(_) =>
  }

  lemma {:induction false} NothingCollectedIn(ss: seq<Stmt>, sc: Scope, n: nat)
    requires DeclaredIn(ss) == [] && CollectItems(ss, sc, n).Some?
    ensures CollectItems(ss, sc, n) == Some(ItemsPass(ss, sc, n))
    decreases ss, 1
  {
    if ss != [] {
      assert DeclaredItem(ss[0]) == [];
      NothingCollected(ss[0], sc, n);
      NothingCollectedIn(ss[1..], sc, n);
      assert ss == [ss[0]] + ss[1..];
    }
  }

  lemma {:induction false} ItemsTwoPasses(ss: seq<Stmt>, d: Names, n: nat, first: Scope, last: Scope)
    requires RegularItems(ss) && LexAllItems(ss, d, n).Some? && Setting(DeclaredIn(ss), d, n, first, last)
    ensures var l, p := LexAllItems(ss, d, n), CollectItems(ss, first, n);
      p.Some? && p.value.next == l.value.next && ResolveItems(p.value.trees, last) == Some(l.value.trees)
    decreases ss, 2
  {
    if ss != [] {
      PlacedSplit(last, DeclaredItem(ss[0]), DeclaredIn(ss[1..]), n);
      StmtTwoPasses(ss[0], d, n, first, last);
      CollectItemNumbers(ss[0], first, n);
      var s, p := LexStmt(ss[0], d, n).value, CollectItem(ss[0], first, n).value;
      ItemsTwoPasses(ss[1..], s.inside, s.next, p.scope, last);
      var rest := CollectItems(ss[1..], p.scope, p.next).value.trees;
      assert ([p.tree] + rest)[1..] == rest;
    }
  }

  // ---------- functions ----------

  function ParamNames(ps: seq<Param>): seq<string> {
    if ps == [] then [] else [ps[0].name] + ParamNames(ps[1..])
  }

  lemma {:induction false} ParamsStack(ps: seq<Param>, sc: Scope, n: nat)
    ensures DeclareParams(ps, sc, n) == Stack(ParamNames(ps), n, sc) && |ParamNames(ps)| == |ps|
  {
    if ps != [] {
      ParamsStack(ps[1..], Declare(sc, ps[0].name, n), n + 1);
      assert ParamNames(ps)[1..] == ParamNames(ps[1..]);
    }
  }

  predicate Distinct(xs: seq<string>) {
    forall i, j | 0 <= i < j < |xs| :: xs[i] != xs[j]
  }

  // Names with slots from n.
  function Slotted(xs: seq<string>, n: nat): Names {
    map x | x in xs :: n + IndexOf(xs, x)
  }

  function IndexOf(xs: seq<string>, x: string): (i: nat)
    requires x in xs
    ensures i < |xs| && xs[i] == x
  {
    if xs[0] == x then 0 else 1 + IndexOf(xs[1..], x)
  }

  lemma DistinctPlaced(xs: seq<string>, n: nat, sc: Scope)
    requires Distinct(xs)
    ensures Placed(Stack(xs, n, sc), xs, n)
  {
    forall i: nat | i < |xs|
      ensures Find(Stack(xs, n, sc), xs[i]).Some? && Find(Stack(xs, n, sc), xs[i]).value.slot == n + i
    {
      OwnSlot(xs, n, sc, i);
      var later := xs[i + 1..];
      forall j | 0 <= j < |later| ensures later[j] != xs[i] {
        assert later[j] == xs[i + 1 + j];
      }
    }
  }

  /**
   Two-pass resolution is lexical resolution for a function whose parameters and
   variables all have different names: slots 0, 1, 2, ... in textual order, every
   use with the slot of the declaration it sees, and the number of slots recorded.
   */
  lemma FunctionIsLexical(f: TopLevel, globals: Scope)
    requires f.Function? && f.body.Block? && Regular(f.body)
    requires Distinct(ParamNames(f.params) + Declared(f.body))
    requires LexStmt(f.body, Slotted(ParamNames(f.params), 0), |f.params|).Some?
    ensures var l := LexStmt(f.body, Slotted(ParamNames(f.params), 0), |f.params|).value;
      && ResolveFunction(f, globals) == Some(Function(f.name, Numbered(f.params, 0), f.ret, l.tree, l.next))
      && l.next == |f.params| + |Declared(f.body)|
  {
    var ps, xs := ParamNames(f.params), Declared(f.body);
    var base: Scope := [Symbol(f.name, 0, true)] + globals;
    var sc := DeclareParams(f.params, base, 0);
    ParamsStack(f.params, base, 0);
    StackJoins(ps, xs, 0, base);
    var last := Stack(xs, |ps|, sc);
    DistinctPlaced(ps + xs, 0, base);
    PlacedSplit(last, ps, xs, 0);
    forall x | x in ps ensures Find(sc, x).Some? {
      FindInStack(ps, 0, base, x);
    }
    StmtTwoPasses(f.body, Slotted(ps, 0), |ps|, sc, last);
    CollectNumbers(f.body, sc, |ps|);
  }

  // `x: chonk = 1; pwease (x) { x: chonk = 2; }` with the slots given.
  function Shadowed(outer: nat, use: nat, inner: nat): Stmt {
    Block([Decl("x", Base(Chonk), Some(Number(1)), outer),
           If(Ident("x", use), Block([Decl("x", Base(Chonk), Some(Number(2)), inner)]), None)])
  }

  lemma ShadowedCollects(base: Scope)
    ensures var sc1 := Declare(Declare(base, "x", 0), "x", 1);
      Collect(Shadowed(0, 0, 0), base, 0) == Some(Pass(Shadowed(0, 0, 1), sc1, 2))
  {
    var sc0 := Declare(base, "x", 0);
    var sc1 := Declare(sc0, "x", 1);
    var a, b, b1 := Shadowed(0, 0, 0).stmts[0], Shadowed(0, 0, 0).stmts[1], Shadowed(0, 0, 1).stmts[1];
    CollectOne(b.thn.stmts[0], sc0, 1);
    assert Collect(b, sc0, 1) == Some(Pass(b1, sc1, 2));
    CollectOne(b, sc0, 1);
    assert [a, b][1..] == [b] && [a] + [b1] == [a, b1];
    assert CollectItem(a, base, 0) == Some(Pass(a, sc0, 1));
    assert CollectItems([a, b], base, 0) == Some(ItemsPass([a, b1], sc1, 2));
  }

  lemma ShadowedResolves(sc: Scope)
    requires Find(sc, "x") == Some(Symbol("x", 1, false))
    ensures ResolveStmt(Shadowed(0, 0, 1), sc) == Some(Shadowed(0, 1, 1))
  {
    var a, b1, b2 := Shadowed(0, 0, 1).stmts[0], Shadowed(0, 0, 1).stmts[1], Shadowed(0, 1, 1).stmts[1];
    ResolveOne(b1.thn.stmts[0], sc);
    ResolveOne(b1, sc);
    assert [a, b1][1..] == [b1] && [a] + [b2] == Shadowed(0, 1, 1).stmts;
    assert ResolveStmt(b1, sc) == Some(b2);
    assert ResolveItems([a, b1], sc) == Some(Shadowed(0, 1, 1).stmts);
  }

  lemma ShadowedLexically()
    ensures LexStmt(Shadowed(0, 0, 0), map[], 0) == Some(Lex(Shadowed(0, 0, 1), map[], 2))
  {
    var d := map["x" := 0];
    var a, b, b1 := Shadowed(0, 0, 0).stmts[0], Shadowed(0, 0, 0).stmts[1], Shadowed(0, 0, 1).stmts[1];
    LexOne(b.thn.stmts[0], d, 1);
    assert LexStmt(b, d, 1) == Some(Lex(b1, d, 2));
    LexOne(b, d, 1);
    assert [a, b][1..] == [b] && [a] + [b1] == [a, b1];
    assert LexStmt(a, map[], 0) == Some(Lex(a, d, 1));
    assert LexAllItems([a, b], map[], 0) == Some(LexItems([a, b1], 2));
  }

  /** With a name declared twice, the condition gets the slot of the inner, unset variable. */
  lemma ShadowingBreaks(globals: Scope)
    ensures LexStmt(Shadowed(0, 0, 0), map[], 0) == Some(Lex(Shadowed(0, 0, 1), map[], 2))
    ensures ResolveFunction(Function("f", [], Base(Chonk), Shadowed(0, 0, 0), 0), globals)
         == Some(Function("f", [], Base(Chonk), Shadowed(0, 1, 1), 2))
  {
    var base: Scope := [Symbol("f", 0, true)] + globals;
    ShadowedLexically();
    ShadowedCollects(base);
    ShadowedResolves(Declare(Declare(base, "x", 0), "x", 1));
  }

  lemma OneItem<X>(x: X)
    ensures [x][1..] == [] && forall y: X :: [y] + [] == [y]
  {
  }

  lemma CollectOne(s: Stmt, sc: Scope, n: nat)
    requires CollectItem(s, sc, n).Some?
    ensures var p := CollectItem(s, sc, n).value;
      CollectItems([s], sc, n) == Some(ItemsPass([p.tree], p.scope, p.next))
  {
    OneItem(s);
  }

  lemma ResolveOne(s: Stmt, sc: Scope)
    requires ResolveStmt(s, sc).Some?
    ensures ResolveItems([s], sc) == Some([ResolveStmt(s, sc).value])
  {
    OneItem(s);
  }

  lemma LexOne(s: Stmt, d: Names, n: nat)
    requires LexStmt(s, d, n).Some?
    ensures LexAllItems([s], d, n) == Some(LexItems([LexStmt(s, d, n).value.tree], LexStmt(s, d, n).value.next))
  {
    OneItem(s);
  }
}
