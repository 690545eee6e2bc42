/**
 The semantic analyser itself (src/semantic.c): two symbol tables, a slot counter
 and the walks over the tree.  An undefined name ends the run (None).
 */
module Analysis {
  import opened Words
  import opened Ast
  import opened Semantic
  import Globals

  ghost function InFront<X>(x: X, more: Option<seq<X>>): Option<seq<X>> {
    if more.None? then None else Some([x] + more.value)
  }

  ghost function Prepend<X>(before: seq<X>, more: Option<seq<X>>): Option<seq<X>> {
    if more.None? then None else Some(before + more.value)
  }

  lemma PrependAfter<X>(before: seq<X>, x: X, more: Option<seq<X>>)
    ensures Prepend(before, InFront(x, more)) == Prepend(before + [x], more)
  {
    if more.Some? {
      assert before + ([x] + more.value) == (before + [x]) + more.value;
    }
  }

  lemma PrependEnds<X>(all: seq<X>, more: Option<seq<X>>)
    ensures Prepend([], more) == more && Prepend(all, Some([])) == Some(all)
  {
    assert all + [] == all;
    if more.Some? {
      assert [] + more.value == more.value;
    }
  }

  ghost function PrependPass(before: seq<Stmt>, p: Option<ItemsPass>): Option<ItemsPass> {
    if p.None? then None else Some(ItemsPass(before + p.value.trees, p.value.scope, p.value.next))
  }

  lemma PassAfter(before: seq<Stmt>, s: Stmt, more: Option<ItemsPass>)
    ensures PrependPass(before, PrependPass([s], more)) == PrependPass(before + [s], more)
  {
    if more.Some? {
      assert before + ([s] + more.value.trees) == (before + [s]) + more.value.trees;
    }
  }

  lemma PassStarts(more: Option<ItemsPass>)
    ensures PrependPass([], more) == more
  {
    if more.Some? {
      assert [] + more.value.trees == more.value.trees;
    }
  }

  class Analyzer {
    // Newest symbols first, as symtab_add prepends.
    var globals: Scope
    var locals: Scope
    var offset: nat

    constructor ()
      ensures globals == [] && locals == [] && offset == 0
    {
      globals, locals, offset := [], [], 0;
    }

    ghost function Table(): Scope
      reads this
    {
      locals + globals
    }

    static method FindIn(table: Scope, x: string) returns (r: Option<Symbol>)
      ensures r == Find(table, x)
    {
      var i := 0;
      while i < |table|
        invariant 0 <= i <= |table|
        invariant Find(table, x) == Find(table[i..], x)
      {
        if table[i].name == x {
          return Some(table[i]);
        }
        i := i + 1;
      }
      return None;
    }

    // The function's names before the globals.
    method SymtabLookup(x: string) returns (r: Option<Symbol>)
      ensures r == Find(Table(), x)
    {
      FindJoins(locals, globals, x);
      r := FindIn(locals, x);
      if r.None? {
        r := FindIn(globals, x);
      }
    }

    method AddLocal(x: string, isFunction: bool)
      modifies this
      ensures globals == old(globals)
      ensures Table() == [Symbol(x, if isFunction then 0 else old(offset), isFunction)] + old(Table())
      ensures offset == old(offset) + if isFunction then 0 else 1
    {
      var slot := 0;
      if !isFunction {
        slot := offset;
        offset := offset + 1;
      }
      locals := [Symbol(x, slot, isFunction)] + locals;
      assert Table() == [Symbol(x, slot, isFunction)] + old(Table());
    }

    // ---------- expressions ----------

    method CheckExpression(e: Expr) returns (r: Option<Expr>)
      ensures r == ResolveExpr(e, Table())
      decreases e
    {
      match e
      case Ident(x, _) =>
        var y :- SymtabLookup(x);
        return Some(Ident(x, y.slot));
      case Binary(op, left, right) =>
        var l :- CheckExpression(left);
        var m :- CheckExpression(right);
        return Some(Binary(op, l, m));
      case Unary(op, x) =>
        var y :- CheckExpression(x);
        return Some(Unary(op, y));
      case Assign(op, left, right) =>
        var l :- CheckExpression(left);
        var m :- CheckExpression(right);
        return Some(Assign(op, l, m));
      case Call(f, args) =>
        var checked :- CheckArguments(args);
        return Some(Call(f, checked));
      case Number(_) | Str(_) | Null | SizeofType(_) | SizeofExpr(_) | Index(_, _) | Member(_, _) =>
        return Some(e);
    }

    method CheckArguments(args: seq<Expr>) returns (r: Option<seq<Expr>>)
      ensures r == ResolveAll(args, Table())
      decreases args
    {
      var done: seq<Expr> := [];
      PrependEnds(done, ResolveAll(args, Table()));
      for i := 0 to |args|
        invariant Prepend(done, ResolveAll(args[i..], Table())) == ResolveAll(args, Table())
      {
        assert args[i..][1..] == args[i + 1..];
        var e :- CheckExpression(args[i]);
        PrependAfter(done, e, ResolveAll(args[i + 1..], Table()));
        done := done + [e];
      }
      PrependEnds(done, None);
      return Some(done);
    }

    method CheckOptional(e: Option<Expr>) returns (r: Option<Option<Expr>>)
      ensures r == ResolveOptional(e, Table())
    {
      if e.None? {
        return Some(None);
      }
      var x :- CheckExpression(e.value);
      return Some(Some(x));
    }

    // ---------- second pass ----------

    method CheckStatement(s: Stmt) returns (r: Option<Stmt>)
      ensures r == ResolveStmt(s, Table())
      decreases s, 1
    {
      match s
      case If(cond, thn, els) =>
        var c :- CheckExpression(cond);
        var t :- CheckStatement(thn);
        if els.None? {
          return Some(If(c, t, None));
        }
        var e :- CheckStatement(els.value);
        return Some(If(c, t, Some(e)));
      case While(cond, body) =>
        var c :- CheckExpression(cond);
        var b :- CheckStatement(body);
        return Some(While(c, b));
      case For(clauses, body) =>
        var cs :- CheckClauses(clauses);
        var b :- CheckChild(body, |clauses|);
        return Some(For(cs, b));
      case Return(result) =>
        var e :- CheckOptional(result);
        return Some(Return(e));
      case Block(stmts) =>
        var ss :- CheckItems(stmts);
        return Some(Block(ss));
      case Decl(x, ty, init, slot) =>
        var e :- CheckOptional(init);
        return Some(Decl(x, ty, e, slot));
      case ExprStmt(expr) =>
        var e :- CheckExpression(expr);
        return Some(ExprStmt(e));
      case Break | Continue =>
        return Some(s);
    }

    method CheckChild(s: Stmt, place: nat) returns (r: Option<Stmt>)
      ensures r == ResolveChild(s, place, Table())
      decreases s, 2
    {
      if place == 0 || place == 3 || s.ExprStmt? {
        r := CheckStatement(s);
      } else {
        r := Some(s);
      }
    }

    method CheckClauses(cs: seq<Stmt>) returns (r: Option<seq<Stmt>>)
      ensures r == ResolveClauses(cs, 0, Table())
      decreases cs, 3
    {
      var done: seq<Stmt> := [];
      PrependEnds(done, ResolveClauses(cs, 0, Table()));
      for i := 0 to |cs|
        invariant Prepend(done, ResolveClauses(cs[i..], i, Table())) == ResolveClauses(cs, 0, Table())
      {
        assert cs[i..][1..] == cs[i + 1..];
        var c :- CheckChild(cs[i], i);
        PrependAfter(done, c, ResolveClauses(cs[i + 1..], i + 1, Table()));
        done := done + [c];
      }
      PrependEnds(done, None);
      return Some(done);
    }

    method CheckItems(ss: seq<Stmt>) returns (r: Option<seq<Stmt>>)
      ensures r == ResolveItems(ss, Table())
      decreases ss, 3
    {
      var done: seq<Stmt> := [];
      PrependEnds(done, ResolveItems(ss, Table()));
      for i := 0 to |ss|
        invariant Prepend(done, ResolveItems(ss[i..], Table())) == ResolveItems(ss, Table())
      {
        assert ss[i..][1..] == ss[i + 1..];
        var s :- CheckStatement(ss[i]);
        PrependAfter(done, s, ResolveItems(ss[i + 1..], Table()));
        done := done + [s];
      }
      PrependEnds(done, None);
      return Some(done);
    }

    // ---------- first pass ----------

    /** The state after a first pass and what it made of the tree. */
    ghost predicate Passed(r: Option<Stmt>, p: Option<Pass>)
      reads this
    {
      if r.None? then p.None? else p == Some(Pass(r.value, Table(), offset))
    }

    method CheckBlockForDeclarations(s: Stmt) returns (r: Option<Stmt>)
      modifies this
      ensures Passed(r, Collect(s, old(Table()), old(offset))) && globals == old(globals)
      decreases s, 1
    {
      match s
      case If(cond, thn, els) =>
        var t :- CheckBlockForDeclarations(thn);
        if els.None? {
          return Some(If(cond, t, None));
        }
        var e :- CheckBlockForDeclarations(els.value);
        return Some(If(cond, t, Some(e)));
      case While(cond, body) =>
        var b :- CheckBlockForDeclarations(body);
        return Some(While(cond, b));
      case For(clauses, body) =>
        if |clauses| != 1 {
          return Some(s);
        }
        var b :- CheckBlockForDeclarations(body);
        return Some(For(clauses, b));
      case Block(stmts) =>
        var ss :- DeclareItems(stmts);
        return Some(Block(ss));
      case Return(_) | Break | Continue | Decl(_, _, _, _) | ExprStmt(_) =>
        return Some(s);
    }

    method DeclareItem(s: Stmt) returns (r: Option<Stmt>)
      modifies this
      ensures Passed(r, CollectItem(s, old(Table()), old(offset))) && globals == old(globals)
      decreases s, 2
    {
      if !s.Decl? {
        r := CheckBlockForDeclarations(s);
        return;
      }
      AddLocal(s.name, false);
      var symbol := SymtabLookup(s.name);
      var slot := if symbol.Some? then symbol.value.slot else 0;
      var init :- CheckOptional(s.init);
      return Some(Decl(s.name, s.ty, init, slot));
    }

    method DeclareItems(ss: seq<Stmt>) returns (r: Option<seq<Stmt>>)
      modifies this
      ensures var p := CollectItems(ss, old(Table()), old(offset));
        if r.None? then p.None? else p == Some(ItemsPass(r.value, Table(), offset))
      ensures globals == old(globals)
      decreases ss, 3
    {
      var done: seq<Stmt> := [];
      PassStarts(CollectItems(ss, Table(), offset));
      for i := 0 to |ss|
        invariant globals == old(globals)
        invariant PrependPass(done, CollectItems(ss[i..], Table(), offset))
               == CollectItems(ss, old(Table()), old(offset))
      {
        assert ss[i..][1..] == ss[i + 1..];
        var s :- DeclareItem(ss[i]);
        PassAfter(done, s, CollectItems(ss[i + 1..], Table(), offset));
        done := done + [s];
      }
      assert done + [] == done;
      return Some(done);
    }

    // ---------- declarations ----------

    method DeclareParameters(ps: seq<Param>) returns (r: seq<Param>)
      modifies this
      ensures Table() == DeclareParams(ps, old(Table()), old(offset)) && offset == old(offset) + |ps|
      ensures r == Numbered(ps, old(offset)) && globals == old(globals)
    {
      r := [];
      for i := 0 to |ps|
        invariant globals == old(globals) && offset == old(offset) + i
        invariant DeclareParams(ps[i..], Table(), offset) == DeclareParams(ps, old(Table()), old(offset))
        invariant r + Numbered(ps[i..], offset) == Numbered(ps, old(offset))
      {
        assert ps[i..][1..] == ps[i + 1..];
        var p := Param(ps[i].name, ps[i].ty, offset);
        AddLocal(ps[i].name, false);
        assert r + ([p] + Numbered(ps[i + 1..], offset)) == (r + [p]) + Numbered(ps[i + 1..], offset);
        r := r + [p];
      }
    }

    method CheckFunction(f: TopLevel) returns (r: Option<TopLevel>)
      requires f.Function? && locals == []
      modifies this
      ensures r == ResolveFunction(f, globals) && globals == old(globals)
      ensures r.Some? ==> locals == [] && offset == r.value.locals
    {
      offset := 0;
      assert Table() == globals;
      AddLocal(f.name, true);
      var ps := DeclareParameters(f.params);
      var collected :- CheckBlockForDeclarations(f.body);
      var body :- CheckStatement(collected);
      locals := [];
      return Some(Function(f.name, ps, f.ret, body, offset));
    }

    // Outside functions the globals are the current table, and the counter runs on.
    method CheckGlobal(d: Stmt) returns (r: Option<Stmt>)
      requires locals == []
      modifies this
      ensures locals == []
      ensures var p := ResolveGlobal(d, old(globals), old(offset));
        if r.None? then p.None? else p == Some(Pass(r.value, globals, offset))
    {
      if !d.Decl? {
        return Some(d);
      }
      var slot := offset;
      offset := offset + 1;
      globals := [Symbol(d.name, slot, false)] + globals;
      assert Table() == globals;
      var init :- CheckOptional(d.init);
      return Some(Decl(d.name, d.ty, init, slot));
    }

    method SemanticAnalyze(ds: seq<TopLevel>) returns (r: Option<seq<TopLevel>>)
      requires locals == []
      modifies this
      ensures r == ResolveProgram(ds, old(globals), old(offset))
      ensures old(globals) == [] && old(offset) == 0 ==> Globals.Rest(ds, 0, r)
    {
      Globals.ProgramResolved(ds);
      var done: seq<TopLevel> := [];
      PrependEnds(done, ResolveProgram(ds, globals, offset));
      for i := 0 to |ds|
        invariant locals == []
        invariant Prepend(done, ResolveProgram(ds[i..], globals, offset))
               == ResolveProgram(ds, old(globals), old(offset))
      {
        assert ds[i..][1..] == ds[i + 1..];
        if ds[i].Function? {
          var f :- CheckFunction(ds[i]);
          PrependAfter(done, f, ResolveProgram(ds[i + 1..], globals, offset));
          done := done + [f];
        } else {
          var g :- CheckGlobal(ds[i].decl);
          PrependAfter(done, Global(g), ResolveProgram(ds[i + 1..], globals, offset));
          done := done + [Global(g)];
        }
      }
      PrependEnds(done, None);
      return Some(done);
    }
  }

  lemma {:induction false} FindJoins(a: Scope, b: Scope, x: string)
    ensures Find(a + b, x) == if Find(a, x).Some? then Find(a, x) else Find(b, x)
  {
    if a == [] {
      assert a + b == b;
    } else {
      assert (a + b)[1..] == a[1..] + b;
      FindJoins(a[1..], b, x);
    }
  }
}
