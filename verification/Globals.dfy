/**
 What a function sees of the globals (src/semantic.c:59-68, 285-345): the ones
 declared before it, the latest first, with the slots that a counter gave them
 which only functions reset.
 */
module Globals {
  import opened Words
  import opened Ast
  import opened Semantic
  import opened Scoping

  /** Declaration j of the program is a global called x. */
  predicate IsGlobal(ds: seq<TopLevel>, j: nat, x: string)
    requires j < |ds|
  {
    ds[j].Global? && ds[j].decl.Decl? && ds[j].decl.name == x
  }

  // How many slots a function takes.
  function OwnSlots(f: TopLevel): nat
    requires f.Function?
  {
    |f.params| + |Declared(f.body)|
  }

  /** The counter before declaration i: the slots of the last function, and one for each global since. */
  function Counter(ds: seq<TopLevel>, i: nat): nat
    requires i <= |ds|
  {
    if i == 0 then 0
    else if ds[i - 1].Function? then OwnSlots(ds[i - 1])
    else if ds[i - 1].decl.Decl? then Counter(ds, i - 1) + 1
    else Counter(ds, i - 1)
  }

  /** The globals before declaration i, the latest first. */
  function Visible(ds: seq<TopLevel>, i: nat): Scope
    requires i <= |ds|
  {
    if i == 0 then []
    else if ds[i - 1].Global? && ds[i - 1].decl.Decl? then
      [Symbol(ds[i - 1].decl.name, Counter(ds, i - 1), false)] + Visible(ds, i - 1)
    else Visible(ds, i - 1)
  }

  /** A name is found exactly if an earlier global has it, and then the latest such global with its slot. */
  lemma {:induction false} GlobalFound(ds: seq<TopLevel>, i: nat, x: string)
    requires i <= |ds|
    ensures Find(Visible(ds, i), x).None? <==> forall j | 0 <= j < i :: !IsGlobal(ds, j, x)
    ensures forall j: nat | j < i && IsGlobal(ds, j, x) && (forall k | j < k < i :: !IsGlobal(ds, k, x)) ::
      Find(Visible(ds, i), x) == Some(Symbol(x, Counter(ds, j), false))
    decreases i
  {
    if i > 0 {
      GlobalFound(ds, i - 1, x);
      if ds[i - 1].Global? && ds[i - 1].decl.Decl? {
        assert Visible(ds, i)[1..] == Visible(ds, i - 1);
        if ds[i - 1].decl.name == x {
          assert IsGlobal(ds, i - 1, x);
        }
      }
    }
  }

  // ---------- the analysis of a program ----------

  /** Declaration i resolves to t, a function with the globals before it, a global with itself as well. */
  ghost predicate ResolvesTo(ds: seq<TopLevel>, i: nat, t: TopLevel)
    requires i < |ds|
  {
    if ds[i].Function? then ResolveFunction(ds[i], Visible(ds, i)) == Some(t)
    else if !ds[i].decl.Decl? then t == ds[i]
    else
      var init := ResolveOptional(ds[i].decl.init, Visible(ds, i + 1));
      init.Some? && t == Global(Decl(ds[i].decl.name, ds[i].decl.ty, init.value, Counter(ds, i)))
  }

  ghost predicate Resolves(ds: seq<TopLevel>, i: nat)
    requires i < |ds|
  {
    exists t :: ResolvesTo(ds, i, t)
  }

  lemma FunctionTakes(f: TopLevel, globals: Scope)
    requires f.Function? && ResolveFunction(f, globals).Some?
    ensures ResolveFunction(f, globals).value.locals == OwnSlots(f)
  {
    var sc := DeclareParams(f.params, [Symbol(f.name, 0, true)] + globals, 0);
    CollectNumbers(f.body, sc, |f.params|);
  }

  // The analyser's run from declaration i on.
  ghost predicate Rest(ds: seq<TopLevel>, i: nat, r: Option<seq<TopLevel>>)
    requires i <= |ds|
  {
    && (r.Some? <==> forall k: nat | i <= k < |ds| :: Resolves(ds, k))
    && (r.Some? ==> |r.value| == |ds| - i && forall m: nat | m < |r.value| :: ResolvesTo(ds, i + m, r.value[m]))
  }

  lemma {:induction false} RestResolved(ds: seq<TopLevel>, i: nat)
    requires i <= |ds|
    ensures Rest(ds, i, ResolveProgram(ds[i..], Visible(ds, i), Counter(ds, i)))
    decreases |ds| - i
  {
    hide ResolveFunction;
    if i < |ds| {
      RestResolved(ds, i + 1);
      assert ds[i..][0] == ds[i] && ds[i..][1..] == ds[i + 1..];
      var more := ResolveProgram(ds[i + 1..], Visible(ds, i + 1), Counter(ds, i + 1));
      if ds[i].Function? {
        var f := ResolveFunction(ds[i], Visible(ds, i));
        if f.Some? {
          FunctionTakes(ds[i], Visible(ds, i));
          OneMore(ds, i, f.value, more);
        } else {
          Fails(ds, i);
        }
      } else {
        var g := ResolveGlobal(ds[i].decl, Visible(ds, i), Counter(ds, i));
        if g.Some? {
          OneMore(ds, i, Global(g.value.tree), more);
        } else {
          Fails(ds, i);
        }
      }
    }
  }

  lemma Fails(ds: seq<TopLevel>, i: nat)
    requires i < |ds| && forall t :: !ResolvesTo(ds, i, t)
    ensures Rest(ds, i, None)
  {
    hide ResolvesTo;
    assert !Resolves(ds, i);
  }

  lemma OneMore(ds: seq<TopLevel>, i: nat, t: TopLevel, more: Option<seq<TopLevel>>)
    requires i < |ds| && ResolvesTo(ds, i, t) && Rest(ds, i + 1, more)
    ensures Rest(ds, i, if more.None? then None else Some([t] + more.value))
  {
    hide ResolvesTo;
    assert Resolves(ds, i);
  }

  /**
   A program is accepted exactly if each function resolves with the globals before
   it and each global with itself as well; a global takes the counter's slot.
   */
  lemma ProgramResolved(ds: seq<TopLevel>)
    ensures Rest(ds, 0, ResolveProgram(ds, [], 0))
  {
    RestResolved(ds, 0);
    assert ds[0..] == ds;
  }

  // ---------- names inside a function ----------

  /** The table that the second pass over a function looks names up in. */
  function FunctionTable(f: TopLevel, globals: Scope): Scope
    requires f.Function?
  {
    Stack(Declared(f.body), |f.params|, DeclareParams(f.params, [Symbol(f.name, 0, true)] + globals, 0))
  }

  lemma FunctionUsesTable(f: TopLevel, globals: Scope)
    requires f.Function?
    ensures var p := Collect(f.body, DeclareParams(f.params, [Symbol(f.name, 0, true)] + globals, 0), |f.params|);
      && (p.None? ==> ResolveFunction(f, globals).None?)
      && (p.Some? ==>
            && (ResolveFunction(f, globals).Some? <==> ResolveStmt(p.value.tree, FunctionTable(f, globals)).Some?)
            && (ResolveFunction(f, globals).Some? ==>
                  ResolveFunction(f, globals).value.body == ResolveStmt(p.value.tree, FunctionTable(f, globals)).value))
  {
    var sc := DeclareParams(f.params, [Symbol(f.name, 0, true)] + globals, 0);
    if Collect(f.body, sc, |f.params|).Some? {
      CollectNumbers(f.body, sc, |f.params|);
    }
  }

  /**
   In a function, a name that is none of its parameters and variables and not its
   own is undefined exactly if no earlier global has it, and otherwise has the slot
   of the latest such global.
   */
  lemma NameInFunction(ds: seq<TopLevel>, i: nat, x: string, slot: nat)
    requires i < |ds| && ds[i].Function?
    requires x !in ParamNames(ds[i].params) && x !in Declared(ds[i].body) && x != ds[i].name
    ensures var r := ResolveExpr(Ident(x, slot), FunctionTable(ds[i], Visible(ds, i)));
      && (r.None? <==> forall j | 0 <= j < i :: !IsGlobal(ds, j, x))
      && forall j: nat | j < i && IsGlobal(ds, j, x) && (forall k | j < k < i :: !IsGlobal(ds, k, x)) ::
           r == Some(Ident(x, Counter(ds, j)))
  {
    hide Visible, Counter, IsGlobal;
    var f, globals := ds[i], Visible(ds, i);
    var base := [Symbol(f.name, 0, true)] + globals;
    ParamsStack(f.params, base, 0);
    FindInStack(Declared(f.body), |f.params|, DeclareParams(f.params, base, 0), x);
    FindInStack(ParamNames(f.params), 0, base, x);
    assert base[1..] == globals;
    GlobalFound(ds, i, x);
  }

  // `nuzzle f() { gimme x; }`
  function Returning(f: string, ret: TypeExpr, x: string, slot: nat): TopLevel {
    Function(f, [], ret, Block([Return(Some(Ident(x, slot)))]), 0)
  }

  /** A function that returns a global is accepted exactly if it stands behind one of that name. */
  lemma ReturnsGlobal(ds: seq<TopLevel>, i: nat, f: string, ret: TypeExpr, x: string, j: nat)
    requires i < |ds| && ds[i] == Returning(f, ret, x, 0) && x != f
    ensures (forall j | 0 <= j < i :: !IsGlobal(ds, j, x)) ==> ResolveProgram(ds, [], 0).None?
    ensures j < i && IsGlobal(ds, j, x) && (forall k | j < k < i :: !IsGlobal(ds, k, x)) ==>
      ResolveFunction(ds[i], Visible(ds, i)) == Some(Returning(f, ret, x, Counter(ds, j)))
  {
    hide *;
    ReturningNames(f, ret, x, 0);
    NameInFunction(ds, i, x, 0);
    ReturningResolves(f, ret, x, Visible(ds, i));
    ProgramResolved(ds);
    if ResolveProgram(ds, [], 0).Some? && ResolveFunction(ds[i], Visible(ds, i)).None? {
      FunctionNeeded(ds, i, ResolveProgram(ds, [], 0));
      assert false;
    }
  }

  lemma FunctionNeeded(ds: seq<TopLevel>, i: nat, r: Option<seq<TopLevel>>)
    requires i < |ds| && ds[i].Function? && Rest(ds, 0, r) && ResolveFunction(ds[i], Visible(ds, i)).None?
    ensures r.None?
  {
    hide ResolveFunction;
    assert !Resolves(ds, i);
  }

  lemma ReturningNames(f: string, ret: TypeExpr, x: string, slot: nat)
    ensures var t := Returning(f, ret, x, slot);
      t.Function? && t.name == f && ParamNames(t.params) == [] && Declared(t.body) == []
  {
    var ss := [Return(Some(Ident(x, slot)))];
    assert ss[1..] == [] && DeclaredIn([]) == [];
    assert Declared(ss[0]) == [] && DeclaredItem(ss[0]) == [];
    assert DeclaredIn(ss) == DeclaredItem(ss[0]) + DeclaredIn(ss[1..]);
  }

  // What the function's own lookup says decides.
  lemma ReturningResolves(f: string, ret: TypeExpr, x: string, globals: Scope)
    ensures var t := Returning(f, ret, x, 0);
      var r := ResolveExpr(Ident(x, 0), FunctionTable(t, globals));
      ResolveFunction(t, globals) == if r.None? then None else Some(Returning(f, ret, x, r.value.slot))
  {
    var t, base := Returning(f, ret, x, 0), [Symbol(f, 0, true)] + globals;
    var ss := t.body.stmts;
    ReturningNames(f, ret, x, 0);
    assert Stack([], 0, base) == base && DeclareParams([], base, 0) == base;
    assert [ss[0]] + [] == ss && Numbered([], 0) == [];
    assert Collect(ss[0], base, 0) == Some(Pass(ss[0], base, 0));
    CollectOne(ss[0], base, 0);
    assert Collect(t.body, base, 0) == Some(Pass(t.body, base, 0));
    var r := ResolveExpr(Ident(x, 0), base);
    assert ResolveStmt(ss[0], base) == if r.None? then None else Some(Return(Some(r.value)));
    if r.Some? {
      ResolveOne(ss[0], base);
      assert ResolveStmt(t.body, base) == Some(Block([Return(Some(r.value))]));
      assert r.value == Ident(x, r.value.slot);
    } else {
      assert ResolveItems(ss, base).None?;
      assert ResolveStmt(t.body, base).None?;
    }
  }

  // ---------- declarations under a fow ----------

  // `{ x: t; x; }`
  function DeclaredAndUsed(x: string, ty: TypeExpr): Stmt {
    Block([Decl(x, ty, None, 0), ExprStmt(Ident(x, 0))])
  }

  /**
   The first pass does not reach the body of a `fow` with a full header: a variable
   declared there gets no slot, and using it is an undefined name.
   */
  lemma FowHidesDeclarations(cs: seq<Stmt>, x: string, ty: TypeExpr, sc: Scope, n: nat)
    requires |cs| == 3 && Find(sc, x).None?
    ensures var s := For(cs, DeclaredAndUsed(x, ty));
      Collect(s, sc, n) == Some(Pass(s, sc, n)) && ResolveStmt(s, sc).None?
  {
    var s := For(cs, DeclaredAndUsed(x, ty));
    var ss := s.body.stmts;
    assert ResolveStmt(ss[1], sc).None?;
    assert ss[1..][0] == ss[1];
    assert ResolveItems(ss[1..], sc).None?;
    assert ResolveItems(ss, sc).None?;
    assert ResolveStmt(s.body, sc).None?;
  }
}
