/** Printing statements and programs, and the round trip through lexer and parser. */
module ProgramPrinter {
  import opened Words
  import opened Ast
  import opened Lexing
  import opened Grammar
  import opened Printer
  import T = Tokens

  // ---------- statements ----------

  function PrintDecl(d: Stmt, t: Stream): Stream
    requires d.Decl?
  {
    Name(d.name, Sym(T.Colon, PrintType(d.ty,
      if d.init.None? then t else Sym(T.Assign, Print(ASSIGNMENT, d.init.value, t)))))
  }

  function PrintOptional(e: Option<Expr>, close: T.Punct, t: Stream): Stream {
    if e.None? then Sym(close, t) else Print(ASSIGNMENT, e.value, Sym(close, t))
  }

  function PrintCondition(e: Expr, t: Stream): Stream {
    Sym(T.LParen, Print(ASSIGNMENT, e, Sym(T.RParen, t)))
  }

  function ClauseAt(cs: seq<Stmt>, i: nat): Option<Expr> {
    if i < |cs| && cs[i].ExprStmt? then Some(cs[i].expr) else None
  }

  // A single clause prints as the first one, two as the first two: the tree keeps no more.
  function PrintClauses(cs: seq<Stmt>, t: Stream): Stream {
    var others := PrintOptional(ClauseAt(cs, 1), T.Semicolon, PrintOptional(ClauseAt(cs, 2), T.RParen, t));
    Sym(T.LParen,
      if cs != [] && cs[0].Decl? then PrintDecl(cs[0], Sym(T.Semicolon, others))
      else PrintOptional(ClauseAt(cs, 0), T.Semicolon, others))
  }

  function PrintStmt(s: Stmt, t: Stream): Stream
    decreases s, 0
  {
    match s
    case If(c, thn, els) =>
      Key(T.Pwease, PrintCondition(c, PrintStmt(thn,
        if els.None? then t else Key(T.Nowu, PrintStmt(els.value, t)))))
    case While(c, body) => Key(T.Wepeat, PrintCondition(c, PrintStmt(body, t)))
    case For(clauses, body) => Key(T.Fow, PrintClauses(clauses, PrintStmt(body, t)))
    case Return(r) => Key(T.Gimme, PrintOptional(r, T.Semicolon, t))
    case Break => Key(T.Bweak, Sym(T.Semicolon, t))
    case Continue => Key(T.Continyue, Sym(T.Semicolon, t))
    case Block(stmts) => Sym(T.LBrace, PrintItems(stmts, t))
    case Decl(_, _, _, _) => PrintDecl(s, Sym(T.Semicolon, t))
    case ExprStmt(e) => Print(ASSIGNMENT, e, Sym(T.Semicolon, t))
  }

  function PrintItems(ss: seq<Stmt>, t: Stream): Stream
    decreases ss, 1
  {
    if ss == [] then Sym(T.RBrace, t) else PrintStmt(ss[0], PrintItems(ss[1..], t))
  }

  lemma StarsStop(ty: TypeExpr, t: Stream)
    requires t.Head() != T.Pun(T.Star)
    ensures ParseType(PrintType(ty, t)) == Ok(ty, t)
  {
    TypeRoundTrip(ty, t);
  }

  lemma DeclRoundTrip(d: Stmt, t: Stream)
    requires WfDecl(d)
    ensures ParseVarDecl(PrintDecl(d, Sym(T.Semicolon, t))) == Ok(d, Sym(T.Semicolon, t))
    ensures ParseDeclStmt(PrintDecl(d, Sym(T.Semicolon, t))) == Ok(d, t)
    ensures StartsDecl(PrintDecl(d, Sym(T.Semicolon, t)))
  {
    var end := Sym(T.Semicolon, t);
    if d.init.None? {
      StarsStop(d.ty, end);
    } else {
      StarsStop(d.ty, Sym(T.Assign, Print(ASSIGNMENT, d.init.value, end)));
      ExprRoundTrip(d.init.value, end);
    }
  }

  lemma OptionalRoundTrip(e: Option<Expr>, close: T.Punct, t: Stream)
    requires e.Some? ==> WfExpr(e.value)
    requires close == T.Semicolon || close == T.RParen
    ensures ParseOptional(close, PrintOptional(e, close, t)) == Ok(e, t)
  {
    hide ParseExpr, Print, Lexable, WfExpr;
    if e.Some? {
      var s := Print(ASSIGNMENT, e.value, Sym(close, t));
      ExprRoundTrip(e.value, Sym(close, t));
      PrintStart(ASSIGNMENT, e.value, Sym(close, t));
      OptionalParsed(e.value, close, s, t);
    }
  }

  lemma OptionalParsed(e: Expr, close: T.Punct, s: Stream, t: Stream)
    requires ParseExpr(s) == Ok(e, Sym(close, t)) && s.Head() != T.Pun(close)
    ensures ParseOptional(close, s) == Ok(Some(e), t)
  {
  }

  lemma OptionalIsNoDecl(e: Option<Expr>, t: Stream)
    ensures !StartsDecl(PrintOptional(e, T.Semicolon, t))
  {
    if e.Some? {
      PrintStart(ASSIGNMENT, e.value, Sym(T.Semicolon, t));
    }
  }

  lemma ConditionRoundTrip(e: Expr, t: Stream)
    requires WfExpr(e)
    ensures ParseCondition(PrintCondition(e, t)) == Ok(e, t)
  {
    ExprRoundTrip(e, Sym(T.RParen, t));
  }

  // Clauses are rebuilt from the three places.
  lemma ClausesSplit(cs: seq<Stmt>)
    requires WfClauses(cs)
    ensures cs != [] && cs[0].Decl? ==> cs == [cs[0]] + Clause(ClauseAt(cs, 1)) + Clause(ClauseAt(cs, 2))
    ensures !(cs != [] && cs[0].Decl?) ==>
              cs == Clause(ClauseAt(cs, 0)) + Clause(ClauseAt(cs, 1)) + Clause(ClauseAt(cs, 2))
    ensures forall i: nat | i < 3 && ClauseAt(cs, i).Some? :: WfExpr(ClauseAt(cs, i).value)
  {
  }

  lemma ExprClauses(first: Option<Expr>, second: Option<Expr>, third: Option<Expr>, s: Stream, r1: Stream, r2: Stream,
      t: Stream)
    requires !StartsDecl(s) && ParseOptional(T.Semicolon, s) == Ok(first, r1)
    requires ParseOptional(T.Semicolon, r1) == Ok(second, r2) && ParseOptional(T.RParen, r2) == Ok(third, t)
    ensures ParseClauses(Sym(T.LParen, s)) == Ok(Clause(first) + Clause(second) + Clause(third), t)
  {
  }

  lemma DeclClauses(d: Stmt, second: Option<Expr>, third: Option<Expr>, s: Stream, r1: Stream, r2: Stream, t: Stream)
    requires StartsDecl(s) && ParseDeclStmt(s) == Ok(d, r1)
    requires ParseOptional(T.Semicolon, r1) == Ok(second, r2) && ParseOptional(T.RParen, r2) == Ok(third, t)
    ensures ParseClauses(Sym(T.LParen, s)) == Ok([d] + Clause(second) + Clause(third), t)
  {
  }

  lemma ClausesRoundTrip(cs: seq<Stmt>, t: Stream)
    requires WfClauses(cs)
    ensures ParseClauses(PrintClauses(cs, t)) == Ok(cs, t)
  {
    ClausesSplit(cs);
    var c0, c1, c2 := ClauseAt(cs, 0), ClauseAt(cs, 1), ClauseAt(cs, 2);
    var last := PrintOptional(c2, T.RParen, t);
    var others := PrintOptional(c1, T.Semicolon, last);
    OptionalRoundTrip(c1, T.Semicolon, last);
    OptionalRoundTrip(c2, T.RParen, t);
    if cs != [] && cs[0].Decl? {
      assert WfClause(cs[0], true);
      DeclRoundTrip(cs[0], others);
      DeclClauses(cs[0], c1, c2, PrintDecl(cs[0], Sym(T.Semicolon, others)), others, last, t);
    } else {
      OptionalRoundTrip(c0, T.Semicolon, others);
      OptionalIsNoDecl(c0, others);
      ExprClauses(c0, c1, c2, PrintOptional(c0, T.Semicolon, others), others, last, t);
    }
  }

  /** A printed statement never starts with `nowu` or a closing brace. */
  lemma StmtStart(s: Stmt, t: Stream)
    ensures var h := PrintStmt(s, t).Head();
      PrintStmt(s, t).More? && h != T.Res(T.Nowu) && h != T.Pun(T.RBrace)
  {
    if s.ExprStmt? {
      PrintStart(ASSIGNMENT, s.expr, Sym(T.Semicolon, t));
    }
  }

  lemma ExprStmtRoundTrip(e: Expr, t: Stream)
    requires WfExpr(e)
    ensures ParseStatement(PrintStmt(ExprStmt(e), t)) == Ok(ExprStmt(e), t)
  {
    hide ParseStatement, ParseExpr, PrintStmt, Print, Lexable;
    PrintStart(ASSIGNMENT, e, Sym(T.Semicolon, t));
    ExprRoundTrip(e, Sym(T.Semicolon, t));
    ExprStmtPrinted(e, t);
    ExprStmtParsed(e, Print(ASSIGNMENT, e, Sym(T.Semicolon, t)), t);
  }

  lemma ExprStmtPrinted(e: Expr, t: Stream)
    ensures PrintStmt(ExprStmt(e), t) == Print(ASSIGNMENT, e, Sym(T.Semicolon, t))
  {
    hide Print;
  }

  lemma ExprStmtParsed(e: Expr, s: Stream, t: Stream)
    requires ParseExpr(s) == Ok(e, Sym(T.Semicolon, t)) && StartsExpr(s.Head()) && !StartsDecl(s)
    ensures ParseStatement(s) == Ok(ExprStmt(e), t)
  {
    ExprIsNoLeader(s.Head());
    ExprThenSemicolon(e, s, t);
  }

  lemma ExprIsNoLeader(t: T.Token)
    requires StartsExpr(t)
    ensures !IsLeader(t)
  {
  }

  lemma ExprThenSemicolon(e: Expr, s: Stream, t: Stream)
    requires ParseExpr(s) == Ok(e, Sym(T.Semicolon, t))
    ensures ParseExprStmt(s) == Ok(ExprStmt(e), t)
  {
  }

  lemma IfParsed(c: Expr, thn: Stmt, els: Option<Stmt>, s: Stream, r: Stream, q: Stream, t: Stream)
    requires ParseCondition(s) == Ok(c, r) && ParseStatement(r) == Ok(thn, q)
    requires if els.None? then q == t && t.Head() != T.Res(T.Nowu)
             else q.Head() == T.Res(T.Nowu) && ParseStatement(q.Rest()) == Ok(els.value, t)
    ensures ParseStatement(Key(T.Pwease, s)) == Ok(If(c, thn, els), t)
  {
  }

  lemma WhileParsed(c: Expr, body: Stmt, s: Stream, r: Stream, t: Stream)
    requires ParseCondition(s) == Ok(c, r) && ParseStatement(r) == Ok(body, t)
    ensures ParseStatement(Key(T.Wepeat, s)) == Ok(While(c, body), t)
  {
  }

  lemma ForParsed(cs: seq<Stmt>, body: Stmt, s: Stream, r: Stream, t: Stream)
    requires ParseClauses(s) == Ok(cs, r) && ParseStatement(r) == Ok(body, t)
    ensures ParseStatement(Key(T.Fow, s)) == Ok(For(cs, body), t)
  {
  }

  lemma BlockParsed(ss: seq<Stmt>, s: Stream, t: Stream)
    requires ParseItems(s) == Ok(ss, t)
    ensures ParseStatement(Sym(T.LBrace, s)) == Ok(Block(ss), t)
  {
  }

  lemma SimpleRoundTrip(s: Stmt, t: Stream)
    requires WfStmt(s) && (s.Return? || s.Break? || s.Continue? || s.Decl?)
    ensures ParseStatement(PrintStmt(s, t)) == Ok(s, t)
  {
    if s.Return? {
      OptionalRoundTrip(s.result, T.Semicolon, t);
    } else if s.Decl? {
      DeclRoundTrip(s, t);
    }
  }

  lemma {:induction false} IfRoundTrip(c: Expr, thn: Stmt, els: Option<Stmt>, t: Stream)
    requires WfStmt(If(c, thn, els)) && (EndsOpen(If(c, thn, els)) ==> t.Head() != T.Res(T.Nowu))
    ensures ParseStatement(PrintStmt(If(c, thn, els), t)) == Ok(If(c, thn, els), t)
    decreases If(c, thn, els), 0
  {
    var rest := if els.None? then t else Key(T.Nowu, PrintStmt(els.value, t));
    ConditionRoundTrip(c, PrintStmt(thn, rest));
    StmtRoundTrip(thn, rest);
    if els.Some? {
      StmtRoundTrip(els.value, t);
    }
    IfParsed(c, thn, els, PrintCondition(c, PrintStmt(thn, rest)), PrintStmt(thn, rest), rest, t);
  }

  /** A statement is read back whole, provided no stray `nowu` follows an open `pwease`. */
  lemma {:induction false} StmtRoundTrip(s: Stmt, t: Stream)
    requires WfStmt(s) && (EndsOpen(s) ==> t.Head() != T.Res(T.Nowu))
    ensures ParseStatement(PrintStmt(s, t)) == Ok(s, t)
    decreases s, 1
  {
    match s
    case If(c, thn, els) => IfRoundTrip(c, thn, els, t);
    case While(c, body) =>
      ConditionRoundTrip(c, PrintStmt(body, t));
      StmtRoundTrip(body, t);
      WhileParsed(c, body, PrintCondition(c, PrintStmt(body, t)), PrintStmt(body, t), t);
    case For(clauses, body) =>
      ClausesRoundTrip(clauses, PrintStmt(body, t));
      StmtRoundTrip(body, t);
      ForParsed(clauses, body, PrintClauses(clauses, PrintStmt(body, t)), PrintStmt(body, t), t);
    case Block(stmts) =>
      ItemsRoundTrip(stmts, t);
      BlockParsed(stmts, PrintItems(stmts, t), t);
    case ExprStmt(e) => ExprStmtRoundTrip(e, t);
    case Return(_) | Break | Continue | Decl(_, _, _, _) => SimpleRoundTrip(s, t);
  }

  lemma {:induction false} ItemsRoundTrip(ss: seq<Stmt>, t: Stream)
    requires WfStmts(ss)
    ensures ParseItems(PrintItems(ss, t)) == Ok(ss, t)
    decreases ss, 2
  {
    if ss != [] {
      var more := PrintItems(ss[1..], t);
      if ss[1..] != [] {
        StmtStart(ss[1], PrintItems(ss[1..][1..], t));
      }
      StmtRoundTrip(ss[0], more);
      StmtStart(ss[0], more);
      ItemsRoundTrip(ss[1..], t);
      assert ss == [ss[0]] + ss[1..];
    }
  }

  lemma SameTokens(c: Expr, d: Expr, a: Stmt, b: Stmt, t: Stream)
    ensures PrintStmt(If(c, If(d, a, None), Some(b)), t) == PrintStmt(If(c, If(d, a, Some(b)), None), t)
  {
    var rest := Key(T.Nowu, PrintStmt(b, t));
    assert PrintStmt(If(d, a, None), rest) == Key(T.Pwease, PrintCondition(d, PrintStmt(a, rest)));
    assert PrintStmt(If(d, a, Some(b)), t) == Key(T.Pwease, PrintCondition(d, PrintStmt(a, rest)));
  }

  /** `nowu` belongs to the nearest `pwease`: the other tree prints the same and is read back as this one. */
  lemma NearestIf(c: Expr, d: Expr, a: Stmt, b: Stmt, t: Stream)
    requires WfStmt(If(c, If(d, a, Some(b)), None)) && !EndsOpen(b) && t.Head() != T.Res(T.Nowu)
    ensures !WfStmt(If(c, If(d, a, None), Some(b)))
    ensures ParseStatement(PrintStmt(If(c, If(d, a, None), Some(b)), t)) == Ok(If(c, If(d, a, Some(b)), None), t)
  {
    SameTokens(c, d, a, b, t);
    StmtRoundTrip(If(c, If(d, a, Some(b)), None), t);
  }

  // ---------- programs ----------

  function PrintParams(ps: seq<Param>, t: Stream): Stream
    requires ps != []
  {
    PrintType(ps[0].ty, Name(ps[0].name, if |ps| == 1 then t else Sym(T.Comma, PrintParams(ps[1..], t))))
  }

  function PrintParameters(ps: seq<Param>, t: Stream): Stream {
    if ps == [] then Sym(T.RParen, t) else PrintParams(ps, Sym(T.RParen, t))
  }

  function PrintTop(d: TopLevel, t: Stream): Stream
    requires WfTop(d)
  {
    match d
    case Function(name, params, ret, body, _) =>
      var rest := Sym(T.Arrow, PrintType(ret, PrintStmt(body, t)));
      Key(T.Nuzzle, Name(name, Sym(T.LParen, PrintParameters(params, rest))))
    case Global(decl) => PrintDecl(decl, Sym(T.Semicolon, t))
  }

  function PrintProgram(ds: seq<TopLevel>): Stream
    requires WfProgram(ds)
  {
    if ds == [] then T.Done else PrintTop(ds[0], PrintProgram(ds[1..]))
  }

  lemma {:induction false} ParamsRoundTrip(count: nat, ps: seq<Param>, t: Stream)
    requires ps != [] && WfParams(ps) && count + |ps| <= MAX_ARGS && t.Head() == T.Pun(T.RParen)
    ensures ParseParams(count, PrintParams(ps, t)) == Ok(ps, t)
    decreases |ps|
  {
    hide Lexable, BaseOf;
    var rest := if |ps| == 1 then t else Sym(T.Comma, PrintParams(ps[1..], t));
    StarsStop(ps[0].ty, Name(ps[0].name, rest));
    if |ps| > 1 {
      ParamsRoundTrip(count + 1, ps[1..], t);
      assert ps == [ps[0]] + ps[1..];
    } else {
      assert ps == [ps[0]];
    }
  }

  lemma ParametersRoundTrip(ps: seq<Param>, t: Stream)
    requires WfParams(ps) && |ps| <= MAX_ARGS
    ensures ParseParameters(PrintParameters(ps, t)) == Ok(ps, t)
  {
    if ps != [] {
      ParamsRoundTrip(0, ps, Sym(T.RParen, t));
      var end := Sym(T.RParen, t);
      TypeStart(ps[0].ty, Name(ps[0].name, if |ps| == 1 then end else Sym(T.Comma, PrintParams(ps[1..], end))));
    }
  }

  lemma TopRoundTrip(d: TopLevel, t: Stream)
    requires WfTop(d)
    ensures ParseDeclaration(PrintTop(d, t)) == Ok(d, t)
  {
    hide IsIdentifier, ParseParams, ParseBinary, ParseStatement;
    match d
    case Function(name, params, ret, body, _) =>
      var rest := Sym(T.Arrow, PrintType(ret, PrintStmt(body, t)));
      ParametersRoundTrip(params, rest);
      StarsStop(ret, PrintStmt(body, t));
      ItemsRoundTrip(body.stmts, t);
    case Global(decl) => DeclRoundTrip(decl, t);
  }

  /** Printing a program and parsing it gives the program back. */
  lemma {:induction false} ProgramRoundTrip(ds: seq<TopLevel>)
    requires WfProgram(ds)
    ensures ParseProgram(PrintProgram(ds)) == Some(ds)
  {
    if ds != [] {
      TopRoundTrip(ds[0], PrintProgram(ds[1..]));
      ProgramRoundTrip(ds[1..]);
      assert ds == [ds[0]] + ds[1..];
    }
  }

  // ---------- printed tokens can be written as text ----------

  lemma {:induction false} TypeLexable(ty: TypeExpr, t: Stream)
    requires AllLexable(t)
    ensures AllLexable(PrintType(ty, t))
    decreases ty
  {
    if ty.Pointer? {
      TypeLexable(ty.to, Sym(T.Star, t));
    }
  }

  lemma {:induction false} ExprLexable(level: nat, e: Expr, t: Stream)
    requires WfExpr(e) && AllLexable(t)
    ensures AllLexable(Print(level, e, t)) && AllLexable(Bare(e, t))
    decreases e, if Prec(e) < level then 1 else 0
  {
    if Prec(e) < level {
      ExprLexable(Prec(e), e, Sym(T.RParen, t));
      ExprLexable(Prec(e), e, t);
    } else {
      match e
      case Number(_) | Str(_) | Null | Ident(_, _) =>
      case Binary(op, l, r) =>
        ExprLexable(Level(op) + 1, r, t);
        ExprLexable(Level(op), l, Sym(BinaryToken(op), Print(Level(op) + 1, r, t)));
      case Unary(op, x) => ExprLexable(UNARY, x, t);
      case Assign(op, x, v) =>
        ExprLexable(ASSIGNMENT, v, t);
        ExprLexable(LOWEST_BINARY, x, Sym(AssignToken(op), Print(ASSIGNMENT, v, t)));
      case SizeofType(ty) => TypeLexable(ty, Sym(T.RParen, t));
      case SizeofExpr(x) => ExprLexable(ASSIGNMENT, x, Sym(T.RParen, t));
      case Call(f, args) =>
        var close := Sym(T.RParen, t);
        if args != [] {
          ArgsLexable(args, close);
        }
        ExprLexable(POSTFIX, f, Sym(T.LParen, if args == [] then close else PrintArgs(args, close)));
      case Index(a, i) =>
        ExprLexable(ASSIGNMENT, i, Sym(T.RBracket, t));
        ExprLexable(POSTFIX, a, Sym(T.LBracket, Print(ASSIGNMENT, i, Sym(T.RBracket, t))));
      case Member(o, field) => ExprLexable(POSTFIX, o, Sym(T.Dot, Name(field, t)));
    }
  }

  lemma {:induction false} ArgsLexable(args: seq<Expr>, t: Stream)
    requires args != [] && WfExprs(args) && AllLexable(t)
    ensures AllLexable(PrintArgs(args, t))
    decreases args, 2
  {
    if |args| > 1 {
      ArgsLexable(args[1..], t);
    }
    ExprLexable(ASSIGNMENT, args[0], if |args| == 1 then t else Sym(T.Comma, PrintArgs(args[1..], t)));
  }

  lemma DeclLexable(d: Stmt, t: Stream)
    requires WfDecl(d) && AllLexable(t)
    ensures AllLexable(PrintDecl(d, t))
  {
    if d.init.Some? {
      ExprLexable(ASSIGNMENT, d.init.value, t);
    }
    TypeLexable(d.ty, if d.init.None? then t else Sym(T.Assign, Print(ASSIGNMENT, d.init.value, t)));
  }

  lemma OptionalLexable(e: Option<Expr>, close: T.Punct, t: Stream)
    requires (e.Some? ==> WfExpr(e.value)) && AllLexable(t)
    ensures AllLexable(PrintOptional(e, close, t))
  {
    if e.Some? {
      ExprLexable(ASSIGNMENT, e.value, Sym(close, t));
    }
  }

  lemma ClausesLexable(cs: seq<Stmt>, t: Stream)
    requires WfClauses(cs) && AllLexable(t)
    ensures AllLexable(PrintClauses(cs, t))
  {
    ClausesSplit(cs);
    var last := PrintOptional(ClauseAt(cs, 2), T.RParen, t);
    var others := PrintOptional(ClauseAt(cs, 1), T.Semicolon, last);
    OptionalLexable(ClauseAt(cs, 2), T.RParen, t);
    OptionalLexable(ClauseAt(cs, 1), T.Semicolon, last);
    if cs != [] && cs[0].Decl? {
      assert WfClause(cs[0], true);
      DeclLexable(cs[0], Sym(T.Semicolon, others));
    } else {
      OptionalLexable(ClauseAt(cs, 0), T.Semicolon, others);
    }
  }

  lemma {:induction false} StmtLexable(s: Stmt, t: Stream)
    requires WfStmt(s) && AllLexable(t)
    ensures AllLexable(PrintStmt(s, t))
    decreases s, 0
  {
    match s
    case If(c, thn, els) =>
      if els.Some? {
        StmtLexable(els.value, t);
      }
      var rest := if els.None? then t else Key(T.Nowu, PrintStmt(els.value, t));
      StmtLexable(thn, rest);
      ExprLexable(ASSIGNMENT, c, Sym(T.RParen, PrintStmt(thn, rest)));
    case While(c, body) =>
      StmtLexable(body, t);
      ExprLexable(ASSIGNMENT, c, Sym(T.RParen, PrintStmt(body, t)));
    case For(clauses, body) =>
      StmtLexable(body, t);
      ClausesLexable(clauses, PrintStmt(body, t));
    case Return(r) => OptionalLexable(r, T.Semicolon, t);
    case Break =>
    case Continue =>
    case Block(stmts) => ItemsLexable(stmts, t);
    case Decl(_, _, _, _) => DeclLexable(s, Sym(T.Semicolon, t));
    case ExprStmt(e) => ExprLexable(ASSIGNMENT, e, Sym(T.Semicolon, t));
  }

  lemma {:induction false} ItemsLexable(ss: seq<Stmt>, t: Stream)
    requires WfStmts(ss) && AllLexable(t)
    ensures AllLexable(PrintItems(ss, t))
    decreases ss, 1
  {
    if ss != [] {
      ItemsLexable(ss[1..], t);
      StmtLexable(ss[0], PrintItems(ss[1..], t));
    }
  }

  lemma {:induction false} ParamsLexable(ps: seq<Param>, t: Stream)
    requires ps != [] && WfParams(ps) && AllLexable(t)
    ensures AllLexable(PrintParams(ps, t))
  {
    if |ps| > 1 {
      ParamsLexable(ps[1..], t);
    }
    TypeLexable(ps[0].ty, Name(ps[0].name, if |ps| == 1 then t else Sym(T.Comma, PrintParams(ps[1..], t))));
  }

  lemma TopLexable(d: TopLevel, t: Stream)
    requires WfTop(d) && AllLexable(t)
    ensures AllLexable(PrintTop(d, t))
  {
    match d
    case Function(name, params, ret, body, _) =>
      var rest := Sym(T.Arrow, PrintType(ret, PrintStmt(body, t)));
      StmtLexable(body, t);
      TypeLexable(ret, PrintStmt(body, t));
      if params != [] {
        ParamsLexable(params, Sym(T.RParen, rest));
      }
      assert AllLexable(Sym(T.LParen, PrintParameters(params, rest)));
    case Global(decl) => DeclLexable(decl, Sym(T.Semicolon, t));
  }

  lemma {:induction false} ProgramLexable(ds: seq<TopLevel>)
    requires WfProgram(ds)
    ensures AllLexable(PrintProgram(ds))
  {
    if ds != [] {
      ProgramLexable(ds[1..]);
      TopLexable(ds[0], PrintProgram(ds[1..]));
    }
  }

  // ---------- source text ----------

  lemma {:induction false} LexableClean(ts: Stream)
    requires AllLexable(ts)
    ensures Clean(ts)
  {
    if ts.More? {
      LexableClean(ts.later);
    }
  }

  /** Every tree the parser can build has a source text that it parses back from. */
  lemma TextRoundTrip(bits: FloatBits, ds: seq<TopLevel>)
    requires WfProgram(ds)
    ensures ParseText(bits, Render(PrintProgram(ds))) == Some(ds)
  {
    ProgramLexable(ds);
    RenderRoundTrip(bits, PrintProgram(ds));
    LexableClean(PrintProgram(ds));
    ProgramRoundTrip(ds);
  }

  /** So it is however the tokens are laid out, with any blanks and line comments in front of them and between them. */
  lemma LayoutParses(bits: FloatBits, ds: seq<TopLevel>, lead: seq<Gap>, gss: seq<seq<Gap>>)
    requires WfProgram(ds) && GapsOk(lead) && Spaced(gss) && |gss| == PrintProgram(ds).Size()
    ensures ParseText(bits, GapsText(lead) + Layout(PrintProgram(ds), gss)) == Some(ds)
  {
    var ts := PrintProgram(ds);
    ProgramLexable(ds);
    LayoutRoundTrip(bits, ts, gss);
    GapsSkipped(bits, lead, Layout(ts, gss));
    LexableClean(ts);
    ProgramRoundTrip(ds);
  }

  /** Any accepted text can be printed again from its tree without changing the tree. */
  lemma AcceptedTextReprints(bits: FloatBits, text: string)
    requires ParseText(bits, text).Some? && NumbersFit(LexAll(bits, text))
    ensures var ds := ParseText(bits, text).value;
      WfProgram(ds) && ParseText(bits, Render(PrintProgram(ds))) == Some(ds)
  {
    LexedLexable(bits, text);
    TextRoundTrip(bits, ParseText(bits, text).value);
  }
}
