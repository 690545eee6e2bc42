/**
 Printing trees as tokens with as few parentheses as possible, and the round trip
 through the parser.  Every function takes the tokens that follow and puts the
 printed ones in front.
 */
module Printer {
  import opened Words
  import opened Ast
  import opened Lexing
  import opened Grammar
  import T = Tokens

  function Sym(p: T.Punct, t: Stream): Stream {
    T.More(T.Pun(p), t)
  }

  function Key(r: T.Reserved, t: Stream): Stream {
    T.More(T.Res(r), t)
  }

  function Name(n: string, t: Stream): Stream {
    T.More(T.Ident(n), t)
  }

  // ---------- expressions ----------

  /** The tightest level at which an expression stands without parentheses. */
  function Prec(e: Expr): nat {
    match e
    case Assign(_, _, _) => ASSIGNMENT
    case Binary(op, _, _) => Level(op)
    case Unary(_, _) | SizeofType(_) | SizeofExpr(_) => UNARY
    case Call(_, _) | Index(_, _) | Member(_, _) => POSTFIX
    case Number(_) | Str(_) | Null | Ident(_, _) => PRIMARY
  }

  function PrintType(ty: TypeExpr, t: Stream): Stream {
    match ty
    case Base(b) => Key(BaseToken(b), t)
    case Pointer(to) => PrintType(to, Sym(T.Star, t))
  }

  function Print(level: nat, e: Expr, t: Stream): Stream
    decreases e, 1
  {
    if Prec(e) < level then Sym(T.LParen, Bare(e, Sym(T.RParen, t))) else Bare(e, t)
  }

  function Bare(e: Expr, t: Stream): Stream
    decreases e, 0
  {
    match e
    case Number(v) => T.More(T.Number(v), t)
    case Str(text) => T.More(T.Str(text), t)
    case Null => Key(T.Nuww, t)
    case Ident(name, _) => Name(name, t)
    case Binary(op, l, r) => Print(Level(op), l, Sym(BinaryToken(op), Print(Level(op) + 1, r, t)))
    case Unary(op, x) => Sym(UnaryToken(op), Print(UNARY, x, t))
    case Assign(op, x, v) => Print(LOWEST_BINARY, x, Sym(AssignToken(op), Print(ASSIGNMENT, v, t)))
    case SizeofType(ty) => Key(T.Sizeof, Sym(T.LParen, PrintType(ty, Sym(T.RParen, t))))
    case SizeofExpr(x) => Key(T.Sizeof, Sym(T.LParen, Print(ASSIGNMENT, x, Sym(T.RParen, t))))
    case Call(f, args) =>
      Print(POSTFIX, f, Sym(T.LParen, if args == [] then Sym(T.RParen, t) else PrintArgs(args, Sym(T.RParen, t))))
    case Index(a, i) => Print(POSTFIX, a, Sym(T.LBracket, Print(ASSIGNMENT, i, Sym(T.RBracket, t))))
    case Member(o, field) => Print(POSTFIX, o, Sym(T.Dot, Name(field, t)))
  }

  function PrintArgs(args: seq<Expr>, t: Stream): Stream
    requires args != []
    decreases args, 2
  {
    Print(ASSIGNMENT, args[0], if |args| == 1 then t else Sym(T.Comma, PrintArgs(args[1..], t)))
  }

  /** The token cannot continue an expression that was parsed at `level`. */
  predicate Stops(level: nat, t: T.Token) {
    && !StartsPostfix(t)
    && (BinaryOf(t).Some? ==> Level(BinaryOf(t).value) < level)
    && (level == ASSIGNMENT ==> AssignOf(t).None?)
  }

  lemma BinaryTokens(op: BinaryOp)
    ensures var t := T.Pun(BinaryToken(op));
      BinaryOf(t) == Some(op) && AssignOf(t).None? && !StartsPostfix(t) && t != T.Pun(T.Colon)
  {
  }

  lemma UnaryTokens(op: UnaryOp)
    ensures UnaryOf(T.Pun(UnaryToken(op))) == Some(op)
  {
  }

  lemma AssignTokens(op: AssignOp)
    ensures var t := T.Pun(AssignToken(op));
      AssignOf(t) == Some(op) && BinaryOf(t).None? && !StartsPostfix(t) && t != T.Pun(T.Colon)
  {
  }

  lemma {:induction false} TypeRoundTrip(ty: TypeExpr, t: Stream)
    ensures ParseType(PrintType(ty, t)) == ParseStars(ty, t)
    decreases ty
  {
    if ty.Pointer? {
      TypeRoundTrip(ty.to, Sym(T.Star, t));
    }
  }

  predicate StartsPrimary(t: T.Token) {
    t.Number? || t.Str? || t == T.Res(T.Nuww) || t.Ident? || t == T.Pun(T.LParen)
  }

  predicate StartsExpr(t: T.Token) {
    StartsPrimary(t) || UnaryOf(t).Some? || t == T.Res(T.Sizeof)
  }

  /** How a printed expression begins; in particular never like a declaration. */
  lemma {:induction false} PrintStart(level: nat, e: Expr, t: Stream)
    ensures var s := Print(level, e, t);
      && StartsExpr(s.Head()) && BaseOf(s.Head()).None?
      && ((level >= POSTFIX || (Prec(e) != UNARY && level >= UNARY)) ==> StartsPrimary(s.Head()))
      && (t.Head() != T.Pun(T.Colon) ==> !StartsDecl(s))
    decreases e
  {
    if Prec(e) >= level {
      match e
      case Binary(op, l, r) =>
        BinaryTokens(op);
        PrintStart(Level(op), l, Sym(BinaryToken(op), Print(Level(op) + 1, r, t)));
      case Assign(op, x, v) =>
        AssignTokens(op);
        PrintStart(LOWEST_BINARY, x, Sym(AssignToken(op), Print(ASSIGNMENT, v, t)));
      case Call(f, args) =>
        PrintStart(POSTFIX, f,
          Sym(T.LParen, if args == [] then Sym(T.RParen, t) else PrintArgs(args, Sym(T.RParen, t))));
      case Index(a, i) =>
        PrintStart(POSTFIX, a, Sym(T.LBracket, Print(ASSIGNMENT, i, Sym(T.RBracket, t))));
      case Member(o, field) => PrintStart(POSTFIX, o, Sym(T.Dot, Name(field, t)));
      case Unary(op, _) => UnaryTokens(op);
      case Number(_) | Str(_) | Null | Ident(_, _) | SizeofType(_) | SizeofExpr(_) =>
    }
  }

  // Where a printed expression stands on its way through the levels of the parser.
  function Distance(level: nat, e: Expr): nat
    requires level <= PRIMARY
  {
    if Prec(e) < level then 40 - level else 20 - level
  }

  lemma {:induction false} ExprRoundTrip(e: Expr, t: Stream)
    requires WfExpr(e) && Stops(ASSIGNMENT, t.Head())
    ensures ParseExpr(Print(ASSIGNMENT, e, t)) == Ok(e, t)
    decreases e, Distance(ASSIGNMENT, e), 0
  {
    if e.Assign? {
      AssignTokens(e.aop);
      var right := Print(ASSIGNMENT, e.source, t);
      LevelRoundTrip(LOWEST_BINARY, e.target, Sym(AssignToken(e.aop), right));
      ExprRoundTrip(e.source, t);
    } else {
      LevelRoundTrip(LOWEST_BINARY, e, t);
    }
  }

  /** Parsing at a level reads the printed operand and goes on with what follows it. */
  lemma {:induction false} LevelRoundTrip(level: nat, e: Expr, t: Stream)
    requires LOWEST_BINARY <= level < UNARY && WfExpr(e) && Stops(level + 1, t.Head())
    ensures ParseBinary(level, Print(level, e, t)) == ParseTail(level, e, t)
    decreases e, Distance(level, e), 0
  {
    if e.Binary? && Level(e.op) == level {
      ChainRoundTrip(level, e.op, e.left, e.right, t);
    } else {
      OperandRoundTrip(level + 1, e, t);
      SameAbove(level, e, t);
      Descend(level, Print(level + 1, e, t), e, t);
    }
  }

  lemma SameAbove(level: nat, e: Expr, t: Stream)
    requires Prec(e) != level
    ensures Print(level, e, t) == Print(level + 1, e, t)
  {
  }

  lemma Descend(level: nat, s: Stream, e: Expr, rest: Stream)
    requires LOWEST_BINARY <= level < UNARY && ParseBinary(level + 1, s) == Ok(e, rest)
    ensures ParseBinary(level, s) == ParseTail(level, e, rest)
  {
  }

  lemma TailStops(level: nat, e: Expr, t: Stream)
    requires LOWEST_BINARY <= level < UNARY && Stops(level, t.Head())
    ensures ParseTail(level, e, t) == Ok(e, t)
  {
  }

  lemma TailStep(op: BinaryOp, l: Expr, r: Expr, s: Stream, rest: Stream)
    requires ParseBinary(Level(op) + 1, s) == Ok(r, rest)
    ensures ParseTail(Level(op), l, Sym(BinaryToken(op), s)) == ParseTail(Level(op), Binary(op, l, r), rest)
  {
    BinaryTokens(op);
  }

  lemma {:induction false} OperandRoundTrip(level: nat, e: Expr, t: Stream)
    requires LOWEST_BINARY <= level <= UNARY && WfExpr(e) && Stops(level, t.Head())
    ensures ParseBinary(level, Print(level, e, t)) == Ok(e, t)
    decreases e, Distance(level, e), 1
  {
    if level == UNARY {
      UnaryRoundTrip(e, t);
    } else {
      LevelRoundTrip(level, e, t);
      TailStops(level, e, t);
    }
  }

  lemma BinaryPrinted(op: BinaryOp, l: Expr, r: Expr, t: Stream)
    ensures Print(Level(op), Binary(op, l, r), t)
         == Print(Level(op), l, Sym(BinaryToken(op), Print(Level(op) + 1, r, t)))
  {
  }

  lemma {:induction false} ChainRoundTrip(level: nat, op: BinaryOp, l: Expr, r: Expr, t: Stream)
    requires LOWEST_BINARY <= level < UNARY && Level(op) == level
    requires WfExpr(l) && WfExpr(r) && Stops(level + 1, t.Head())
    ensures ParseBinary(level, Print(level, Binary(op, l, r), t)) == ParseTail(level, Binary(op, l, r), t)
    decreases Binary(op, l, r), 0
  {
    var right := Print(level + 1, r, t);
    BinaryTokens(op);
    BinaryPrinted(op, l, r, t);
    LevelRoundTrip(level, l, Sym(BinaryToken(op), right));
    OperandRoundTrip(level + 1, r, t);
    TailStep(op, l, r, right, t);
  }

  lemma {:induction false} UnaryRoundTrip(e: Expr, t: Stream)
    requires WfExpr(e) && !StartsPostfix(t.Head())
    ensures ParseUnary(Print(UNARY, e, t)) == Ok(e, t)
    decreases e, Distance(UNARY, e), 0
  {
    hide ParseUnary, Print, ParseExpr, ParsePostfix, PostfixTail, Lexable;
    if e.Unary? {
      UnaryRoundTrip(e.operand, t);
      UnaryStep(e.uop, e.operand, t);
    } else if e.SizeofType? {
      SizeofTypeRoundTrip(e.ty, t);
    } else if e.SizeofExpr? {
      ExprRoundTrip(e.sized, Sym(T.RParen, t));
      SizeofExprStep(e.sized, t);
    } else {
      PostfixRoundTrip(e, t);
      UnaryIsPostfix(e, t);
    }
  }

  lemma UnaryIsPostfix(e: Expr, t: Stream)
    requires WfExpr(e) && !StartsPostfix(t.Head()) && !e.Unary? && !e.SizeofType? && !e.SizeofExpr?
    requires ParsePostfix(Print(POSTFIX, e, t)) == PostfixTail(e, t)
    ensures ParseUnary(Print(UNARY, e, t)) == Ok(e, t)
  {
    hide ParseExpr, ParsePostfix, Lexable;
    PrintStart(UNARY, e, t);
  }

  lemma UnaryStep(op: UnaryOp, e: Expr, t: Stream)
    requires ParseUnary(Print(UNARY, e, t)) == Ok(e, t)
    ensures ParseUnary(Print(UNARY, Unary(op, e), t)) == Ok(Unary(op, e), t)
  {
    hide ParseExpr, ParsePostfix;
    UnaryTokens(op);
  }

  lemma SizeofTypeRoundTrip(ty: TypeExpr, t: Stream)
    ensures ParseUnary(Print(UNARY, SizeofType(ty), t)) == Ok(SizeofType(ty), t)
  {
    TypeRoundTrip(ty, Sym(T.RParen, t));
    TypeStart(ty, Sym(T.RParen, t));
  }

  lemma SizeofExprStep(e: Expr, t: Stream)
    requires ParseExpr(Print(ASSIGNMENT, e, Sym(T.RParen, t))) == Ok(e, Sym(T.RParen, t))
    ensures ParseUnary(Print(UNARY, SizeofExpr(e), t)) == Ok(SizeofExpr(e), t)
  {
    hide ParseExpr, ParsePostfix;
    PrintStart(ASSIGNMENT, e, Sym(T.RParen, t));
  }

  lemma {:induction false} TypeStart(ty: TypeExpr, t: Stream)
    ensures BaseOf(PrintType(ty, t).Head()).Some?
  {
    if ty.Pointer? {
      TypeStart(ty.to, Sym(T.Star, t));
    }
  }

  lemma {:induction false} PostfixRoundTrip(e: Expr, t: Stream)
    requires WfExpr(e)
    ensures ParsePostfix(Print(POSTFIX, e, t)) == PostfixTail(e, t)
    decreases e, Distance(POSTFIX, e), 0
  {
    if e.Call? {
      CallRoundTrip(e.callee, e.args, t);
    } else if e.Index? {
      ExprRoundTrip(e.index, Sym(T.RBracket, t));
      PostfixRoundTrip(e.indexed, Sym(T.LBracket, Print(ASSIGNMENT, e.index, Sym(T.RBracket, t))));
    } else if e.Member? {
      PostfixRoundTrip(e.whole, Sym(T.Dot, Name(e.field, t)));
    } else {
      PrimaryRoundTrip(e, t);
    }
  }

  lemma {:induction false} CallRoundTrip(f: Expr, args: seq<Expr>, t: Stream)
    requires WfExpr(f) && |args| <= MAX_ARGS && WfExprs(args)
    ensures ParsePostfix(Bare(Call(f, args), t)) == PostfixTail(Call(f, args), t)
    decreases Call(f, args), 0
  {
    var inside := if args == [] then Sym(T.RParen, t) else PrintArgs(args, Sym(T.RParen, t));
    CallPrinted(f, args, inside, t);
    PostfixRoundTrip(f, Sym(T.LParen, inside));
    if args != [] {
      ArgsRoundTrip(0, args, Sym(T.RParen, t));
      ArgsStart(args, Sym(T.RParen, t));
      ArgumentsClose(inside, args, t);
    }
    CallStep(f, args, inside, t);
  }

  lemma CallPrinted(f: Expr, args: seq<Expr>, inside: Stream, t: Stream)
    requires inside == if args == [] then Sym(T.RParen, t) else PrintArgs(args, Sym(T.RParen, t))
    ensures Bare(Call(f, args), t) == Print(POSTFIX, f, Sym(T.LParen, inside))
  {
  }

  lemma ArgsStart(args: seq<Expr>, t: Stream)
    requires args != []
    ensures StartsExpr(PrintArgs(args, t).Head())
  {
    PrintStart(ASSIGNMENT, args[0], if |args| == 1 then t else Sym(T.Comma, PrintArgs(args[1..], t)));
  }

  lemma ArgumentsClose(s: Stream, args: seq<Expr>, t: Stream)
    requires ParseArgs(0, s) == Ok(args, Sym(T.RParen, t)) && s.Head() != T.Pun(T.RParen)
    ensures ParseArguments(s) == Ok(args, t)
  {
  }

  lemma CallStep(f: Expr, args: seq<Expr>, s: Stream, t: Stream)
    requires ParseArguments(s) == Ok(args, t)
    ensures PostfixTail(f, Sym(T.LParen, s)) == PostfixTail(Call(f, args), t)
  {
  }

  lemma {:induction false} ArgsRoundTrip(count: nat, args: seq<Expr>, t: Stream)
    requires args != [] && WfExprs(args) && count + |args| <= MAX_ARGS && t.Head() == T.Pun(T.RParen)
    ensures ParseArgs(count, PrintArgs(args, t)) == Ok(args, t)
    decreases args, 100
  {
    hide ParseArgs, ParseExpr, Print, WfExpr;
    if |args| == 1 {
      ExprRoundTrip(args[0], t);
      LastArg(count, args[0], PrintArgs(args, t), t);
      assert args == [args[0]];
    } else {
      var rest := PrintArgs(args[1..], t);
      ExprRoundTrip(args[0], Sym(T.Comma, rest));
      ArgsRoundTrip(count + 1, args[1..], t);
      OneMoreArg(count, args[0], PrintArgs(args, t), args[1..], rest, t);
      assert args == [args[0]] + args[1..];
    }
  }

  lemma LastArg(count: nat, e: Expr, s: Stream, t: Stream)
    requires count < MAX_ARGS && ParseExpr(s) == Ok(e, t) && t.Head() == T.Pun(T.RParen)
    ensures ParseArgs(count, s) == Ok([e], t)
  {
    hide ParseExpr;
  }

  lemma OneMoreArg(count: nat, e: Expr, s: Stream, more: seq<Expr>, rest: Stream, t: Stream)
    requires count < MAX_ARGS && ParseExpr(s) == Ok(e, Sym(T.Comma, rest)) && ParseArgs(count + 1, rest) == Ok(more, t)
    ensures ParseArgs(count, s) == Ok([e] + more, t)
  {
    hide ParseExpr;
  }

  lemma {:induction false} PrimaryRoundTrip(e: Expr, t: Stream)
    requires WfExpr(e)
    ensures ParsePrimary(Print(PRIMARY, e, t)) == Ok(e, t)
    decreases e, Distance(PRIMARY, e), 0
  {
    if Prec(e) < PRIMARY {
      ExprRoundTrip(e, Sym(T.RParen, t));
    }
  }
}
