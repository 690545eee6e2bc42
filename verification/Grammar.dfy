/**
 The grammar that src/parser_new.c accepts, as functions from the tokens still to
 come to a tree and the tokens behind it.  Every syntax error ends the compiler
 (src/util.c), so there is one failure and no recovery.
 */
module Grammar {
  import opened Words
  import opened Ast
  import opened Lexing
  import T = Tokens

  type Stream = T.Stream

  datatype Parse<X> = Ok(tree: X, rest: Stream) | Fail {
    predicate IsFailure() { Fail? }

    function PropagateFailure<Y>(): Parse<Y>
      requires Fail?
    {
      Fail
    }

    function Extract(): Parse<X>
      requires Ok?
    {
      this
    }
  }

  const MAX_ARGS: nat := 255

  // ---------- operators ----------

  const ASSIGNMENT: nat := 0
  const LOWEST_BINARY: nat := 1
  const UNARY: nat := 11
  const POSTFIX: nat := 12
  const PRIMARY: nat := 13

  // Tightness of a binary operator: one level per parse function.
  function Level(op: BinaryOp): (n: nat)
    ensures LOWEST_BINARY <= n < UNARY
  {
    match op
    case LogicalOr => 1
    case LogicalAnd => 2
    case BitOrOp => 3
    case BitXorOp => 4
    case BitAndOp => 5
    case Equal | NotEqual => 6
    case Less | Greater | LessEq | GreaterEq => 7
    case ShiftLeft | ShiftRight => 8
    case Plus | Minus => 9
    case Times | Divide | Modulo => 10
  }

  function BinaryToken(op: BinaryOp): T.Punct {
    match op
    case LogicalOr => T.OrOr
    case LogicalAnd => T.AndAnd
    case BitOrOp => T.Pipe
    case BitXorOp => T.Caret
    case BitAndOp => T.Amp
    case Equal => T.EqEq
    case NotEqual => T.NotEq
    case Less => T.LAngle
    case Greater => T.RAngle
    case LessEq => T.LtEq
    case GreaterEq => T.GtEq
    case ShiftLeft => T.LShift
    case ShiftRight => T.RShift
    case Plus => T.Plus
    case Minus => T.Minus
    case Times => T.Star
    case Divide => T.Slash
    case Modulo => T.Percent
  }

  function BinaryOf(t: T.Token): (r: Option<BinaryOp>)
    ensures r.Some? ==> t == T.Pun(BinaryToken(r.value))
  {
    if !t.Pun? then None else
      match t.p
      case OrOr => Some(LogicalOr)
      case AndAnd => Some(LogicalAnd)
      case Pipe => Some(BitOrOp)
      case Caret => Some(BitXorOp)
      case Amp => Some(BitAndOp)
      case EqEq => Some(Equal)
      case NotEq => Some(NotEqual)
      case LAngle => Some(Less)
      case RAngle => Some(Greater)
      case LtEq => Some(LessEq)
      case GtEq => Some(GreaterEq)
      case LShift => Some(ShiftLeft)
      case RShift => Some(ShiftRight)
      case Plus => Some(BinaryOp.Plus)
      case Minus => Some(BinaryOp.Minus)
      case Star => Some(Times)
      case Slash => Some(Divide)
      case Percent => Some(Modulo)
      case _ => None
  }

  function UnaryToken(op: UnaryOp): T.Punct {
    match op
    case LogicalNot => T.Bang
    case Minus1 => T.Minus
    case Tilde => T.Tilde
    case AddressOf => T.Amp
    case Deref => T.Star
  }

  function UnaryOf(t: T.Token): (r: Option<UnaryOp>)
    ensures r.Some? ==> t == T.Pun(UnaryToken(r.value))
  {
    if !t.Pun? then None else
      match t.p
      case Bang => Some(LogicalNot)
      case Minus => Some(Minus1)
      case Tilde => Some(UnaryOp.Tilde)
      case Amp => Some(AddressOf)
      case Star => Some(Deref)
      case _ => None
  }

  function AssignToken(op: AssignOp): T.Punct {
    match op
    case Set => T.Assign
    case PlusSet => T.PlusEq
    case MinusSet => T.MinusEq
    case TimesSet => T.StarEq
    case DivideSet => T.SlashEq
  }

  function AssignOf(t: T.Token): (r: Option<AssignOp>)
    ensures r.Some? ==> t == T.Pun(AssignToken(r.value))
  {
    if !t.Pun? then None else
      match t.p
      case Assign => Some(Set)
      case PlusEq => Some(PlusSet)
      case MinusEq => Some(MinusSet)
      case StarEq => Some(TimesSet)
      case SlashEq => Some(DivideSet)
      case _ => None
  }

  function BaseToken(b: BaseType): T.Reserved {
    match b
    case Chonk => T.Chonk
    case Smol => T.Smol
    case Megachonk => T.Megachonk
    case Floof => T.Floof
    case Bigfloof => T.Bigfloof
    case Boop => T.Boop
    case Byte => T.Byte
    case Void => T.Void
  }

  function BaseOf(t: T.Token): (r: Option<BaseType>)
    ensures r.Some? ==> t == T.Res(BaseToken(r.value))
  {
    if !t.Res? then None else
      match t.r
      case Chonk => Some(BaseType.Chonk)
      case Smol => Some(BaseType.Smol)
      case Megachonk => Some(BaseType.Megachonk)
      case Floof => Some(BaseType.Floof)
      case Bigfloof => Some(BaseType.Bigfloof)
      case Boop => Some(BaseType.Boop)
      case Byte => Some(BaseType.Byte)
      case Void => Some(BaseType.Void)
      case _ => None
  }

  // ---------- the trees the parser can build ----------

  predicate WfExpr(e: Expr) {
    match e
    case Number(v) => Lexable(T.Number(v))
    case Str(text) => Lexable(T.Str(text))
    case Null => true
    case Ident(name, slot) => Lexable(T.Ident(name)) && slot == 0
    case Binary(_, l, r) => WfExpr(l) && WfExpr(r)
    case Unary(_, x) => WfExpr(x)
    case Assign(_, x, v) => WfExpr(x) && WfExpr(v)
    case SizeofType(_) => true
    case SizeofExpr(x) => WfExpr(x)
    case Call(f, args) => WfExpr(f) && |args| <= MAX_ARGS && WfExprs(args)
    case Index(a, i) => WfExpr(a) && WfExpr(i)
    case Member(o, field) => WfExpr(o) && Lexable(T.Ident(field))
  }

  predicate WfExprs(es: seq<Expr>) {
    es != [] ==> WfExpr(es[0]) && WfExprs(es[1..])
  }

  predicate WfDecl(s: Stmt) {
    s.Decl? && Lexable(T.Ident(s.name)) && s.slot == 0 && (s.init.Some? ==> WfExpr(s.init.value))
  }

  /** Does the statement end in a `pwease` that a following `nowu` would join? */
  predicate EndsOpen(s: Stmt) {
    match s
    case If(_, _, els) => els.None? || EndsOpen(els.value)
    case While(_, body) => EndsOpen(body)
    case For(_, body) => EndsOpen(body)
    case Return(_) => false
    case Break => false
    case Continue => false
    case Block(_) => false
    case Decl(_, _, _, _) => false
    case ExprStmt(_) => false
  }

  predicate WfClause(c: Stmt, first: bool) {
    (first && WfDecl(c)) || (c.ExprStmt? && WfExpr(c.expr))
  }

  predicate WfClauses(cs: seq<Stmt>) {
    |cs| <= 3 && forall i | 0 <= i < |cs| :: WfClause(cs[i], i == 0)
  }

  predicate WfStmt(s: Stmt) {
    match s
    case If(c, thn, els) =>
      WfExpr(c) && WfStmt(thn) && (els.Some? ==> !EndsOpen(thn) && WfStmt(els.value))
    case While(c, body) => WfExpr(c) && WfStmt(body)
    case For(clauses, body) => WfClauses(clauses) && WfStmt(body)
    case Return(r) => r.Some? ==> WfExpr(r.value)
    case Break => true
    case Continue => true
    case Block(stmts) => WfStmts(stmts)
    case Decl(_, _, _, _) => WfDecl(s)
    case ExprStmt(e) => WfExpr(e)
  }

  predicate WfStmts(ss: seq<Stmt>) {
    ss != [] ==> WfStmt(ss[0]) && WfStmts(ss[1..])
  }

  predicate WfParams(ps: seq<Param>) {
    ps != [] ==> Lexable(T.Ident(ps[0].name)) && ps[0].slot == 0 && WfParams(ps[1..])
  }

  predicate WfTop(d: TopLevel) {
    match d
    case Function(name, params, _, body, locals) =>
      && Lexable(T.Ident(name)) && |params| <= MAX_ARGS && WfParams(params)
      && body.Block? && WfStmt(body) && locals == 0
    case Global(decl) => WfDecl(decl)
  }

  predicate WfProgram(ds: seq<TopLevel>) {
    ds != [] ==> WfTop(ds[0]) && WfProgram(ds[1..])
  }

  // ---------- tokens ----------

  function Expect(p: T.Punct, s: Stream): (r: Parse<()>)
    ensures r.Ok? ==> r.rest.Size() < s.Size() && (AllLexable(s) ==> AllLexable(r.rest))
  {
    if s.Head() == T.Pun(p) then Ok((), s.Rest()) else Fail
  }

  function ExpectName(s: Stream): (r: Parse<string>)
    ensures r.Ok? ==> r.rest.Size() < s.Size()
    ensures r.Ok? && AllLexable(s) ==> AllLexable(r.rest) && Lexable(T.Ident(r.tree))
  {
    if s.Head().Ident? then Ok(s.Head().name, s.Rest()) else Fail
  }

  predicate StartsDecl(s: Stream) {
    s.Head().Ident? && s.Rest().Head() == T.Pun(T.Colon)
  }

  // ---------- types ----------

  function ParseStars(ty: TypeExpr, s: Stream): (r: Parse<TypeExpr>)
    ensures r.Ok? && r.rest.Size() <= s.Size() && (AllLexable(s) ==> AllLexable(r.rest))
    decreases s.Size()
  {
    if s.Head() == T.Pun(T.Star) then ParseStars(Pointer(ty), s.Rest()) else Ok(ty, s)
  }

  function ParseType(s: Stream): (r: Parse<TypeExpr>)
    ensures r.Ok? ==> r.rest.Size() < s.Size() && (AllLexable(s) ==> AllLexable(r.rest))
  {
    var b := BaseOf(s.Head());
    if b.None? then Fail else ParseStars(Base(b.value), s.Rest())
  }

  // ---------- expressions ----------

  function ParseExpr(s: Stream): (r: Parse<Expr>)
    ensures r.Ok? ==> r.rest.Size() < s.Size() && (AllLexable(s) ==> AllLexable(r.rest) && WfExpr(r.tree))
    decreases s.Size(), 15
  {
    var l :- ParseBinary(LOWEST_BINARY, s);
    var op := AssignOf(l.rest.Head());
    if op.None? then l
    else
      var v :- ParseExpr(l.rest.Rest());
      Ok(Assign(op.value, l.tree, v.tree), v.rest)
  }

  function ParseBinary(level: nat, s: Stream): (r: Parse<Expr>)
    requires LOWEST_BINARY <= level <= UNARY
    ensures r.Ok? ==> r.rest.Size() < s.Size() && (AllLexable(s) ==> AllLexable(r.rest) && WfExpr(r.tree))
    decreases s.Size(), 14 - level
  {
    if level == UNARY then ParseUnary(s)
    else
      var l :- ParseBinary(level + 1, s);
      ParseTail(level, l.tree, l.rest)
  }

  /** The rest of a left-associative chain whose left operand has been read. */
  function ParseTail(level: nat, left: Expr, s: Stream): (r: Parse<Expr>)
    requires LOWEST_BINARY <= level < UNARY
    ensures r.Ok? ==> r.rest.Size() <= s.Size()
    ensures r.Ok? && AllLexable(s) && WfExpr(left) ==> AllLexable(r.rest) && WfExpr(r.tree)
    decreases s.Size(), 0
  {
    var op := BinaryOf(s.Head());
    if op.None? || Level(op.value) != level then Ok(left, s)
    else
      var r :- ParseBinary(level + 1, s.Rest());
      ParseTail(level, Binary(op.value, left, r.tree), r.rest)
  }

  function ParseUnary(s: Stream): (r: Parse<Expr>)
    ensures r.Ok? ==> r.rest.Size() < s.Size() && (AllLexable(s) ==> AllLexable(r.rest) && WfExpr(r.tree))
    decreases s.Size(), 2
  {
    var op := UnaryOf(s.Head());
    if op.Some? then
      var x :- ParseUnary(s.Rest());
      Ok(Unary(op.value, x.tree), x.rest)
    else if s.Head() == T.Res(T.Sizeof) then ParseSizeof(s.Rest())
    else ParsePostfix(s)
  }

  function ParseSizeof(s: Stream): (r: Parse<Expr>)
    ensures r.Ok? ==> r.rest.Size() < s.Size() && (AllLexable(s) ==> AllLexable(r.rest) && WfExpr(r.tree))
    decreases s.Size(), 0
  {
    var open :- Expect(T.LParen, s);
    if BaseOf(open.rest.Head()).Some? then
      var ty :- ParseType(open.rest);
      var close :- Expect(T.RParen, ty.rest);
      Ok(SizeofType(ty.tree), close.rest)
    else
      var e :- ParseExpr(open.rest);
      var close :- Expect(T.RParen, e.rest);
      Ok(SizeofExpr(e.tree), close.rest)
  }

  function ParsePostfix(s: Stream): (r: Parse<Expr>)
    ensures r.Ok? ==> r.rest.Size() < s.Size() && (AllLexable(s) ==> AllLexable(r.rest) && WfExpr(r.tree))
    decreases s.Size(), 1
  {
    var x :- ParsePrimary(s);
    PostfixTail(x.tree, x.rest)
  }

  /** The calls, indexings and member accesses behind a primary expression. */
  function PostfixTail(left: Expr, s: Stream): (r: Parse<Expr>)
    ensures r.Ok? ==> r.rest.Size() <= s.Size()
    ensures r.Ok? && AllLexable(s) && WfExpr(left) ==> AllLexable(r.rest) && WfExpr(r.tree)
    decreases s.Size(), 1
  {
    if !StartsPostfix(s.Head()) then Ok(left, s)
    else
      var x :- PostfixStep(left, s);
      PostfixTail(x.tree, x.rest)
  }

  predicate StartsPostfix(t: T.Token) {
    t == T.Pun(T.LParen) || t == T.Pun(T.LBracket) || t == T.Pun(T.Dot)
  }

  function PostfixStep(left: Expr, s: Stream): (r: Parse<Expr>)
    requires StartsPostfix(s.Head())
    ensures r.Ok? ==> r.rest.Size() < s.Size()
    ensures r.Ok? && AllLexable(s) && WfExpr(left) ==> AllLexable(r.rest) && WfExpr(r.tree)
    decreases s.Size(), 0
  {
    if s.Head() == T.Pun(T.LParen) then
      var args :- ParseArguments(s.Rest());
      Ok(Call(left, args.tree), args.rest)
    else if s.Head() == T.Pun(T.LBracket) then
      var i :- ParseExpr(s.Rest());
      var close :- Expect(T.RBracket, i.rest);
      Ok(Index(left, i.tree), close.rest)
    else
      var field :- ExpectName(s.Rest());
      Ok(Member(left, field.tree), field.rest)
  }

  // The arguments of a call and its closing parenthesis.
  function ParseArguments(s: Stream): (r: Parse<seq<Expr>>)
    ensures r.Ok? ==> r.rest.Size() < s.Size() && |r.tree| <= MAX_ARGS
    ensures r.Ok? && AllLexable(s) ==> AllLexable(r.rest) && WfExprs(r.tree)
    decreases s.Size(), 17
  {
    if s.Head() == T.Pun(T.RParen) then Ok([], s.Rest())
    else
      var args :- ParseArgs(0, s);
      var close :- Expect(T.RParen, args.rest);
      Ok(args.tree, close.rest)
  }

  function ParseArgs(count: nat, s: Stream): (r: Parse<seq<Expr>>)
    requires count <= MAX_ARGS
    ensures r.Ok? ==> r.rest.Size() < s.Size() && count + |r.tree| <= MAX_ARGS
    ensures r.Ok? && AllLexable(s) ==> AllLexable(r.rest) && WfExprs(r.tree)
    decreases s.Size(), 16
  {
    if count == MAX_ARGS then Fail
    else
      var e :- ParseExpr(s);
      if e.rest.Head() == T.Pun(T.Comma) then
        var more :- ParseArgs(count + 1, e.rest.Rest());
        Ok([e.tree] + more.tree, more.rest)
      else Ok([e.tree], e.rest)
  }

  function ParsePrimary(s: Stream): (r: Parse<Expr>)
    ensures r.Ok? ==> r.rest.Size() < s.Size() && (AllLexable(s) ==> AllLexable(r.rest) && WfExpr(r.tree))
    decreases s.Size(), 0
  {
    var t := s.Head();
    if t.Number? then Ok(Number(t.value), s.Rest())
    else if t.Str? then Ok(Str(t.text), s.Rest())
    else if t == T.Res(T.True) then Ok(Number(1), s.Rest())
    else if t == T.Res(T.False) then Ok(Number(0), s.Rest())
    else if t == T.Res(T.Nuww) then Ok(Null, s.Rest())
    else if t.Ident? then Ok(Ident(t.name, 0), s.Rest())
    else if t == T.Pun(T.LParen) then
      var e :- ParseExpr(s.Rest());
      var close :- Expect(T.RParen, e.rest);
      Ok(e.tree, close.rest)
    else Fail
  }

  // ---------- statements ----------

  function ParseVarDecl(s: Stream): (r: Parse<Stmt>)
    ensures r.Ok? ==> r.rest.Size() < s.Size() && r.tree.Decl?
    ensures r.Ok? && AllLexable(s) ==> AllLexable(r.rest) && WfDecl(r.tree)
  {
    var name :- ExpectName(s);
    var colon :- Expect(T.Colon, name.rest);
    var ty :- ParseType(colon.rest);
    if ty.rest.Head() == T.Pun(T.Assign) then
      var e :- ParseExpr(ty.rest.Rest());
      Ok(Decl(name.tree, ty.tree, Some(e.tree), 0), e.rest)
    else Ok(Decl(name.tree, ty.tree, None, 0), ty.rest)
  }

  function ParseDeclStmt(s: Stream): (r: Parse<Stmt>)
    ensures r.Ok? ==> r.rest.Size() < s.Size() && r.tree.Decl?
    ensures r.Ok? && AllLexable(s) ==> AllLexable(r.rest) && WfDecl(r.tree)
  {
    var d :- ParseVarDecl(s);
    var semi :- Expect(T.Semicolon, d.rest);
    Ok(d.tree, semi.rest)
  }

  // An expression that may be missing, and the token that must close it.
  function ParseOptional(close: T.Punct, s: Stream): (r: Parse<Option<Expr>>)
    ensures r.Ok? ==> r.rest.Size() < s.Size()
    ensures r.Ok? && AllLexable(s) ==> AllLexable(r.rest) && (r.tree.Some? ==> WfExpr(r.tree.value))
  {
    if s.Head() == T.Pun(close) then Ok(None, s.Rest())
    else
      var e :- ParseExpr(s);
      var c :- Expect(close, e.rest);
      Ok(Some(e.tree), c.rest)
  }

  function ParseCondition(s: Stream): (r: Parse<Expr>)
    ensures r.Ok? ==> r.rest.Size() < s.Size() && (AllLexable(s) ==> AllLexable(r.rest) && WfExpr(r.tree))
  {
    var open :- Expect(T.LParen, s);
    var e :- ParseExpr(open.rest);
    var close :- Expect(T.RParen, e.rest);
    Ok(e.tree, close.rest)
  }

  function Clause(e: Option<Expr>): seq<Stmt> {
    if e.None? then [] else [ExprStmt(e.value)]
  }

  function ParseClauses(s: Stream): (r: Parse<seq<Stmt>>)
    ensures r.Ok? ==> r.rest.Size() < s.Size()
    ensures r.Ok? && AllLexable(s) ==> AllLexable(r.rest) && WfClauses(r.tree)
  {
    var open :- Expect(T.LParen, s);
    if StartsDecl(open.rest) then
      var d :- ParseDeclStmt(open.rest);
      var c :- ParseOptional(T.Semicolon, d.rest);
      var i :- ParseOptional(T.RParen, c.rest);
      Ok([d.tree] + Clause(c.tree) + Clause(i.tree), i.rest)
    else
      var e :- ParseOptional(T.Semicolon, open.rest);
      var c :- ParseOptional(T.Semicolon, e.rest);
      var i :- ParseOptional(T.RParen, c.rest);
      Ok(Clause(e.tree) + Clause(c.tree) + Clause(i.tree), i.rest)
  }

  function ParseStatement(s: Stream): (r: Parse<Stmt>)
    ensures r.Ok? ==> r.rest.Size() < s.Size()
    ensures r.Ok? && AllLexable(s) ==> AllLexable(r.rest) && WfStmt(r.tree)
    ensures r.Ok? && EndsOpen(r.tree) ==> r.rest.Head() != T.Res(T.Nowu)
    decreases s.Size(), 1
  {
    if IsLeader(s.Head()) then ParseLed(s)
    else if StartsDecl(s) then ParseDeclStmt(s)
    else ParseExprStmt(s)
  }

  // The tokens that tell what statement follows.
  predicate IsLeader(t: T.Token) {
    || t == T.Res(T.Pwease) || t == T.Res(T.Wepeat) || t == T.Res(T.Fow) || t == T.Res(T.Gimme)
    || t == T.Res(T.Bweak) || t == T.Res(T.Continyue) || t == T.Pun(T.LBrace)
  }

  function ParseExprStmt(s: Stream): (r: Parse<Stmt>)
    ensures r.Ok? ==> r.rest.Size() < s.Size() && r.tree.ExprStmt?
    ensures r.Ok? && AllLexable(s) ==> AllLexable(r.rest) && WfStmt(r.tree)
  {
    var e :- ParseExpr(s);
    var semi :- Expect(T.Semicolon, e.rest);
    Ok(ExprStmt(e.tree), semi.rest)
  }

  function ParseLed(s: Stream): (r: Parse<Stmt>)
    requires IsLeader(s.Head())
    ensures r.Ok? ==> r.rest.Size() < s.Size()
    ensures r.Ok? && AllLexable(s) ==> AllLexable(r.rest) && WfStmt(r.tree)
    ensures r.Ok? && EndsOpen(r.tree) ==> r.rest.Head() != T.Res(T.Nowu)
    decreases s.Size(), 0
  {
    var t := s.Head();
    if t == T.Res(T.Pwease) then
      var c :- ParseCondition(s.Rest());
      var thn :- ParseStatement(c.rest);
      if thn.rest.Head() == T.Res(T.Nowu) then
        var els :- ParseStatement(thn.rest.Rest());
        Ok(If(c.tree, thn.tree, Some(els.tree)), els.rest)
      else Ok(If(c.tree, thn.tree, None), thn.rest)
    else if t == T.Res(T.Wepeat) then
      var c :- ParseCondition(s.Rest());
      var body :- ParseStatement(c.rest);
      Ok(While(c.tree, body.tree), body.rest)
    else if t == T.Res(T.Fow) then
      var cs :- ParseClauses(s.Rest());
      var body :- ParseStatement(cs.rest);
      Ok(For(cs.tree, body.tree), body.rest)
    else if t == T.Res(T.Gimme) then
      var e :- ParseOptional(T.Semicolon, s.Rest());
      Ok(Return(e.tree), e.rest)
    else if t == T.Res(T.Bweak) then
      var semi :- Expect(T.Semicolon, s.Rest());
      Ok(Break, semi.rest)
    else if t == T.Res(T.Continyue) then
      var semi :- Expect(T.Semicolon, s.Rest());
      Ok(Continue, semi.rest)
    else
      var b :- ParseItems(s.Rest());
      Ok(Block(b.tree), b.rest)
  }

  // The statements of a block and its closing brace.
  function ParseItems(s: Stream): (r: Parse<seq<Stmt>>)
    ensures r.Ok? ==> r.rest.Size() < s.Size()
    ensures r.Ok? && AllLexable(s) ==> AllLexable(r.rest) && WfStmts(r.tree)
    decreases s.Size(), 2
  {
    if s.Head() == T.Pun(T.RBrace) then Ok([], s.Rest())
    else if s.Done? then Fail
    else
      var first :- ParseStatement(s);
      var more :- ParseItems(first.rest);
      Ok([first.tree] + more.tree, more.rest)
  }

  // ---------- declarations ----------

  function ParseParameters(s: Stream): (r: Parse<seq<Param>>)
    ensures r.Ok? ==> r.rest.Size() < s.Size() && |r.tree| <= MAX_ARGS
    ensures r.Ok? && AllLexable(s) ==> AllLexable(r.rest) && WfParams(r.tree)
  {
    if s.Head() == T.Pun(T.RParen) then Ok([], s.Rest())
    else
      var ps :- ParseParams(0, s);
      var close :- Expect(T.RParen, ps.rest);
      Ok(ps.tree, close.rest)
  }

  function ParseParam(s: Stream): (r: Parse<Param>)
    ensures r.Ok? ==> r.rest.Size() < s.Size() && r.tree.slot == 0
    ensures r.Ok? && AllLexable(s) ==> AllLexable(r.rest) && Lexable(T.Ident(r.tree.name))
  {
    var ty :- ParseType(s);
    var name :- ExpectName(ty.rest);
    Ok(Param(name.tree, ty.tree, 0), name.rest)
  }

  function ParseParams(count: nat, s: Stream): (r: Parse<seq<Param>>)
    requires count <= MAX_ARGS
    ensures r.Ok? ==> r.rest.Size() < s.Size() && count + |r.tree| <= MAX_ARGS
    ensures r.Ok? && AllLexable(s) ==> AllLexable(r.rest) && WfParams(r.tree)
    decreases s.Size()
  {
    if count == MAX_ARGS then Fail
    else
      var p :- ParseParam(s);
      if p.rest.Head() == T.Pun(T.Comma) then
        var more :- ParseParams(count + 1, p.rest.Rest());
        Ok([p.tree] + more.tree, more.rest)
      else Ok([p.tree], p.rest)
  }

  // `void` when there is no arrow.
  function ParseReturnType(s: Stream): (r: Parse<TypeExpr>)
    ensures r.Ok? ==> r.rest.Size() <= s.Size() && (AllLexable(s) ==> AllLexable(r.rest))
  {
    if s.Head() == T.Pun(T.Arrow) then ParseType(s.Rest()) else Ok(Base(Void), s)
  }

  function ParseFunction(s: Stream): (r: Parse<TopLevel>)
    ensures r.Ok? ==> r.rest.Size() < s.Size()
    ensures r.Ok? && AllLexable(s) ==> AllLexable(r.rest) && WfTop(r.tree)
  {
    var name :- ExpectName(s);
    var open :- Expect(T.LParen, name.rest);
    var ps :- ParseParameters(open.rest);
    var ret :- ParseReturnType(ps.rest);
    var brace :- Expect(T.LBrace, ret.rest);
    var body :- ParseItems(brace.rest);
    Ok(Function(name.tree, ps.tree, ret.tree, Block(body.tree), 0), body.rest)
  }

  function ParseDeclaration(s: Stream): (r: Parse<TopLevel>)
    ensures r.Ok? ==> r.rest.Size() < s.Size()
    ensures r.Ok? && AllLexable(s) ==> AllLexable(r.rest) && WfTop(r.tree)
  {
    if s.Head() == T.Res(T.Nuzzle) then ParseFunction(s.Rest())
    else if StartsDecl(s) then
      var d :- ParseDeclStmt(s);
      Ok(Global(d.tree), d.rest)
    else Fail
  }

  function ParseProgram(s: Stream): (r: Option<seq<TopLevel>>)
    ensures r.Some? && AllLexable(s) ==> WfProgram(r.value)
    decreases s.Size()
  {
    if s.Done? then Some([])
    else
      var d := ParseDeclaration(s);
      if d.Fail? then None
      else
        var more := ParseProgram(d.rest);
        if more.None? then None else Some([d.tree] + more.value)
  }

  /** What the compiler makes of a source text: nothing if a token or the syntax is wrong. */
  function ParseText(bits: FloatBits, text: string): Option<seq<TopLevel>> {
    if Clean(LexAll(bits, text)) then ParseProgram(LexAll(bits, text)) else None
  }
}
