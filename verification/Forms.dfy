/**
 Words and statement forms as they are written: which words are reserved, and
 what trees the keywords and brackets of a text make of the parts between them.
 */
module Forms {
  import opened Words
  import opened Ast
  import opened Lexing
  import opened Grammar
  import opened Surface
  import T = Tokens

  // ---------- words ----------

  const STATEMENT_WORDS: seq<string> := ["nuzzle", "gimme", "pwease", "nowu", "wepeat", "fow", "bweak", "continyue"]
  const TYPE_WORDS: seq<string> := ["smol", "chonk", "megachonk", "floof", "bigfloof", "boop", "void", "byte"]
  const VALUE_WORDS: seq<string> := ["true", "false", "nuww", "sizeof"]
  const OTHER_WORDS: seq<string> := [
    "stwuct", "enum", "smoosh", "const", "static", "extern", "typedef", "unsafe"]

  predicate IsKeyword(w: string) {
    w in STATEMENT_WORDS || w in TYPE_WORDS || w in VALUE_WORDS || w in OTHER_WORDS
  }

  predicate IsLetter(c: char) {
    'a' <= c <= 'z' || 'A' <= c <= 'Z' || c == '_'
  }

  predicate IsWordChar(c: char) {
    IsLetter(c) || '0' <= c <= '9'
  }

  /**
   A word is a letter or underscore with all the letters, digits and underscores
   that follow; it is a name unless it is one of the 28 keywords.
   */
  lemma WordForm(bits: FloatBits, w: string, tail: string)
    requires w != "" && IsLetter(w[0]) && (forall c | c in w :: IsWordChar(c))
    requires tail == "" || !IsWordChar(tail[0])
    ensures LexOne(bits, w + tail) == Lexed(WordToken(w), tail)
    ensures if IsKeyword(w) then WordToken(w).Res? else WordToken(w) == T.Ident(w)
  {
    SpanWhole(IsIdentChar, w, tail);
    assert (w + tail)[..|w|] == w && (w + tail)[|w|..] == tail;
    NothingToSkip(w + tail);
    KeywordsReserved(w);
  }

  lemma KeywordsReserved(w: string)
    ensures ReservedWord(w).Some? <==> IsKeyword(w)
  {
    if ReservedWord(w).Some? {
      FoundReads(w, T.RESERVED);
      KeywordText(ReservedWord(w).value);
    } else if IsKeyword(w) {
      var r := KeywordOf(w);
      WordIs(r);
    }
  }

  lemma {:induction false} FoundReads(w: string, rs: seq<T.Reserved>)
    requires T.FindWord(w, rs).Some?
    ensures T.ReservedText(T.FindWord(w, rs).value) == w
  {
    if T.ReservedText(rs[0]) != w {
      FoundReads(w, rs[1..]);
    }
  }

  lemma KeywordText(r: T.Reserved)
    ensures IsKeyword(T.ReservedText(r))
  {
  }

  lemma KeywordOf(w: string) returns (r: T.Reserved)
    requires IsKeyword(w)
    ensures T.ReservedText(r) == w
  {
    hide T.ReservedText;
    if i: nat :| i < |STATEMENT_WORDS| && STATEMENT_WORDS[i] == w {
      r := StatementWord(i);
    } else if i: nat :| i < |TYPE_WORDS| && TYPE_WORDS[i] == w {
      r := TypeWord(i);
    } else if i: nat :| i < |VALUE_WORDS| && VALUE_WORDS[i] == w {
      r := ValueWord(i);
    } else {
      var i: nat :| i < |OTHER_WORDS| && OTHER_WORDS[i] == w;
      r := OtherWord(i);
    }
  }

  lemma StatementWord(i: nat) returns (r: T.Reserved)
    requires i < |STATEMENT_WORDS|
    ensures T.ReservedText(r) == STATEMENT_WORDS[i]
  {
    match i
    case 0 => r := T.Nuzzle;
    case 1 => r := T.Gimme;
    case 2 => r := T.Pwease;
    case 3 => r := T.Nowu;
    case 4 => r := T.Wepeat;
    case 5 => r := T.Fow;
    case 6 => r := T.Bweak;
    case 7 => r := T.Continyue;
  }

  lemma TypeWord(i: nat) returns (r: T.Reserved)
    requires i < |TYPE_WORDS|
    ensures T.ReservedText(r) == TYPE_WORDS[i]
  {
    match i
    case 0 => r := T.Smol;
    case 1 => r := T.Chonk;
    case 2 => r := T.Megachonk;
    case 3 => r := T.Floof;
    case 4 => r := T.Bigfloof;
    case 5 => r := T.Boop;
    case 6 => r := T.Void;
    case 7 => r := T.Byte;
  }

  lemma ValueWord(i: nat) returns (r: T.Reserved)
    requires i < |VALUE_WORDS|
    ensures T.ReservedText(r) == VALUE_WORDS[i]
  {
    match i
    case 0 => r := T.True;
    case 1 => r := T.False;
    case 2 => r := T.Nuww;
    case 3 => r := T.Sizeof;
  }

  lemma OtherWord(i: nat) returns (r: T.Reserved)
    requires i < |OTHER_WORDS|
    ensures T.ReservedText(r) == OTHER_WORDS[i]
  {
    match i
    case 0 => r := T.Stwuct;
    case 1 => r := T.Enum;
    case 2 => r := T.Smoosh;
    case 3 => r := T.Const;
    case 4 => r := T.Static;
    case 5 => r := T.Extern;
    case 6 => r := T.Typedef;
    case 7 => r := T.Unsafe;
  }

  lemma WordIs(r: T.Reserved)
    ensures WordToken(T.ReservedText(r)) == T.Res(r)
  {
    T.AllReserved(r);
    T.WordFound(r, T.RESERVED);
  }

  // ---------- marks and keywords ----------

  // A word or mark of the text in front of what follows.
  function W(word: string, s: Stream): Stream {
    T.More(WordToken(word), s)
  }

  function P(mark: string, s: Stream): Stream
    requires mark != ""
  {
    T.More(Mark(mark), s)
  }

  lemma MarkOf(p: T.Punct)
    ensures T.PunctText(p) != "" && Mark(T.PunctText(p)) == T.Pun(p)
  {
    PunctAlone(p);
  }

  lemma Brackets()
    ensures Mark("(") == T.Pun(T.LParen) && Mark(")") == T.Pun(T.RParen)
    ensures Mark("{") == T.Pun(T.LBrace) && Mark("}") == T.Pun(T.RBrace)
    ensures Mark("[") == T.Pun(T.LBracket) && Mark("]") == T.Pun(T.RBracket)
  {
    hide Mark;
    MarkOf(T.LParen);
    MarkOf(T.RParen);
    MarkOf(T.LBrace);
    MarkOf(T.RBrace);
    MarkOf(T.LBracket);
    MarkOf(T.RBracket);
  }

  lemma Separators()
    ensures Mark(";") == T.Pun(T.Semicolon) && Mark(":") == T.Pun(T.Colon) && Mark(",") == T.Pun(T.Comma)
    ensures Mark(".") == T.Pun(T.Dot) && Mark("=") == T.Pun(T.Assign) && Mark("->") == T.Pun(T.Arrow)
  {
    hide Mark;
    MarkOf(T.Semicolon);
    MarkOf(T.Colon);
    MarkOf(T.Comma);
    MarkOf(T.Dot);
    MarkOf(T.Assign);
    MarkOf(T.Arrow);
  }

  lemma StatementTokens()
    ensures WordToken("pwease") == T.Res(T.Pwease) && WordToken("nowu") == T.Res(T.Nowu)
    ensures WordToken("wepeat") == T.Res(T.Wepeat) && WordToken("fow") == T.Res(T.Fow)
    ensures WordToken("gimme") == T.Res(T.Gimme) && WordToken("nuzzle") == T.Res(T.Nuzzle)
    ensures WordToken("bweak") == T.Res(T.Bweak) && WordToken("continyue") == T.Res(T.Continyue)
  {
    hide WordToken;
    WordIs(T.Pwease);
    WordIs(T.Nowu);
    WordIs(T.Wepeat);
    WordIs(T.Fow);
    WordIs(T.Gimme);
    WordIs(T.Nuzzle);
    WordIs(T.Bweak);
    WordIs(T.Continyue);
  }

  lemma ValueTokens()
    ensures WordToken("true") == T.Res(T.True) && WordToken("false") == T.Res(T.False)
    ensures WordToken("nuww") == T.Res(T.Nuww) && WordToken("sizeof") == T.Res(T.Sizeof)
  {
    hide WordToken;
    WordIs(T.True);
    WordIs(T.False);
    WordIs(T.Nuww);
    WordIs(T.Sizeof);
  }

  // ---------- primary and postfix expressions ----------

  /** `true` is 1, `false` is 0, and parentheses only group. */
  lemma PrimaryForms(s: Stream, e: Expr, rest: Stream)
    ensures ParsePrimary(W("true", s)) == Ok(Number(1), s) && ParsePrimary(W("false", s)) == Ok(Number(0), s)
    ensures ParsePrimary(W("nuww", s)) == Ok(Null, s)
    ensures ParseExpr(s) == Ok(e, P(")", rest)) ==> ParsePrimary(P("(", s)) == Ok(e, rest)
  {
    hide WordToken, Mark, ParseExpr;
    ValueTokens();
    Brackets();
  }

  /** `x(...)`, `x[i]` and `x.f` behind a primary expression. */
  lemma PostfixForms(x: Expr, s: Stream, args: seq<Expr>, i: Expr, f: string, rest: Stream)
    ensures ParseArguments(s) == Ok(args, rest) ==> PostfixTail(x, P("(", s)) == PostfixTail(Call(x, args), rest)
    ensures ParseExpr(s) == Ok(i, P("]", rest)) ==> PostfixTail(x, P("[", s)) == PostfixTail(Index(x, i), rest)
    ensures PostfixTail(x, P(".", T.More(T.Ident(f), s))) == PostfixTail(Member(x, f), s)
  {
    hide WordToken, Mark, ParseExpr, ParseArguments;
    Brackets();
    Separators();
  }

  /** Arguments stand between commas, in order, and a closing parenthesis ends them; there are at most 255. */
  lemma ArgumentForms(s: Stream, e: Expr, s1: Stream, more: seq<Expr>, rest: Stream)
    ensures ParseArguments(P(")", s)) == Ok([], s)
    ensures ParseExpr(s) == Ok(e, P(")", rest)) ==> ParseArgs(0, s) == Ok([e], P(")", rest))
    ensures ParseExpr(s) == Ok(e, P(",", s1)) && ParseArgs(1, s1) == Ok(more, rest) ==>
      ParseArgs(0, s) == Ok([e] + more, rest)
    ensures ParseExpr(s) == Ok(e, P(")", rest)) ==> ParseArgs(254, s) == Ok([e], P(")", rest)) && ParseArgs(255, s) == Fail
  {
    hide WordToken, Mark, ParseExpr;
    Brackets();
    Separators();
  }

  // ---------- statements ----------

  /** `pwease (c) thn`, with or without `nowu els`. */
  lemma IfForm(s: Stream, c: Expr, s1: Stream, thn: Stmt, s2: Stream)
    requires ParseExpr(s) == Ok(c, P(")", s1)) && ParseStatement(s1) == Ok(thn, s2)
    ensures s2.Head() != WordToken("nowu") ==> ParseStatement(W("pwease", P("(", s))) == Ok(If(c, thn, None), s2)
    ensures s2.More? && s2.first == WordToken("nowu") ==>
      ParseStatement(W("pwease", P("(", s)))
      == match ParseStatement(s2.later)
         case Ok(els, rest) => Ok(If(c, thn, Some(els)), rest)
         case Fail => Fail
  {
    hide WordToken, Mark, ParseExpr;
    StatementTokens();
    Brackets();
  }

  /** `wepeat (c) b` */
  lemma WhileForm(s: Stream, c: Expr, s1: Stream, b: Stmt, rest: Stream)
    requires ParseExpr(s) == Ok(c, P(")", s1)) && ParseStatement(s1) == Ok(b, rest)
    ensures ParseStatement(W("wepeat", P("(", s))) == Ok(While(c, b), rest)
  {
    hide WordToken, Mark, ParseExpr;
    StatementTokens();
    Brackets();
  }

  /** `fow (a; c; i) b` keeps its clauses in this order. */
  lemma ForForm(s: Stream, a: Expr, s1: Stream, c: Expr, s2: Stream, i: Expr, s3: Stream, b: Stmt, rest: Stream)
    requires !StartsDecl(s) && s.Head() != Mark(";") && ParseExpr(s) == Ok(a, P(";", s1))
    requires s1.Head() != Mark(";") && ParseExpr(s1) == Ok(c, P(";", s2))
    requires s2.Head() != Mark(")") && ParseExpr(s2) == Ok(i, P(")", s3)) && ParseStatement(s3) == Ok(b, rest)
    ensures ParseStatement(W("fow", P("(", s))) == Ok(For([ExprStmt(a), ExprStmt(c), ExprStmt(i)], b), rest)
  {
    hide WordToken, Mark, ParseExpr;
    StatementTokens();
    Brackets();
    Separators();
    ThreeClauses(s, a, s1, c, s2, i, s3);
    assert ParseLed(W("fow", P("(", s))) == Ok(For([ExprStmt(a), ExprStmt(c), ExprStmt(i)], b), rest);
  }

  lemma ThreeClauses(s: Stream, a: Expr, s1: Stream, c: Expr, s2: Stream, i: Expr, s3: Stream)
    requires !StartsDecl(s) && s.Head() != Mark(";") && ParseExpr(s) == Ok(a, P(";", s1))
    requires s1.Head() != Mark(";") && ParseExpr(s1) == Ok(c, P(";", s2))
    requires s2.Head() != Mark(")") && ParseExpr(s2) == Ok(i, P(")", s3))
    ensures ParseClauses(P("(", s)) == Ok([ExprStmt(a), ExprStmt(c), ExprStmt(i)], s3)
  {
    hide WordToken, Mark, ParseExpr, ParseOptional, ParseClauses, StartsDecl;
    Brackets();
    Separators();
    ClauseThere(T.Semicolon, s, a, s1);
    ClauseThere(T.Semicolon, s1, c, s2);
    ClauseThere(T.RParen, s2, i, s3);
    ClausesJoin(s, a, s1, c, s2, i, s3);
  }

  lemma ClauseThere(close: T.Punct, s: Stream, e: Expr, rest: Stream)
    requires s.Head() != T.Pun(close) && ParseExpr(s) == Ok(e, T.More(T.Pun(close), rest))
    ensures ParseOptional(close, s) == Ok(Some(e), rest)
  {
    hide ParseExpr;
  }

  lemma ClausesJoin(s: Stream, a: Expr, s1: Stream, c: Expr, s2: Stream, i: Expr, s3: Stream)
    requires !StartsDecl(s) && ParseOptional(T.Semicolon, s) == Ok(Some(a), s1)
    requires ParseOptional(T.Semicolon, s1) == Ok(Some(c), s2) && ParseOptional(T.RParen, s2) == Ok(Some(i), s3)
    ensures ParseClauses(T.More(T.Pun(T.LParen), s)) == Ok([ExprStmt(a), ExprStmt(c), ExprStmt(i)], s3)
  {
    hide ParseOptional, StartsDecl;
    assert [ExprStmt(a)] + [ExprStmt(c)] + [ExprStmt(i)] == [ExprStmt(a), ExprStmt(c), ExprStmt(i)];
  }

  /** `gimme e;`, `gimme;`, `bweak;` and `continyue;` */
  lemma JumpForms(s: Stream, e: Expr, rest: Stream)
    ensures s.Head() != Mark(";") && ParseExpr(s) == Ok(e, P(";", rest)) ==>
      ParseStatement(W("gimme", s)) == Ok(Return(Some(e)), rest)
    ensures ParseStatement(W("gimme", P(";", rest))) == Ok(Return(None), rest)
    ensures ParseStatement(W("bweak", P(";", rest))) == Ok(Break, rest)
    ensures ParseStatement(W("continyue", P(";", rest))) == Ok(Continue, rest)
  {
    hide WordToken, Mark, ParseExpr;
    StatementTokens();
    Separators();
  }

  /** `{ ... }` holds its statements in order. */
  lemma BlockForm(s: Stream, a: Stmt, s1: Stream, ss: seq<Stmt>, rest: Stream)
    ensures ParseItems(s) == Ok(ss, rest) ==> ParseStatement(P("{", s)) == Ok(Block(ss), rest)
    ensures ParseItems(P("}", s)) == Ok([], s)
    ensures s.More? && s.first != Mark("}") && ParseStatement(s) == Ok(a, s1) && ParseItems(s1) == Ok(ss, rest) ==>
      ParseItems(s) == Ok([a] + ss, rest)
  {
    hide WordToken, Mark, ParseExpr;
    Brackets();
  }

  /** `x: t;` and `x: t = e;` */
  lemma DeclForm(x: string, s: Stream, ty: TypeExpr, s1: Stream, e: Expr, rest: Stream)
    requires ParseType(s) == Ok(ty, s1)
    ensures s1 == P(";", rest) ==> ParseStatement(T.More(T.Ident(x), P(":", s))) == Ok(Decl(x, ty, None, 0), rest)
    ensures s1.More? && s1.first == Mark("=") && ParseExpr(s1.later) == Ok(e, P(";", rest)) ==>
      ParseStatement(T.More(T.Ident(x), P(":", s))) == Ok(Decl(x, ty, Some(e), 0), rest)
  {
    hide WordToken, Mark, ParseExpr, ParseType;
    Separators();
  }

  /** `nuzzle f(parameters) -> t { ... }`; without the arrow the type is `void`. */
  lemma FunctionForm(f: string, s: Stream, ps: seq<Param>, s1: Stream, ty: TypeExpr, s2: Stream, ss: seq<Stmt>, rest: Stream)
    requires ParseParameters(s) == Ok(ps, s1) && ParseItems(s2) == Ok(ss, rest)
    ensures s1.More? && s1.first == Mark("->") && ParseType(s1.later) == Ok(ty, P("{", s2)) ==>
      ParseDeclaration(W("nuzzle", T.More(T.Ident(f), P("(", s)))) == Ok(Function(f, ps, ty, Block(ss), 0), rest)
    ensures s1 == P("{", s2) ==>
      ParseDeclaration(W("nuzzle", T.More(T.Ident(f), P("(", s)))) == Ok(Function(f, ps, Base(Void), Block(ss), 0), rest)
  {
    hide WordToken, Mark, ParseType, ParseItems, ParseParameters;
    StatementTokens();
    Brackets();
    Separators();
  }

  /** A parameter is a type and then a name. */
  lemma ParameterForm(s: Stream, ty: TypeExpr, x: string, rest: Stream)
    requires ParseType(s) == Ok(ty, T.More(T.Ident(x), rest))
    ensures ParseParam(s) == Ok(Param(x, ty, 0), rest)
    ensures rest.Head() != Mark(",") ==> ParseParams(0, s) == Ok([Param(x, ty, 0)], rest)
  {
    hide Mark, ParseType;
    Separators();
  }

  /** The eight type words, each of its own type, and a star for each pointer. */
  lemma TypeForms(s: Stream)
    requires s.Head() != Mark("*")
    ensures ParseType(W("chonk", s)) == Ok(Base(Chonk), s) && ParseType(W("smol", s)) == Ok(Base(Smol), s)
    ensures ParseType(W("megachonk", s)) == Ok(Base(Megachonk), s) && ParseType(W("byte", s)) == Ok(Base(BaseType.Byte), s)
    ensures ParseType(W("floof", s)) == Ok(Base(Floof), s) && ParseType(W("bigfloof", s)) == Ok(Base(Bigfloof), s)
    ensures ParseType(W("boop", s)) == Ok(Base(Boop), s) && ParseType(W("void", s)) == Ok(Base(Void), s)
    ensures ParseType(W("chonk", P("*", s))) == Ok(Pointer(Base(Chonk)), s)
  {
    hide WordToken, Mark, ParseType;
    MarkOf(T.Star);
    TypeTokens();
    OneType(Chonk, s);
    OneType(Smol, s);
    OneType(Megachonk, s);
    OneType(BaseType.Byte, s);
    OneType(Floof, s);
    OneType(Bigfloof, s);
    OneType(Boop, s);
    OneType(Void, s);
    StarType(s);
  }

  lemma OneType(b: BaseType, s: Stream)
    requires s.Head() != T.Pun(T.Star)
    ensures ParseType(T.More(T.Res(BaseToken(b)), s)) == Ok(Base(b), s)
  {
  }

  lemma StarType(s: Stream)
    requires s.Head() != T.Pun(T.Star)
    ensures ParseType(T.More(T.Res(T.Chonk), T.More(T.Pun(T.Star), s))) == Ok(Pointer(Base(Chonk)), s)
  {
    assert ParseStars(Pointer(Base(Chonk)), s) == Ok(Pointer(Base(Chonk)), s);
  }

  lemma TypeTokens()
    ensures WordToken("chonk") == T.Res(T.Chonk) && WordToken("smol") == T.Res(T.Smol)
    ensures WordToken("megachonk") == T.Res(T.Megachonk) && WordToken("byte") == T.Res(T.Byte)
    ensures WordToken("floof") == T.Res(T.Floof) && WordToken("bigfloof") == T.Res(T.Bigfloof)
    ensures WordToken("boop") == T.Res(T.Boop) && WordToken("void") == T.Res(T.Void)
  {
    hide WordToken;
    WordIs(T.Chonk);
    WordIs(T.Smol);
    WordIs(T.Megachonk);
    WordIs(T.Byte);
    WordIs(T.Floof);
    WordIs(T.Bigfloof);
    WordIs(T.Boop);
    WordIs(T.Void);
  }
}
