/**
 The parser itself (src/parser_new.c): one token of lookahead taken from the lexer,
 moved forward by every function, and proved to do what the grammar says.
 */
module Parsing {
  import opened Words
  import opened Ast
  import opened Lexing
  import opened Grammar
  import T = Tokens

  // error_at ends the process, so an error is seen by every caller.
  datatype Result<X> = Value(value: X) | Exit {
    predicate IsFailure() { Exit? }

    function PropagateFailure<Y>(): Result<Y>
      requires Exit?
    {
      Exit
    }

    function Extract(): X
      requires Value?
    {
      value
    }
  }

  /** Elements read so far in front of those a parse function still finds. */
  ghost function Prepend<X>(before: seq<X>, p: Parse<seq<X>>): Parse<seq<X>> {
    if p.Fail? then Fail else Ok(before + p.tree, p.rest)
  }

  ghost function InFront<X>(x: X, p: Parse<seq<X>>): Parse<seq<X>> {
    if p.Fail? then Fail else Ok([x] + p.tree, p.rest)
  }

  lemma PrependAfter<X>(before: seq<X>, x: X, p: Parse<seq<X>>)
    ensures Prepend(before, InFront(x, p)) == Prepend(before + [x], p)
  {
    if p.Ok? {
      assert before + ([x] + p.tree) == (before + [x]) + p.tree;
    }
  }

  lemma PrependNothing<X>(p: Parse<seq<X>>)
    ensures Prepend([], p) == p
  {
    if p.Ok? {
      assert [] + p.tree == p.tree;
    }
  }

  lemma PrependToNothing<X>(before: seq<X>, rest: Stream)
    ensures Prepend(before, Ok([], rest)) == Ok(before, rest)
  {
    assert before + [] == before;
  }

  // One argument further in a list, with those already read in front.
  lemma ArgsStep(args: seq<Expr>, s: Stream)
    requires |args| <= MAX_ARGS
    ensures |args| == MAX_ARGS || ParseExpr(s).Fail? ==> Prepend(args, ParseArgs(|args|, s)).Fail?
    ensures |args| < MAX_ARGS && ParseExpr(s).Ok? ==>
              var e := ParseExpr(s);
              && (e.rest.Head() == T.Pun(T.Comma) ==> e.rest.Rest().Size() < s.Size())
              && Prepend(args, ParseArgs(|args|, s)) ==
                 if e.rest.Head() == T.Pun(T.Comma)
                 then Prepend(args + [e.tree], ParseArgs(|args + [e.tree]|, e.rest.Rest()))
                 else Ok(args + [e.tree], e.rest)
  {
    if |args| < MAX_ARGS && ParseExpr(s).Ok? {
      var e := ParseExpr(s);
      if e.rest.Head() == T.Pun(T.Comma) {
        ArgsUnfold(|args|, s, e.tree, e.rest);
        PrependAfter(args, e.tree, ParseArgs(|args| + 1, e.rest.Rest()));
      }
    }
  }

  lemma ArgsUnfold(count: nat, s: Stream, e: Expr, rest: Stream)
    requires count < MAX_ARGS && ParseExpr(s) == Ok(e, rest) && rest.Head() == T.Pun(T.Comma)
    ensures ParseArgs(count, s) == InFront(e, ParseArgs(count + 1, rest.Rest()))
    ensures rest.Rest().Size() < s.Size()
  {
  }

  // One parameter further in a list, with those already read in front.
  lemma ParamsStep(ps: seq<Param>, s: Stream)
    requires |ps| <= MAX_ARGS
    ensures |ps| == MAX_ARGS || ParseParam(s).Fail? ==> Prepend(ps, ParseParams(|ps|, s)).Fail?
    ensures |ps| < MAX_ARGS && ParseParam(s).Ok? ==>
              var p := ParseParam(s);
              Prepend(ps, ParseParams(|ps|, s)) ==
                if p.rest.Head() == T.Pun(T.Comma)
                then Prepend(ps + [p.tree], ParseParams(|ps + [p.tree]|, p.rest.Rest()))
                else Ok(ps + [p.tree], p.rest)
  {
    if |ps| < MAX_ARGS && ParseParam(s).Ok? {
      var p := ParseParam(s);
      if p.rest.Head() == T.Pun(T.Comma) {
        PrependAfter(ps, p.tree, ParseParams(|ps| + 1, p.rest.Rest()));
      }
    }
  }

  lemma LevelStarts(level: nat, s: Stream)
    requires LOWEST_BINARY <= level < UNARY
    ensures var l := ParseBinary(level + 1, s);
      ParseBinary(level, s) == if l.Fail? then Fail else ParseTail(level, l.tree, l.rest)
  {
  }

  lemma TailStops(level: nat, left: Expr, s: Stream)
    requires LOWEST_BINARY <= level < UNARY
    requires !(BinaryOf(s.Head()).Some? && Level(BinaryOf(s.Head()).value) == level)
    ensures ParseTail(level, left, s) == Ok(left, s)
  {
  }

  lemma TailContinues(level: nat, op: BinaryOp, left: Expr, s: Stream)
    requires LOWEST_BINARY <= level < UNARY && BinaryOf(s.Head()) == Some(op) && Level(op) == level
    ensures var r := ParseBinary(level + 1, s.Rest());
      && s.Rest().Size() < s.Size()
      && ParseTail(level, left, s) == if r.Fail? then Fail else ParseTail(level, Binary(op, left, r.tree), r.rest)
  {
  }

  // The tokens of a text, by its first one.
  lemma LexAllNext(bits: FloatBits, text: string)
    ensures var r := LexOne(bits, text);
      LexAll(bits, text) == if r.token.Eof? then T.Done
                            else if r.token.Error? then T.More(T.Error, T.Done)
                            else T.More(r.token, LexAll(bits, r.rest))
    ensures LexOne(bits, text).token.Error? ==> !Clean(LexAll(bits, text))
  {
  }

  class Parser {
    const lexer: Lexer
    var current: T.Token
    var previous: T.Token
    // Does the text hold no lexical error?
    ghost const clean: bool

    // The tokens from `current` on.
    ghost function Ahead(): Stream
      reads this, lexer
      requires lexer.Valid()
    {
      if current.Eof? then T.Done
      else if current.Error? then T.More(T.Error, T.Done)
      else T.More(current, LexAll(lexer.bits, lexer.Rest()))
    }

    ghost predicate Valid()
      reads this, lexer
    {
      lexer.Valid() && clean == Clean(Ahead())
    }

    constructor (lexer: Lexer)
      requires lexer.Valid()
      modifies lexer
      ensures Valid() && this.lexer == lexer
      ensures Ahead() == LexAll(lexer.bits, old(lexer.Rest()))
      ensures clean == Clean(LexAll(lexer.bits, old(lexer.Rest())))
    {
      this.lexer := lexer;
      var t := lexer.NextToken();
      current, previous := t, T.Eof;
      clean := Clean(LexAll(lexer.bits, old(lexer.Rest())));
    }

    /** The next token becomes current; a token the lexer rejects ends the run. */
    method Advance() returns (r: Result<()>)
      requires Valid() && !current.Eof? && !current.Error?
      modifies this, lexer
      ensures Valid() && previous == old(current)
      ensures if r.Value? then Ahead() == old(Ahead()).Rest() else !clean
    {
      ghost var text := lexer.Rest();
      previous := current;
      current := lexer.NextToken();
      LexAllNext(lexer.bits, text);
      return if current.Error? then Exit else Value(());
    }

    // One token of lookahead beyond `current`; the lexer is put back.
    method PeekAhead() returns (next: T.Token)
      requires Valid() && !current.Eof? && !current.Error?
      modifies lexer
      ensures lexer.Valid() && unchanged(lexer`pos, lexer`line, lexer`column)
      ensures next == old(Ahead()).Rest().Head()
    {
      var pos, line, column := lexer.pos, lexer.line, lexer.column;
      next := lexer.NextToken();
      lexer.pos, lexer.line, lexer.column := pos, line, column;
    }

    method Consume(p: T.Punct) returns (r: Result<()>)
      requires Valid()
      modifies this, lexer
      ensures r.Value? ==> Valid() && Expect(p, old(Ahead())) == Ok((), Ahead())
      ensures r.Exit? ==> !clean || Expect(p, old(Ahead())).Fail?
    {
      if current != T.Pun(p) {
        return Exit;
      }
      r := Advance();
    }

    method ConsumeName() returns (r: Result<string>)
      requires Valid()
      modifies this, lexer
      ensures r.Value? ==> Valid() && ExpectName(old(Ahead())) == Ok(r.value, Ahead())
      ensures r.Exit? ==> !clean || ExpectName(old(Ahead())).Fail?
    {
      if !current.Ident? {
        return Exit;
      }
      var _ :- Advance();
      return Value(previous.name);
    }

    // ---------- types ----------

    method ParseType() returns (r: Result<TypeExpr>)
      requires Valid()
      modifies this, lexer
      ensures r.Value? ==> Valid() && Grammar.ParseType(old(Ahead())) == Ok(r.value, Ahead())
      ensures r.Exit? ==> !clean || Grammar.ParseType(old(Ahead())).Fail?
    {
      var base := BaseOf(current);
      if base.None? {
        return Exit;
      }
      var _ :- Advance();
      var ty := Base(base.value);
      while current == T.Pun(T.Star)
        invariant Valid()
        invariant ParseStars(ty, Ahead()) == Grammar.ParseType(old(Ahead()))
        decreases Ahead().Size()
      {
        var _ :- Advance();
        ty := Pointer(ty);
      }
      return Value(ty);
    }

    // ---------- expressions ----------

    method ParseExpression() returns (r: Result<Expr>)
      requires Valid()
      modifies this, lexer
      ensures r.Value? ==> Valid() && ParseExpr(old(Ahead())) == Ok(r.value, Ahead())
      ensures r.Exit? ==> !clean || ParseExpr(old(Ahead())).Fail?
      decreases Ahead().Size(), 15
    {
      var left :- ParseLevel(LOWEST_BINARY);
      var op := AssignOf(current);
      if op.None? {
        return Value(left);
      }
      var _ :- Advance();
      var right :- ParseExpression();
      return Value(Assign(op.value, left, right));
    }

    /** The ten functions from parse_logical_or to parse_multiplicative. */
    method ParseLevel(level: nat) returns (r: Result<Expr>)
      requires Valid() && LOWEST_BINARY <= level <= UNARY
      modifies this, lexer
      ensures r.Value? ==> Valid() && ParseBinary(level, old(Ahead())) == Ok(r.value, Ahead())
      ensures r.Exit? ==> !clean || ParseBinary(level, old(Ahead())).Fail?
      decreases Ahead().Size(), 14 - level
    {
      if level == UNARY {
        r := ParsePrefix();
        return;
      }
      ghost var start := Ahead();
      LevelStarts(level, start);
      var left :- ParseLevel(level + 1);
      r := ParseChain(level, left);
    }

    // The loop over the operators of one level.
    method ParseChain(level: nat, first: Expr) returns (r: Result<Expr>)
      requires Valid() && LOWEST_BINARY <= level < UNARY
      modifies this, lexer
      ensures r.Value? ==> Valid() && ParseTail(level, first, old(Ahead())) == Ok(r.value, Ahead())
      ensures r.Exit? ==> !clean || ParseTail(level, first, old(Ahead())).Fail?
      decreases Ahead().Size(), 1
    {
      ghost var start := Ahead();
      var left := first;
      while BinaryOf(current).Some? && Level(BinaryOf(current).value) == level
        invariant Valid() && Ahead().Size() <= start.Size()
        invariant ParseTail(level, left, Ahead()) == ParseTail(level, first, start)
        decreases Ahead().Size()
      {
        left :- ParseOperand(level, left);
      }
      TailStops(level, left, Ahead());
      return Value(left);
    }

    // One operator and its right operand.
    method ParseOperand(level: nat, left: Expr) returns (r: Result<Expr>)
      requires Valid() && LOWEST_BINARY <= level < UNARY
      requires BinaryOf(current).Some? && Level(BinaryOf(current).value) == level
      modifies this, lexer
      ensures r.Value? ==>
        && Valid() && Ahead().Size() < old(Ahead()).Size()
        && ParseTail(level, left, old(Ahead())) == ParseTail(level, r.value, Ahead())
      ensures r.Exit? ==> !clean || ParseTail(level, left, old(Ahead())).Fail?
      decreases Ahead().Size(), 0
    {
      hide LexAll, ParseBinary, Clean;
      var op := BinaryOf(current).value;
      TailContinues(level, op, left, Ahead());
      var _ :- Advance();
      var right :- ParseLevel(level + 1);
      return Value(Binary(op, left, right));
    }

    method ParsePrefix() returns (r: Result<Expr>)
      requires Valid()
      modifies this, lexer
      ensures r.Value? ==> Valid() && ParseUnary(old(Ahead())) == Ok(r.value, Ahead())
      ensures r.Exit? ==> !clean || ParseUnary(old(Ahead())).Fail?
      decreases Ahead().Size(), 2
    {
      var op := UnaryOf(current);
      if op.Some? {
        var _ :- Advance();
        var x :- ParsePrefix();
        return Value(Unary(op.value, x));
      }
      if current == T.Res(T.Sizeof) {
        var _ :- Advance();
        r := ParseSize();
        return;
      }
      r := ParseSuffixed();
    }

    method ParseSize() returns (r: Result<Expr>)
      requires Valid()
      modifies this, lexer
      ensures r.Value? ==> Valid() && ParseSizeof(old(Ahead())) == Ok(r.value, Ahead())
      ensures r.Exit? ==> !clean || ParseSizeof(old(Ahead())).Fail?
      decreases Ahead().Size(), 0
    {
      var _ :- Consume(T.LParen);
      if BaseOf(current).Some? {
        var ty :- ParseType();
        var _ :- Consume(T.RParen);
        return Value(SizeofType(ty));
      }
      var e :- ParseExpression();
      var _ :- Consume(T.RParen);
      return Value(SizeofExpr(e));
    }

    method ParseSuffixed() returns (r: Result<Expr>)
      requires Valid()
      modifies this, lexer
      ensures r.Value? ==> Valid() && ParsePostfix(old(Ahead())) == Ok(r.value, Ahead())
      ensures r.Exit? ==> !clean || ParsePostfix(old(Ahead())).Fail?
      decreases Ahead().Size(), 1
    {
      ghost var start := Ahead();
      var left :- ParseAtom();
      while StartsPostfix(current)
        invariant Valid() && Ahead().Size() < start.Size()
        invariant PostfixTail(left, Ahead()) == ParsePostfix(start)
        decreases Ahead().Size()
      {
        left :- ParseSuffix(left);
      }
      return Value(left);
    }

    method ParseSuffix(left: Expr) returns (r: Result<Expr>)
      requires Valid() && StartsPostfix(current)
      modifies this, lexer
      ensures r.Value? ==> Valid() && PostfixStep(left, old(Ahead())) == Ok(r.value, Ahead())
      ensures r.Exit? ==> !clean || PostfixStep(left, old(Ahead())).Fail?
      decreases Ahead().Size(), 0
    {
      hide ParseArguments, ParseExpr;
      var _ :- Advance();
      if previous == T.Pun(T.LParen) {
        var args :- ParseCallArguments();
        return Value(Call(left, args));
      } else if previous == T.Pun(T.LBracket) {
        var i :- ParseExpression();
        var _ :- Consume(T.RBracket);
        return Value(Index(left, i));
      } else {
        var field :- ConsumeName();
        return Value(Member(left, field));
      }
    }

    method ParseCallArguments() returns (r: Result<seq<Expr>>)
      requires Valid()
      modifies this, lexer
      ensures r.Value? ==> Valid() && ParseArguments(old(Ahead())) == Ok(r.value, Ahead())
      ensures r.Exit? ==> !clean || ParseArguments(old(Ahead())).Fail?
      decreases Ahead().Size(), 17
    {
      var args := [];
      if current != T.Pun(T.RParen) {
        args :- ParseArgList();
      }
      var _ :- Consume(T.RParen);
      return Value(args);
    }

    method ParseArgList() returns (r: Result<seq<Expr>>)
      requires Valid()
      modifies this, lexer
      ensures r.Value? ==> Valid() && ParseArgs(0, old(Ahead())) == Ok(r.value, Ahead())
      ensures r.Exit? ==> !clean || ParseArgs(0, old(Ahead())).Fail?
      decreases Ahead().Size(), 16
    {
      ghost var start := Ahead();
      var args: seq<Expr> := [];
      PrependNothing(ParseArgs(0, start));
      while true
        invariant Valid() && |args| <= MAX_ARGS && Ahead().Size() <= start.Size()
        invariant Prepend(args, ParseArgs(|args|, Ahead())) == ParseArgs(0, start)
        decreases Ahead().Size()
      {
        ghost var here := Ahead();
        ArgsStep(args, here);
        if |args| == MAX_ARGS {
          return Exit;
        }
        var e :- ParseExpression();
        if current != T.Pun(T.Comma) {
          return Value(args + [e]);
        }
        var _ :- Advance();
        args := args + [e];
      }
    }

    method ParseAtom() returns (r: Result<Expr>)
      requires Valid()
      modifies this, lexer
      ensures r.Value? ==> Valid() && ParsePrimary(old(Ahead())) == Ok(r.value, Ahead())
      ensures r.Exit? ==> !clean || ParsePrimary(old(Ahead())).Fail?
      decreases Ahead().Size(), 0
    {
      if current.Number? {
        var _ :- Advance();
        return Value(Number(previous.value));
      } else if current.Str? {
        var _ :- Advance();
        return Value(Str(previous.text));
      } else if current == T.Res(T.True) {
        var _ :- Advance();
        return Value(Number(1));
      } else if current == T.Res(T.False) {
        var _ :- Advance();
        return Value(Number(0));
      } else if current == T.Res(T.Nuww) {
        var _ :- Advance();
        return Value(Null);
      } else if current.Ident? {
        var _ :- Advance();
        return Value(Ident(previous.name, 0));
      } else if current == T.Pun(T.LParen) {
        var _ :- Advance();
        var e :- ParseExpression();
        var _ :- Consume(T.RParen);
        return Value(e);
      } else {
        return Exit;
      }
    }

    // ---------- statements ----------

    // An identifier followed by a colon.
    method AtDeclaration() returns (yes: bool)
      requires Valid()
      modifies lexer
      ensures Valid() && unchanged(lexer`pos, lexer`line, lexer`column) && yes == StartsDecl(Ahead())
    {
      if !current.Ident? {
        return false;
      }
      var next := PeekAhead();
      return next == T.Pun(T.Colon);
    }

    method ParseVarDecl() returns (r: Result<Stmt>)
      requires Valid()
      modifies this, lexer
      ensures r.Value? ==> Valid() && Grammar.ParseVarDecl(old(Ahead())) == Ok(r.value, Ahead())
      ensures r.Exit? ==> !clean || Grammar.ParseVarDecl(old(Ahead())).Fail?
    {
      var name :- ConsumeName();
      var _ :- Consume(T.Colon);
      var ty :- ParseType();
      var init := None;
      if current == T.Pun(T.Assign) {
        var _ :- Advance();
        var e :- ParseExpression();
        init := Some(e);
      }
      return Value(Decl(name, ty, init, 0));
    }

    method ParseDeclStatement() returns (r: Result<Stmt>)
      requires Valid()
      modifies this, lexer
      ensures r.Value? ==> Valid() && ParseDeclStmt(old(Ahead())) == Ok(r.value, Ahead())
      ensures r.Exit? ==> !clean || ParseDeclStmt(old(Ahead())).Fail?
    {
      var d :- ParseVarDecl();
      var _ :- Consume(T.Semicolon);
      return Value(d);
    }

    method ParseOptional(close: T.Punct) returns (r: Result<Option<Expr>>)
      requires Valid()
      modifies this, lexer
      ensures r.Value? ==> Valid() && Grammar.ParseOptional(close, old(Ahead())) == Ok(r.value, Ahead())
      ensures r.Exit? ==> !clean || Grammar.ParseOptional(close, old(Ahead())).Fail?
    {
      if current == T.Pun(close) {
        var _ :- Advance();
        return Value(None);
      }
      var e :- ParseExpression();
      var _ :- Consume(close);
      return Value(Some(e));
    }

    method ParseCondition() returns (r: Result<Expr>)
      requires Valid()
      modifies this, lexer
      ensures r.Value? ==> Valid() && Grammar.ParseCondition(old(Ahead())) == Ok(r.value, Ahead())
      ensures r.Exit? ==> !clean || Grammar.ParseCondition(old(Ahead())).Fail?
    {
      var _ :- Consume(T.LParen);
      var e :- ParseExpression();
      var _ :- Consume(T.RParen);
      return Value(e);
    }

    method ParseClauses() returns (r: Result<seq<Stmt>>)
      requires Valid()
      modifies this, lexer
      ensures r.Value? ==> Valid() && Grammar.ParseClauses(old(Ahead())) == Ok(r.value, Ahead())
      ensures r.Exit? ==> !clean || Grammar.ParseClauses(old(Ahead())).Fail?
    {
      var _ :- Consume(T.LParen);
      var clauses: seq<Stmt>;
      var declares := AtDeclaration();
      if declares {
        var d :- ParseDeclStatement();
        clauses := [d];
      } else {
        var e :- ParseOptional(T.Semicolon);
        clauses := Clause(e);
      }
      var c :- ParseOptional(T.Semicolon);
      var i :- ParseOptional(T.RParen);
      return Value(clauses + Clause(c) + Clause(i));
    }

    method ParseStatement() returns (r: Result<Stmt>)
      requires Valid()
      modifies this, lexer
      ensures r.Value? ==> Valid() && Grammar.ParseStatement(old(Ahead())) == Ok(r.value, Ahead())
      ensures r.Exit? ==> !clean || Grammar.ParseStatement(old(Ahead())).Fail?
      decreases Ahead().Size(), 1
    {
      if current == T.Res(T.Pwease) {
        r := ParseIf();
      } else if current == T.Res(T.Wepeat) {
        var _ :- Advance();
        var c :- ParseCondition();
        var body :- ParseStatement();
        return Value(While(c, body));
      } else if current == T.Res(T.Fow) {
        var _ :- Advance();
        var cs :- ParseClauses();
        var body :- ParseStatement();
        return Value(For(cs, body));
      } else {
        r := ParseSimple();
      }
    }

    method ParseIf() returns (r: Result<Stmt>)
      requires Valid() && current == T.Res(T.Pwease)
      modifies this, lexer
      ensures r.Value? ==> Valid() && Grammar.ParseStatement(old(Ahead())) == Ok(r.value, Ahead())
      ensures r.Exit? ==> !clean || Grammar.ParseStatement(old(Ahead())).Fail?
      decreases Ahead().Size(), 0
    {
      var _ :- Advance();
      var c :- ParseCondition();
      var thn :- ParseStatement();
      if current != T.Res(T.Nowu) {
        return Value(If(c, thn, None));
      }
      var _ :- Advance();
      var els :- ParseStatement();
      return Value(If(c, thn, Some(els)));
    }

    // The statements that hold no statement, and blocks.
    method ParseSimple() returns (r: Result<Stmt>)
      requires Valid() && current !in {T.Res(T.Pwease), T.Res(T.Wepeat), T.Res(T.Fow)}
      modifies this, lexer
      ensures r.Value? ==> Valid() && Grammar.ParseStatement(old(Ahead())) == Ok(r.value, Ahead())
      ensures r.Exit? ==> !clean || Grammar.ParseStatement(old(Ahead())).Fail?
      decreases Ahead().Size(), 0
    {
      hide ParseExpr, LexOne;
      if current == T.Res(T.Gimme) {
        var _ :- Advance();
        var e :- ParseOptional(T.Semicolon);
        return Value(Return(e));
      } else if current == T.Res(T.Bweak) {
        var _ :- Advance();
        var _ :- Consume(T.Semicolon);
        return Value(Break);
      } else if current == T.Res(T.Continyue) {
        var _ :- Advance();
        var _ :- Consume(T.Semicolon);
        return Value(Continue);
      } else if current == T.Pun(T.LBrace) {
        var _ :- Advance();
        var items :- ParseBlock();
        return Value(Block(items));
      }
      var declares := AtDeclaration();
      if declares {
        r := ParseDeclStatement();
      } else {
        var e :- ParseExpression();
        var _ :- Consume(T.Semicolon);
        return Value(ExprStmt(e));
      }
    }

    method ParseBlock() returns (r: Result<seq<Stmt>>)
      requires Valid()
      modifies this, lexer
      ensures r.Value? ==> Valid() && ParseItems(old(Ahead())) == Ok(r.value, Ahead())
      ensures r.Exit? ==> !clean || ParseItems(old(Ahead())).Fail?
      decreases Ahead().Size(), 2
    {
      ghost var start := Ahead();
      var items: seq<Stmt> := [];
      PrependNothing(ParseItems(start));
      while current != T.Pun(T.RBrace) && current != T.Eof
        invariant Valid() && Ahead().Size() <= start.Size()
        invariant Prepend(items, ParseItems(Ahead())) == ParseItems(start)
        decreases Ahead().Size()
      {
        ghost var before := items;
        var s :- ParseStatement();
        items := items + [s];
        PrependAfter(before, s, ParseItems(Ahead()));
      }
      var _ :- Consume(T.RBrace);
      PrependToNothing(items, Ahead());
      return Value(items);
    }

    // ---------- declarations ----------

    method ParseParameter() returns (r: Result<Param>)
      requires Valid()
      modifies this, lexer
      ensures r.Value? ==> Valid() && ParseParam(old(Ahead())) == Ok(r.value, Ahead())
      ensures r.Exit? ==> !clean || ParseParam(old(Ahead())).Fail?
    {
      var ty :- ParseType();
      var name :- ConsumeName();
      return Value(Param(name, ty, 0));
    }

    method ParseParamList() returns (r: Result<seq<Param>>)
      requires Valid()
      modifies this, lexer
      ensures r.Value? ==> Valid() && ParseParams(0, old(Ahead())) == Ok(r.value, Ahead())
      ensures r.Exit? ==> !clean || ParseParams(0, old(Ahead())).Fail?
    {
      ghost var start := Ahead();
      var ps: seq<Param> := [];
      PrependNothing(ParseParams(0, start));
      while true
        invariant Valid() && |ps| <= MAX_ARGS
        invariant Prepend(ps, ParseParams(|ps|, Ahead())) == ParseParams(0, start)
        decreases Ahead().Size()
      {
        ghost var here := Ahead();
        ParamsStep(ps, here);
        if |ps| == MAX_ARGS {
          return Exit;
        }
        var p :- ParseParameter();
        if current != T.Pun(T.Comma) {
          return Value(ps + [p]);
        }
        var _ :- Advance();
        ps := ps + [p];
      }
    }

    method ParseFunction() returns (r: Result<TopLevel>)
      requires Valid()
      modifies this, lexer
      ensures r.Value? ==> Valid() && Grammar.ParseFunction(old(Ahead())) == Ok(r.value, Ahead())
      ensures r.Exit? ==> !clean || Grammar.ParseFunction(old(Ahead())).Fail?
    {
      var name :- ConsumeName();
      var _ :- Consume(T.LParen);
      var ps :- ParseParameters();
      var ret :- ParseReturnType();
      var _ :- Consume(T.LBrace);
      var body :- ParseBlock();
      return Value(Function(name, ps, ret, Block(body), 0));
    }

    method ParseParameters() returns (r: Result<seq<Param>>)
      requires Valid()
      modifies this, lexer
      ensures r.Value? ==> Valid() && Grammar.ParseParameters(old(Ahead())) == Ok(r.value, Ahead())
      ensures r.Exit? ==> !clean || Grammar.ParseParameters(old(Ahead())).Fail?
    {
      var ps := [];
      if current != T.Pun(T.RParen) {
        ps :- ParseParamList();
      }
      var _ :- Consume(T.RParen);
      return Value(ps);
    }

    method ParseReturnType() returns (r: Result<TypeExpr>)
      requires Valid()
      modifies this, lexer
      ensures r.Value? ==> Valid() && Grammar.ParseReturnType(old(Ahead())) == Ok(r.value, Ahead())
      ensures r.Exit? ==> !clean || Grammar.ParseReturnType(old(Ahead())).Fail?
    {
      if current != T.Pun(T.Arrow) {
        return Value(Base(Void));
      }
      var _ :- Advance();
      r := ParseType();
    }

    method ParseDeclaration() returns (r: Result<TopLevel>)
      requires Valid()
      modifies this, lexer
      ensures r.Value? ==> Valid() && Grammar.ParseDeclaration(old(Ahead())) == Ok(r.value, Ahead())
      ensures r.Exit? ==> !clean || Grammar.ParseDeclaration(old(Ahead())).Fail?
    {
      if current == T.Res(T.Nuzzle) {
        var _ :- Advance();
        r := ParseFunction();
        return;
      }
      var declares := AtDeclaration();
      if !declares {
        return Exit;
      }
      var d :- ParseDeclStatement();
      return Value(Global(d));
    }

    /** The whole program; the run ends early exactly when a token or the syntax is wrong. */
    method ParseProgram() returns (r: Result<seq<TopLevel>>)
      requires Valid()
      modifies this, lexer
      ensures r.Value? ==> clean && Grammar.ParseProgram(old(Ahead())) == Some(r.value)
      ensures r.Exit? ==> !clean || Grammar.ParseProgram(old(Ahead())).None?
    {
      ghost var start := Ahead();
      var ds: seq<TopLevel> := [];
      PrependNone(Grammar.ParseProgram(start));
      while current != T.Eof
        invariant Valid()
        invariant PrependAll(ds, Grammar.ParseProgram(Ahead())) == Grammar.ParseProgram(start)
        decreases Ahead().Size()
      {
        ghost var before := ds;
        var d :- ParseDeclaration();
        ds := ds + [d];
        PrependDeclaration(before, d, Grammar.ParseProgram(Ahead()));
      }
      assert ds + [] == ds;
      return Value(ds);
    }
  }

  ghost function PrependAll(before: seq<TopLevel>, p: Option<seq<TopLevel>>): Option<seq<TopLevel>> {
    if p.None? then None else Some(before + p.value)
  }

  lemma PrependNone(p: Option<seq<TopLevel>>)
    ensures PrependAll([], p) == p
  {
    if p.Some? {
      assert [] + p.value == p.value;
    }
  }

  lemma PrependDeclaration(before: seq<TopLevel>, d: TopLevel, more: Option<seq<TopLevel>>)
    ensures PrependAll(before, if more.None? then None else Some([d] + more.value)) == PrependAll(before + [d], more)
  {
    if more.Some? {
      assert before + ([d] + more.value) == (before + [d]) + more.value;
    }
  }

  /** The front end: a tree exactly for the texts that lex and parse. */
  method ParseSource(source: string, bits: FloatBits) returns (r: Result<seq<TopLevel>>)
    ensures ParseText(bits, source).Some? ==> r == Value(ParseText(bits, source).value)
    ensures ParseText(bits, source).None? ==> r.Exit?
  {
    var lexer := new Lexer(source, bits);
    var parser := new Parser(lexer);
    r := parser.ParseProgram();
  }
}
