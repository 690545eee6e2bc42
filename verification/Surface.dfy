/**
 The language as it is written: what the operators, words and statement forms of
 a text are read as and what they compute, told by their characters.
 */
module Surface {
  import opened Words
  import opened Ast
  import opened Source
  import opened Ir
  import opened Lowering
  import IrMachine
  import opened Lexing
  import opened Grammar
  import T = Tokens

  // ---------- operators ----------

  // The token that the characters of an operator or a bracket stand for.
  function Mark(text: string): T.Token
    requires text != ""
  {
    LexSymbol(text).token
  }

  function Operator(text: string): Option<BinaryOp>
    requires text != ""
  {
    BinaryOf(Mark(text))
  }

  /**
   The binary operators, from the loosest to the tightest: those of
   parse_logical_or first, those of parse_multiplicative last.
   */
  function Group(text: string): (g: Option<nat>)
    ensures g.Some? ==> text != ""
  {
    if text == "||" then Some(0)
    else if text == "&&" then Some(1)
    else if text == "|" then Some(2)
    else if text == "^" then Some(3)
    else if text == "&" then Some(4)
    else if text == "==" || text == "!=" then Some(5)
    else if text == "<" || text == ">" || text == "<=" || text == ">=" then Some(6)
    else if text == "<<" || text == ">>" then Some(7)
    else if text == "+" || text == "-" then Some(8)
    else if text == "*" || text == "/" || text == "%" then Some(9)
    else None
  }

  /** What an operator computes from two words; None is a fault of the processor. */
  function Computes(text: string, a: Word, b: Word): Option<Word> {
    if text == "+" then Some(Wrap(a + b))
    else if text == "-" then Some(Wrap(a - b))
    else if text == "*" then Some(Wrap(a * b))
    else if text == "/" then if DivFaults(a, b) then None else Some(Wrap(Quotient(a, b)))
    else if text == "%" then if DivFaults(a, b) then None else Some(Remainder(a, b))
    else if text == "==" then Some(if a == b then 1 else 0)
    else if text == "!=" then Some(if a == b then 0 else 1)
    else if text == "<" then Some(if a < b then 1 else 0)
    else if text == ">" then Some(if a > b then 1 else 0)
    else if text == "<=" then Some(if a > b then 0 else 1)
    else if text == ">=" then Some(if a < b then 0 else 1)
    else if text == "&&" then Some(if a == 0 || b == 0 then 0 else 1)
    else if text == "||" then Some(if a == 0 && b == 0 then 0 else 1)
    else if text == "&" then Some(WordBits(BitAnd, a, b))
    else if text == "|" then Some(WordBits(BitOr, a, b))
    else if text == "^" then Some(WordBits(BitXor, a, b))
    else if text == "<<" then Some(Wrap(a * Pow2(b % 64)))
    else if text == ">>" then Some(Wrap(Unsigned(a) / Pow2(b % 64)))
    else None
  }

  lemma OperatorIs(text: string, op: BinaryOp)
    requires text == T.PunctText(BinaryToken(op))
    ensures text != "" && Mark(text) == T.Pun(BinaryToken(op)) && Operator(text) == Some(op)
  {
    PunctLengths(BinaryToken(op));
    PunctAlone(BinaryToken(op));
  }

  lemma PunctAlone(p: T.Punct)
    ensures var s := T.PunctText(p); s != "" && Symbol(s[0], PeekNext(s)) == Some((p, |s|))
  {
  }

  function Named(text: string): BinaryOp
    requires Group(text).Some?
  {
    if text == "||" then LogicalOr
    else if text == "&&" then LogicalAnd
    else if text == "|" then BitOrOp
    else if text == "^" then BitXorOp
    else if text == "&" then BitAndOp
    else if text == "==" then Equal
    else if text == "!=" then NotEqual
    else if text == "<" then Less
    else if text == ">" then Greater
    else if text == "<=" then LessEq
    else if text == ">=" then GreaterEq
    else if text == "<<" then ShiftLeft
    else if text == ">>" then ShiftRight
    else if text == "+" then Plus
    else if text == "-" then Minus
    else if text == "*" then Times
    else if text == "/" then Divide
    else Modulo
  }

  lemma NamedText(text: string)
    requires Group(text).Some?
    ensures text == T.PunctText(BinaryToken(Named(text))) && Level(Named(text)) == Group(text).value + 1
    ensures Operator(text) == Some(Named(text))
  {
    OperatorIs(T.PunctText(BinaryToken(Named(text))), Named(text));
  }

  lemma NamedComputes(text: string, a: Word, b: Word)
    requires Group(text).Some?
    ensures BinaryValue(Named(text), a, b) == Computes(text, a, b)
  {
    if text == "/" && !DivFaults(a, b) {
      QuotientFits(a, b);
      WrapWord(Quotient(a, b));
    }
  }

  /**
   The value of a binary operation, from the values of its operands: what the
   operator computes, or a fault; `&&` and `||` leave the right operand out when
   the left one decides.
   */
  lemma OperatorMeans(w: World, text: string, l: Expr, r: Expr, env: Env, tr: seq<Event>)
    requires Group(text).Some? && Eval(w, l, env, tr).Val?
    ensures Operator(text).Some?
    ensures var a, whole := Eval(w, l, env, tr), Eval(w, Binary(Operator(text).value, l, r), env, tr);
      if text == "&&" && a.v == 0 then whole == Val(0, a.tr)
      else if text == "||" && a.v != 0 then whole == Val(1, a.tr)
      else
        var b := Eval(w, r, env, a.tr);
        b.Val? ==>
          whole == match Computes(text, a.v, b.v)
                   case Some(v) => Val(v, b.tr)
                   case None => Faulted(b.tr)
  {
    hide Operator, Computes, Group, BinaryValue;
    NamedText(text);
    NamedLogic(text);
    var a := Eval(w, l, env, tr);
    var b := Eval(w, r, env, a.tr);
    if b.Val? {
      NamedComputes(text, a.v, b.v);
    }
  }

  lemma NamedLogic(text: string)
    requires Group(text).Some?
    ensures Named(text) == LogicalAnd <==> text == "&&"
    ensures Named(text) == LogicalOr <==> text == "||"
  {
  }

  /** The instruction that an operator is lowered to computes the same, on all words; those of `&&` and `||` are bitwise. */
  lemma OperatorCode(text: string, l: Expr, r: Expr, c: Counters, a: Word, b: Word)
    requires Group(text).Some?
    ensures Operator(text).Some?
    ensures var code := GenExpr(Binary(Operator(text).value, l, r), c).code;
      && code != [] && code[|code| - 1].Alu?
      && AluValue(code[|code| - 1].op, a, b)
         == Computes(if text == "&&" then "&" else if text == "||" then "|" else text, a, b)
  {
    hide Operator, Group, GenExpr, AluValue, Computes, BinaryValue, Level, BinaryToken;
    NamedText(text);
    BitwiseOfLogic(text, a, b);
    NamedComputes(text, a, b);
    NamedLogic(text);
    LastIsAlu(Named(text), l, r, c);
    if text != "&&" && text != "||" {
      OpComputes(Named(text), a, b);
    }
  }

  lemma BitwiseOfLogic(text: string, a: Word, b: Word)
    ensures text == "&&" ==> AluValue(OpOf(LogicalAnd), a, b) == Computes("&", a, b)
    ensures text == "||" ==> AluValue(OpOf(LogicalOr), a, b) == Computes("|", a, b)
  {
  }

  lemma LastIsAlu(op: BinaryOp, l: Expr, r: Expr, c: Counters)
    ensures var code := GenExpr(Binary(op, l, r), c).code;
      code != [] && code[|code| - 1].Alu? && code[|code| - 1].op == OpOf(op)
  {
  }

  // ---------- precedence ----------

  /** s is x, read as an operand of prefix and postfix operators, and then rest. */
  predicate Operand(s: Stream, x: Expr, rest: Stream) {
    ParseUnary(s) == Ok(x, rest)
  }

  // The token is no binary operator of this level or a tighter one.
  predicate Looser(t: T.Token, level: nat) {
    BinaryOf(t).Some? ==> Level(BinaryOf(t).value) < level
  }

  lemma {:induction false} Above(level: nat, s: Stream, x: Expr, rest: Stream)
    requires LOWEST_BINARY <= level <= UNARY && Operand(s, x, rest) && Looser(rest.Head(), level)
    ensures ParseBinary(level, s) == Ok(x, rest)
    decreases UNARY - level
  {
    if level < UNARY {
      Above(level + 1, s, x, rest);
    }
  }

  // From a tighter level down to a looser one.
  lemma {:induction false} Below(level: nat, from: nat, s: Stream, e: Expr, rest: Stream)
    requires LOWEST_BINARY <= level <= from <= UNARY && ParseBinary(from, s) == Ok(e, rest) && Looser(rest.Head(), level)
    ensures ParseBinary(level, s) == Ok(e, rest)
    decreases from - level
  {
    if level < from {
      Below(level + 1, from, s, e, rest);
    }
  }

  /** One operator of the level, its left operand read, with a right operand behind it. */
  lemma Step(op: BinaryOp, left: Expr, s: Stream, y: Expr, rest: Stream)
    requires ParseBinary(Level(op) + 1, s) == Ok(y, rest)
    ensures ParseTail(Level(op), left, T.More(T.Pun(BinaryToken(op)), s)) == ParseTail(Level(op), Binary(op, left, y), rest)
  {
    hide ParseBinary;
    assert BinaryOf(T.Pun(BinaryToken(op))) == Some(op);
  }

  lemma First(op: BinaryOp, s: Stream, x: Expr, s1: Stream)
    requires Operand(s, x, T.More(T.Pun(BinaryToken(op)), s1))
    ensures ParseBinary(Level(op), s) == ParseTail(Level(op), x, T.More(T.Pun(BinaryToken(op)), s1))
  {
    assert BinaryOf(T.Pun(BinaryToken(op))) == Some(op);
    Above(Level(op) + 1, s, x, T.More(T.Pun(BinaryToken(op)), s1));
  }

  lemma Two(op: BinaryOp, s: Stream, x: Expr, s1: Stream, y: Expr, rest: Stream)
    requires Operand(s, x, T.More(T.Pun(BinaryToken(op)), s1)) && Operand(s1, y, rest)
    requires Looser(rest.Head(), Level(op) + 1)
    ensures ParseBinary(Level(op), s) == ParseTail(Level(op), Binary(op, x, y), rest)
  {
    hide ParseBinary, ParseTail, ParseUnary;
    First(op, s, x, s1);
    Above(Level(op) + 1, s1, y, rest);
    Step(op, x, s1, y, rest);
  }

  lemma TailEnds(level: nat, e: Expr, rest: Stream)
    requires LOWEST_BINARY <= level < UNARY && Looser(rest.Head(), level)
    ensures ParseTail(level, e, rest) == Ok(e, rest)
  {
  }

  // Both operands of p, read at the level of q.
  lemma LeftPair(p: BinaryOp, q: BinaryOp, s: Stream, x: Expr, s1: Stream, y: Expr, s2: Stream)
    requires Level(q) <= Level(p)
    requires Operand(s, x, T.More(T.Pun(BinaryToken(p)), s1)) && Operand(s1, y, T.More(T.Pun(BinaryToken(q)), s2))
    ensures ParseBinary(Level(q), s) == ParseTail(Level(q), Binary(p, x, y), T.More(T.Pun(BinaryToken(q)), s2))
  {
    hide ParseBinary, ParseTail, ParseUnary, Level, Operand;
    var xy, rest := Binary(p, x, y), T.More(T.Pun(BinaryToken(q)), s2);
    TokenOperator(q, Level(p) + 1);
    Two(p, s, x, s1, y, rest);
    if Level(q) < Level(p) {
      TokenOperator(q, Level(p));
      TailEnds(Level(p), xy, rest);
      TokenOperator(q, Level(q) + 1);
      Below(Level(q) + 1, Level(p), s, xy, rest);
      OneLevel(Level(q), s, xy, rest);
    }
  }

  lemma TokenOperator(q: BinaryOp, level: nat)
    requires Level(q) < level
    ensures Looser(T.Pun(BinaryToken(q)), level)
  {
    assert BinaryOf(T.Pun(BinaryToken(q))) == Some(q);
  }

  lemma LooserStill(t: T.Token, level: nat)
    requires Looser(t, LOWEST_BINARY) && LOWEST_BINARY <= level
    ensures Looser(t, level)
  {
  }

  // The last operator: its left operand has been read, and nothing goes on behind its right one.
  lemma Finish(q: BinaryOp, left: Expr, s: Stream, s2: Stream, z: Expr, t: Stream)
    requires ParseBinary(Level(q), s) == ParseTail(Level(q), left, T.More(T.Pun(BinaryToken(q)), s2))
    requires ParseBinary(Level(q) + 1, s2) == Ok(z, t) && Looser(t.Head(), LOWEST_BINARY)
    ensures ParseBinary(LOWEST_BINARY, s) == Ok(Binary(q, left, z), t)
  {
    hide *;
    Step(q, left, s2, z, t);
    LooserStill(t.Head(), Level(q));
    TailEnds(Level(q), Binary(q, left, z), t);
    Below(LOWEST_BINARY, Level(q), s, Binary(q, left, z), t);
  }

  lemma LeftFirst(p: BinaryOp, q: BinaryOp, s: Stream, x: Expr, s1: Stream, y: Expr, s2: Stream, z: Expr, t: Stream)
    requires Level(q) <= Level(p)
    requires Operand(s, x, T.More(T.Pun(BinaryToken(p)), s1)) && Operand(s1, y, T.More(T.Pun(BinaryToken(q)), s2))
    requires Operand(s2, z, t) && Looser(t.Head(), LOWEST_BINARY)
    ensures ParseBinary(LOWEST_BINARY, s) == Ok(Binary(q, Binary(p, x, y), z), t)
  {
    hide *;
    LeftPair(p, q, s, x, s1, y, s2);
    LooserStill(t.Head(), Level(q) + 1);
    Above(Level(q) + 1, s2, z, t);
    Finish(q, Binary(p, x, y), s, s2, z, t);
  }

  lemma OneLevel(level: nat, s: Stream, e: Expr, rest: Stream)
    requires LOWEST_BINARY <= level < UNARY && ParseBinary(level + 1, s) == Ok(e, rest)
    ensures ParseBinary(level, s) == ParseTail(level, e, rest)
  {
    hide ParseTail;
  }

  lemma RightFirst(p: BinaryOp, q: BinaryOp, s: Stream, x: Expr, s1: Stream, y: Expr, s2: Stream, z: Expr, t: Stream)
    requires Level(p) < Level(q)
    requires Operand(s, x, T.More(T.Pun(BinaryToken(p)), s1)) && Operand(s1, y, T.More(T.Pun(BinaryToken(q)), s2))
    requires Operand(s2, z, t) && Looser(t.Head(), LOWEST_BINARY)
    ensures ParseBinary(LOWEST_BINARY, s) == Ok(Binary(p, x, Binary(q, y, z)), t)
  {
    hide *;
    var yz := Binary(q, y, z);
    LooserStill(t.Head(), Level(q) + 1);
    Two(q, s1, y, s2, z, t);
    LooserStill(t.Head(), Level(q));
    TailEnds(Level(q), yz, t);
    LooserStill(t.Head(), Level(p) + 1);
    Below(Level(p) + 1, Level(q), s1, yz, t);
    First(p, s, x, s1);
    Finish(p, x, s, s1, yz, t);
  }

  // What follows an expression that is over.
  predicate Over(t: T.Token) {
    BinaryOf(t).None? && AssignOf(t).None?
  }

  function Grouped(p: string, q: string, x: Expr, y: Expr, z: Expr): Expr
    requires Group(p).Some? && Group(q).Some?
    requires Operator(p).Some? && Operator(q).Some?
  {
    var op1, op2 := Operator(p).value, Operator(q).value;
    if Group(q).value <= Group(p).value then Binary(op2, Binary(op1, x, y), z) else Binary(op1, x, Binary(op2, y, z))
  }

  /**
   `x p y q z` is `(x p y) q z` if p binds as tightly as q or tighter, and
   `x p (y q z)` otherwise, for all operators and all operands.
   */
  lemma Precedence(p: string, q: string, s: Stream, x: Expr, s1: Stream, y: Expr, s2: Stream, z: Expr, t: Stream)
    requires Group(p).Some? && Group(q).Some?
    requires Operand(s, x, T.More(Mark(p), s1)) && Operand(s1, y, T.More(Mark(q), s2)) && Operand(s2, z, t) && Over(t.Head())
    ensures Operator(p).Some? && Operator(q).Some?
    ensures ParseExpr(s) == Ok(Grouped(p, q, x, y, z), t)
  {
    hide *;
    NamedText(p);
    NamedText(q);
    MarkIs(p);
    MarkIs(q);
    OverIsLooser(t.Head());
    GroupedIs(p, q, x, y, z);
    if Group(q).value <= Group(p).value {
      LeftFirst(Named(p), Named(q), s, x, s1, y, s2, z, t);
    } else {
      RightFirst(Named(p), Named(q), s, x, s1, y, s2, z, t);
    }
    ExprIsBinary(s, Grouped(p, q, x, y, z), t);
  }

  lemma OverIsLooser(t: T.Token)
    requires Over(t)
    ensures Looser(t, LOWEST_BINARY) && AssignOf(t).None?
  {
  }

  lemma GroupedIs(p: string, q: string, x: Expr, y: Expr, z: Expr)
    requires Group(p).Some? && Group(q).Some?
    requires Operator(p) == Some(Named(p)) && Operator(q) == Some(Named(q))
    ensures Grouped(p, q, x, y, z) ==
      if Group(q).value <= Group(p).value then Binary(Named(q), Binary(Named(p), x, y), z)
      else Binary(Named(p), x, Binary(Named(q), y, z))
  {
    hide Operator, Group, Named;
  }

  lemma ExprIsBinary(s: Stream, e: Expr, t: Stream)
    requires ParseBinary(LOWEST_BINARY, s) == Ok(e, t) && AssignOf(t.Head()).None?
    ensures ParseExpr(s) == Ok(e, t)
  {
    hide ParseBinary;
  }

  lemma MarkIs(text: string)
    requires Group(text).Some?
    ensures Mark(text) == T.Pun(BinaryToken(Named(text)))
  {
    NamedText(text);
    OperatorIs(T.PunctText(BinaryToken(Named(text))), Named(text));
  }

  // `x p y q z ;`
  function TwoOperators(x: string, p: string, y: string, q: string, z: string): string {
    x + (" " + (p + (" " + (y + (" " + (q + (" " + (z + (" " + "; ")))))))))
  }

  /** The same on texts, with names for operands. */
  lemma PrecedenceOfText(bits: FloatBits, x: string, p: string, y: string, q: string, z: string)
    requires IsIdentifier(x) && IsIdentifier(y) && IsIdentifier(z) && Group(p).Some? && Group(q).Some?
    ensures Operator(p).Some? && Operator(q).Some?
    ensures ParseExpr(LexAll(bits, TwoOperators(x, p, y, q, z)))
         == Ok(Grouped(p, q, Ident(x, 0), Ident(y, 0), Ident(z, 0)), T.More(T.Pun(T.Semicolon), T.Done))
  {
    hide ParseExpr, Group, IsIdentifier, Named, LexAll, Mark, Operator, Level, Operand, AllLexable, Render, BinaryToken;
    NamedText(p);
    NamedText(q);
    MarkIs(p);
    MarkIs(q);
    var t := T.More(T.Pun(T.Semicolon), T.Done);
    var s2 := T.More(T.Ident(z), t);
    var s1 := T.More(T.Ident(y), T.More(Mark(q), s2));
    var s := T.More(T.Ident(x), T.More(Mark(p), s1));
    SemicolonEnds();
    SixLexable(x, BinaryToken(Named(p)), y, BinaryToken(Named(q)), z);
    RenderRoundTrip(bits, s);
    NoPostfix(Named(p));
    NoPostfix(Named(q));
    FiveRendered(x, p, y, q, z, s);
    NameOperand(x, T.More(Mark(p), s1));
    NameOperand(y, T.More(Mark(q), s2));
    NameOperand(z, t);
    Precedence(p, q, s, Ident(x, 0), s1, Ident(y, 0), s2, Ident(z, 0), t);
  }

  lemma NameOperand(x: string, rest: Stream)
    requires !StartsPostfix(rest.Head())
    ensures Operand(T.More(T.Ident(x), rest), Ident(x, 0), rest)
  {
    var s := T.More(T.Ident(x), rest);
    assert ParsePrimary(s) == Ok(Ident(x, 0), rest);
    assert PostfixTail(Ident(x, 0), rest) == Ok(Ident(x, 0), rest);
    assert ParsePostfix(s) == Ok(Ident(x, 0), rest);
  }

  lemma SixLexable(x: string, p: T.Punct, y: string, q: T.Punct, z: string)
    requires IsIdentifier(x) && IsIdentifier(y) && IsIdentifier(z)
    ensures AllLexable(T.More(T.Ident(x), T.More(T.Pun(p), T.More(T.Ident(y), T.More(T.Pun(q), T.More(T.Ident(z),
                       T.More(T.Pun(T.Semicolon), T.Done)))))))
  {
    hide IsIdentifier;
    var s4 := T.More(T.Ident(z), T.More(T.Pun(T.Semicolon), T.Done));
    assert AllLexable(s4);
    var s2 := T.More(T.Ident(y), T.More(T.Pun(q), s4));
    assert AllLexable(s2);
  }

  lemma SemicolonEnds()
    ensures Over(T.Pun(T.Semicolon)) && !StartsPostfix(T.Pun(T.Semicolon))
  {
  }

  lemma NoPostfix(op: BinaryOp)
    ensures !StartsPostfix(T.Pun(BinaryToken(op)))
  {
  }

  lemma FiveRendered(x: string, p: string, y: string, q: string, z: string, s: Stream)
    requires Group(p).Some? && Group(q).Some?
    requires s == T.More(T.Ident(x), T.More(Mark(p), T.More(T.Ident(y), T.More(Mark(q), T.More(T.Ident(z),
                  T.More(T.Pun(T.Semicolon), T.Done))))))
    requires Mark(p).Pun? && T.PunctText(Mark(p).p) == p && Mark(q).Pun? && T.PunctText(Mark(q).p) == q
    ensures Render(s) == TwoOperators(x, p, y, q, z)
  {
    hide Mark, Group;
    var s5 := T.More(T.Pun(T.Semicolon), T.Done);
    var s4 := T.More(T.Ident(z), s5);
    var s3 := T.More(Mark(q), s4);
    var s2 := T.More(T.Ident(y), s3);
    var s1 := T.More(Mark(p), s2);
    assert Render(s5) == ";" + (" " + "");
    assert Render(s4) == z + (" " + Render(s5));
    assert Render(s3) == q + (" " + Render(s4));
    assert Render(s2) == y + (" " + Render(s3));
    assert Render(s1) == p + (" " + Render(s2));
  }

  // ---------- prefix operators ----------

  function Prefix(text: string): Option<UnaryOp>
    requires text != ""
  {
    Grammar.UnaryOf(Mark(text))
  }

  predicate IsPrefix(text: string) {
    text == "-" || text == "~" || text == "!" || text == "&" || text == "*"
  }

  lemma PrefixIs(op: UnaryOp)
    ensures var text := T.PunctText(UnaryToken(op));
      text != "" && Mark(text) == T.Pun(UnaryToken(op)) && Prefix(text) == Some(op)
  {
    PunctAlone(UnaryToken(op));
  }

  lemma AllPrefixes()
    ensures Prefix("-") == Some(Minus1) && Prefix("~") == Some(UnaryOp.Tilde) && Prefix("!") == Some(LogicalNot)
    ensures Prefix("&") == Some(AddressOf) && Prefix("*") == Some(Deref)
  {
    PrefixIs(Minus1);
    PrefixIs(UnaryOp.Tilde);
    PrefixIs(LogicalNot);
    PrefixIs(AddressOf);
    PrefixIs(Deref);
  }

  /** A prefix operator binds tighter than any binary one: it takes the operand behind it. */
  lemma PrefixParsed(text: string, s: Stream, x: Expr, rest: Stream)
    requires IsPrefix(text) && Operand(s, x, rest)
    ensures Prefix(text).Some? && Operand(T.More(Mark(text), s), Unary(Prefix(text).value, x), rest)
  {
    hide Mark;
    AllPrefixes();
  }

  /** `-` negates modulo 2^64, `~` inverts all bits, `!` tells whether the operand is 0. */
  lemma PrefixMeans(w: World, x: Expr, env: Env, tr: seq<Event>)
    requires Eval(w, x, env, tr).Val?
    ensures Prefix("-").Some? && Prefix("~").Some? && Prefix("!").Some?
    ensures var a := Eval(w, x, env, tr);
      && Eval(w, Unary(Prefix("-").value, x), env, tr) == Val(Wrap(0 - a.v), a.tr)
      && Eval(w, Unary(Prefix("~").value, x), env, tr) == Val(0 - 1 - a.v, a.tr)
      && Eval(w, Unary(Prefix("!").value, x), env, tr) == Val(if a.v == 0 then 1 else 0, a.tr)
  {
    hide Prefix, Eval;
    AllPrefixes();
    UnaryEval(w, Minus1, x, env, tr);
    UnaryEval(w, UnaryOp.Tilde, x, env, tr);
    UnaryEval(w, LogicalNot, x, env, tr);
  }

  lemma UnaryEval(w: World, op: UnaryOp, x: Expr, env: Env, tr: seq<Event>)
    requires Eval(w, x, env, tr).Val? && (op == Minus1 || op == UnaryOp.Tilde || op == LogicalNot)
    ensures var a := Eval(w, x, env, tr);
      Eval(w, Unary(op, x), env, tr)
      == Val(if op == Minus1 then Wrap(0 - a.v) else if op == LogicalNot then (if a.v == 0 then 1 else 0) else 0 - 1 - a.v,
             a.tr)
  {
    hide BinaryValue;
  }

  /** What the instruction computes: `!` has that of `~`, and `&` and `*` copy their operand. */
  lemma PrefixCode(text: string, x: Expr, c: Counters, a: Word)
    requires IsPrefix(text)
    ensures Prefix(text).Some?
    ensures var code := GenExpr(Unary(Prefix(text).value, x), c).code;
      && code != [] && code[|code| - 1].Un?
      && IrMachine.UnaryValue(code[|code| - 1].uop, a)
         == if text == "-" then Wrap(0 - a) else if text == "~" || text == "!" then 0 - 1 - a else a
  {
    hide Prefix;
    AllPrefixes();
  }

  // ---------- assignment ----------

  function Assignment(text: string): Option<AssignOp>
    requires text != ""
  {
    AssignOf(Mark(text))
  }

  predicate IsAssignment(text: string) {
    text == "=" || text == "+=" || text == "-=" || text == "*=" || text == "/="
  }

  lemma AssignmentIs(op: AssignOp)
    ensures var text := T.PunctText(AssignToken(op));
      text != "" && Mark(text) == T.Pun(AssignToken(op)) && Assignment(text) == Some(op)
  {
    PunctAlone(AssignToken(op));
  }

  lemma AllAssignments()
    ensures Assignment("=") == Some(Set) && Assignment("+=") == Some(PlusSet) && Assignment("-=") == Some(MinusSet)
    ensures Assignment("*=") == Some(TimesSet) && Assignment("/=") == Some(DivideSet)
  {
    AssignmentIs(Set);
    AssignmentIs(PlusSet);
    AssignmentIs(MinusSet);
    AssignmentIs(TimesSet);
    AssignmentIs(DivideSet);
  }

  /** Assignment takes all of the binary operations before it, and everything behind it. */
  lemma AssignmentParsed(text: string, s: Stream, l: Expr, s1: Stream, v: Expr, rest: Stream)
    requires IsAssignment(text) && ParseBinary(LOWEST_BINARY, s) == Ok(l, T.More(Mark(text), s1))
    requires ParseExpr(s1) == Ok(v, rest)
    ensures Assignment(text).Some? && ParseExpr(s) == Ok(Assign(Assignment(text).value, l, v), rest)
  {
    hide Mark, ParseBinary;
    AllAssignments();
  }

  /** `x = e` stores the value of e; `x += e` what `x + e` computes, and so on. */
  lemma AssignmentMeans(w: World, text: string, x: string, e: Expr, env: Env, tr: seq<Event>)
    requires IsAssignment(text) && Eval(w, e, env, tr).Val?
    ensures Assignment(text).Some?
    ensures var a := Eval(w, e, env, tr);
      Store(w, x, Assignment(text).value, e, env, tr)
      == match if text == "=" then Some(a.v) else Computes(text[..1], Lookup(env, x), a.v)
         case Some(v) => Normal(env[x := v], a.tr)
         case None => Crashed(a.tr)
  {
    hide Assignment, Eval, Computes, BinaryValue;
    AllAssignments();
    var before, v := Lookup(env, x), Eval(w, e, env, tr).v;
    FirstCharacters();
    NamedComputes("+", before, v);
    NamedComputes("-", before, v);
    NamedComputes("*", before, v);
    NamedComputes("/", before, v);
  }

  lemma FirstCharacters()
    ensures "+="[..1] == "+" && "-="[..1] == "-" && "*="[..1] == "*" && "/="[..1] == "/"
  {
  }

  // ---------- calls ----------

  /** A call evaluates its arguments and asks the outside for its callee, which is puts for print_str. */
  lemma CallMeans(w: World, f: string, slot: nat, args: seq<Expr>, env: Env, tr: seq<Event>)
    requires EvalArgs(w, args, env, tr).Vals?
    ensures var a := EvalArgs(w, args, env, tr);
      var callee := if f == "print_str" then "puts" else f;
      var v := w.call(callee, a.vs, a.tr);
      Eval(w, Expr.Call(Ident(f, slot), args), env, tr) == Val(v, a.tr + [Event(callee, a.vs, v)])
  {
  }
}
