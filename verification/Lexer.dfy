/**
 The tokeniser (src/lexer.c): maximal munch over a source text that ends at its
 first NUL.
 */
module Lexing {
  import opened Words
  import opened Tokens

  const NUL: char := '\0'

  function Peek(s: string): char {
    if s == "" then NUL else s[0]
  }

  function PeekNext(s: string): char {
    if |s| < 2 then NUL else s[1]
  }

  predicate IsAlpha(c: char) {
    'a' <= c <= 'z' || 'A' <= c <= 'Z'
  }

  predicate IsIdentStart(c: char) {
    IsAlpha(c) || c == '_'
  }

  predicate IsIdentChar(c: char) {
    IsAlpha(c) || IsDigit(c) || c == '_'
  }

  predicate IsBlank(c: char) {
    c == ' ' || c == '\t' || c == '\r' || c == '\n'
  }

  function SkipLine(s: string): (r: string)
    ensures |r| <= |s|
  {
    if Peek(s) == '\n' || Peek(s) == NUL then s else SkipLine(s[1..])
  }

  function SkipBlanks(s: string): (r: string)
    ensures |r| <= |s|
    decreases |s|
  {
    if IsBlank(Peek(s)) then SkipBlanks(s[1..])
    else if Peek(s) == '/' && PeekNext(s) == '/' then SkipBlanks(SkipLine(s))
    else s
  }

  /** How many leading characters satisfy `p`. */
  function Span(p: char -> bool, s: string): (n: nat)
    ensures n <= |s| && forall i | 0 <= i < n :: p(s[i])
    ensures n < |s| ==> !p(s[n])
  {
    if s == "" || !p(s[0]) then 0 else 1 + Span(p, s[1..])
  }

  function ReservedWord(s: string): Option<Reserved> {
    FindWord(s, RESERVED)
  }

  function WordToken(s: string): Token {
    var r := ReservedWord(s);
    if r.Some? then Res(r.value) else Ident(s)
  }

  /** Where a string body ends: at its closing quote or at the end of the text. */
  function StringEnd(s: string): (n: nat)
    ensures n <= |s| && (n < |s| ==> s[n] == '"' || s[n] == NUL)
  {
    if Peek(s) == NUL || Peek(s) == '"' then 0
    else if Peek(s) == '\\' then
      if PeekNext(s) == NUL then 1 else 2 + StringEnd(s[2..])
    else 1 + StringEnd(s[1..])
  }

  // The symbol that starts with c when d follows, and its length.
  function Symbol(c: char, d: char): (r: Option<(Punct, nat)>)
    ensures r.Some? ==> 1 <= r.value.1 <= if d == NUL then 1 else 2
  {
    match c
    case '+' => if d == '=' then Some((PlusEq, 2)) else Some((Plus, 1))
    case '-' => if d == '=' then Some((MinusEq, 2)) else if d == '>' then Some((Arrow, 2)) else Some((Minus, 1))
    case '*' => if d == '=' then Some((StarEq, 2)) else Some((Star, 1))
    case '/' => if d == '=' then Some((SlashEq, 2)) else Some((Slash, 1))
    case '%' => Some((Percent, 1))
    case '&' => if d == '&' then Some((AndAnd, 2)) else Some((Amp, 1))
    case '|' => if d == '|' then Some((OrOr, 2)) else Some((Pipe, 1))
    case '^' => Some((Caret, 1))
    case '~' => Some((Tilde, 1))
    case '!' => if d == '=' then Some((NotEq, 2)) else Some((Bang, 1))
    case '=' => if d == '=' then Some((EqEq, 2)) else Some((Assign, 1))
    case '<' => if d == '=' then Some((LtEq, 2)) else if d == '<' then Some((LShift, 2)) else Some((LAngle, 1))
    case '>' => if d == '=' then Some((GtEq, 2)) else if d == '>' then Some((RShift, 2)) else Some((RAngle, 1))
    case '(' => Some((LParen, 1))
    case ')' => Some((RParen, 1))
    case '{' => Some((LBrace, 1))
    case '}' => Some((RBrace, 1))
    case '[' => Some((LBracket, 1))
    case ']' => Some((RBracket, 1))
    case ',' => Some((Comma, 1))
    case ':' => Some((Colon, 1))
    case ';' => Some((Semicolon, 1))
    case '.' => Some((Dot, 1))
    case _ => None
  }

  // A token and the text after it.
  datatype Lexed = Lexed(token: Token, rest: string)

  // How atof reads a literal, as the integer that shares its bits.
  type FloatBits = string -> nat

  function LexNumber(bits: FloatBits, s: string): (r: Lexed)
    requires IsDigit(Peek(s))
    ensures |r.rest| < |s| && r.token.Number?
  {
    var n := Span(IsDigit, s);
    if Peek(s[n..]) == '.' && IsDigit(PeekNext(s[n..])) then
      var m := n + 1 + Span(IsDigit, s[n + 1..]);
      Lexed(Number(bits(s[..m])), s[m..])
    else
      Lexed(Number(NumberValue(s[..n])), s[n..])
  }

  function LexString(s: string): (r: Lexed)
    requires Peek(s) == '"'
    ensures |r.rest| < |s| && !r.token.Eof?
  {
    var n := StringEnd(s[1..]);
    if Peek(s[1 + n..]) == NUL then Lexed(Error, s[1 + n..])
    else Lexed(Str(s[1..1 + n]), s[2 + n..])
  }

  function LexSymbol(s: string): (r: Lexed)
    requires s != ""
    ensures |r.rest| < |s| && !r.token.Eof?
  {
    var p := Symbol(s[0], PeekNext(s));
    if p.Some? then Lexed(Pun(p.value.0), s[p.value.1..]) else Lexed(Error, s[1..])
  }

  function LexWord(s: string): (r: Lexed)
    requires IsIdentStart(Peek(s))
    ensures |r.rest| < |s| && !r.token.Eof?
  {
    var n := Span(IsIdentChar, s);
    Lexed(WordToken(s[..n]), s[n..])
  }

  /** The token at the start of s. */
  function LexHead(bits: FloatBits, s: string): (r: Lexed)
    ensures |r.rest| <= |s| && (!r.token.Eof? ==> |r.rest| < |s|)
  {
    var c := Peek(s);
    if c == NUL then Lexed(Eof, s)
    else if IsDigit(c) then LexNumber(bits, s)
    else if IsIdentStart(c) then LexWord(s)
    else if c == '"' then LexString(s)
    else LexSymbol(s)
  }

  /** The next token after blanks and comments. */
  function LexOne(bits: FloatBits, text: string): (r: Lexed)
    ensures |r.rest| <= |text| && (!r.token.Eof? ==> |r.rest| < |text|)
  {
    LexHead(bits, SkipBlanks(text))
  }

  /** All tokens of a text, up to its end or its first error. */
  function LexAll(bits: FloatBits, text: string): Stream
    decreases |text|
  {
    var r := LexOne(bits, text);
    if r.token.Eof? then Done
    else if r.token.Error? then More(Error, Done)
    else More(r.token, LexAll(bits, r.rest))
  }

  // ---------- rendering ----------

  predicate IsIdentifier(s: string) {
    s != "" && IsIdentStart(s[0]) && (forall c | c in s :: IsIdentChar(c)) && ReservedWord(s).None?
  }

  /** A string body: every backslash has its character, and no bare quote ends it early. */
  predicate IsStringBody(s: string) {
    s == "" ||
    (s[0] != NUL && s[0] != '"' &&
     if s[0] == '\\' then |s| >= 2 && s[1] != NUL && IsStringBody(s[2..]) else IsStringBody(s[1..]))
  }

  // Numbers are 64-bit: atoll is undefined beyond them.
  predicate Lexable(t: Token) {
    match t
    case Res(_) => true
    case Pun(_) => true
    case Ident(name) => IsIdentifier(name)
    case Number(v) => v < SIGN
    case Str(text) => IsStringBody(text)
    case Eof => false
    case Error => false
  }

  predicate AllLexable(ts: Stream) {
    ts.More? ==> Lexable(ts.first) && AllLexable(ts.later)
  }

  function Text(t: Token): string {
    match t
    case Res(r) => ReservedText(r)
    case Pun(p) => PunctText(p)
    case Ident(name) => name
    case Number(v) => NumberText(v)
    case Str(text) => "\"" + text + "\""
    case Eof => ""
    case Error => ""
  }

  /** Tokens as source text, a space after each. */
  function Render(ts: Stream): string {
    if ts.Done? then "" else Text(ts.first) + (" " + Render(ts.later))
  }

  lemma {:induction false} SpanWhole(p: char -> bool, s: string, rest: string)
    requires (forall c | c in s :: p(c)) && (rest == "" || !p(rest[0]))
    ensures Span(p, s + rest) == |s|
  {
    if s == "" {
      assert s + rest == rest;
    } else {
      assert s[0] in s;
      assert (s + rest)[1..] == s[1..] + rest;
      SpanWhole(p, s[1..], rest);
    }
  }

  lemma {:induction false} StringEndWhole(s: string, rest: string)
    requires IsStringBody(s)
    ensures StringEnd(s + "\"" + rest) == |s|
  {
    var all := s + "\"" + rest;
    if s != "" {
      if s[0] == '\\' {
        assert all[2..] == s[2..] + "\"" + rest;
        StringEndWhole(s[2..], rest);
      } else {
        assert all[1..] == s[1..] + "\"" + rest;
        StringEndWhole(s[1..], rest);
      }
    }
  }

  lemma ReservedTextIsWord(r: Reserved)
    ensures var s := ReservedText(r);
      s != "" && IsIdentStart(s[0]) && forall c | c in s :: IsIdentChar(c)
  {
  }

  lemma NothingToSkip(s: string)
    requires !IsBlank(Peek(s)) && (Peek(s) == '/' ==> PeekNext(s) != '/')
    ensures SkipBlanks(s) == s
  {
  }

  lemma PunctStarts(p: Punct, tail: string)
    requires tail != "" && IsBlank(tail[0])
    ensures var s := PunctText(p) + tail;
      && s != "" && !IsBlank(s[0]) && !IsDigit(s[0]) && !IsIdentStart(s[0]) && s[0] != '"' && s[0] != NUL
      && (s[0] == '/' ==> s[1] != '/')
      && Symbol(s[0], s[1]) == Some((p, |PunctText(p)|))
  {
    hide Symbol, PunctText;
    PunctLengths(p);
    PunctFirst(p, tail[0]);
    PunctSymbol(p, tail[0]);
  }

  lemma PunctLengths(p: Punct)
    ensures 1 <= |PunctText(p)| <= 2
  {
  }

  lemma PunctFirst(p: Punct, b: char)
    requires IsBlank(b)
    ensures var c := (PunctText(p) + [b])[0];
      !IsBlank(c) && !IsDigit(c) && !IsIdentStart(c) && c != '"' && c != NUL
    ensures var s := PunctText(p) + [b]; s[0] == '/' ==> s[1] != '/'
  {
  }

  lemma PunctSymbol(p: Punct, b: char)
    requires IsBlank(b)
    ensures var s := PunctText(p) + [b]; |s| > 1 && Symbol(s[0], s[1]) == Some((p, |PunctText(p)|))
  {
  }

  lemma PunctRoundTrip(bits: FloatBits, p: Punct, tail: string)
    requires tail != "" && IsBlank(tail[0])
    ensures LexOne(bits, PunctText(p) + tail) == Lexed(Pun(p), tail)
  {
    var w := PunctText(p);
    PunctStarts(p, tail);
    NothingToSkip(w + tail);
    assert (w + tail)[|w|..] == tail;
  }

  lemma NumberTokenRoundTrip(bits: FloatBits, v: nat, tail: string)
    requires tail != "" && IsBlank(tail[0])
    ensures LexOne(bits, NumberText(v) + tail) == Lexed(Number(v), tail)
  {
    var w := NumberText(v);
    assert w[0] in w;
    SpanWhole(IsDigit, w, tail);
    assert (w + tail)[..|w|] == w && (w + tail)[|w|..] == tail;
    NothingToSkip(w + tail);
    NumberRoundTrip(v);
  }

  lemma QuotedParts(text: string, tail: string)
    ensures var s := "\"" + text + "\"" + tail;
      && s[0] == '"' && s[1..] == text + "\"" + tail
      && s[1..1 + |text|] == text && s[1 + |text|] == '"' && s[2 + |text|..] == tail
  {
  }

  lemma StringTokenRoundTrip(bits: FloatBits, text: string, tail: string)
    requires IsStringBody(text)
    ensures LexOne(bits, "\"" + text + "\"" + tail) == Lexed(Str(text), tail)
  {
    var s := "\"" + text + "\"" + tail;
    QuotedParts(text, tail);
    StringEndWhole(text, tail);
    NothingToSkip(s);
  }

  lemma WordRoundTrip(bits: FloatBits, w: string, tail: string)
    requires w != "" && IsIdentStart(w[0]) && (forall c | c in w :: IsIdentChar(c))
    requires tail != "" && IsBlank(tail[0])
    ensures LexOne(bits, w + tail) == Lexed(WordToken(w), tail)
  {
    SpanWhole(IsIdentChar, w, tail);
    assert (w + tail)[..|w|] == w && (w + tail)[|w|..] == tail;
    NothingToSkip(w + tail);
  }

  predicate Digits(s: string) {
    s != "" && forall c | c in s :: '0' <= c <= '9'
  }

  lemma StartsNumber(bits: FloatBits, s: string)
    requires s != "" && '0' <= s[0] <= '9'
    ensures LexOne(bits, s) == LexNumber(bits, s)
  {
    NothingToSkip(s);
  }

  lemma FractionParts(w: string, f: string, tail: string)
    ensures var s := w + "." + f + tail;
      && s == w + ("." + (f + tail)) && s[|w|..] == "." + (f + tail) && s[|w| + 1..] == f + tail
      && s[..|w| + 1 + |f|] == w + "." + f && s[|w| + 1 + |f|..] == tail
  {
  }

  /** A number takes a point when a digit follows it, and all digits behind it; `bits` reads the whole. */
  lemma FractionForm(bits: FloatBits, w: string, f: string, tail: string)
    requires Digits(w) && Digits(f) && (tail == "" || !('0' <= tail[0] <= '9'))
    ensures LexOne(bits, w + "." + f + tail) == Lexed(Number(bits(w + "." + f)), tail)
  {
    var s := w + "." + f + tail;
    assert w[0] in w && f[0] in f;
    FractionParts(w, f, tail);
    SpanWhole(IsDigit, w, "." + (f + tail));
    SpanWhole(IsDigit, f, tail);
    StartsNumber(bits, s);
  }

  /** Without a digit behind a point the number is whole, and read in base ten. */
  lemma WholeForm(bits: FloatBits, w: string, tail: string)
    requires Digits(w) && (tail == "" || !('0' <= tail[0] <= '9'))
    requires !(|tail| >= 2 && tail[0] == '.' && '0' <= tail[1] <= '9')
    ensures LexOne(bits, w + tail) == Lexed(Number(NumberValue(w)), tail)
    ensures NumberValue("") == 0
    ensures NumberValue(w) == 10 * NumberValue(w[..|w| - 1]) + (w[|w| - 1] as int - '0' as int)
  {
    assert w[0] in w;
    SpanWhole(IsDigit, w, tail);
    assert (w + tail)[..|w|] == w && (w + tail)[|w|..] == tail;
    StartsNumber(bits, w + tail);
  }

  /** A token's text followed by a blank is lexed back as that token. */
  lemma TokenRoundTrip(bits: FloatBits, t: Token, tail: string)
    requires Lexable(t) && tail != "" && IsBlank(tail[0])
    ensures LexOne(bits, Text(t) + tail) == Lexed(t, tail)
  {
    match t
    case Pun(p) => PunctRoundTrip(bits, p, tail);
    case Res(r) =>
      ReservedTextIsWord(r);
      AllReserved(r);
      WordFound(r, RESERVED);
      WordRoundTrip(bits, ReservedText(r), tail);
    case Ident(name) => WordRoundTrip(bits, name, tail);
    case Number(v) => NumberTokenRoundTrip(bits, v, tail);
    case Str(text) => StringTokenRoundTrip(bits, text, tail);
  }

  lemma LexAllStep(bits: FloatBits, text: string, t: Token, tail: string)
    requires LexOne(bits, text) == Lexed(t, tail) && Lexable(t)
    ensures LexAll(bits, text) == More(t, LexAll(bits, tail))
  {
  }

  lemma BlankInFront(bits: FloatBits, s: string)
    ensures LexAll(bits, " " + s) == LexAll(bits, s)
  {
    assert (" " + s)[1..] == s;
    assert SkipBlanks(" " + s) == SkipBlanks(s);
    assert LexOne(bits, " " + s) == LexOne(bits, s);
  }

  // ---------- blanks and comments ----------

  // What may stand between tokens.
  datatype Gap = Blank(c: char) | Comment(text: string)

  predicate GapOk(g: Gap) {
    match g
    case Blank(c) => c == ' ' || c == '\t' || c == '\r' || c == '\n'
    case Comment(text) => '\n' !in text && NUL !in text
  }

  function GapText(g: Gap): string {
    match g
    case Blank(c) => [c]
    case Comment(text) => "//" + text + "\n"
  }

  function GapsText(gs: seq<Gap>): string {
    if gs == [] then "" else GapText(gs[0]) + GapsText(gs[1..])
  }

  predicate GapsOk(gs: seq<Gap>) {
    forall g | g in gs :: GapOk(g)
  }

  lemma {:induction false} LineSkipped(c: string, s: string)
    requires '\n' !in c && NUL !in c && (s == "" || s[0] == '\n' || s[0] == NUL)
    ensures SkipLine(c + s) == s
  {
    if c == "" {
      assert c + s == s;
    } else {
      assert c[0] in c && (c + s)[0] == c[0] && (c + s)[1..] == c[1..] + s;
      LineSkipped(c[1..], s);
    }
  }

  lemma GapSkipped(g: Gap, s: string)
    requires GapOk(g)
    ensures SkipBlanks(GapText(g) + s) == SkipBlanks(s)
  {
    var t := GapText(g) + s;
    match g
    case Blank(c) => assert t[0] == c && t[1..] == s;
    case Comment(text) =>
      var line := "//" + text;
      assert t == line + ("\n" + s) && t[0] == '/' && t[1] == '/';
      LineSkipped(line, "\n" + s);
      assert ("\n" + s)[1..] == s;
  }

  /** Any blanks and line comments in front of a token make no difference. */
  lemma {:induction false} GapsSkipped(bits: FloatBits, gs: seq<Gap>, s: string)
    requires GapsOk(gs)
    ensures LexOne(bits, GapsText(gs) + s) == LexOne(bits, s) && LexAll(bits, GapsText(gs) + s) == LexAll(bits, s)
  {
    if gs == [] {
      assert GapsText(gs) + s == s;
    } else {
      assert gs[0] in gs;
      assert GapsText(gs) + s == GapText(gs[0]) + (GapsText(gs[1..]) + s);
      GapSkipped(gs[0], GapsText(gs[1..]) + s);
      GapsSkipped(bits, gs[1..], s);
    }
  }

  /** A comment that no line follows ends the text. */
  lemma LastComment(bits: FloatBits, c: string)
    requires '\n' !in c && NUL !in c
    ensures LexOne(bits, "//" + c) == Lexed(Eof, "")
  {
    assert "//" + c + "" == "//" + c;
    LineSkipped("//" + c, "");
    assert SkipBlanks("") == "";
  }

  // A comment up to the end of the text, or nothing.
  predicate OpenComment(c: string, rest: string) {
    c == "" || (|c| >= 2 && c[..2] == "//" && '\n' !in c && NUL !in c && (rest == "" || rest[0] == NUL))
  }

  lemma {:induction false} LineParts(s: string) returns (c: string)
    ensures s == c + SkipLine(s) && '\n' !in c && NUL !in c
    ensures var r := SkipLine(s); r == "" || r[0] == '\n' || r[0] == NUL
  {
    if Peek(s) == '\n' || Peek(s) == NUL {
      c := "";
    } else {
      var more := LineParts(s[1..]);
      c := [s[0]] + more;
      assert s == [s[0]] + s[1..];
    }
  }

  // s is gaps, perhaps a last comment, and r, which starts with none of them.
  ghost predicate Skipped(s: string, gs: seq<Gap>, c: string, r: string) {
    && GapsOk(gs) && OpenComment(c, r) && s == GapsText(gs) + c + r
    && (r != "" ==> r[0] != ' ' && r[0] != '\t' && r[0] != '\r' && r[0] != '\n')
    && (|r| >= 2 ==> r[..2] != "//")
  }

  lemma SkippedMore(g: Gap, s: string, gs: seq<Gap>, c: string, r: string)
    requires GapOk(g) && Skipped(s, gs, c, r)
    ensures Skipped(GapText(g) + s, [g] + gs, c, r)
  {
    hide GapText, GapOk, OpenComment;
    assert ([g] + gs)[1..] == gs;
    Assoc(GapText(g), GapsText(gs), c);
    Assoc(GapText(g), GapsText(gs) + c, r);
  }

  lemma SkippedOpen(text: string, r: string)
    requires '\n' !in text && NUL !in text && (r == "" || r[0] == NUL)
    ensures Skipped("//" + text + r, [], "//" + text, r)
  {
    var c := "//" + text;
    assert c[..2] == "//";
    assert GapsText([]) + c + r == c + r;
  }

  // A comment, and what follows it on its line: the line's end or the text's.
  lemma CommentLine(s: string) returns (text: string, after: string)
    requires Peek(s) == '/' && PeekNext(s) == '/'
    ensures s == "//" + text + after && '\n' !in text && NUL !in text
    ensures after == "" || after[0] == '\n' || after[0] == NUL
    ensures SkipBlanks(s) == SkipBlanks(after)
  {
    after := SkipLine(s);
    text := LineParts(s[2..]);
    assert s[1..][1..] == s[2..];
    assert SkipLine(s) == SkipLine(s[1..]) == SkipLine(s[2..]);
    assert s == [s[0]] + ([s[1]] + s[2..]) == "//" + s[2..];
  }

  /** What is skipped is nothing but blanks and comments, and all that are there. */
  lemma {:induction false} SkippedIsGaps(s: string) returns (gs: seq<Gap>, c: string)
    ensures Skipped(s, gs, c, SkipBlanks(s))
    decreases |s|
  {
    if IsBlank(Peek(s)) {
      gs, c := SkippedIsGaps(s[1..]);
      assert s == GapText(Blank(s[0])) + s[1..];
      SkippedMore(Blank(s[0]), s[1..], gs, c, SkipBlanks(s));
      gs := [Blank(s[0])] + gs;
    } else if Peek(s) == '/' && PeekNext(s) == '/' {
      var text, after := CommentLine(s);
      if after != "" && after[0] == '\n' {
        gs, c := SkippedIsGaps(after[1..]);
        assert s == GapText(Comment(text)) + after[1..];
        SkippedMore(Comment(text), after[1..], gs, c, SkipBlanks(s));
        gs := [Comment(text)] + gs;
      } else {
        gs, c := [], "//" + text;
        NothingToSkip(after);
        SkippedOpen(text, after);
      }
    } else {
      gs, c := [], "";
      assert GapsText([]) + "" + s == s;
    }
  }

  /** Tokens with something between them: a blank first, and then any blanks and comments. */
  predicate Spaced(gss: seq<seq<Gap>>) {
    forall gs: seq<Gap> | gs in gss :: gs != [] && gs[0].Blank? && GapsOk(gs)
  }

  function Layout(ts: Stream, gss: seq<seq<Gap>>): string
    requires |gss| == ts.Size()
  {
    if ts.Done? then "" else Text(ts.first) + (GapsText(gss[0]) + Layout(ts.later, gss[1..]))
  }

  /** However the tokens are laid out, they are read back. */
  lemma {:induction false} LayoutRoundTrip(bits: FloatBits, ts: Stream, gss: seq<seq<Gap>>)
    requires AllLexable(ts) && |gss| == ts.Size() && Spaced(gss)
    ensures LexAll(bits, Layout(ts, gss)) == ts
    decreases ts
  {
    hide LexOne, LexAll, Lexable, Text, GapOk, GapText, GapsText, GapsOk, SkipBlanks;
    if ts.More? {
      var rest := Layout(ts.later, gss[1..]);
      assert gss[0] in gss;
      GapsBehind(gss[0], rest);
      TokenRoundTrip(bits, ts.first, GapsText(gss[0]) + rest);
      LexAllStep(bits, Layout(ts, gss), ts.first, GapsText(gss[0]) + rest);
      GapsSkipped(bits, gss[0], rest);
      SpacedLater(gss);
      LayoutRoundTrip(bits, ts.later, gss[1..]);
    } else {
      NothingLeft(bits);
    }
  }

  lemma SpacedLater(gss: seq<seq<Gap>>)
    requires Spaced(gss) && gss != []
    ensures Spaced(gss[1..])
  {
    forall gs: seq<Gap> | gs in gss[1..] ensures gs in gss {
    }
  }

  lemma GapsBehind(gs: seq<Gap>, s: string)
    requires gs != [] && gs[0].Blank? && GapsOk(gs)
    ensures GapsText(gs) + s != "" && IsBlank((GapsText(gs) + s)[0])
  {
    assert gs[0] in gs;
  }

  lemma NothingLeft(bits: FloatBits)
    ensures LexAll(bits, "") == Done
  {
    assert SkipBlanks("") == "";
  }

  /** Rendering and lexing are inverse. */
  lemma {:induction false} RenderRoundTrip(bits: FloatBits, ts: Stream)
    requires AllLexable(ts)
    ensures LexAll(bits, Render(ts)) == ts
  {
    if ts.More? {
      var rest := Render(ts.later);
      TokenRoundTrip(bits, ts.first, " " + rest);
      LexAllStep(bits, Render(ts), ts.first, " " + rest);
      BlankInFront(bits, rest);
      RenderRoundTrip(bits, ts.later);
    } else {
      NothingLeft(bits);
    }
  }

  // ---------- string literals ----------

  /** A character of a literal, or a backslash with the character behind it. */
  datatype Piece = Plain(c: char) | Escaped(c: char)

  predicate PieceOk(p: Piece) {
    p.c != NUL && (p.Plain? ==> p.c != '"' && p.c != '\\')
  }

  function PiecesText(ps: seq<Piece>): string {
    if ps == [] then "" else (if ps[0].Plain? then [ps[0].c] else "\\" + [ps[0].c]) + PiecesText(ps[1..])
  }

  lemma {:induction false} PiecesBody(ps: seq<Piece>)
    requires forall p | p in ps :: PieceOk(p)
    ensures IsStringBody(PiecesText(ps))
  {
    if ps != [] {
      var s, rest := PiecesText(ps), PiecesText(ps[1..]);
      PiecesBody(ps[1..]);
      assert PieceOk(ps[0]);
      assert if ps[0].Plain? then s[1..] == rest else s[2..] == rest;
    }
  }

  /** A literal ends at the first quote that no backslash keeps, and holds its characters as written. */
  lemma StringForm(bits: FloatBits, ps: seq<Piece>, s: string)
    requires forall p | p in ps :: PieceOk(p)
    ensures LexOne(bits, "\"" + PiecesText(ps) + "\"" + s) == Lexed(Str(PiecesText(ps)), s)
  {
    hide LexOne, IsStringBody, PiecesText;
    PiecesBody(ps);
    StringTokenRoundTrip(bits, PiecesText(ps), s);
  }

  // ---------- what the lexer can produce ----------

  predicate Clean(ts: Stream) {
    ts.More? ==> !ts.first.Error? && Clean(ts.later)
  }

  // Every number literal fits the long long it is read into.
  predicate NumbersFit(ts: Stream) {
    ts.More? ==> (ts.first.Number? ==> ts.first.value < SIGN) && NumbersFit(ts.later)
  }

  lemma {:induction false} StringEndBody(s: string)
    requires StringEnd(s) < |s|
    ensures s[StringEnd(s)] != NUL ==> IsStringBody(s[..StringEnd(s)])
  {
    var n := StringEnd(s);
    if s[n] != NUL && n > 0 {
      if s[0] == '\\' {
        assert s[2..][n - 2] == s[n];
        StringEndBody(s[2..]);
        assert s[..n][2..] == s[2..][..n - 2];
      } else {
        assert s[1..][n - 1] == s[n];
        StringEndBody(s[1..]);
        assert s[..n][1..] == s[1..][..n - 1];
      }
    }
  }

  lemma LexedToken(bits: FloatBits, text: string)
    ensures var t := LexOne(bits, text).token;
      t.Eof? || t.Error? || (t.Number? && t.value >= SIGN) || Lexable(t)
  {
    var s := SkipBlanks(text);
    var c := Peek(s);
    if c != NUL && !IsDigit(c) && c == '"' {
      var n := StringEnd(s[1..]);
      if Peek(s[1 + n..]) != NUL {
        assert s[1..][..n] == s[1..1 + n];
        StringEndBody(s[1..]);
      }
    }
  }

  /** A text without lexical errors is a list of tokens that can all be written back. */
  lemma {:induction false} LexedLexable(bits: FloatBits, text: string)
    requires Clean(LexAll(bits, text)) && NumbersFit(LexAll(bits, text))
    ensures AllLexable(LexAll(bits, text))
    decreases |text|
  {
    var r := LexOne(bits, text);
    LexedToken(bits, text);
    if !r.token.Eof? && !r.token.Error? {
      LexedLexable(bits, r.rest);
    }
  }

  // ---------- the lexer itself ----------

  lemma WholeNumber(bits: FloatBits, s: string, digits: string, rest: string)
    requires IsDigit(Peek(s)) && digits == s[..Span(IsDigit, s)] && rest == s[Span(IsDigit, s)..]
    requires !(Peek(rest) == '.' && IsDigit(PeekNext(rest)))
    ensures LexNumber(bits, s) == Lexed(Number(NumberValue(digits)), rest)
  {
  }

  lemma FloatNumber(bits: FloatBits, s: string, n: nat, m: nat, literal: string, rest: string)
    requires IsDigit(Peek(s)) && n == Span(IsDigit, s)
    requires Peek(s[n..]) == '.' && IsDigit(PeekNext(s[n..]))
    requires m == n + 1 + Span(IsDigit, s[n + 1..]) && literal == s[..m] && rest == s[m..]
    ensures LexNumber(bits, s) == Lexed(Number(bits(literal)), rest)
  {
  }

  lemma WholeWord(s: string, w: string, rest: string)
    requires IsIdentStart(Peek(s)) && w == s[..Span(IsIdentChar, s)] && rest == s[Span(IsIdentChar, s)..]
    ensures LexWord(s) == Lexed(WordToken(w), rest)
  {
  }

  lemma OpenString(s: string, rest: string)
    requires Peek(s) == '"' && rest == s[1 + StringEnd(s[1..])..] && Peek(rest) == NUL
    ensures LexString(s) == Lexed(Error, rest)
  {
  }

  lemma WholeString(s: string, n: nat, text: string, rest: string)
    requires Peek(s) == '"' && n == StringEnd(s[1..]) && n + 1 < |s| && s[1 + n] == '"'
    requires text == s[1..1 + n] && rest == s[2 + n..]
    ensures LexString(s) == Lexed(Str(text), rest)
  {
  }

  function LineOf(s: string, pos: nat): nat
    requires pos <= |s|
  {
    if pos == 0 then 1 else LineOf(s, pos - 1) + if s[pos - 1] == '\n' then 1 else 0
  }

  function ColumnOf(s: string, pos: nat): nat
    requires pos <= |s|
  {
    if pos == 0 || s[pos - 1] == '\n' then 1 else 1 + ColumnOf(s, pos - 1)
  }

  /** Lines count the newlines passed; columns count from the last of them. */
  lemma {:induction false} Coordinates(s: string, pos: nat)
    requires pos <= |s|
    ensures LineOf(s, pos) == 1 + multiset(s[..pos])['\n']
    ensures var c := ColumnOf(s, pos);
      && 1 <= c <= pos + 1 && '\n' !in s[pos + 1 - c..pos]
      && (c == pos + 1 || s[pos - c] == '\n')
  {
    if pos > 0 {
      Coordinates(s, pos - 1);
      Newlines(s, pos);
      if s[pos - 1] != '\n' {
        ColumnStep(s, pos, ColumnOf(s, pos - 1));
      }
    }
  }

  lemma Newlines(s: string, pos: nat)
    requires 0 < pos <= |s|
    ensures multiset(s[..pos])['\n'] == multiset(s[..pos - 1])['\n'] + if s[pos - 1] == '\n' then 1 else 0
  {
    assert s[..pos] == s[..pos - 1] + [s[pos - 1]];
  }

  // One more character behind a column count.
  lemma ColumnStep(s: string, pos: nat, c: nat)
    requires 0 < pos <= |s| && 1 <= c <= pos && '\n' !in s[pos - c..pos - 1] && s[pos - 1] != '\n'
    ensures '\n' !in s[pos - c..pos]
  {
    assert s[pos - c..pos] == s[pos - c..pos - 1] + [s[pos - 1]];
  }

  class Lexer {
    const source: string
    const bits: FloatBits
    var pos: nat
    var line: nat
    var column: nat

    ghost predicate Valid()
      reads this
    {
      pos <= |source| && line == LineOf(source, pos) && column == ColumnOf(source, pos)
    }

    // The text still to be read.
    ghost function Rest(): string
      reads this
      requires pos <= |source|
    {
      source[pos..]
    }

    constructor (source: string, bits: FloatBits)
      ensures Valid() && this.source == source && this.bits == bits && pos == 0
    {
      this.source, this.bits := source, bits;
      pos, line, column := 0, 1, 1;
    }

    function CurrentChar(): (c: char)
      reads this
      requires pos <= |source|
      ensures c == Peek(Rest())
    {
      if pos == |source| then NUL else source[pos]
    }

    function NextChar(): (c: char)
      reads this
      requires pos <= |source|
      ensures c == PeekNext(Rest())
    {
      if pos + 1 < |source| then source[pos + 1] else NUL
    }

    method Advance()
      requires Valid() && pos < |source|
      modifies this
      ensures Valid() && pos == old(pos) + 1
      ensures Rest() == old(Rest())[1..]
    {
      if source[pos] == '\n' {
        line, column := line + 1, 1;
      } else {
        column := column + 1;
      }
      pos := pos + 1;
    }

    method SkipWhitespace()
      requires Valid()
      modifies this
      ensures Valid() && pos >= old(pos)
      ensures Rest() == SkipBlanks(old(Rest()))
      ensures exists gs, comment :: Skipped(old(Rest()), gs, comment, Rest())
    {
      ghost var gs, c := SkippedIsGaps(Rest());
      while true
        invariant Valid() && pos >= old(pos)
        invariant SkipBlanks(Rest()) == SkipBlanks(old(Rest()))
        decreases |source| - pos
      {
        if IsBlank(CurrentChar()) {
          Advance();
        } else if CurrentChar() == '/' && NextChar() == '/' {
          ghost var comment, start := Rest(), pos;
          while CurrentChar() != '\n' && CurrentChar() != NUL
            invariant Valid() && pos >= start
            invariant SkipLine(Rest()) == SkipLine(comment)
            invariant pos == start ==> CurrentChar() == '/'
            decreases |source| - pos
          {
            Advance();
          }
        } else {
          break;
        }
      }
    }

    method SkipDigits()
      requires Valid()
      modifies this
      ensures Valid() && pos == old(pos) + Span(IsDigit, old(Rest()))
    {
      while IsDigit(CurrentChar())
        invariant Valid() && pos >= old(pos)
        invariant pos + Span(IsDigit, Rest()) == old(pos) + Span(IsDigit, old(Rest()))
        decreases |source| - pos
      {
        Advance();
      }
    }

    lemma Slices(start: nat, n: nat)
      requires start + n <= |source|
      ensures source[start..][..n] == source[start..start + n]
      ensures source[start..][n..] == source[start + n..]
    {
    }

    method ReadNumber() returns (t: Token)
      requires Valid() && IsDigit(CurrentChar())
      modifies this
      ensures Valid() && Lexed(t, Rest()) == LexNumber(bits, old(Rest()))
    {
      hide IsDigit;
      var start := pos;
      ghost var s := Rest();
      SkipDigits();
      ghost var n := pos - start;
      Slices(start, n);
      assert Rest() == s[n..];
      if CurrentChar() == '.' && IsDigit(NextChar()) {
        Advance();
        Slices(start, n + 1);
        assert Rest() == s[n + 1..];
        SkipDigits();
        ghost var m := pos - start;
        Slices(start, m);
        assert Rest() == s[m..] && source[start..pos] == s[..m];
        t := Number(bits(source[start..pos]));
        FloatNumber(bits, s, n, m, source[start..pos], Rest());
      } else {
        t := Number(NumberValue(source[start..pos]));
        WholeNumber(bits, s, source[start..pos], Rest());
      }
    }

    method ReadIdentifier() returns (t: Token)
      requires Valid() && IsIdentStart(CurrentChar())
      modifies this
      ensures Valid() && Lexed(t, Rest()) == LexWord(old(Rest()))
    {
      var start := pos;
      ghost var s := Rest();
      while IsIdentChar(CurrentChar())
        invariant Valid() && pos >= start
        invariant pos + Span(IsIdentChar, Rest()) == start + Span(IsIdentChar, s)
        decreases |source| - pos
      {
        Advance();
      }
      ghost var n := pos - start;
      Slices(start, n);
      assert n == Span(IsIdentChar, s) && Rest() == s[n..] && source[start..pos] == s[..n];
      t := WordToken(source[start..pos]);
      WholeWord(s, source[start..pos], Rest());
    }

    // Past the body of a string, up to its closing quote or the end of the text.
    method SkipString()
      requires Valid()
      modifies this
      ensures Valid() && pos == old(pos) + StringEnd(old(Rest()))
      ensures CurrentChar() == NUL || CurrentChar() == '"'
    {
      while CurrentChar() != '"' && CurrentChar() != NUL
        invariant Valid() && pos >= old(pos)
        invariant pos + StringEnd(Rest()) == old(pos) + StringEnd(old(Rest()))
        decreases |source| - pos
      {
        if CurrentChar() == '\\' {
          ghost var before := Rest();
          Advance();
          if CurrentChar() != NUL {
            Advance();
            assert Rest() == before[2..];
          }
        } else {
          Advance();
        }
      }
    }

    method ReadString() returns (t: Token)
      requires Valid() && CurrentChar() == '"'
      modifies this
      ensures Valid() && Lexed(t, Rest()) == LexString(old(Rest()))
    {
      ghost var quote, s := pos, Rest();
      Advance();
      var start := pos;
      SkipString();
      ghost var n := pos - start;
      Slices(quote, n + 1);
      assert Rest() == s[1 + n..] && n == StringEnd(s[1..]);
      if CurrentChar() == NUL {
        OpenString(s, Rest());
        return Error;
      }
      t := Str(source[start..pos]);
      assert source[start..pos] == s[1..1 + n];
      Advance();
      Slices(quote, n + 2);
      assert Rest() == s[2 + n..];
      WholeString(s, n, s[1..1 + n], Rest());
    }

    method ReadSymbol() returns (t: Token)
      requires Valid() && pos < |source|
      modifies this
      ensures Valid() && Lexed(t, Rest()) == LexSymbol(old(Rest()))
    {
      var p := Symbol(CurrentChar(), NextChar());
      Advance();
      if p.None? {
        return Error;
      }
      if p.value.1 == 2 {
        Slices(pos - 1, 2);
        Advance();
      }
      t := Pun(p.value.0);
    }

    /** One token; the position lands just behind it. */
    method NextToken() returns (t: Token)
      requires Valid()
      modifies this
      ensures Valid() && Lexed(t, Rest()) == LexOne(bits, old(Rest()))
    {
      SkipWhitespace();
      var c := CurrentChar();
      if c == NUL {
        t := Eof;
      } else if IsDigit(c) {
        t := ReadNumber();
      } else if IsIdentStart(c) {
        t := ReadIdentifier();
      } else if c == '"' {
        t := ReadString();
      } else {
        t := ReadSymbol();
      }
    }
  }
}
