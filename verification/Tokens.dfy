/** Tokens and their texts (src/lexer.h, src/lexer.c). */
module Tokens {
  import opened Words

  datatype Reserved =
    | Nuzzle | Gimme | Pwease | Nowu | Wepeat | Fow | Bweak | Continyue
    | Stwuct | Enum | Smoosh | Const | Static | Extern | Typedef | Sizeof | Nuww | Unsafe
    | Smol | Chonk | Megachonk | Floof | Bigfloof | Boop | Void | Byte
    | True | False

  datatype Punct =
    | Plus | Minus | Star | Slash | Percent
    | Amp | Pipe | Caret | Tilde | LShift | RShift
    | EqEq | NotEq | LAngle | RAngle | LtEq | GtEq | AndAnd | OrOr | Bang
    | Assign | PlusEq | MinusEq | StarEq | SlashEq | Arrow
    | LParen | RParen | LBrace | RBrace | LBracket | RBracket
    | Comma | Colon | Semicolon | Dot

  datatype Token =
    | Res(r: Reserved)
    | Pun(p: Punct)
    | Ident(name: string)
    | Number(value: nat)
    | Str(text: string)
    | Eof
    | Error

  /** The tokens still to come; after the last one the lexer answers Eof for ever. */
  datatype Stream = Done | More(first: Token, later: Stream) {
    function Head(): Token {
      if Done? then Eof else first
    }

    function Rest(): Stream {
      if Done? then Done else later
    }

    function Size(): nat {
      if Done? then 0 else 1 + later.Size()
    }
  }

  function ReservedText(r: Reserved): string {
    match r
    case Nuzzle => "nuzzle"
    case Gimme => "gimme"
    case Pwease => "pwease"
    case Nowu => "nowu"
    case Wepeat => "wepeat"
    case Fow => "fow"
    case Bweak => "bweak"
    case Continyue => "continyue"
    case Stwuct => "stwuct"
    case Enum => "enum"
    case Smoosh => "smoosh"
    case Const => "const"
    case Static => "static"
    case Extern => "extern"
    case Typedef => "typedef"
    case Sizeof => "sizeof"
    case Nuww => "nuww"
    case Unsafe => "unsafe"
    case Smol => "smol"
    case Chonk => "chonk"
    case Megachonk => "megachonk"
    case Floof => "floof"
    case Bigfloof => "bigfloof"
    case Boop => "boop"
    case Void => "void"
    case Byte => "byte"
    case True => "true"
    case False => "false"
  }

  // In the order in which the lexer compares them.
  const RESERVED: seq<Reserved> := [
    Nuzzle, Gimme, Pwease, Nowu, Wepeat, Fow, Bweak, Continyue, Stwuct, Enum, Smoosh, Const, Static, Extern,
    Typedef, Sizeof, Nuww, Unsafe, Smol, Chonk, Megachonk, Floof, Bigfloof, Boop, Void, Byte, True, False]

  /** The first word of `rs` that reads s. */
  function FindWord(s: string, rs: seq<Reserved>): Option<Reserved> {
    if rs == [] then None else if ReservedText(rs[0]) == s then Some(rs[0]) else FindWord(s, rs[1..])
  }

  lemma ReservedTextsDiffer(a: Reserved, b: Reserved)
    requires ReservedText(a) == ReservedText(b)
    ensures a == b
  {
  }

  lemma {:induction false} WordFound(r: Reserved, rs: seq<Reserved>)
    requires r in rs
    ensures FindWord(ReservedText(r), rs) == Some(r)
  {
    if ReservedText(rs[0]) == ReservedText(r) {
      ReservedTextsDiffer(rs[0], r);
    } else {
      WordFound(r, rs[1..]);
    }
  }

  lemma AllReserved(r: Reserved)
    ensures r in RESERVED
  {
  }

  function PunctText(p: Punct): string {
    match p
    case Plus => "+"
    case Minus => "-"
    case Star => "*"
    case Slash => "/"
    case Percent => "%"
    case Amp => "&"
    case Pipe => "|"
    case Caret => "^"
    case Tilde => "~"
    case LShift => "<<"
    case RShift => ">>"
    case EqEq => "=="
    case NotEq => "!="
    case LAngle => "<"
    case RAngle => ">"
    case LtEq => "<="
    case GtEq => ">="
    case AndAnd => "&&"
    case OrOr => "||"
    case Bang => "!"
    case Assign => "="
    case PlusEq => "+="
    case MinusEq => "-="
    case StarEq => "*="
    case SlashEq => "/="
    case Arrow => "->"
    case LParen => "("
    case RParen => ")"
    case LBrace => "{"
    case RBrace => "}"
    case LBracket => "["
    case RBracket => "]"
    case Comma => ","
    case Colon => ":"
    case Semicolon => ";"
    case Dot => "."
  }

  // ---------- decimal numbers ----------

  predicate IsDigit(c: char) {
    '0' <= c <= '9'
  }

  function DigitChar(d: nat): (c: char)
    requires d < 10
    ensures IsDigit(c) && DigitValue(c) == d
  {
    '0' + d as char
  }

  function DigitValue(c: char): nat
    requires IsDigit(c)
  {
    c as int - '0' as int
  }

  function NumberText(n: nat): (s: string)
    ensures s != "" && forall c | c in s :: IsDigit(c)
  {
    if n < 10 then [DigitChar(n)] else NumberText(n / 10) + [DigitChar(n % 10)]
  }

  // atoll on a run of digits
  function NumberValue(s: string): nat
    requires forall c | c in s :: IsDigit(c)
  {
    if s == "" then 0
    else
      assert s[|s| - 1] in s;
      10 * NumberValue(s[..|s| - 1]) + DigitValue(s[|s| - 1])
  }

  lemma {:induction false} NumberRoundTrip(n: nat)
    ensures NumberValue(NumberText(n)) == n
  {
    if n >= 10 {
      var s := NumberText(n);
      assert s[..|s| - 1] == NumberText(n / 10);
      NumberRoundTrip(n / 10);
    } else {
      assert NumberText(n)[..0] == "";
    }
  }
}
