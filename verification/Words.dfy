/**
 64-bit machine words and the arithmetic that the generated code performs on
 them.  A word is the signed reading of its 64 bits, so wrap-around, truncated
 division and logical shifts are written out explicitly.
 */
module Words {
  const MODULUS: int := 0x1_0000_0000_0000_0000
  const SIGN: int := 0x8000_0000_0000_0000

  type Word = x: int | -0x8000_0000_0000_0000 <= x < 0x8000_0000_0000_0000

  type Byte = x: int | 0 <= x < 256

  const U32: nat := 0x1_0000_0000

  datatype Option<+T> = None | Some(value: T) {
    predicate IsFailure() { None? }

    function PropagateFailure<U>(): Option<U>
      requires None?
    {
      None
    }

    function Extract(): T
      requires Some?
    {
      value
    }
  }

  lemma Assoc<T>(a: seq<T>, b: seq<T>, c: seq<T>)
    ensures (a + b) + c == a + (b + c)
  {
  }

  datatype AluOp =
    | Add | Sub | Mul | Div | Mod
    | Eq | Ne | Lt | Gt | Le | Ge
    | And | Or | Xor | Shl | Shr

  /** The signed word with the same low 64 bits as `x`. */
  function Wrap(x: int): Word {
    (x + SIGN) % MODULUS - SIGN
  }

  lemma WrapWord(x: Word)
    ensures Wrap(x) == x
  {
  }

  function Unsigned(x: Word): (u: int)
    ensures 0 <= u < MODULUS
  {
    x % MODULUS
  }

  function Abs(x: int): nat {
    if x < 0 then -x else x
  }

  /** Division truncated toward zero, as `idivq` computes it. */
  function Quotient(a: int, b: int): int
    requires b != 0
  {
    if (a < 0) == (b < 0) then Abs(a) / Abs(b) else -(Abs(a) / Abs(b))
  }

  function Remainder(a: int, b: int): (r: int)
    requires b != 0
    ensures Abs(r) < Abs(b)
  {
    if a < 0 then -(Abs(a) % Abs(b)) else Abs(a) % Abs(b)
  }

  /** `idivq` faults on a zero divisor and on the one overflowing quotient. */
  predicate DivFaults(a: Word, b: Word) {
    b == 0 || (a == -SIGN && b == -1)
  }

  lemma QuotientFits(a: Word, b: Word)
    requires b != 0
    ensures -SIGN <= Quotient(a, b) <= SIGN
    ensures Quotient(a, b) == SIGN <==> DivFaults(a, b)
  {
    QuotientBound(Abs(a), Abs(b));
  }

  lemma QuotientBound(n: nat, d: nat)
    requires d > 0
    ensures 0 <= n / d <= n
    ensures d >= 2 ==> 2 * (n / d) <= n
  {
    var q := n / d;
    TimesGrows(q, 1, d);
    if d >= 2 {
      TimesGrows(q, 2, d);
    }
    assert n == d * q + n % d;
  }

  lemma TimesGrows(q: nat, k: nat, d: nat)
    requires k <= d
    ensures k * q <= d * q
  {
    assert d * q == k * q + (d - k) * q;
  }

  /** `idivq`: quotient and remainder of a double-width dividend, if the quotient fits. */
  function Idiv(n: int, d: Word): Option<(Word, Word)> {
    if d == 0 then None
    else
      var q := Quotient(n, d);
      if -SIGN <= q < SIGN then Some((q, Wrap(Remainder(n, d)))) else None
  }

  lemma IdivOfWord(a: Word, b: Word)
    ensures Idiv(a, b).None? <==> DivFaults(a, b)
    ensures Idiv(a, b).Some? ==> Idiv(a, b).value.0 == Quotient(a, b) && Idiv(a, b).value.1 == Remainder(a, b)
  {
    if b != 0 {
      QuotientFits(a, b);
      assert Abs(Remainder(a, b)) < Abs(b);
    }
  }

  /** Sign extension: the high word of a is all copies of its sign bit. */
  lemma SignExtended(a: Word)
    ensures (if a < 0 then -1 else 0) * MODULUS + Unsigned(a) == a
  {
  }

  datatype BitOp = BitAnd | BitOr | BitXor

  function Bit(op: BitOp, x: nat, y: nat): (r: nat)
    ensures r <= 1
  {
    match op
    case BitAnd => if x == 1 && y == 1 then 1 else 0
    case BitOr => if x == 1 || y == 1 then 1 else 0
    case BitXor => if x != y then 1 else 0
  }

  /** Bitwise operation on two's complement integers of any width. */
  function Bitwise(op: BitOp, x: int, y: int): int
    decreases Abs(x) + Abs(y)
  {
    if -1 <= x <= 0 && -1 <= y <= 0 then
      0 - Bit(op, 0 - x, 0 - y)
    else
      2 * Bitwise(op, x / 2, y / 2) + Bit(op, x % 2, y % 2)
  }

  function Pow2(n: nat): (p: nat)
    ensures p > 0
  {
    if n == 0 then 1 else 2 * Pow2(n - 1)
  }

  lemma {:induction false} BitwiseFits(op: BitOp, x: int, y: int, n: nat)
    requires 0 - Pow2(n) <= x < Pow2(n) && 0 - Pow2(n) <= y < Pow2(n)
    ensures 0 - Pow2(n) <= Bitwise(op, x, y) < Pow2(n)
    decreases n
  {
    if n > 0 && !(-1 <= x <= 0 && -1 <= y <= 0) {
      BitwiseFits(op, x / 2, y / 2, n - 1);
    }
  }

  lemma {:induction false} BitwiseCommutes(op: BitOp, x: int, y: int)
    ensures Bitwise(op, x, y) == Bitwise(op, y, x)
    decreases Abs(x) + Abs(y)
  {
    if !(-1 <= x <= 0 && -1 <= y <= 0) {
      BitwiseCommutes(op, x / 2, y / 2);
    }
  }

  lemma {:induction false} Pow2Adds(m: nat, n: nat)
    ensures Pow2(m + n) == Pow2(m) * Pow2(n)
  {
    if m > 0 {
      Pow2Adds(m - 1, n);
      assert Pow2(m + n) == 2 * Pow2(m - 1 + n);
    }
  }

  lemma Pow2Of63()
    ensures Pow2(63) == SIGN
  {
    hide Pow2;
    Pow2Of7();
    Pow2Adds(7, 7);
    Pow2Adds(14, 7);
    Pow2Adds(21, 21);
    Pow2Adds(42, 21);
  }

  lemma Pow2Of7()
    ensures Pow2(7) == 128
  {
    assert Pow2(3) == 8;
    assert Pow2(5) == 32;
  }

  function WordBits(op: BitOp, a: Word, b: Word): Word {
    Pow2Of63();
    BitwiseFits(op, a, b, 63);
    Bitwise(op, a, b)
  }

  // ---------- what the operations mean ----------

  /** A wrapped result is the sum, difference or product itself, up to a multiple of 2^64. */
  lemma WrapMeans(x: int)
    ensures (x - Wrap(x)) % 0x1_0000_0000_0000_0000 == 0
    ensures -0x8000_0000_0000_0000 <= x < 0x8000_0000_0000_0000 ==> Wrap(x) == x
  {
  }

  /** Division truncates toward zero: the remainder is smaller than the divisor and has the dividend's sign. */
  lemma DivisionMeans(a: int, b: int)
    requires b != 0
    ensures a == Quotient(a, b) * b + Remainder(a, b) && Abs(Remainder(a, b)) < Abs(b)
    ensures Remainder(a, b) == 0 || (Remainder(a, b) < 0 <==> a < 0)
  {
    var q, r := Abs(a) / Abs(b), Abs(a) % Abs(b);
    DivideEvenly(Abs(a), Abs(b));
    Signed(a, b, q, r);
  }

  lemma DivideEvenly(n: nat, d: nat)
    requires d > 0
    ensures n == n / d * d + n % d && n % d < d
  {
  }

  lemma Signed(a: int, b: int, q: int, r: int)
    requires Abs(a) == q * Abs(b) + r
    ensures a == (if (a < 0) == (b < 0) then q else -q) * b + if a < 0 then -r else r
  {
    SignsOut(q, Abs(b));
  }

  lemma SignsOut(q: int, d: int)
    ensures (0 - q) * d == 0 - q * d && q * (0 - d) == 0 - q * d && (0 - q) * (0 - d) == q * d
  {
  }

  // Bit k of the two's complement of x.
  function BitOf(x: int, k: nat): int {
    x / Pow2(k) % 2
  }

  lemma BitBelow(x: int, k: nat)
    requires k > 0
    ensures BitOf(x, k) == BitOf(x / 2, k - 1)
  {
    HalfAndRest(x, Pow2(k - 1));
  }

  lemma HalfAndRest(x: int, p: nat)
    requires p > 0
    ensures x / (2 * p) == x / 2 / p
  {
    var h, q, r := x / 2, x / 2 / p, x / 2 % p;
    assert x == 2 * h + x % 2 && h == q * p + r;
    assert x == q * (2 * p) + (2 * r + x % 2) && 0 <= 2 * r + x % 2 < 2 * p;
    OnlyQuotient(x, 2 * p, q, 2 * r + x % 2);
  }

  lemma OnlyQuotient(x: int, d: nat, q: int, r: int)
    requires d > 0 && x == q * d + r && 0 <= r < d
    ensures x / d == q
  {
    var p, s := x / d, x % d;
    assert x == p * d + s;
    assert (p - q) * d == r - s;
    if p > q {
      TimesGrows(d, 1, p - q);
    } else if p < q {
      TimesGrows(d, 1, q - p);
    }
  }

  /** The bitwise operations work bit by bit, on the sign as well. */
  lemma {:induction false} BitwiseMeans(op: BitOp, x: int, y: int, k: nat)
    ensures var a, b, c := BitOf(x, k), BitOf(y, k), BitOf(Bitwise(op, x, y), k);
      && (op.BitAnd? ==> (c == 1 <==> a == 1 && b == 1))
      && (op.BitOr? ==> (c == 1 <==> a == 1 || b == 1))
      && (op.BitXor? ==> (c == 1 <==> a != b))
    decreases k
  {
    hide Pow2;
    if k == 0 {
      FirstBit(op, x, y);
    } else {
      BitBelow(x, k);
      BitBelow(y, k);
      BitBelow(Bitwise(op, x, y), k);
      HalvesOf(op, x, y);
      BitwiseMeans(op, x / 2, y / 2, k - 1);
    }
  }

  lemma FirstBit(op: BitOp, x: int, y: int)
    ensures BitOf(x, 0) == x % 2 && BitOf(y, 0) == y % 2 && BitOf(Bitwise(op, x, y), 0) == Bit(op, x % 2, y % 2)
  {
    hide Bitwise, BitOf;
    LowBit(x);
    LowBit(y);
    LowBit(Bitwise(op, x, y));
    Halves(op, x, y);
  }

  lemma LowBit(x: int)
    ensures BitOf(x, 0) == x % 2
  {
    assert Pow2(0) == 1;
  }

  lemma HalvesOf(op: BitOp, x: int, y: int)
    ensures Bitwise(op, x, y) / 2 == Bitwise(op, x / 2, y / 2)
  {
    Halves(op, x, y);
  }

  lemma Halves(op: BitOp, x: int, y: int)
    ensures Bitwise(op, x, y) == 2 * Bitwise(op, x / 2, y / 2) + Bit(op, x % 2, y % 2)
  {
    if -1 <= x <= 0 && -1 <= y <= 0 {
      assert x / 2 == x && y / 2 == y && x % 2 == 0 - x && y % 2 == 0 - y;
    }
  }

  /** The complement turns every bit over. */
  lemma ComplementMeans(a: Word, k: nat)
    ensures BitOf(Complement(a), k) == 1 - BitOf(a, k)
  {
    var p := Pow2(k);
    var q, r := a / p, a % p;
    OnlyQuotient(0 - 1 - a, p, 0 - 1 - q, p - 1 - r) by {
      assert a == q * p + r;
      assert (0 - 1 - q) * p == 0 - p - q * p;
    }
  }

  function FromBool(b: bool): Word {
    if b then 1 else 0
  }

  /** The value of one binary instruction; `None` is a processor fault. */
  function AluValue(op: AluOp, a: Word, b: Word): (r: Option<Word>)
    ensures r.None? <==> (op == Div || op == Mod) && DivFaults(a, b)
  {
    match op
    case Add => Some(Wrap(a + b))
    case Sub => Some(Wrap(a - b))
    case Mul => Some(Wrap(a * b))
    case Div => if DivFaults(a, b) then None else QuotientFits(a, b); Some(Quotient(a, b))
    case Mod => if DivFaults(a, b) then None else Some(Remainder(a, b))
    case Eq => Some(FromBool(a == b))
    case Ne => Some(FromBool(a != b))
    case Lt => Some(FromBool(a < b))
    case Gt => Some(FromBool(a > b))
    case Le => Some(FromBool(a <= b))
    case Ge => Some(FromBool(a >= b))
    case And => Some(WordBits(BitAnd, a, b))
    case Or => Some(WordBits(BitOr, a, b))
    case Xor => Some(WordBits(BitXor, a, b))
    case Shl => Some(Wrap(a * Pow2(b % 64)))
    case Shr => Some(Wrap(Unsigned(a) / Pow2(b % 64)))
  }

  function Negate(a: Word): Word {
    Wrap(0 - a)
  }

  function Complement(a: Word): Word {
    -1 - a
  }

  /** On truth values the bitwise operations are the logical ones. */
  lemma BitwiseOnBooleans(a: Word, b: Word)
    requires 0 <= a <= 1 && 0 <= b <= 1
    ensures AluValue(And, a, b) == Some(FromBool(a != 0 && b != 0))
    ensures AluValue(Or, a, b) == Some(FromBool(a != 0 || b != 0))
  {
    assert Bitwise(BitAnd, 0, 0) == 0 && Bitwise(BitOr, 0, 0) == 0;
    assert a / 2 == 0 && b / 2 == 0;
  }
}
