/** The Internet checksum of the kernel (kernel/network.c:29-40, 332-356), after RFC 1071. */
module Checksum {
  import opened Words

  const U16: nat := 0x1_0000

  // What a u32 accumulator holds without overflow: 65537 words of at most 0xFFFF.
  const MAX_BYTES: nat := 131074

  function LowFirst(a: Byte, b: Byte): (w: nat)
    ensures w < U16
  {
    var hi: int := b;
    a + 256 * hi
  }

  function HighFirst(a: Byte, b: Byte): (w: nat)
    ensures w < U16
  {
    LowFirst(b, a)
  }

  // Words as the code reads them, low byte first; an odd last byte counts as a low byte.
  function Sum(d: seq<Byte>): (n: nat)
    ensures n <= 0xFFFF * ((|d| + 1) / 2)
  {
    if d == [] then 0 else if |d| == 1 then d[0] else LowFirst(d[0], d[1]) + Sum(d[2..])
  }

  // Words as RFC 1071 numbers them, high byte first.
  function NetworkSum(d: seq<Byte>): nat {
    if d == [] then 0 else if |d| == 1 then HighFirst(d[0], 0) else HighFirst(d[0], d[1]) + NetworkSum(d[2..])
  }

  /** Carries added back in until the sum fits 16 bits. */
  function Fold(n: nat): (f: nat)
    ensures f < U16
  {
    if n < U16 then n else Fold(n % U16 + n / U16)
  }

  function Complemented(n: nat): (c: nat)
    requires n < U16
    ensures c < U16
  {
    0xFFFF - n
  }

  function ChecksumOf(d: seq<Byte>): nat {
    Complemented(Fold(Sum(d) % U32))
  }

  // The same data summed in network byte order.
  function NetworkChecksum(d: seq<Byte>): nat {
    Complemented(Fold(NetworkSum(d)))
  }

  function Swap(x: nat): (y: nat)
    requires x < U16
    ensures y < U16
  {
    x % 256 * 256 + x / 256
  }

  // ---------- arithmetic modulo 0xFFFF ----------

  ghost predicate Congruent(a: int, b: int) {
    exists k: int :: Apart(a, b, k)
  }

  predicate Apart(a: int, b: int, k: int) {
    a - b == 0xFFFF * k
  }

  lemma CongruentBy(a: int, b: int, k: int)
    requires a - b == 0xFFFF * k
    ensures Congruent(a, b)
  {
    assert Apart(a, b, k);
  }

  lemma CongruentAdds(a: int, b: int, c: int, d: int)
    requires Congruent(a, b) && Congruent(c, d)
    ensures Congruent(a + c, b + d) && Congruent(b, a)
  {
    var j, k :| Apart(a, b, j) && Apart(c, d, k);
    CongruentBy(a + c, b + d, j + k);
    CongruentBy(b, a, -j);
  }

  lemma CongruentChain(a: int, b: int, c: int)
    requires Congruent(a, b) && Congruent(b, c)
    ensures Congruent(a, c)
  {
    var j, k :| Apart(a, b, j) && Apart(b, c, k);
    CongruentBy(a, c, j + k);
  }

  lemma CongruentTimes(a: int, b: int, m: int)
    requires Congruent(a, b)
    ensures Congruent(m * a, m * b)
  {
    var k :| Apart(a, b, k);
    assert m * a - m * b == m * (a - b) == m * (0xFFFF * k) == 0xFFFF * (m * k);
    CongruentBy(m * a, m * b, m * k);
  }

  /** Folding keeps the residue, and gives 0 only for 0. */
  lemma {:induction false} FoldResidue(n: nat)
    ensures Congruent(n, Fold(n)) && (Fold(n) == 0 <==> n == 0)
  {
    if n < U16 {
      CongruentBy(n, n, 0);
    } else {
      var m := n % U16 + n / U16;
      FoldResidue(m);
      assert n == U16 * (n / U16) + n % U16;
      CongruentBy(n, m, n / U16);
      CongruentChain(n, m, Fold(n));
    }
  }

  /** A folded sum is determined by its residue and by being 0 or not. */
  lemma FoldUnique(n: nat, f: nat)
    requires f < U16 && Congruent(n, f) && (f == 0 <==> n == 0)
    ensures Fold(n) == f
  {
    FoldResidue(n);
    CongruentAdds(n, f, 0, 0) by { CongruentBy(0, 0, 0); }
    CongruentChain(f, n, Fold(n));
    var k :| Apart(f, Fold(n), k);
    assert -1 <= k <= 1;
  }

  // ---------- sums ----------

  lemma {:induction false} SumJoins(a: seq<Byte>, b: seq<Byte>)
    requires |a| % 2 == 0
    ensures Sum(a + b) == Sum(a) + Sum(b)
  {
    if a == [] {
      assert a + b == b;
    } else {
      assert (a + b)[2..] == a[2..] + b;
      SumJoins(a[2..], b);
    }
  }

  /** A 16-bit value stored over two zero bytes at an even place adds itself to the sum. */
  lemma {:induction false} SumStore(d: seq<Byte>, at: nat, v: nat)
    requires at % 2 == 0 && at + 1 < |d| && d[at] == 0 && d[at + 1] == 0 && v < U16
    ensures Sum(d[at := v % 256][at + 1 := v / 256]) == Sum(d) + v
    decreases at
  {
    var s := d[at := v % 256][at + 1 := v / 256];
    if at == 0 {
      assert s[2..] == d[2..];
    } else {
      assert s[2..] == d[2..][at - 2 := v % 256][at - 2 + 1 := v / 256];
      SumStore(d[2..], at - 2, v);
    }
  }

  /** Within the length limit the accumulator does not overflow. */
  lemma SumFits(d: seq<Byte>)
    requires |d| <= MAX_BYTES
    ensures Sum(d) % U32 == Sum(d)
  {
    var words := (|d| + 1) / 2;
    assert words <= 65537;
    assert Sum(d) <= 0xFFFF * words <= 0xFFFF * 65537 < U32;
    Below(Sum(d));
  }

  lemma Below(n: nat)
    requires n < U32
    ensures n % U32 == n
  {
  }

  lemma FoldWithComplement(n: nat)
    ensures Fold(n + Complemented(Fold(n))) == 0xFFFF
  {
    FoldResidue(n);
    var k :| Apart(n, Fold(n), k);
    CongruentBy(n + Complemented(Fold(n)), 0xFFFF, k);
    FoldUnique(n + Complemented(Fold(n)), 0xFFFF);
  }

  /**
   A receiver's check: with the checksum of the rest in its field, the whole sums to 0
   (section 3.1 of RFC 791, section 2 of RFC 1071).
   */
  lemma SelfCheck(d: seq<Byte>, at: nat)
    requires |d| <= MAX_BYTES && at % 2 == 0 && at + 1 < |d| && d[at] == 0 && d[at + 1] == 0
    ensures var c := ChecksumOf(d);
      ChecksumOf(d[at := c % 256][at + 1 := c / 256]) == 0
  {
    var c := ChecksumOf(d);
    SumFits(d);
    SumFits(d[at := c % 256][at + 1 := c / 256]);
    SumStore(d, at, c);
    FoldWithComplement(Sum(d));
  }

  // ---------- byte order ----------

  lemma {:induction false} NetworkSumResidue(d: seq<Byte>)
    ensures Congruent(NetworkSum(d), 256 * Sum(d)) && (NetworkSum(d) == 0 <==> Sum(d) == 0)
  {
    if d == [] {
      CongruentBy(0, 0, 0);
    } else if |d| == 1 {
      CongruentBy(NetworkSum(d), 256 * Sum(d), 0);
    } else {
      NetworkSumResidue(d[2..]);
      var k: int := d[1];
      CongruentBy(HighFirst(d[0], d[1]), 256 * LowFirst(d[0], d[1]), -k);
      CongruentAdds(HighFirst(d[0], d[1]), 256 * LowFirst(d[0], d[1]), NetworkSum(d[2..]), 256 * Sum(d[2..]));
    }
  }

  lemma SwapResidue(x: nat)
    requires x < U16
    ensures Congruent(256 * x, Swap(x)) && (Swap(x) == 0 <==> x == 0)
    ensures Swap(Complemented(x)) == Complemented(Swap(x)) && Swap(Swap(x)) == x
  {
    hide Congruent, Swap, Complemented;
    var h, l := x / 256, x % 256;
    SwapParts(h, l);
    SwapParts(l, h);
    SwapParts(255 - h, 255 - l);
    ComplementParts(h, l);
    ComplementParts(l, h);
    CongruentBy(256 * x, Swap(x), h);
  }

  lemma SwapParts(h: nat, l: nat)
    requires h < 256 && l < 256
    ensures Swap(256 * h + l) == 256 * l + h
  {
    assert (256 * h + l) / 256 == h && (256 * h + l) % 256 == l;
  }

  lemma ComplementParts(h: nat, l: nat)
    requires h < 256 && l < 256
    ensures Complemented(256 * h + l) == 256 * (255 - h) + (255 - l)
  {
  }

  lemma FoldSwaps(n: nat, m: nat)
    requires Congruent(m, 256 * n) && (m == 0 <==> n == 0)
    ensures Fold(m) == Swap(Fold(n))
  {
    FoldResidue(n);
    CongruentTimes(n, Fold(n), 256);
    SwapResidue(Fold(n));
    CongruentChain(m, 256 * n, 256 * Fold(n));
    CongruentChain(m, 256 * Fold(n), Swap(Fold(n)));
    FoldUnique(m, Swap(Fold(n)));
  }

  /** Byte order does not matter: summing low byte first gives the network checksum, byte-swapped. */
  lemma ByteOrderIndependent(d: seq<Byte>)
    requires |d| <= MAX_BYTES
    ensures ChecksumOf(d) == Swap(NetworkChecksum(d))
  {
    SumFits(d);
    NetworkSumResidue(d);
    FoldSwaps(Sum(d), NetworkSum(d));
    SwapResidue(Fold(NetworkSum(d)));
    SwapResidue(Fold(Sum(d)));
  }

  // ---------- TCP ----------

  const TCP: Byte := 6

  function Htons(n: nat): nat
    requires n < U16
  {
    Swap(n)
  }

  // Section 3.1 of RFC 9293: addresses, zero, protocol, length.
  function PseudoHeader(src: seq<Byte>, dst: seq<Byte>, len: nat): seq<Byte>
    requires len < U16
  {
    src + dst + [0, TCP, len / 256, len % 256]
  }

  lemma PseudoHeaderSum(src: seq<Byte>, dst: seq<Byte>, len: nat)
    requires |src| == 4 && |dst| == 4 && len < U16
    ensures Sum(PseudoHeader(src, dst, len))
         == LowFirst(src[0], src[1]) + LowFirst(src[2], src[3]) + LowFirst(dst[0], dst[1]) + LowFirst(dst[2], dst[3])
            + Htons(TCP) + Htons(len)
  {
    var tail := [0, TCP, len / 256, len % 256];
    SumJoins(src + dst, tail);
    SumJoins(src, dst);
    SumFour(src);
    SumFour(dst);
    SumFour(tail);
  }

  lemma SumFour(d: seq<Byte>)
    requires |d| == 4
    ensures Sum(d) == LowFirst(d[0], d[1]) + LowFirst(d[2], d[3])
  {
    assert d[2..][2..] == [];
    assert Sum(d[2..]) == LowFirst(d[2], d[3]) + Sum(d[2..][2..]);
  }

  lemma NetworkSumJoins(a: seq<Byte>, b: seq<Byte>)
    requires |a| % 2 == 0
    ensures NetworkSum(a + b) == NetworkSum(a) + NetworkSum(b)
    decreases |a|
  {
    if a == [] {
      assert a + b == b;
    } else {
      assert (a + b)[2..] == a[2..] + b;
      NetworkSumJoins(a[2..], b);
    }
  }

  // Two bytes in network order.
  function BigEndian(d: seq<Byte>, i: nat): nat
    requires i + 1 < |d|
  {
    var hi: int := d[i];
    256 * hi + d[i + 1]
  }

  lemma NetworkSumFour(d: seq<Byte>)
    requires |d| == 4
    ensures NetworkSum(d) == BigEndian(d, 0) + BigEndian(d, 2)
  {
    assert d[2..][2..] == [];
    assert NetworkSum(d[2..]) == HighFirst(d[2], d[3]) + NetworkSum(d[2..][2..]);
  }

  lemma TailWords(len: nat)
    requires len < 0x1_0000
    ensures var tail: seq<Byte> := [0, TCP, len / 256, len % 256];
      BigEndian(tail, 0) == 6 && BigEndian(tail, 2) == len
  {
  }

  /**
   In network order the TCP checksum is over the address words, the protocol number
   6, the length and the segment (section 3.1 of RFC 9293).
   */
  lemma TcpMeans(src: seq<Byte>, dst: seq<Byte>, len: nat, segment: seq<Byte>)
    requires |src| == 4 && |dst| == 4 && len < 0x1_0000 && |segment| + 12 <= MAX_BYTES
    ensures var addresses := BigEndian(src, 0) + BigEndian(src, 2) + BigEndian(dst, 0) + BigEndian(dst, 2);
      var sum := addresses + 6 + len + NetworkSum(segment);
      ChecksumOf(PseudoHeader(src, dst, len) + segment) == Swap(Complemented(Fold(sum)))
  {
    hide NetworkSum, Swap, Fold, Complemented, ChecksumOf, BigEndian;
    var tail := [0, TCP, len / 256, len % 256];
    NetworkSumJoins(src + dst + tail, segment);
    NetworkSumJoins(src + dst, tail);
    NetworkSumJoins(src, dst);
    NetworkSumFour(src);
    NetworkSumFour(dst);
    NetworkSumFour(tail);
    TailWords(len);
    ByteOrderIndependent(PseudoHeader(src, dst, len) + segment);
  }

  // ---------- the loops ----------

  function AddU32(a: nat, b: nat): nat {
    (a + b) % U32
  }

  lemma WrapOnce(a: nat, b: nat, c: nat)
    ensures AddU32(AddU32(a, b), c) == AddU32(a, b + c) && AddU32(a, b) < U32
  {
    var q, r := (a + b) / U32, (a + b) % U32;
    assert a + b == q * U32 + r;
    assert a + (b + c) == (r + c) + q * U32;
  }

  lemma NoWrap(a: nat, b: nat)
    requires a + b < U32
    ensures AddU32(a, b) == a + b
  {
  }

  // The first p bytes have been added to `start`.
  predicate Added(start: nat, data: seq<Byte>, p: nat, sum: nat) {
    p <= |data| && sum < U32 && AddU32(sum, Sum(data[p..])) == AddU32(start, Sum(data))
  }

  lemma NoneAdded(start: nat, data: seq<Byte>)
    requires start < U32
    ensures Added(start, data, 0, start)
  {
    hide AddU32;
    assert data[0..] == data;
  }

  lemma WordAdded(start: nat, data: seq<Byte>, p: nat, sum: nat)
    requires Added(start, data, p, sum) && p + 1 < |data|
    ensures Added(start, data, p + 2, AddU32(sum, LowFirst(data[p], data[p + 1])))
  {
    hide AddU32, LowFirst;
    assert data[p..][2..] == data[p + 2..];
    WrapOnce(sum, LowFirst(data[p], data[p + 1]), Sum(data[p + 2..]));
  }

  lemma AllAdded(start: nat, data: seq<Byte>, p: nat, sum: nat)
    requires Added(start, data, p, sum) && |data| - p <= 1
    ensures (if p < |data| then AddU32(sum, data[p]) else sum) == AddU32(start, Sum(data))
  {
    hide AddU32;
    assert data[p..] == if p < |data| then [data[p]] else [];
    NoWrap(sum, 0);
  }

  // Adds the words of a piece of memory to an accumulator.
  method AddWords(start: nat, data: seq<Byte>) returns (sum: nat)
    requires start < U32
    ensures sum == AddU32(start, Sum(data))
  {
    hide AddU32, Sum, LowFirst, Added;
    sum := start;
    var p, len := 0, |data|;
    NoneAdded(start, data);
    while len > 1
      invariant 0 <= p && 0 <= len && p + len == |data|
      invariant Added(start, data, p, sum)
    {
      WordAdded(start, data, p, sum);
      sum := AddU32(sum, LowFirst(data[p], data[p + 1]));
      p, len := p + 2, len - 2;
    }
    AllAdded(start, data, p, sum);
    if len > 0 {
      sum := AddU32(sum, data[p]);
    }
  }

  method FoldCarries(start: nat) returns (sum: nat)
    ensures sum == Fold(start)
  {
    sum := start;
    while sum / U16 != 0
      invariant Fold(sum) == Fold(start)
      decreases sum
    {
      sum := sum % U16 + sum / U16;
    }
  }

  method Checksum(data: seq<Byte>) returns (c: nat)
    ensures c == ChecksumOf(data)
  {
    var sum := AddWords(0, data);
    sum := FoldCarries(sum);
    c := 0xFFFF - sum;
  }

  lemma SixWords(a: nat, b: nat, c: nat, d: nat, e: nat, f: nat)
    requires a < U16 && b < U16 && c < U16 && d < U16 && e < U16 && f < U16
    ensures AddU32(AddU32(AddU32(AddU32(AddU32(AddU32(0, a), b), c), d), e), f) == a + b + c + d + e + f
  {
    hide AddU32;
    NoWrap(0, a);
    NoWrap(a, b);
    NoWrap(a + b, c);
    NoWrap(a + b + c, d);
    NoWrap(a + b + c + d, e);
    NoWrap(a + b + c + d + e, f);
  }

  method PseudoWords(src: seq<Byte>, dst: seq<Byte>, len: nat) returns (sum: nat)
    requires |src| == 4 && |dst| == 4 && len < U16
    ensures sum == Sum(PseudoHeader(src, dst, len)) < U32
  {
    sum := AddU32(0, LowFirst(src[0], src[1]));
    sum := AddU32(sum, LowFirst(src[2], src[3]));
    sum := AddU32(sum, LowFirst(dst[0], dst[1]));
    sum := AddU32(sum, LowFirst(dst[2], dst[3]));
    sum := AddU32(sum, Htons(TCP));
    sum := AddU32(sum, Htons(len));
    SixWords(LowFirst(src[0], src[1]), LowFirst(src[2], src[3]), LowFirst(dst[0], dst[1]), LowFirst(dst[2], dst[3]),
             Htons(TCP), Htons(len));
    PseudoHeaderSum(src, dst, len);
  }

  /** The checksum of the pseudo header followed by the segment, of which the length field holds 16 bits. */
  method TcpChecksum(src: seq<Byte>, dst: seq<Byte>, segment: seq<Byte>) returns (c: nat)
    requires |src| == 4 && |dst| == 4
    ensures c == ChecksumOf(PseudoHeader(src, dst, |segment| % U16) + segment)
  {
    var sum := PseudoWords(src, dst, |segment| % U16);
    SumJoins(PseudoHeader(src, dst, |segment| % U16), segment);
    sum := AddWords(sum, segment);
    sum := FoldCarries(sum);
    c := 0xFFFF - sum;
  }
}
