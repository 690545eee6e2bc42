/**
 The keyboard ring (kernel/kernel.c): an interrupt handler that may run between
 any two steps of the reader.
 */
module Keyboard {
  import opened Words

  const SIZE: nat := 256
  const CAPACITY: nat := SIZE - 1
  const CTRL_DOWN: Byte := 0x1D
  const CTRL_UP: Byte := 0x9D
  const KEY_C: Byte := 0x2E
  const INTERRUPT: Byte := 0x03

  // By scan code; codes beyond it have no character.
  const DIGITS: string := "1234567890-=\U{0008}\t"
  const TOP: string := "qwertyuiop[]\n"
  const MIDDLE: string := "asdfghjkl;'`"
  const BOTTOM: string := "\\zxcvbnm,./"
  const KEYS: string := "\0\0" + DIGITS + TOP + "\0" + MIDDLE + "\0" + BOTTOM + "\0*\0 "

  function KeyOf(code: Byte): Byte {
    if code < |KEYS| then KEYS[code] as int % 256 else 0
  }

  datatype Ring = Ring(buffer: seq<Byte>, read: nat, write: nat, ctrl: bool)

  predicate RingOk(r: Ring) {
    |r.buffer| == SIZE && r.read < SIZE && r.write < SIZE
  }

  function Next(i: nat): nat {
    (i + 1) % SIZE
  }

  // From i up to j, going round.
  function Round<T>(b: seq<T>, i: nat, j: nat): seq<T>
    requires i < |b| && j < |b|
  {
    if i <= j then b[i..j] else b[i..] + b[..j]
  }

  function After(i: nat, n: nat): nat {
    if i + 1 == n then 0 else i + 1
  }

  lemma NextIsAfter(i: nat)
    requires i < SIZE
    ensures Next(i) == After(i, SIZE)
  {
  }

  lemma RoundTail<T>(b: seq<T>, i: nat, j: nat)
    requires i < |b| && j < |b| && i != j
    ensures Round(b, After(i, |b|), j) == Round(b, i, j)[1..] && Round(b, i, j) != []
  {
    if i < j {
      SliceTail(b, i, j);
    } else if i + 1 < |b| {
      WrappedTail(b, i, j);
    } else {
      assert b[i..] == [b[i]] && b[..j] == b[0..j];
    }
  }

  lemma SliceTail<T>(b: seq<T>, i: nat, j: nat)
    requires i < j <= |b|
    ensures b[i..j][1..] == b[i + 1..j]
  {
  }

  lemma WrappedTail<T>(b: seq<T>, i: nat, j: nat)
    requires i < |b| && j <= |b|
    ensures (b[i..] + b[..j])[1..] == b[i + 1..] + b[..j]
  {
  }

  lemma RoundPut<T>(b: seq<T>, i: nat, j: nat, c: T)
    requires i < |b| && j < |b| && After(j, |b|) != i
    ensures Round(b[j := c], i, After(j, |b|)) == Round(b, i, j) + [c]
  {
    var a := b[j := c];
    if i <= j {
      SliceEnd(b, i, j, c);
      if j + 1 == |b| {
        assert a[i..] == a[i..j + 1] && a[..0] == [];
        assert a[i..] + a[..0] == a[i..];
      }
    } else {
      assert a[i..] == b[i..];
      SliceEnd(b, 0, j, c);
      assert a[..j + 1] == a[0..j + 1] && b[..j] == b[0..j];
      assert b[i..] + (b[..j] + [c]) == (b[i..] + b[..j]) + [c];
    }
  }

  lemma SliceEnd<T>(b: seq<T>, i: nat, j: nat, c: T)
    requires i <= j < |b|
    ensures b[j := c][i..j + 1] == b[i..j] + [c]
  {
  }

  /** The bytes between the read and the write position, going round. */
  function Pending(r: Ring): seq<Byte>
    requires RingOk(r)
  {
    Round(r.buffer, r.read, r.write)
  }

  predicate Full(r: Ring) {
    Next(r.write) == r.read
  }

  // ---------- the handler ----------

  function Put(r: Ring, c: Byte): Ring
    requires RingOk(r)
  {
    if Full(r) then r else r.(buffer := r.buffer[r.write := c], write := Next(r.write))
  }

  function CtrlAfter(ctrl: bool, code: Byte): bool {
    if code == CTRL_DOWN then true else if code == CTRL_UP then false else ctrl
  }

  function Handle(r: Ring, code: Byte): Ring
    requires RingOk(r)
  {
    var r1 := if code < 0x80 && KeyOf(code) != 0 then Put(r, KeyOf(code)) else r;
    var r2 := r1.(ctrl := CtrlAfter(r1.ctrl, code));
    if r2.ctrl && code == KEY_C then Put(r2, INTERRUPT) else r2
  }

  /** What a scan code asks to be queued: Ctrl-C sends the letter and then the interrupt character. */
  function Typed(ctrl: bool, code: Byte): seq<Byte> {
    (if code < 0x80 && KeyOf(code) != 0 then [KeyOf(code)] else [])
    + if CtrlAfter(ctrl, code) && code == KEY_C then [INTERRUPT] else []
  }

  // ---------- a queue of bounded length ----------

  /** Bytes are taken in order while there is room and dropped otherwise. */
  function Enqueue(queue: seq<Byte>, cs: seq<Byte>): seq<Byte>
    decreases |cs|
  {
    if cs == [] then queue
    else Enqueue(if |queue| < CAPACITY then queue + [cs[0]] else queue, cs[1..])
  }

  lemma PendingLength(r: Ring)
    requires RingOk(r)
    ensures |Pending(r)| <= CAPACITY
    ensures |Pending(r)| == CAPACITY <==> Full(r)
    ensures Pending(r) == [] <==> r.read == r.write
    ensures Pending(r) != [] ==> Pending(r)[0] == r.buffer[r.read]
  {
  }

  /** A byte is stored behind the pending ones; none of them is overwritten. */
  lemma PutQueues(r: Ring, c: Byte)
    requires RingOk(r)
    ensures RingOk(Put(r, c)) && Put(r, c).read == r.read && Put(r, c).ctrl == r.ctrl
    ensures Pending(Put(r, c)) == if |Pending(r)| < CAPACITY then Pending(r) + [c] else Pending(r)
  {
    PendingLength(r);
    if !Full(r) {
      NextIsAfter(r.write);
      RoundPut(r.buffer, r.read, r.write, c);
    }
  }

  lemma {:induction false} EnqueueJoins(queue: seq<Byte>, a: seq<Byte>, b: seq<Byte>)
    ensures Enqueue(queue, a + b) == Enqueue(Enqueue(queue, a), b)
    decreases |a|
  {
    if a == [] {
      assert a + b == b;
    } else {
      assert (a + b)[1..] == a[1..] + b;
      EnqueueJoins(if |queue| < CAPACITY then queue + [a[0]] else queue, a[1..], b);
    }
  }

  lemma PutMaybe(r: Ring, c: Byte, wanted: bool)
    requires RingOk(r)
    ensures var s := if wanted then Put(r, c) else r;
      && RingOk(s) && s.read == r.read && s.ctrl == r.ctrl
      && Pending(s) == Enqueue(Pending(r), if wanted then [c] else [])
  {
    if wanted {
      PutQueues(r, c);
      assert [c][1..] == [];
    }
  }

  lemma HandleQueues(r: Ring, code: Byte)
    requires RingOk(r)
    ensures var s := Handle(r, code);
      RingOk(s) && s.read == r.read && s.ctrl == CtrlAfter(r.ctrl, code)
    ensures Pending(Handle(r, code)) == Enqueue(Pending(r), Typed(r.ctrl, code))
  {
    var isKey := code < 0x80 && KeyOf(code) != 0;
    PutMaybe(r, KeyOf(code), isKey);
    var r1 := if isKey then Put(r, KeyOf(code)) else r;
    var r2 := r1.(ctrl := CtrlAfter(r1.ctrl, code));
    PutMaybe(r2, INTERRUPT, r2.ctrl && code == KEY_C);
    assert Pending(r2) == Pending(r1);
    EnqueueJoins(Pending(r), if isKey then [KeyOf(code)] else [], if r2.ctrl && code == KEY_C then [INTERRUPT] else []);
  }

  // ---------- the reader, step by step ----------

  // Waiting for a byte; having seen one; holding it, the position not yet advanced.
  datatype Phase = Waiting | Ready | Loaded(c: Byte)

  // `delivered` and `accepted` are the history.
  datatype System = System(ring: Ring, phase: Phase, delivered: seq<Byte>, accepted: seq<Byte>)

  datatype Event = Key(code: Byte) | Reader

  function Accepted(queue: seq<Byte>, cs: seq<Byte>): seq<Byte>
    decreases |cs|
  {
    if cs == [] then []
    else if |queue| < CAPACITY then [cs[0]] + Accepted(queue + [cs[0]], cs[1..])
    else Accepted(queue, cs[1..])
  }

  lemma {:induction false} EnqueueAppends(queue: seq<Byte>, cs: seq<Byte>)
    ensures Enqueue(queue, cs) == queue + Accepted(queue, cs)
    decreases |cs|
  {
    if cs == [] {
    } else if |queue| < CAPACITY {
      EnqueueAppends(queue + [cs[0]], cs[1..]);
      assert queue + ([cs[0]] + Accepted(queue + [cs[0]], cs[1..])) == (queue + [cs[0]]) + Accepted(queue + [cs[0]], cs[1..]);
    } else {
      EnqueueAppends(queue, cs[1..]);
    }
  }

  function ReaderStep(s: System): System
    requires RingOk(s.ring)
  {
    match s.phase
    case Waiting => if s.ring.read == s.ring.write then s else s.(phase := Ready)
    case Ready => s.(phase := Loaded(s.ring.buffer[s.ring.read]))
    case Loaded(c) => s.(phase := Waiting, ring := s.ring.(read := Next(s.ring.read)), delivered := s.delivered + [c])
  }

  function Step(s: System, e: Event): System
    requires RingOk(s.ring)
  {
    match e
    case Key(code) =>
      s.(ring := Handle(s.ring, code), accepted := s.accepted + Accepted(Pending(s.ring), Typed(s.ring.ctrl, code)))
    case Reader => ReaderStep(s)
  }

  /** Delivered and pending bytes together are the accepted ones, in order. */
  ghost predicate Consistent(s: System) {
    && RingOk(s.ring)
    && s.delivered + Pending(s.ring) == s.accepted
    && (s.phase.Ready? ==> Pending(s.ring) != [])
    && (s.phase.Loaded? ==> Pending(s.ring) != [] && Pending(s.ring)[0] == s.phase.c)
  }

  lemma AdvancePops(r: Ring)
    requires RingOk(r) && Pending(r) != []
    ensures RingOk(r.(read := Next(r.read))) && Pending(r.(read := Next(r.read))) == Pending(r)[1..]
  {
    PendingLength(r);
    NextIsAfter(r.read);
    RoundTail(r.buffer, r.read, r.write);
  }

  /** The handler may come at any moment, also while the reader holds a byte it has not yet taken out. */
  lemma StepConsistent(s: System, e: Event)
    requires Consistent(s)
    ensures Consistent(Step(s, e))
  {
    hide Pending, Next;
    PendingLength(s.ring);
    match e
    case Key(code) =>
      HandleQueues(s.ring, code);
      EnqueueAppends(Pending(s.ring), Typed(s.ring.ctrl, code));
      var more := Accepted(Pending(s.ring), Typed(s.ring.ctrl, code));
      assert s.delivered + (Pending(s.ring) + more) == (s.delivered + Pending(s.ring)) + more;
    case Reader =>
      if s.phase.Loaded? {
        AdvancePops(s.ring);
        assert Pending(s.ring) == [s.phase.c] + Pending(s.ring)[1..];
        assert s.delivered + ([s.phase.c] + Pending(s.ring)[1..]) == (s.delivered + [s.phase.c]) + Pending(s.ring)[1..];
      }
  }

  function Run(s: System, es: seq<Event>): (t: Option<System>)
    decreases |es|
  {
    if es == [] then Some(s) else if RingOk(s.ring) then Run(Step(s, es[0]), es[1..]) else None
  }

  /** Over every interleaving of key presses and reader steps. */
  lemma {:induction false} RunConsistent(s: System, es: seq<Event>)
    requires Consistent(s)
    ensures Run(s, es).Some? && Consistent(Run(s, es).value) && |Pending(Run(s, es).value.ring)| <= 255
    decreases |es|
  {
    PendingLength(s.ring);
    if es != [] {
      StepConsistent(s, es[0]);
      RunConsistent(Step(s, es[0]), es[1..]);
    }
  }

  // The typed bytes of a run, were there no limit.
  function AllTyped(ctrl: bool, es: seq<Event>): seq<Byte>
    decreases |es|
  {
    if es == [] then []
    else if es[0].Reader? then AllTyped(ctrl, es[1..])
    else Typed(ctrl, es[0].code) + AllTyped(CtrlAfter(ctrl, es[0].code), es[1..])
  }

  /** A byte is dropped only when 255 are waiting: with room left, everything typed is accepted. */
  lemma {:induction false} AcceptedWithRoom(queue: seq<Byte>, cs: seq<Byte>)
    ensures |Accepted(queue, cs)| == if |queue| + |cs| <= CAPACITY then |cs|
                                     else if |queue| <= CAPACITY then CAPACITY - |queue| else 0
    ensures Accepted(queue, cs) <= cs
    decreases |cs|
  {
    if cs != [] {
      if |queue| < CAPACITY {
        AcceptedWithRoom(queue + [cs[0]], cs[1..]);
      } else {
        AcceptedWithRoom(queue, cs[1..]);
      }
    }
  }

  lemma ReaderOnlyTakes(s: System)
    requires Consistent(s)
    ensures var t := ReaderStep(s);
      RingOk(t.ring) && |Pending(t.ring)| <= |Pending(s.ring)| && t.accepted == s.accepted && t.ring.ctrl == s.ring.ctrl
  {
    if s.phase.Loaded? {
      AdvancePops(s.ring);
    }
  }

  // With room for what is typed, a key press has all of it accepted.
  lemma KeyAccepted(s: System, code: Byte)
    requires Consistent(s) && |Pending(s.ring)| + |Typed(s.ring.ctrl, code)| <= 255
    ensures var t, typed := Step(s, Key(code)), Typed(s.ring.ctrl, code);
      && t.accepted == s.accepted + typed && |Pending(t.ring)| == |Pending(s.ring)| + |typed|
      && t.ring.ctrl == CtrlAfter(s.ring.ctrl, code)
  {
    hide Pending, Typed;
    var typed := Typed(s.ring.ctrl, code);
    HandleQueues(s.ring, code);
    AcceptedWithRoom(Pending(s.ring), typed);
    EnqueueAppends(Pending(s.ring), typed);
  }

  lemma KeyFirst(ctrl: bool, code: Byte, es: seq<Event>)
    ensures AllTyped(ctrl, [Key(code)] + es) == Typed(ctrl, code) + AllTyped(CtrlAfter(ctrl, code), es)
  {
    hide Typed;
    assert ([Key(code)] + es)[1..] == es;
  }

  /** While no more than 255 bytes are typed, the reader gets exactly what was typed, in order. */
  lemma {:induction false} NothingLost(s: System, es: seq<Event>)
    requires RingOk(s.ring) && Consistent(s) && |Pending(s.ring)| + |AllTyped(s.ring.ctrl, es)| <= 255
    ensures Run(s, es).Some? && Run(s, es).value.accepted == s.accepted + AllTyped(s.ring.ctrl, es)
    decreases |es|
  {
    hide Consistent, Pending, Typed, Step, CtrlAfter;
    if es != [] {
      var t := Step(s, es[0]);
      StepConsistent(s, es[0]);
      RingStays(t);
      match es[0] {
        case Key(code) =>
          assert es == [Key(code)] + es[1..];
          KeyFirst(s.ring.ctrl, code, es[1..]);
          KeyAccepted(s, code);
          NothingLost(t, es[1..]);
          Assoc(s.accepted, Typed(s.ring.ctrl, code), AllTyped(t.ring.ctrl, es[1..]));
        case Reader =>
          ReaderTakes(s);
          NothingLost(t, es[1..]);
      }
    }
  }

  lemma RingStays(s: System)
    requires Consistent(s)
    ensures RingOk(s.ring)
  {
  }

  lemma ReaderTakes(s: System)
    requires Consistent(s)
    ensures var t := Step(s, Reader);
      |Pending(t.ring)| <= |Pending(s.ring)| && t.accepted == s.accepted && t.ring.ctrl == s.ring.ctrl
  {
    ReaderOnlyTakes(s);
  }

  /** Ctrl-C queues two characters. */
  lemma CtrlC()
    ensures Typed(CtrlAfter(false, 0x1D), 0x2E) == ['c' as int, 3]
    ensures Typed(CtrlAfter(true, 0x9D), 0x2E) == ['c' as int]
  {
    assert KEYS[KEY_C] == 'c';
  }

  // What the codes from `first` on give, key by key.
  predicate Row(first: nat, keys: string) {
    forall i: nat | i < |keys| :: first + i < 0x80 && Typed(false, first + i) == [keys[i] as int % 256]
  }

  predicate Silent(code: Byte) {
    Typed(false, code) == []
  }

  lemma RowIs(first: nat, keys: string)
    requires first + |keys| <= |KEYS| <= 0x80 && KEYS[first..first + |keys|] == keys
    requires (forall k | k in keys :: 0 < k as int < 256) && (first > 0x1D || first + |keys| <= 0x1D)
    ensures Row(first, keys)
  {
    hide KEYS;
    forall i: nat | i < |keys| ensures first + i < 0x80 && Typed(false, first + i) == [keys[i] as int % 256] {
      assert KEYS[first..first + |keys|][i] == KEYS[first + i] && keys[i] in keys;
    }
  }

  /** The layout by rows of scan codes. */
  lemma KeyRows()
    ensures Row(0x02, "1234567890-=\U{0008}\t") && Row(0x10, "qwertyuiop[]\n") && Row(0x1E, "asdfghjkl;'`")
    ensures Row(0x2B, "\\zxcvbnm,./") && Row(0x37, "*") && Row(0x39, " ")
  {
    hide KEYS, Typed, Row, DIGITS, TOP, MIDDLE, BOTTOM;
    KeyPlaces();
    RowIs(0x02, "1234567890-=\U{0008}\t");
    RowIs(0x10, "qwertyuiop[]\n");
    RowIs(0x1E, "asdfghjkl;'`");
    RowIs(0x2B, "\\zxcvbnm,./");
    RowIs(0x37, "*");
    RowIs(0x39, " ");
  }

  lemma KeyPlaces()
    ensures |KEYS| == 0x3A
    ensures KEYS[0x02..0x10] == "1234567890-=\U{0008}\t" && KEYS[0x10..0x1D] == "qwertyuiop[]\n"
    ensures KEYS[0x1E..0x2A] == "asdfghjkl;'`" && KEYS[0x2B..0x36] == "\\zxcvbnm,./"
    ensures KEYS[0x37..0x38] == "*" && KEYS[0x39..0x3A] == " "
    ensures KEYS[0] == KEYS[1] == KEYS[0x1D] == KEYS[0x2A] == KEYS[0x36] == KEYS[0x38] == '\0'
  {
    Between("\0\0", DIGITS, TOP + "\0" + MIDDLE + "\0" + BOTTOM + "\0*\0 ");
    Between("\0\0" + DIGITS, TOP, "\0" + MIDDLE + "\0" + BOTTOM + "\0*\0 ");
    Between("\0\0" + DIGITS + TOP + "\0", MIDDLE, "\0" + BOTTOM + "\0*\0 ");
    Between("\0\0" + DIGITS + TOP + "\0" + MIDDLE + "\0", BOTTOM, "\0*\0 ");
  }

  lemma Between(a: string, b: string, c: string)
    ensures (a + (b + c))[|a|..|a| + |b|] == b
  {
  }

  /** No other code gives a character. */
  lemma SilentKeys(code: Byte)
    requires code <= 0x01 || code == 0x1D || code == 0x2A || code == 0x36 || code == 0x38 || code > 0x39
    ensures Silent(code)
  {
    KeyPlaces();
  }

  // ---------- the kernel's variables ----------

  class Driver {
    const buffer: array<Byte>
    var readPos: nat
    var writePos: nat
    var ctrlPressed: bool

    ghost predicate Valid()
      reads this, buffer
    {
      buffer.Length == SIZE && RingOk(View())
    }

    ghost function View(): Ring
      reads this, buffer
    {
      Ring(buffer[..], readPos, writePos, ctrlPressed)
    }

    constructor ()
      ensures Valid() && fresh(buffer) && Pending(View()) == [] && !ctrlPressed
    {
      buffer := new Byte[SIZE];
      readPos, writePos, ctrlPressed := 0, 0, false;
    }

    method Push(c: Byte)
      requires Valid()
      modifies this`writePos, buffer
      ensures Valid() && View() == Put(old(View()), c)
    {
      var next := (writePos + 1) % SIZE;
      if next != readPos {
        buffer[writePos] := c;
        writePos := next;
      }
    }

    /** The interrupt handler. */
    method KeyboardHandler(code: Byte)
      requires Valid()
      modifies this, buffer
      ensures Valid() && View() == Handle(old(View()), code)
      ensures Pending(View()) == Enqueue(old(Pending(View())), Typed(old(ctrlPressed), code))
    {
      HandleQueues(View(), code);
      if code < 0x80 && KeyOf(code) != 0 {
        Push(KeyOf(code));
      }
      if code == CTRL_DOWN {
        ctrlPressed := true;
      } else if code == CTRL_UP {
        ctrlPressed := false;
      }
      if ctrlPressed && code == KEY_C {
        Push(INTERRUPT);
      }
    }

    // The three steps of keyboard_getchar.

    method HasChar() returns (yes: bool)
      requires Valid()
      ensures yes <==> Pending(View()) != []
    {
      PendingLength(View());
      return readPos != writePos;
    }

    method LoadChar() returns (c: Byte)
      requires Valid() && Pending(View()) != []
      ensures c == Pending(View())[0]
    {
      PendingLength(View());
      return buffer[readPos];
    }

    method AdvanceRead()
      requires Valid() && Pending(View()) != []
      modifies this`readPos
      ensures Valid() && Pending(View()) == old(Pending(View()))[1..]
    {
      hide Round;
      AdvancePops(View());
      readPos := (readPos + 1) % SIZE;
    }
  }
}
