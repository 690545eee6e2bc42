/** The ARP cache (kernel/network.c:14-18, 47-56, 74-97): 256 slots filled in turn. */
module ArpCache {
  import opened Words

  const SLOTS: nat := 256
  const GATEWAY: nat := 0x0A000202

  type Mac = seq<Byte>

  datatype Slot = Slot(valid: bool, ip: nat, mac: Mac)

  datatype Cache = Cache(slots: seq<Slot>, next: nat, gatewayMac: Mac)

  // ---------- the table ----------

  function FindSlot(slots: seq<Slot>, ip: nat, i: nat): (r: Option<nat>)
    requires i <= |slots|
    ensures r.Some? ==> i <= r.value < |slots| && slots[r.value].valid && slots[r.value].ip == ip
    ensures r.None? ==> forall k | i <= k < |slots| :: !(slots[k].valid && slots[k].ip == ip)
    decreases |slots| - i
  {
    if i == |slots| then None
    else if slots[i].valid && slots[i].ip == ip then Some(i)
    else FindSlot(slots, ip, i + 1)
  }

  function Lookup(c: Cache, ip: nat): Option<Mac> {
    if ip == GATEWAY then Some(c.gatewayMac)
    else
      var i := FindSlot(c.slots, ip, 0);
      if i.None? then None else Some(c.slots[i.value].mac)
  }

  // The index counts on and wraps at 2^32.
  function Store(c: Cache, ip: nat, mac: Mac): Cache
    requires |c.slots| == SLOTS
  {
    if ip == GATEWAY then c.(gatewayMac := mac)
    else
      var i := FindSlot(c.slots, ip, 0);
      if i.Some? then c.(slots := c.slots[i.value := c.slots[i.value].(mac := mac)])
      else c.(slots := c.slots[c.next % SLOTS := Slot(true, ip, mac)], next := (c.next + 1) % U32)
  }

  function NewCache(gatewayMac: Mac): Cache {
    Cache(seq(SLOTS, i => Slot(false, 0, [])), 0, gatewayMac)
  }

  // ---------- a first-in first-out map ----------

  datatype Binding = Binding(ip: nat, mac: Mac)

  datatype Fifo = Fifo(entries: seq<Binding>, gatewayMac: Mac)

  function Position(es: seq<Binding>, ip: nat): (r: Option<nat>)
    ensures r.Some? ==> r.value < |es| && es[r.value].ip == ip
    ensures r.None? ==> forall k | 0 <= k < |es| :: es[k].ip != ip
  {
    if es == [] then None
    else if es[0].ip == ip then Some(0)
    else
      var r := Position(es[1..], ip);
      if r.None? then None else Some(r.value + 1)
  }

  function FifoLookup(q: Fifo, ip: nat): Option<Mac> {
    if ip == GATEWAY then Some(q.gatewayMac)
    else
      var i := Position(q.entries, ip);
      if i.None? then None else Some(q.entries[i.value].mac)
  }

  /** A known address is updated where it is; a new one goes to the end and, if there are 256, pushes out the oldest. */
  function FifoStore(q: Fifo, ip: nat, mac: Mac): Fifo {
    if ip == GATEWAY then q.(gatewayMac := mac)
    else
      var i := Position(q.entries, ip);
      if i.Some? then q.(entries := q.entries[i.value := Binding(ip, mac)])
      else q.(entries := (if |q.entries| < SLOTS then q.entries else q.entries[1..]) + [Binding(ip, mac)])
  }

  // ---------- the table is such a map ----------

  // The slot of the k-th oldest of n entries.
  function SlotOf(next: nat, n: nat, k: nat): nat
    requires n <= SLOTS && k < n
  {
    (next + SLOTS - n + k) % SLOTS
  }

  predicate Held(c: Cache, q: Fifo, k: nat)
    requires |c.slots| == SLOTS && |q.entries| <= SLOTS && k < |q.entries|
  {
    c.slots[SlotOf(c.next, |q.entries|, k)] == Slot(true, q.entries[k].ip, q.entries[k].mac)
  }

  // Of slot s in a table that is not full.
  predicate Unused(c: Cache, q: Fifo, s: nat)
    requires s < |c.slots|
  {
    s >= |q.entries| ==> !c.slots[s].valid
  }

  predicate Differ(es: seq<Binding>, i: nat, j: nat)
    requires i < |es| && j < |es|
  {
    es[i].ip != es[j].ip
  }

  ghost predicate Refines(c: Cache, q: Fifo) {
    && |c.slots| == SLOTS && c.next < U32 && |q.entries| <= SLOTS && c.gatewayMac == q.gatewayMac
    && (|q.entries| < SLOTS ==> c.next % SLOTS == |q.entries| && forall s: nat | s < SLOTS :: Unused(c, q, s))
    && (forall k: nat | k < |q.entries| :: Held(c, q, k) && q.entries[k].ip != GATEWAY)
    && (forall i: nat, j: nat | i < j < |q.entries| :: Differ(q.entries, i, j))
  }

  /** Every valid slot holds one of the entries. */
  lemma SlotHolds(c: Cache, q: Fifo, s: nat) returns (k: nat)
    requires Refines(c, q) && s < SLOTS && c.slots[s].valid
    ensures k < |q.entries| && SlotOf(c.next, |q.entries|, k) == s && Held(c, q, k)
  {
    hide SlotOf, Held, Differ;
    var n := |q.entries|;
    if n < SLOTS {
      assert Unused(c, q, s);
      k := s;
      AlignedSlot(c.next, n, k);
    } else {
      k := (s + SLOTS - c.next % SLOTS) % SLOTS;
      FullSlot(c.next, s);
    }
    assert Held(c, q, k);
  }

  lemma FullSlot(next: nat, s: nat)
    requires s < SLOTS
    ensures SlotOf(next, SLOTS, (s + SLOTS - next % SLOTS) % SLOTS) == s
  {
  }

  lemma SlotsDiffer(next: nat, n: nat, i: nat, j: nat)
    requires n <= SLOTS && i < n && j < n && i != j
    ensures SlotOf(next, n, i) != SlotOf(next, n, j)
  {
  }

  lemma EntriesDiffer(es: seq<Binding>, i: nat, j: nat)
    requires forall i: nat, j: nat | i < j < |es| :: Differ(es, i, j)
    requires i < |es| && j < |es| && i != j
    ensures es[i].ip != es[j].ip
  {
    if i < j {
      assert Differ(es, i, j);
    } else {
      assert Differ(es, j, i);
    }
  }

  /** An address has one entry, and the table's search finds its slot. */
  lemma FindsEntry(c: Cache, q: Fifo, ip: nat)
    requires Refines(c, q)
    ensures var p, i := Position(q.entries, ip), FindSlot(c.slots, ip, 0);
      && p.Some? == i.Some?
      && (p.Some? ==> i.value == SlotOf(c.next, |q.entries|, p.value))
  {
    var p, i := Position(q.entries, ip), FindSlot(c.slots, ip, 0);
    if p.Some? {
      assert Held(c, q, p.value);
    }
    if i.Some? {
      var k := SlotHolds(c, q, i.value);
      if p.value != k {
        EntriesDiffer(q.entries, p.value, k);
      }
    }
  }

  lemma LookupRefines(c: Cache, q: Fifo, ip: nat)
    requires Refines(c, q)
    ensures Lookup(c, ip) == FifoLookup(q, ip)
  {
    FindsEntry(c, q, ip);
    var p := Position(q.entries, ip);
    if p.Some? {
      assert Held(c, q, p.value);
    }
  }

  lemma UpdateRefines(c: Cache, q: Fifo, ip: nat, mac: Mac)
    requires Refines(c, q) && ip != GATEWAY && Position(q.entries, ip).Some?
    ensures Refines(Store(c, ip, mac), FifoStore(q, ip, mac))
  {
    FindsEntry(c, q, ip);
    var c1, q1 := Store(c, ip, mac), FifoStore(q, ip, mac);
    var p, n := Position(q.entries, ip).value, |q.entries|;
    assert Held(c, q, p);
    forall k: nat | k < n ensures Held(c1, q1, k) && q1.entries[k].ip != GATEWAY {
      assert Held(c, q, k);
      if k != p {
        SlotsDiffer(c.next, n, k, p);
      }
    }
    forall i: nat, j: nat | i < j < n ensures Differ(q1.entries, i, j) {
      assert Differ(q.entries, i, j);
    }
    forall s: nat | s < SLOTS && n < SLOTS ensures Unused(c1, q1, s) {
      assert Unused(c, q, s);
    }
  }

  lemma IndexWraps(next: nat)
    requires next < U32
    ensures (next + 1) % U32 < U32 && (next + 1) % U32 % SLOTS == (next + 1) % SLOTS
  {
    if next + 1 == U32 {
      assert U32 % SLOTS == 0;
    }
  }

  // Before the table is full, entries stand in their order.
  lemma AlignedSlot(next: nat, n: nat, k: nat)
    requires k < n <= SLOTS && next % SLOTS == n % SLOTS
    ensures SlotOf(next, n, k) == k
  {
  }

  // When it is full, counting the index on moves every entry one place up.
  lemma ShiftedSlot(next: nat, k: nat)
    requires next < U32 && k < SLOTS
    ensures k + 1 < SLOTS ==> SlotOf((next + 1) % U32, SLOTS, k) == SlotOf(next, SLOTS, k + 1)
    ensures k + 1 == SLOTS ==> SlotOf((next + 1) % U32, SLOTS, k) == next % SLOTS
  {
    IndexWraps(next);
  }

  lemma InsertWithRoom(c: Cache, q: Fifo, ip: nat, mac: Mac)
    requires Refines(c, q) && ip != GATEWAY && Position(q.entries, ip).None? && |q.entries| < SLOTS
    ensures Refines(Store(c, ip, mac), FifoStore(q, ip, mac))
  {
    FindsEntry(c, q, ip);
    IndexWraps(c.next);
    Appended(c, q, ip, mac, Store(c, ip, mac), FifoStore(q, ip, mac));
  }

  // c1 and q1 have one entry more than c and q, behind the others.
  ghost predicate OneMore(c: Cache, q: Fifo, ip: nat, mac: Mac, c1: Cache, q1: Fifo) {
    && Refines(c, q) && ip != GATEWAY && Position(q.entries, ip).None? && |q.entries| < SLOTS
    && c1.slots == c.slots[|q.entries| := Slot(true, ip, mac)] && c1.next == (c.next + 1) % U32
    && q1.entries == q.entries + [Binding(ip, mac)]
    && c1.gatewayMac == c.gatewayMac && q1.gatewayMac == q.gatewayMac
  }

  lemma Appended(c: Cache, q: Fifo, ip: nat, mac: Mac, c1: Cache, q1: Fifo)
    requires OneMore(c, q, ip, mac, c1, q1)
    ensures Refines(c1, q1)
  {
    hide SlotOf, Held, Differ, Unused, OneMore;
    var n := |q.entries|;
    AppendedAligned(c, q, ip, mac, c1, q1);
    forall k: nat | k < n + 1 ensures Held(c1, q1, k) && q1.entries[k].ip != GATEWAY {
      AppendedHeld(c, q, ip, mac, c1, q1, k);
    }
    forall i: nat, j: nat | i < j < n + 1 ensures Differ(q1.entries, i, j) {
      AppendedDiffer(c, q, ip, mac, c1, q1, i, j);
    }
    forall s: nat | s < SLOTS && n + 1 < SLOTS ensures Unused(c1, q1, s) {
      AppendedUnused(c, q, ip, mac, c1, q1, s);
    }
  }

  lemma AppendedAligned(c: Cache, q: Fifo, ip: nat, mac: Mac, c1: Cache, q1: Fifo)
    requires OneMore(c, q, ip, mac, c1, q1)
    ensures |c1.slots| == SLOTS && c1.next < U32 && c1.gatewayMac == q1.gatewayMac
    ensures |q1.entries| == |q.entries| + 1 <= SLOTS && c1.next % SLOTS == |q1.entries| % SLOTS
  {
    hide SlotOf, Held, Differ, Unused;
    NextAligned(c.next, |q.entries|);
  }

  lemma NextAligned(next: nat, n: nat)
    requires next < U32 && n < SLOTS && next % SLOTS == n
    ensures (next + 1) % U32 % SLOTS == (n + 1) % SLOTS
  {
    IndexWraps(next);
  }

  lemma AppendedHeld(c: Cache, q: Fifo, ip: nat, mac: Mac, c1: Cache, q1: Fifo, k: nat)
    requires OneMore(c, q, ip, mac, c1, q1) && k < |q1.entries|
    ensures Held(c1, q1, k) && q1.entries[k].ip != GATEWAY
  {
    hide SlotOf;
    var n := |q.entries|;
    NextAligned(c.next, n);
    AlignedSlot(c1.next, n + 1, k);
    if k < n {
      AlignedSlot(c.next, n, k);
      assert Held(c, q, k);
    }
  }

  lemma AppendedDiffer(c: Cache, q: Fifo, ip: nat, mac: Mac, c1: Cache, q1: Fifo, i: nat, j: nat)
    requires OneMore(c, q, ip, mac, c1, q1) && i < j < |q1.entries|
    ensures Differ(q1.entries, i, j)
  {
    hide SlotOf, Held;
    if j < |q.entries| {
      assert Differ(q.entries, i, j);
    }
  }

  lemma AppendedUnused(c: Cache, q: Fifo, ip: nat, mac: Mac, c1: Cache, q1: Fifo, s: nat)
    requires OneMore(c, q, ip, mac, c1, q1) && s < SLOTS
    ensures Unused(c1, q1, s)
  {
    hide SlotOf, Held;
    assert Unused(c, q, s);
  }

  lemma InsertWhenFull(c: Cache, q: Fifo, ip: nat, mac: Mac)
    requires Refines(c, q) && ip != GATEWAY && Position(q.entries, ip).None? && |q.entries| == SLOTS
    ensures Refines(Store(c, ip, mac), FifoStore(q, ip, mac))
  {
    FindsEntry(c, q, ip);
    IndexWraps(c.next);
    var c1, q1 := Store(c, ip, mac), FifoStore(q, ip, mac);
    assert SlotOf(c.next, SLOTS, 0) == c.next % SLOTS;
    forall k: nat | k < SLOTS ensures Held(c1, q1, k) && q1.entries[k].ip != GATEWAY {
      ShiftedSlot(c.next, k);
      if k + 1 < SLOTS {
        assert Held(c, q, k + 1) && q1.entries[k] == q.entries[k + 1];
        SlotsDiffer(c.next, SLOTS, k + 1, 0);
      }
    }
    forall i: nat, j: nat | i < j < SLOTS ensures Differ(q1.entries, i, j) {
      assert q1.entries[i] == q.entries[i + 1];
      if j + 1 < SLOTS {
        assert Differ(q.entries, i + 1, j + 1) && q1.entries[j] == q.entries[j + 1];
      }
    }
  }

  lemma StoreRefines(c: Cache, q: Fifo, ip: nat, mac: Mac)
    requires Refines(c, q)
    ensures Refines(Store(c, ip, mac), FifoStore(q, ip, mac))
  {
    if ip == GATEWAY {
      var c1, q1 := Store(c, ip, mac), FifoStore(q, ip, mac);
      forall k: nat | k < |q.entries| ensures Held(c1, q1, k) && q1.entries[k].ip != GATEWAY {
        assert Held(c, q, k);
      }
      forall s: nat | s < SLOTS && |q.entries| < SLOTS ensures Unused(c1, q1, s) {
        assert Unused(c, q, s);
      }
    } else if Position(q.entries, ip).Some? {
      UpdateRefines(c, q, ip, mac);
    } else if |q.entries| < SLOTS {
      InsertWithRoom(c, q, ip, mac);
    } else {
      InsertWhenFull(c, q, ip, mac);
    }
  }

  // ---------- runs ----------

  function StoreAll(c: Cache, bs: seq<Binding>): (r: Cache)
    requires |c.slots| == SLOTS
    ensures |r.slots| == SLOTS
    decreases |bs|
  {
    if bs == [] then c else StoreAll(Store(c, bs[0].ip, bs[0].mac), bs[1..])
  }

  function FifoStoreAll(q: Fifo, bs: seq<Binding>): Fifo
    decreases |bs|
  {
    if bs == [] then q else FifoStoreAll(FifoStore(q, bs[0].ip, bs[0].mac), bs[1..])
  }

  /** After any packets the cache answers as the first-in first-out map does. */
  lemma {:induction false} RunRefines(c: Cache, q: Fifo, bs: seq<Binding>)
    requires Refines(c, q)
    ensures Refines(StoreAll(c, bs), FifoStoreAll(q, bs))
    ensures forall ip :: Lookup(StoreAll(c, bs), ip) == FifoLookup(FifoStoreAll(q, bs), ip)
    decreases |bs|
  {
    if bs != [] {
      StoreRefines(c, q, bs[0].ip, bs[0].mac);
      RunRefines(Store(c, bs[0].ip, bs[0].mac), FifoStore(q, bs[0].ip, bs[0].mac), bs[1..]);
    } else {
      forall ip ensures Lookup(c, ip) == FifoLookup(q, ip) {
        LookupRefines(c, q, ip);
      }
    }
  }

  lemma NewRefines(gatewayMac: Mac)
    ensures Refines(NewCache(gatewayMac), Fifo([], gatewayMac))
  {
  }

  // The last hardware address that the packets give for ip, if any does.
  function LastHeard(bs: seq<Binding>, ip: nat, mac: Mac): Mac {
    if bs == [] then mac
    else if bs[|bs| - 1].ip == ip then bs[|bs| - 1].mac
    else LastHeard(bs[..|bs| - 1], ip, mac)
  }

  lemma {:induction false} StoreAllLast(c: Cache, bs: seq<Binding>, b: Binding)
    requires |c.slots| == SLOTS
    ensures StoreAll(c, bs + [b]) == Store(StoreAll(c, bs), b.ip, b.mac)
    decreases |bs|
  {
    if bs == [] {
      assert bs + [b] == [b] && [b][1..] == [];
    } else {
      assert (bs + [b])[1..] == bs[1..] + [b];
      StoreAllLast(Store(c, bs[0].ip, bs[0].mac), bs[1..], b);
    }
  }

  /** The gateway, 10.0.2.2, takes no slot and is never forgotten, whatever else is stored. */
  lemma {:induction false} GatewayKept(c: Cache, bs: seq<Binding>)
    requires |c.slots| == SLOTS
    ensures var gateway := ((10 * 256 + 0) * 256 + 2) * 256 + 2;
      Lookup(StoreAll(c, bs), gateway) == Some(LastHeard(bs, gateway, c.gatewayMac))
    decreases |bs|
  {
    if bs != [] {
      var n := |bs| - 1;
      assert bs[..n] + [bs[n]] == bs;
      StoreAllLast(c, bs[..n], bs[n]);
      GatewayKept(c, bs[..n]);
    }
  }

  /** So it does from the start. */
  lemma RunFromEmpty(gatewayMac: Mac, bs: seq<Binding>, ip: nat)
    ensures Lookup(StoreAll(NewCache(gatewayMac), bs), ip) == FifoLookup(FifoStoreAll(Fifo([], gatewayMac), bs), ip)
  {
    NewRefines(gatewayMac);
    RunRefines(NewCache(gatewayMac), Fifo([], gatewayMac), bs);
  }

  lemma FifoFinds(q: Fifo, ip: nat, mac: Mac)
    ensures FifoLookup(FifoStore(q, ip, mac), ip) == Some(mac)
    ensures var before, q1 := Position(q.entries, ip), FifoStore(q, ip, mac);
      ip != GATEWAY ==>
        Position(q1.entries, ip) == if before.Some? then before else Some(|q1.entries| - 1)
  {
    if ip != GATEWAY {
      var p := Position(q.entries, ip);
      if p.Some? {
        PositionAt(q.entries, ip);
        PositionIs(q.entries[p.value := Binding(ip, mac)], ip, p.value);
      } else {
        var q1 := FifoStore(q, ip, mac);
        PositionIs(q1.entries, ip, |q1.entries| - 1);
      }
    }
  }

  lemma {:induction false} PositionIs(es: seq<Binding>, ip: nat, k: nat)
    requires k < |es| && es[k].ip == ip && forall j | 0 <= j < k :: es[j].ip != ip
    ensures Position(es, ip) == Some(k)
  {
    if k > 0 {
      PositionIs(es[1..], ip, k - 1);
    }
  }

  lemma {:induction false} PositionAt(es: seq<Binding>, ip: nat)
    ensures var p := Position(es, ip);
      p.Some? ==> forall j | 0 <= j < p.value :: es[j].ip != ip
  {
    if es != [] && es[0].ip != ip {
      PositionAt(es[1..], ip);
    }
  }

  // A store that puts a new entry into the map.
  predicate Inserts(q: Fifo, ip: nat) {
    ip != GATEWAY && Position(q.entries, ip).None?
  }

  // How many later insertions the entry of ip outlives.
  function Slack(q: Fifo, ip: nat): int
    requires Position(q.entries, ip).Some?
  {
    Position(q.entries, ip).value + SLOTS - |q.entries|
  }

  /** Updates move and evict nothing; an insertion takes one place from an entry's slack, or evicts it if there is none. */
  lemma OtherStore(q: Fifo, ip: nat, other: nat, mac: Mac)
    requires |q.entries| <= SLOTS && ip != other && ip != GATEWAY && Position(q.entries, ip).Some?
    ensures var q1 := FifoStore(q, other, mac);
      && |q1.entries| <= SLOTS
      && if !Inserts(q, other) then
           Position(q1.entries, ip).Some? && Slack(q1, ip) == Slack(q, ip) && FifoLookup(q1, ip) == FifoLookup(q, ip)
         else if Slack(q, ip) > 0 then
           Position(q1.entries, ip).Some? && Slack(q1, ip) == Slack(q, ip) - 1 && FifoLookup(q1, ip) == FifoLookup(q, ip)
         else q1.entries == q.entries[1..] + [Binding(other, mac)] && Position(q.entries, ip) == Some(0)
  {
    var p, q1 := Position(q.entries, ip).value, FifoStore(q, other, mac);
    PositionAt(q.entries, ip);
    if other != GATEWAY {
      if Inserts(q, other) && |q.entries| == SLOTS {
        if p > 0 {
          PositionIs(q1.entries, ip, p - 1);
        }
      } else {
        PositionIs(q1.entries, ip, p);
      }
    }
  }

  function Insertions(q: Fifo, bs: seq<Binding>): nat
    decreases |bs|
  {
    if bs == [] then 0
    else (if Inserts(q, bs[0].ip) then 1 else 0) + Insertions(FifoStore(q, bs[0].ip, bs[0].mac), bs[1..])
  }

  // The last address that bs gives ip, or the one it had before.
  function LastMac(ip: nat, before: Mac, bs: seq<Binding>): Mac
    decreases |bs|
  {
    if bs == [] then before else LastMac(ip, if bs[0].ip == ip then bs[0].mac else before, bs[1..])
  }

  /** An entry outlives as many later insertions as its slack, and answers with its latest address. */
  lemma {:induction false} Survives(q: Fifo, ip: nat, mac: Mac, bs: seq<Binding>)
    requires |q.entries| <= SLOTS && ip != GATEWAY && Position(q.entries, ip).Some? && FifoLookup(q, ip) == Some(mac)
    requires Insertions(q, bs) <= Slack(q, ip)
    ensures FifoLookup(FifoStoreAll(q, bs), ip) == Some(LastMac(ip, mac, bs))
    decreases |bs|
  {
    if bs != [] {
      var q1 := FifoStore(q, bs[0].ip, bs[0].mac);
      if bs[0].ip == ip {
        FifoFinds(q, ip, bs[0].mac);
        Survives(q1, ip, bs[0].mac, bs[1..]);
      } else {
        OtherStore(q, ip, bs[0].ip, bs[0].mac);
        Survives(q1, ip, mac, bs[1..]);
      }
    }
  }

  /** One more insertion, and it is gone. */
  lemma {:induction false} Evicted(q: Fifo, ip: nat, bs: seq<Binding>)
    requires |q.entries| <= SLOTS && ip != GATEWAY && Unique(q) && forall b | b in bs :: b.ip != ip
    requires Position(q.entries, ip).Some? ==> Insertions(q, bs) > Slack(q, ip)
    ensures FifoLookup(FifoStoreAll(q, bs), ip) == None
    decreases |bs|
  {
    if bs != [] {
      var q1 := FifoStore(q, bs[0].ip, bs[0].mac);
      StaysUnique(q, bs[0].ip, bs[0].mac);
      assert bs[0] in bs;
      if Position(q.entries, ip).Some? {
        OtherStore(q, ip, bs[0].ip, bs[0].mac);
        if Inserts(q, bs[0].ip) && Slack(q, ip) == 0 {
          OnlyFirst(q, ip, bs[0]);
        }
      } else {
        StillAbsent(q, ip, bs[0].ip, bs[0].mac);
      }
      Evicted(q1, ip, bs[1..]);
    }
  }

  ghost predicate Unique(q: Fifo) {
    forall i: nat, j: nat | i < j < |q.entries| :: Differ(q.entries, i, j)
  }

  lemma StaysUnique(q: Fifo, ip: nat, mac: Mac)
    requires Unique(q)
    ensures Unique(FifoStore(q, ip, mac))
  {
    var q1 := FifoStore(q, ip, mac);
    forall i: nat, j: nat | i < j < |q1.entries| ensures Differ(q1.entries, i, j) {
      if ip != GATEWAY && Position(q.entries, ip).None? && |q.entries| >= SLOTS {
        assert q1.entries[i] == q.entries[i + 1];
        if j + 1 < |q.entries| {
          assert Differ(q.entries, i + 1, j + 1);
        }
      } else if j < |q.entries| {
        assert Differ(q.entries, i, j);
      }
    }
  }

  lemma StillAbsent(q: Fifo, ip: nat, other: nat, mac: Mac)
    requires Position(q.entries, ip).None? && ip != other
    ensures Position(FifoStore(q, other, mac).entries, ip).None?
  {
    var q1 := FifoStore(q, other, mac);
    if other != GATEWAY && Position(q.entries, other).Some? {
      PositionAt(q.entries, other);
    }
  }

  // Pushed out of the first place.
  lemma OnlyFirst(q: Fifo, ip: nat, b: Binding)
    requires Unique(q) && q.entries != [] && q.entries[0].ip == ip && b.ip != ip
    ensures Position(q.entries[1..] + [b], ip).None?
  {
    var es := q.entries[1..] + [b];
    forall k | 0 <= k < |es| ensures es[k].ip != ip {
      if k + 1 < |q.entries| {
        assert Differ(q.entries, 0, k + 1);
      }
    }
  }

  /**
   From its insertion on, the cache knows an address, and the latest hardware
   address for it, until 256 other addresses have been inserted; unless it is
   heard of again it is then forgotten.
   */
  lemma LastAddressesKnown(c: Cache, q: Fifo, ip: nat, mac: Mac, bs: seq<Binding>)
    requires Refines(c, q) && Inserts(q, ip)
    ensures var q1 := FifoStore(q, ip, mac);
      var answer := Lookup(StoreAll(Store(c, ip, mac), bs), ip);
      && (Insertions(q1, bs) < 256 ==> answer == Some(LastMac(ip, mac, bs)))
      && (Insertions(q1, bs) >= 256 && (forall b | b in bs :: b.ip != ip) ==> answer == None)
  {
    StoreRefines(c, q, ip, mac);
    FifoFinds(q, ip, mac);
    var q1 := FifoStore(q, ip, mac);
    RunRefines(Store(c, ip, mac), q1, bs);
    if Insertions(q1, bs) < SLOTS {
      Survives(q1, ip, mac, bs);
    } else if forall b | b in bs :: b.ip != ip {
      Evicted(q1, ip, bs);
    }
  }

  // ---------- the kernel's arrays ----------

  class Table {
    const valid: array<bool>
    const ips: array<nat>
    const macs: array<Mac>
    var index: nat
    var gatewayMac: Mac

    ghost predicate Valid()
      reads this, valid, ips, macs
    {
      valid.Length == SLOTS && ips.Length == SLOTS && macs.Length == SLOTS && index < U32
    }

    ghost function View(): Cache
      reads this, valid, ips, macs
      requires Valid()
    {
      Cache(seq(SLOTS, i requires 0 <= i < SLOTS reads this, valid, ips, macs => Slot(valid[i], ips[i], macs[i])),
            index, gatewayMac)
    }

    constructor ()
      ensures Valid() && fresh(valid) && fresh(ips) && fresh(macs)
      ensures View() == NewCache([0, 0, 0, 0, 0, 0])
    {
      valid := new bool[SLOTS](_ => false);
      ips := new nat[SLOTS](_ => 0);
      macs := new Mac[SLOTS](_ => []);
      index, gatewayMac := 0, [0, 0, 0, 0, 0, 0];
    }

    method FindIndex(ip: nat) returns (found: Option<nat>)
      requires Valid()
      ensures found == FindSlot(View().slots, ip, 0)
    {
      ghost var slots := View().slots;
      var i := 0;
      while i < SLOTS
        invariant 0 <= i <= SLOTS
        invariant FindSlot(slots, ip, 0) == FindSlot(slots, ip, i)
      {
        if valid[i] && ips[i] == ip {
          return Some(i);
        }
        i := i + 1;
      }
      return None;
    }

    method GetMacForIp(ip: nat) returns (mac: Option<Mac>)
      requires Valid()
      ensures mac == Lookup(View(), ip)
    {
      if ip == GATEWAY {
        return Some(gatewayMac);
      }
      var i := FindIndex(ip);
      return if i.None? then None else Some(macs[i.value]);
    }

    method StoreMacForIp(ip: nat, mac: Mac)
      requires Valid()
      modifies this, valid, ips, macs
      ensures Valid() && View() == Store(old(View()), ip, mac)
    {
      if ip == GATEWAY {
        gatewayMac := mac;
        return;
      }
      var i := FindIndex(ip);
      if i.Some? {
        macs[i.value] := mac;
      } else {
        var slot := index % SLOTS;
        index := (index + 1) % U32;
        valid[slot], ips[slot], macs[slot] := true, ip, mac;
      }
      assert View().slots == Store(old(View()), ip, mac).slots;
    }
  }
}
