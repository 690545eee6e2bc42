/**
 The kernel's file table (kernel/fs.c) as a value: 64 entries and one byte array
 from which extents are handed out and never taken back.
 */
module Disk {
  import opened Words

  const MAX_FILES: nat := 64
  const NAME_SIZE: nat := 64
  const MAX_FILE_SIZE: nat := 8192
  const DATA_SIZE: nat := MAX_FILES * MAX_FILE_SIZE

  datatype Entry = Entry(name: string, size: nat, offset: nat, isDirectory: bool, inUse: bool)

  datatype Volume = Volume(files: seq<Entry>, data: seq<Byte>, count: int, next: nat)

  // ---------- the operations ----------

  /** The first entry in use with that name, from i on. */
  function Search(files: seq<Entry>, path: string, i: nat): (r: Option<nat>)
    requires i <= |files|
    ensures r.Some? ==> i <= r.value < |files| && files[r.value].inUse && files[r.value].name == path
    ensures r.Some? ==> forall k | i <= k < r.value :: !(files[k].inUse && files[k].name == path)
    ensures r.None? ==> forall k | i <= k < |files| :: !(files[k].inUse && files[k].name == path)
    decreases |files| - i
  {
    if i == |files| then None
    else if files[i].inUse && files[i].name == path then Some(i)
    else Search(files, path, i + 1)
  }

  function FirstFree(files: seq<Entry>, i: nat): (r: Option<nat>)
    requires i <= |files|
    ensures r.Some? ==> i <= r.value < |files| && !files[r.value].inUse
    ensures r.Some? ==> forall k | i <= k < r.value :: files[k].inUse
    ensures r.None? ==> forall k | i <= k < |files| :: files[k].inUse
    decreases |files| - i
  {
    if i == |files| then None else if !files[i].inUse then Some(i) else FirstFree(files, i + 1)
  }

  // Directories end in a slash.
  function FixedName(path: string, isDirectory: bool): string
    requires isDirectory ==> path != ""
  {
    if isDirectory && path[|path| - 1] != '/' then path + "/" else path
  }

  function Create(d: Volume, path: string, isDirectory: bool): (Volume, int)
    requires isDirectory ==> path != ""
  {
    var name := FixedName(path, isDirectory);
    if d.count >= MAX_FILES then (d, -1)
    else if Search(d.files, name, 0).Some? then (d, -2)
    else
      var free := FirstFree(d.files, 0);
      if free.None? then (d, -3)
      else
        (d.(files := d.files[free.value := Entry(name, 0, d.next, isDirectory, true)], count := d.count + 1), 0)
  }

  function Overwrite(data: seq<Byte>, offset: nat, bytes: seq<Byte>): (r: seq<Byte>)
    requires offset + |bytes| <= |data|
    ensures |r| == |data|
    ensures forall k | 0 <= k < |data| ::
      r[k] == if offset <= k < offset + |bytes| then bytes[k - offset] else data[k]
  {
    data[..offset] + bytes + data[offset + |bytes|..]
  }

  function Fill(d: Volume, i: nat, bytes: seq<Byte>): Volume
    requires i < |d.files| && d.files[i].offset + |bytes| <= |d.data|
  {
    var e := d.files[i];
    var end := e.offset + |bytes|;
    Volume(d.files[i := e.(size := |bytes|)], Overwrite(d.data, e.offset, bytes), d.count,
         if end > d.next then end else d.next)
  }

  // The disk on which a write stores its bytes, and where: an existing file, or a new one.
  function Target(d: Volume, path: string): (Volume, Option<nat>) {
    var i := Search(d.files, path, 0);
    if i.Some? then (d, i)
    else
      var c := Create(d, path, false);
      (c.0, if c.1 < 0 then None else Search(c.0.files, path, 0))
  }

  /** The bytes a write stores stay inside the array. */
  predicate InBounds(d: Volume, path: string, n: nat) {
    var t := Target(d, path);
    n <= MAX_FILE_SIZE && t.1.Some? ==> t.0.files[t.1.value].offset + n <= |t.0.data|
  }

  function Write(d: Volume, path: string, bytes: seq<Byte>): (Volume, int)
    requires InBounds(d, path, |bytes|)
  {
    if |bytes| > MAX_FILE_SIZE then (d, -1)
    else
      var found := Search(d.files, path, 0);
      if found.None? && Create(d, path, false).1 < 0 then (Create(d, path, false).0, -2)
      else
        var t := Target(d, path);
        if t.1.None? then (t.0, -3)
        else if t.0.files[t.1.value].isDirectory then (t.0, -4)
        else (Fill(t.0, t.1.value, bytes), |bytes|)
  }

  function Delete(d: Volume, path: string): (Volume, int) {
    var i := Search(d.files, path, 0);
    if i.None? then (d, -1)
    else (d.(files := d.files[i.value := d.files[i.value].(inUse := false)], count := d.count - 1), 0)
  }

  datatype ReadResult = Bytes(bytes: seq<Byte>) | ReadError(code: int)

  function Contents(d: Volume, i: nat): seq<Byte>
    requires i < |d.files| && d.files[i].offset + d.files[i].size <= |d.data|
  {
    d.data[d.files[i].offset..d.files[i].offset + d.files[i].size]
  }

  predicate ExtentsInside(d: Volume) {
    forall i | 0 <= i < |d.files| && d.files[i].inUse :: d.files[i].offset + d.files[i].size <= |d.data|
  }

  function Prefix(bytes: seq<Byte>, max: nat): seq<Byte> {
    if |bytes| < max then bytes else bytes[..max]
  }

  function Read(d: Volume, path: string, max: nat): ReadResult
    requires ExtentsInside(d)
  {
    var i := Search(d.files, path, 0);
    if i.None? then ReadError(-2)
    else if d.files[i.value].isDirectory then ReadError(-1)
    else Bytes(Prefix(Contents(d, i.value), max))
  }

  function Empty(data: seq<Byte>): Volume {
    Volume(seq(MAX_FILES, i => Entry("", 0, 0, false, false)), data, 0, 0)
  }

  // ---------- the table ----------

  function InUse(files: seq<Entry>): nat {
    if files == [] then 0 else InUse(files[..|files| - 1]) + if files[|files| - 1].inUse then 1 else 0
  }

  predicate SameName(files: seq<Entry>, i: nat, j: nat)
    requires i < |files| && j < |files|
  {
    files[i].inUse && files[j].inUse && files[i].name == files[j].name
  }

  /** A name that would be stored fits its field, its terminator included. */
  predicate NameFits(d: Volume, name: string) {
    d.count < MAX_FILES && Search(d.files, name, 0).None? ==> |name| < NAME_SIZE
  }

  /** Names in use fit their fields and differ, and the count is right. */
  ghost predicate TableOk(d: Volume) {
    && |d.files| == MAX_FILES && |d.data| == DATA_SIZE
    && (forall i | 0 <= i < |d.files| && d.files[i].inUse :: |d.files[i].name| < NAME_SIZE)
    && (forall i: nat, j: nat | i < j < |d.files| :: !SameName(d.files, i, j))
    && d.count == InUse(d.files)
  }

  lemma {:induction false} InUseUpdate(files: seq<Entry>, i: nat, e: Entry)
    requires i < |files|
    ensures InUse(files[i := e]) == InUse(files) - (if files[i].inUse then 1 else 0) + (if e.inUse then 1 else 0)
  {
    var last := |files| - 1;
    if i < last {
      assert files[i := e][..last] == files[..last][i := e];
      InUseUpdate(files[..last], i, e);
    } else {
      assert files[i := e][..last] == files[..last];
    }
  }

  lemma {:induction false} InUseFull(files: seq<Entry>)
    ensures InUse(files) <= |files|
    ensures InUse(files) == |files| <==> forall k | 0 <= k < |files| :: files[k].inUse
  {
    if files != [] {
      InUseFull(files[..|files| - 1]);
    }
  }

  lemma {:induction false} NoneInUse(files: seq<Entry>)
    requires forall k | 0 <= k < |files| :: !files[k].inUse
    ensures InUse(files) == 0
  {
    if files != [] {
      NoneInUse(files[..|files| - 1]);
    }
  }

  lemma EmptyOk(data: seq<Byte>)
    requires |data| == DATA_SIZE
    ensures TableOk(Empty(data))
  {
    NoneInUse(Empty(data).files);
  }

  /** A full table is noticed by the count: the scan for a free entry cannot fail. */
  lemma CreateOk(d: Volume, path: string, isDirectory: bool)
    requires TableOk(d) && (isDirectory ==> path != "") && NameFits(d, FixedName(path, isDirectory))
    ensures var r := Create(d, path, isDirectory);
      && TableOk(r.0) && r.1 != -3
      && (r.1 == 0 ==>
            var i := FirstFree(d.files, 0);
            i.Some? &&
            r.0 == d.(files := d.files[i.value := Entry(FixedName(path, isDirectory), 0, d.next, isDirectory, true)],
                      count := d.count + 1))
      && (r.1 != 0 ==> r.0 == d)
  {
    InUseFull(d.files);
    var r := Create(d, path, isDirectory);
    if r.1 == 0 {
      var i := FirstFree(d.files, 0).value;
      var e := Entry(FixedName(path, isDirectory), 0, d.next, isDirectory, true);
      InUseUpdate(d.files, i, e);
      forall a: nat, b: nat | a < b < |r.0.files| ensures !SameName(r.0.files, a, b) {
        assert !SameName(d.files, a, b);
      }
    }
  }

  lemma DeleteOk(d: Volume, path: string)
    requires TableOk(d)
    ensures TableOk(Delete(d, path).0)
  {
    var found := Search(d.files, path, 0);
    if found.Some? {
      var i, r := found.value, Delete(d, path).0;
      InUseUpdate(d.files, i, d.files[i].(inUse := false));
      forall a: nat, b: nat | a < b < |r.files| ensures !SameName(r.files, a, b) {
        assert !SameName(d.files, a, b);
      }
    }
  }

  /** With distinct names, a search finds the one entry of a name. */
  lemma SearchUnique(d: Volume, i: nat)
    requires TableOk(d) && i < |d.files| && d.files[i].inUse
    ensures Search(d.files, d.files[i].name, 0) == Some(i)
  {
    forall k: nat | k < i ensures !(d.files[k].inUse && d.files[k].name == d.files[i].name) {
      assert !SameName(d.files, k, i);
    }
  }

  lemma FillOk(d: Volume, i: nat, bytes: seq<Byte>)
    requires TableOk(d) && i < |d.files| && d.files[i].inUse && d.files[i].offset + |bytes| <= |d.data|
    ensures TableOk(Fill(d, i, bytes))
  {
    var r := Fill(d, i, bytes);
    InUseUpdate(d.files, i, r.files[i]);
    forall a: nat, b: nat | a < b < |r.files| ensures !SameName(r.files, a, b) {
      assert !SameName(d.files, a, b);
    }
  }

  /** Where a write goes: to the file of that name, made on the spot if the table has room. */
  lemma TargetOk(d: Volume, path: string)
    requires TableOk(d) && NameFits(d, path)
    ensures var t := Target(d, path);
      && TableOk(t.0) && |t.0.data| == |d.data|
      && (t.1.Some? ==> t.1 == Search(t.0.files, path, 0))
      && (t.1.None? <==> Search(d.files, path, 0).None? && d.count >= MAX_FILES)
      && (Search(d.files, path, 0).None? && t.1.Some? ==>
            t.0.files[t.1.value] == Entry(path, 0, d.next, false, true) && !d.files[t.1.value].inUse &&
            t.0 == d.(files := d.files[t.1.value := Entry(path, 0, d.next, false, true)], count := d.count + 1))
  {
    if Search(d.files, path, 0).None? {
      CreateOk(d, path, false);
      var c := Create(d, path, false);
      if c.1 == 0 {
        SearchUnique(c.0, FirstFree(d.files, 0).value);
      }
    }
  }

  /** Neither -3 can come out of a write either, and it keeps the table in order. */
  lemma WriteOk(d: Volume, path: string, bytes: seq<Byte>)
    requires TableOk(d) && NameFits(d, path) && InBounds(d, path, |bytes|)
    ensures TableOk(Write(d, path, bytes).0) && Write(d, path, bytes).1 != -3
  {
    TargetOk(d, path);
    var t := Target(d, path);
    if t.1.Some? && |bytes| <= MAX_FILE_SIZE {
      FillOk(t.0, t.1.value, bytes);
    }
  }

  // ---------- the field of a name ----------

  // The four bytes of a size, low byte first.
  function SizeBytes(n: nat): seq<Byte>
    requires n <= MAX_FILE_SIZE
  {
    [n % 256, n / 256, 0, 0]
  }

  /** An entry's memory after its name and then its size, which lies behind the name's field, have been stored. */
  function Stored(before: seq<Byte>, name: seq<Byte>, n: nat): seq<Byte>
    requires |name| < |before| && NAME_SIZE + 4 <= |before| && n <= MAX_FILE_SIZE
  {
    Overwrite(Overwrite(before, 0, name + [0]), NAME_SIZE, SizeBytes(n))
  }

  // What a comparison reads: the bytes up to the first 0.
  function NameRead(mem: seq<Byte>): seq<Byte> {
    if mem == [] || mem[0] == 0 then [] else [mem[0]] + NameRead(mem[1..])
  }

  lemma {:induction false} NameReadIs(mem: seq<Byte>, name: seq<Byte>)
    requires |name| < |mem| && (forall k | 0 <= k < |name| :: mem[k] == name[k] != 0)
    ensures if mem[|name|] == 0 then NameRead(mem) == name else |NameRead(mem)| > |name|
  {
    if name != [] {
      NameReadIs(mem[1..], name[1..]);
    }
  }

  /** A name is read back, whatever the size of its file, exactly if it is shorter than its field. */
  lemma NameFieldHolds(before: seq<Byte>, name: seq<Byte>)
    requires |name| < |before| && NAME_SIZE + 4 <= |before| && 0 !in name
    ensures (forall n: nat | n <= MAX_FILE_SIZE :: NameRead(Stored(before, name, n)) == name) <==> |name| < NAME_SIZE
    ensures |name| == NAME_SIZE ==> NameRead(Stored(before, name, 1)) != name
    ensures |name| > NAME_SIZE ==> NameRead(Stored(before, name, 0)) != name
  {
    if |name| < NAME_SIZE {
      forall n: nat | n <= MAX_FILE_SIZE ensures NameRead(Stored(before, name, n)) == name {
        NameReadIs(Stored(before, name, n), name);
      }
    } else if |name| == NAME_SIZE {
      NameReadIs(Stored(before, name, 1), name);
    } else {
      NameReadIs(Stored(before, name, 0), name[..NAME_SIZE]);
    }
  }

  // ---------- how far the extents reach ----------

  /** Before the first deletion the entries in use form a prefix, each with room for a full file behind the last. */
  ghost predicate Packed(d: Volume) {
    && TableOk(d) && 0 <= d.count <= MAX_FILES && d.next <= MAX_FILE_SIZE * d.count
    && forall i: nat | i < MAX_FILES :: PackedAt(d, i)
  }

  predicate PackedAt(d: Volume, i: nat)
    requires i < |d.files|
  {
    d.files[i].inUse == (i < d.count) && (d.files[i].inUse ==> d.files[i].offset <= MAX_FILE_SIZE * i)
  }

  lemma CreatePacked(d: Volume, path: string, isDirectory: bool)
    requires Packed(d) && (isDirectory ==> path != "") && NameFits(d, FixedName(path, isDirectory))
    ensures Packed(Create(d, path, isDirectory).0)
  {
    CreateOk(d, path, isDirectory);
    var r := Create(d, path, isDirectory);
    if r.1 == 0 {
      var i := FirstFree(d.files, 0).value;
      assert PackedAt(d, i) && PackedAt(d, d.count);
      forall k: nat | k < MAX_FILES ensures PackedAt(r.0, k) {
        assert PackedAt(d, k);
      }
    }
  }

  /** So a write always finds its bytes' place inside the array, and keeps it so. */
  lemma WritePacked(d: Volume, path: string, bytes: seq<Byte>)
    requires Packed(d) && NameFits(d, path)
    ensures InBounds(d, path, |bytes|) && Packed(Write(d, path, bytes).0)
  {
    CreatePacked(d, path, false);
    TargetOk(d, path);
    var t := Target(d, path);
    assert Packed(t.0);
    if t.1.Some? && |bytes| <= MAX_FILE_SIZE {
      var i := t.1.value;
      assert PackedAt(t.0, i) && t.0.files[i].offset + |bytes| <= MAX_FILE_SIZE * (i + 1) <= MAX_FILE_SIZE * t.0.count;
      FillPacked(t.0, i, bytes);
    }
  }

  lemma FillPacked(d: Volume, i: nat, bytes: seq<Byte>)
    requires Packed(d) && i < MAX_FILES && d.files[i].inUse && |bytes| <= MAX_FILE_SIZE
    ensures d.files[i].offset + |bytes| <= |d.data| && Packed(Fill(d, i, bytes))
  {
    assert PackedAt(d, i) && d.files[i].offset + |bytes| <= MAX_FILE_SIZE * (i + 1) <= MAX_FILE_SIZE * d.count;
    FillOk(d, i, bytes);
    var r := Fill(d, i, bytes);
    forall k: nat | k < MAX_FILES ensures PackedAt(r, k) {
      assert PackedAt(d, k);
    }
  }

  /** Deleting gives no bytes back: each round of writing and deleting one file uses up its length. */
  lemma RoundLeaks(d: Volume, path: string, bytes: seq<Byte>)
    requires TableOk(d) && d.count < MAX_FILES && Search(d.files, path, 0).None? && |path| < NAME_SIZE
    requires |bytes| <= MAX_FILE_SIZE && d.next + |bytes| <= DATA_SIZE
    ensures InBounds(d, path, |bytes|)
    ensures var r := Delete(Write(d, path, bytes).0, path).0;
      TableOk(r) && r.count == d.count && Search(r.files, path, 0).None? && r.next == d.next + |bytes|
  {
    TargetOk(d, path);
    WriteOk(d, path, bytes);
    var t, w := Target(d, path), Write(d, path, bytes).0;
    var i := t.1.value;
    SearchUnique(w, i);
    DeleteOk(w, path);
  }

  // k rounds.
  function Rounds(d: Volume, path: string, bytes: seq<Byte>, k: nat): Option<Volume> {
    if k == 0 then Some(d)
    else
      var before :- Rounds(d, path, bytes, k - 1);
      if InBounds(before, path, |bytes|) then Some(Delete(Write(before, path, bytes).0, path).0) else None
  }

  /** After 64 rounds with a full-size file the next byte would be stored outside the array. */
  lemma {:induction false} RoundsOverflow(d: Volume, path: string, bytes: seq<Byte>, k: nat)
    requires TableOk(d) && d.count < MAX_FILES && Search(d.files, path, 0).None? && d.next == 0
    requires |path| < NAME_SIZE && |bytes| == MAX_FILE_SIZE && k <= MAX_FILES
    ensures var r := Rounds(d, path, bytes, k);
      && r.Some? && TableOk(r.value) && r.value.count == d.count && Search(r.value.files, path, 0).None?
      && r.value.next == MAX_FILE_SIZE * k
      && (k == MAX_FILES ==> !InBounds(r.value, path, 1))
    decreases k
  {
    if k > 0 {
      RoundsOverflow(d, path, bytes, k - 1);
      var before := Rounds(d, path, bytes, k - 1).value;
      RoundLeaks(before, path, bytes);
      assert Rounds(d, path, bytes, k) == Some(Delete(Write(before, path, bytes).0, path).0);
    }
    if k == MAX_FILES {
      NoRoomBehind(Rounds(d, path, bytes, k).value, path);
    }
  }

  lemma NoRoomBehind(d: Volume, path: string)
    requires TableOk(d) && d.count < MAX_FILES && Search(d.files, path, 0).None? && d.next == DATA_SIZE && |path| < NAME_SIZE
    ensures !InBounds(d, path, 1)
  {
    TargetOk(d, path);
  }
}
