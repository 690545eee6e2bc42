/** The file system as a map from names to contents, and when the disk is one. */
module FileMap {
  import opened Words
  import opened Disk

  datatype Node = Directory | File(bytes: seq<Byte>)

  type Tree = map<string, Node>

  function TreeCreate(m: Tree, path: string, isDirectory: bool): (Tree, int)
    requires isDirectory ==> path != ""
  {
    var name := FixedName(path, isDirectory);
    if |m| >= MAX_FILES then (m, -1)
    else if name in m then (m, -2)
    else (m[name := if isDirectory then Directory else File([])], 0)
  }

  function TreeWrite(m: Tree, path: string, bytes: seq<Byte>): (Tree, int) {
    if |bytes| > MAX_FILE_SIZE then (m, -1)
    else if path !in m && |m| >= MAX_FILES then (m, -2)
    else if path in m && m[path].Directory? then (m, -4)
    else (m[path := File(bytes)], |bytes|)
  }

  function TreeDelete(m: Tree, path: string): (Tree, int) {
    if path in m then (m - {path}, 0) else (m, -1)
  }

  function TreeRead(m: Tree, path: string, max: nat): ReadResult {
    if path !in m then ReadError(-2)
    else if m[path].Directory? then ReadError(-1)
    else Bytes(Prefix(m[path].bytes, max))
  }

  // ---------- extents ----------

  predicate Overlaps(e: Entry, offset: nat, n: nat) {
    e.size > 0 && n > 0 && e.offset < offset + n && offset < e.offset + e.size
  }

  /**
   Storing n bytes into file i leaves file j alone, whatever the bytes are, exactly
   when the two places have no byte in common.
   */
  lemma WriteSparesOthers(d: Volume, i: nat, j: nat, n: nat)
    requires TableOk(d) && ExtentsInside(d) && i < |d.files| && j < |d.files| && i != j
    requires d.files[i].inUse && d.files[j].inUse && d.files[i].offset + n <= |d.data|
    ensures (forall bytes: seq<Byte> | |bytes| == n :: Contents(Fill(d, i, bytes), j) == Contents(d, j))
        <==> !Overlaps(d.files[j], d.files[i].offset, n)
  {
    var e, offset := d.files[j], d.files[i].offset;
    if Overlaps(e, offset, n) {
      var p := if e.offset < offset then offset else e.offset;
      var bytes := Changed(d.data[offset..offset + n]);
      assert bytes[p - offset] != d.data[offset..offset + n][p - offset] == d.data[p];
      assert Contents(Fill(d, i, bytes), j)[p - e.offset] != Contents(d, j)[p - e.offset];
    } else {
      forall bytes: seq<Byte> | |bytes| == n ensures Contents(Fill(d, i, bytes), j) == Contents(d, j) {
        Spared(d, i, j, bytes);
      }
    }
  }

  function Changed(s: seq<Byte>): (r: seq<Byte>)
    ensures |r| == |s| && forall k | 0 <= k < |s| :: r[k] != s[k]
  {
    if s == [] then [] else [if s[0] == 0 then 1 else 0] + Changed(s[1..])
  }

  lemma Spared(d: Volume, i: nat, j: nat, bytes: seq<Byte>)
    requires TableOk(d) && ExtentsInside(d) && i < |d.files| && j < |d.files| && i != j
    requires d.files[j].inUse && d.files[i].offset + |bytes| <= |d.data|
    requires !Overlaps(d.files[j], d.files[i].offset, |bytes|)
    ensures Contents(Fill(d, i, bytes), j) == Contents(d, j)
  {
    var r, e := Fill(d, i, bytes), d.files[j];
    forall k | 0 <= k < e.size ensures Contents(r, j)[k] == Contents(d, j)[k] {
      assert Contents(r, j)[k] == r.data[e.offset + k];
    }
  }

  /** No two files in use share a byte, and all lie before the next free one. */
  ghost predicate Apart(d: Volume) {
    && d.next <= |d.data|
    && (forall i: nat, j: nat | i < |d.files| && j < |d.files| && i != j :: PairApart(d.files, i, j))
    && (forall i | 0 <= i < |d.files| && d.files[i].inUse :: Kept(d.files[i], d.next))
  }

  predicate PairApart(files: seq<Entry>, i: nat, j: nat)
    requires i < |files| && j < |files|
  {
    files[i].inUse && files[j].inUse ==> !Overlaps(files[i], files[j].offset, files[j].size)
  }

  // Inside the handed-out part; directories hold nothing.
  predicate Kept(e: Entry, next: nat) {
    e.offset + e.size <= next && (e.isDirectory ==> e.size == 0)
  }

  ghost predicate Good(d: Volume) {
    TableOk(d) && Apart(d)
  }

  // ---------- the map on the disk ----------

  function Names(files: seq<Entry>): set<string> {
    set i | 0 <= i < |files| && files[i].inUse :: files[i].name
  }

  function NodeAt(d: Volume, i: nat): Node
    requires i < |d.files| && ExtentsInside(d) && d.files[i].inUse
  {
    if d.files[i].isDirectory then Directory else File(Contents(d, i))
  }

  function TreeOf(d: Volume): Tree
    requires ExtentsInside(d)
  {
    map x | x in Names(d.files) :: NodeAt(d, Search(d.files, x, 0).value)
  }

  lemma {:induction false} CountNames(files: seq<Entry>)
    requires forall i: nat, j: nat | i < j < |files| :: !SameName(files, i, j)
    ensures |Names(files)| == InUse(files)
  {
    if files != [] {
      var last := |files| - 1;
      var before := files[..last];
      forall i: nat, j: nat | i < j < |before| ensures !SameName(before, i, j) {
        assert !SameName(files, i, j);
      }
      CountNames(before);
      if files[last].inUse {
        assert Names(files) == Names(before) + {files[last].name};
        forall i: nat | i < last && files[i].inUse ensures files[i].name != files[last].name {
          assert !SameName(files, i, last);
        }
      } else {
        assert Names(files) == Names(before);
      }
    }
  }

  lemma TreeSize(d: Volume)
    requires TableOk(d) && ExtentsInside(d)
    ensures |TreeOf(d)| == d.count
  {
    CountNames(d.files);
    assert TreeOf(d).Keys == Names(d.files);
  }

  lemma NodeFound(d: Volume, i: nat)
    requires TableOk(d) && ExtentsInside(d) && i < |d.files| && d.files[i].inUse
    ensures d.files[i].name in TreeOf(d) && TreeOf(d)[d.files[i].name] == NodeAt(d, i)
  {
    SearchUnique(d, i);
  }

  lemma SearchTree(d: Volume, path: string)
    requires TableOk(d) && ExtentsInside(d)
    ensures var r := Search(d.files, path, 0);
      && (path in TreeOf(d) <==> r.Some?)
      && (r.Some? ==> TreeOf(d)[path] == NodeAt(d, r.value))
  {
  }

  /** Reading gives the first bytes of what the map holds. */
  lemma ReadRefines(d: Volume, path: string, max: nat)
    requires TableOk(d) && ExtentsInside(d)
    ensures Read(d, path, max) == TreeRead(TreeOf(d), path, max)
  {
    SearchTree(d, path);
  }

  lemma NamesDiffer(d: Volume, i: nat, j: nat)
    requires TableOk(d) && i < MAX_FILES && j < MAX_FILES && i != j && d.files[i].inUse && d.files[j].inUse
    ensures d.files[i].name != d.files[j].name
  {
    if i < j {
      assert !SameName(d.files, i, j);
    } else {
      assert !SameName(d.files, j, i);
    }
  }

  /** m is the map of d if it has exactly the entries in use. */
  lemma TreeIs(d: Volume, m: Tree)
    requires TableOk(d) && ExtentsInside(d)
    requires forall i: nat | i < MAX_FILES && d.files[i].inUse :: Holds(d, m, i)
    requires forall x | x in m :: Search(d.files, x, 0).Some?
    ensures TreeOf(d) == m
  {
    forall x | x in m ensures x in TreeOf(d) && TreeOf(d)[x] == m[x] {
      SearchTree(d, x);
      assert Holds(d, m, Search(d.files, x, 0).value);
    }
    forall x | x in TreeOf(d) ensures x in m {
      assert Holds(d, m, Search(d.files, x, 0).value);
    }
  }

  predicate Holds(d: Volume, m: Tree, i: nat)
    requires ExtentsInside(d) && i < |d.files| && d.files[i].inUse
  {
    d.files[i].name in m && m[d.files[i].name] == NodeAt(d, i)
  }

  // Everything but entry i is as before, with its contents.
  ghost predicate SameBut(d: Volume, r: Volume, i: nat) {
    && TableOk(d) && ExtentsInside(d) && TableOk(r) && ExtentsInside(r) && i < MAX_FILES
    && (forall j: nat | j < MAX_FILES && j != i :: SameAt(d, r, j))
  }

  predicate SameAt(d: Volume, r: Volume, j: nat)
    requires j < |d.files| && j < |r.files| && ExtentsInside(d) && ExtentsInside(r)
  {
    r.files[j] == d.files[j] && (d.files[j].inUse ==> Contents(r, j) == Contents(d, j))
  }

  lemma OneEntrySet(d: Volume, r: Volume, i: nat)
    requires SameBut(d, r, i) && r.files[i].inUse
    requires d.files[i].inUse ==> r.files[i].name == d.files[i].name
    ensures TreeOf(r) == TreeOf(d)[r.files[i].name := NodeAt(r, i)]
  {
    var m := TreeOf(d)[r.files[i].name := NodeAt(r, i)];
    forall j: nat | j < MAX_FILES && r.files[j].inUse ensures Holds(r, m, j) {
      if j != i {
        assert SameAt(d, r, j);
        NamesDiffer(r, i, j);
        NodeFound(d, j);
      }
    }
    forall x | x in m ensures Search(r.files, x, 0).Some? {
      if x != r.files[i].name {
        assert SameAt(d, r, Search(d.files, x, 0).value);
      }
    }
    TreeIs(r, m);
  }

  lemma OneEntryGone(d: Volume, r: Volume, i: nat)
    requires SameBut(d, r, i) && d.files[i].inUse && !r.files[i].inUse
    ensures TreeOf(r) == TreeOf(d) - {d.files[i].name}
  {
    var m := TreeOf(d) - {d.files[i].name};
    forall j: nat | j < MAX_FILES && r.files[j].inUse ensures Holds(r, m, j) {
      assert SameAt(d, r, j);
      NamesDiffer(d, i, j);
      NodeFound(d, j);
    }
    forall x | x in m ensures Search(r.files, x, 0).Some? {
      assert SameAt(d, r, Search(d.files, x, 0).value);
    }
    TreeIs(r, m);
  }

  // ---------- steps and runs ----------

  datatype Op = MakeEntry(path: string, isDirectory: bool) | Store(path: string, bytes: seq<Byte>) | Remove(path: string)

  /** The write creates its file, does not grow it, or goes to the file at the end of the handed-out part. */
  predicate SafeWrite(d: Volume, path: string, n: nat) {
    var i := Search(d.files, path, 0);
    i.Some? ==> n <= d.files[i.value].size || d.files[i.value].offset + d.files[i.value].size == d.next
  }

  predicate Allowed(d: Volume, op: Op) {
    match op
    case MakeEntry(path, isDirectory) => (isDirectory ==> path != "") && NameFits(d, FixedName(path, isDirectory))
    case Store(path, bytes) => NameFits(d, path) && InBounds(d, path, |bytes|) && SafeWrite(d, path, |bytes|)
    case Remove(_) => true
  }

  function Apply(d: Volume, op: Op): (Volume, int)
    requires Allowed(d, op)
  {
    match op
    case MakeEntry(path, isDirectory) => Create(d, path, isDirectory)
    case Store(path, bytes) => Write(d, path, bytes)
    case Remove(path) => Delete(d, path)
  }

  function ApplyTree(m: Tree, op: Op): (Tree, int)
    requires op.MakeEntry? && op.isDirectory ==> op.path != ""
  {
    match op
    case MakeEntry(path, isDirectory) => TreeCreate(m, path, isDirectory)
    case Store(path, bytes) => TreeWrite(m, path, bytes)
    case Remove(path) => TreeDelete(m, path)
  }

  lemma GoodInside(d: Volume)
    requires Good(d)
    ensures ExtentsInside(d)
  {
    forall i | 0 <= i < |d.files| && d.files[i].inUse ensures d.files[i].offset + d.files[i].size <= |d.data| {
      assert Kept(d.files[i], d.next);
    }
  }

  lemma CreateRefines(d: Volume, path: string, isDirectory: bool)
    requires Good(d) && (isDirectory ==> path != "") && NameFits(d, FixedName(path, isDirectory))
    ensures ExtentsInside(d)
    ensures var r, s := Create(d, path, isDirectory), TreeCreate(TreeOf(d), path, isDirectory);
      Good(r.0) && ExtentsInside(r.0) && TreeOf(r.0) == s.0 && r.1 == s.1
  {
    GoodInside(d);
    CreateOk(d, path, isDirectory);
    TreeSize(d);
    SearchTree(d, FixedName(path, isDirectory));
    var r := Create(d, path, isDirectory);
    if r.1 == 0 {
      var i := FirstFree(d.files, 0).value;
      NewEntryApart(d, r.0, i);
      GoodInside(r.0);
      EntryChanged(d, r.0, i);
      OneEntrySet(d, r.0, i);
      EmptyContents(r.0, i);
    }
  }

  lemma EmptyContents(d: Volume, i: nat)
    requires ExtentsInside(d) && i < |d.files| && d.files[i].inUse && d.files[i].size == 0
    ensures NodeAt(d, i) == if d.files[i].isDirectory then Directory else File([])
  {
  }

  lemma EntryChanged(d: Volume, r: Volume, i: nat)
    requires TableOk(d) && ExtentsInside(d) && TableOk(r) && ExtentsInside(r) && i < MAX_FILES
    requires r.files == d.files[i := r.files[i]] && r.data == d.data
    ensures SameBut(d, r, i)
  {
    forall j: nat | j < MAX_FILES && j != i ensures SameAt(d, r, j) {
    }
  }

  lemma NewEntryApart(d: Volume, r: Volume, i: nat)
    requires Good(d) && i < MAX_FILES == |r.files| && !d.files[i].inUse
    requires r.files == d.files[i := r.files[i]] && r.data == d.data && r.next == d.next
    requires r.files[i].size == 0 && r.files[i].offset == d.next
    ensures Apart(r)
  {
    forall a: nat, b: nat | a < |r.files| && b < |r.files| && a != b ensures PairApart(r.files, a, b) {
      assert PairApart(d.files, a, b);
    }
    forall a | 0 <= a < |r.files| && r.files[a].inUse ensures Kept(r.files[a], r.next) {
      if a != i {
        assert Kept(d.files[a], d.next);
      }
    }
  }

  lemma DeleteRefines(d: Volume, path: string)
    requires Good(d)
    ensures ExtentsInside(d)
    ensures var r, s := Delete(d, path), TreeDelete(TreeOf(d), path);
      Good(r.0) && ExtentsInside(r.0) && TreeOf(r.0) == s.0 && r.1 == s.1
  {
    GoodInside(d);
    SearchTree(d, path);
    DeleteOk(d, path);
    var found, r := Search(d.files, path, 0), Delete(d, path).0;
    if found.Some? {
      forall a: nat, b: nat | a < |r.files| && b < |r.files| && a != b ensures PairApart(r.files, a, b) {
        assert PairApart(d.files, a, b);
      }
      forall a | 0 <= a < |r.files| && r.files[a].inUse ensures Kept(r.files[a], r.next) {
        assert Kept(d.files[a], d.next);
      }
      GoodInside(r);
      EntryChanged(d, r, found.value);
      OneEntryGone(d, r, found.value);
    }
  }

  /** Filling a file that does not grow, or lies last, keeps all files apart. */
  lemma FillApart(d: Volume, i: nat, bytes: seq<Byte>)
    requires Good(d) && i < MAX_FILES && d.files[i].inUse && !d.files[i].isDirectory
    requires d.files[i].offset + |bytes| <= |d.data|
    requires |bytes| <= d.files[i].size || d.files[i].offset + d.files[i].size == d.next
    ensures Apart(Fill(d, i, bytes))
    ensures forall j: nat | j < MAX_FILES && j != i && d.files[j].inUse :: !Overlaps(d.files[j], d.files[i].offset, |bytes|)
  {
    var r := Fill(d, i, bytes);
    assert Kept(d.files[i], d.next);
    forall j: nat | j < MAX_FILES && j != i && d.files[j].inUse
      ensures !Overlaps(d.files[j], d.files[i].offset, |bytes|) && Kept(d.files[j], d.next)
    {
      assert PairApart(d.files, j, i) && Kept(d.files[j], d.next);
    }
    forall a: nat, b: nat | a < |r.files| && b < |r.files| && a != b ensures PairApart(r.files, a, b) {
      assert PairApart(d.files, a, b);
    }
    forall a | 0 <= a < |r.files| && r.files[a].inUse ensures Kept(r.files[a], r.next) {
      assert Kept(d.files[a], d.next);
    }
  }

  lemma FillRefines(d: Volume, i: nat, bytes: seq<Byte>)
    requires Good(d) && i < MAX_FILES && d.files[i].inUse && !d.files[i].isDirectory
    requires d.files[i].offset + |bytes| <= |d.data|
    requires |bytes| <= d.files[i].size || d.files[i].offset + d.files[i].size == d.next
    ensures var r := Fill(d, i, bytes);
      ExtentsInside(d) && Good(r) && ExtentsInside(r) && TreeOf(r) == TreeOf(d)[d.files[i].name := File(bytes)]
  {
    var r := Fill(d, i, bytes);
    GoodInside(d);
    FillOk(d, i, bytes);
    FillApart(d, i, bytes);
    GoodInside(r);
    forall j: nat | j < MAX_FILES && j != i ensures SameAt(d, r, j) {
      if d.files[j].inUse {
        Spared(d, i, j, bytes);
      }
    }
    OneEntrySet(d, r, i);
    assert Contents(r, i) == bytes;
  }

  lemma RewriteRefines(d: Volume, path: string, bytes: seq<Byte>)
    requires Good(d) && InBounds(d, path, |bytes|) && SafeWrite(d, path, |bytes|)
    requires |bytes| <= MAX_FILE_SIZE && Search(d.files, path, 0).Some?
    ensures ExtentsInside(d)
    ensures var r, s := Write(d, path, bytes), TreeWrite(TreeOf(d), path, bytes);
      Good(r.0) && ExtentsInside(r.0) && TreeOf(r.0) == s.0 && r.1 == s.1
  {
    GoodInside(d);
    SearchTree(d, path);
    var i := Search(d.files, path, 0).value;
    if !d.files[i].isDirectory {
      FillRefines(d, i, bytes);
    }
  }

  lemma NewWriteRefines(d: Volume, path: string, bytes: seq<Byte>)
    requires Good(d) && NameFits(d, path) && InBounds(d, path, |bytes|)
    requires |bytes| <= MAX_FILE_SIZE && Search(d.files, path, 0).None?
    ensures ExtentsInside(d)
    ensures var r, s := Write(d, path, bytes), TreeWrite(TreeOf(d), path, bytes);
      Good(r.0) && ExtentsInside(r.0) && TreeOf(r.0) == s.0 && r.1 == s.1
  {
    GoodInside(d);
    TreeSize(d);
    SearchTree(d, path);
    NewWrite(d, path, bytes);
    CreateRefines(d, path, false);
    var c := Create(d, path, false);
    if c.1 == 0 {
      var i := Search(c.0.files, path, 0).value;
      FillRefines(c.0, i, bytes);
      TwiceSet(TreeOf(d), path, File([]), File(bytes));
    }
  }

  lemma TwiceSet(m: Tree, path: string, a: Node, b: Node)
    ensures m[path := a][path := b] == m[path := b]
  {
  }

  // A write to a new file is a creation and a fill.
  lemma NewWrite(d: Volume, path: string, bytes: seq<Byte>)
    requires TableOk(d) && NameFits(d, path) && InBounds(d, path, |bytes|)
    requires |bytes| <= MAX_FILE_SIZE && Search(d.files, path, 0).None?
    ensures var c := Create(d, path, false);
      && (c.1 == 0 || c.1 == -1) && (c.1 == -1 <==> d.count >= MAX_FILES)
      && (c.1 == -1 ==> Write(d, path, bytes) == (d, -2))
      && (c.1 == 0 ==>
            var i := Search(c.0.files, path, 0);
            && i.Some? && c.0.files[i.value] == Entry(path, 0, c.0.next, false, true)
            && c.0.files[i.value].offset + |bytes| <= |c.0.data|
            && Write(d, path, bytes) == (Fill(c.0, i.value, bytes), |bytes|))
  {
    TargetOk(d, path);
    CreateOk(d, path, false);
  }

  lemma WriteRefines(d: Volume, path: string, bytes: seq<Byte>)
    requires Good(d) && NameFits(d, path) && InBounds(d, path, |bytes|) && SafeWrite(d, path, |bytes|)
    ensures ExtentsInside(d)
    ensures var r, s := Write(d, path, bytes), TreeWrite(TreeOf(d), path, bytes);
      Good(r.0) && ExtentsInside(r.0) && TreeOf(r.0) == s.0 && r.1 == s.1
  {
    GoodInside(d);
    if |bytes| <= MAX_FILE_SIZE {
      if Search(d.files, path, 0).Some? {
        RewriteRefines(d, path, bytes);
      } else {
        NewWriteRefines(d, path, bytes);
      }
    }
  }

  /** Every allowed step does to the disk what it does to the map, with the same result code. */
  lemma StepRefines(d: Volume, op: Op)
    requires Good(d) && Allowed(d, op)
    ensures ExtentsInside(d) && Good(Apply(d, op).0) && ExtentsInside(Apply(d, op).0)
    ensures TreeOf(Apply(d, op).0) == ApplyTree(TreeOf(d), op).0
    ensures Apply(d, op).1 == ApplyTree(TreeOf(d), op).1
  {
    match op
    case MakeEntry(path, isDirectory) => CreateRefines(d, path, isDirectory);
    case Store(path, bytes) => WriteRefines(d, path, bytes);
    case Remove(path) => DeleteRefines(d, path);
  }

  predicate AllowedRun(d: Volume, ops: seq<Op>)
    decreases |ops|
  {
    ops != [] ==> Allowed(d, ops[0]) && AllowedRun(Apply(d, ops[0]).0, ops[1..])
  }

  function Run(d: Volume, ops: seq<Op>): Volume
    requires AllowedRun(d, ops)
    decreases |ops|
  {
    if ops == [] then d else Run(Apply(d, ops[0]).0, ops[1..])
  }

  predicate WellNamed(ops: seq<Op>) {
    forall op | op in ops :: op.MakeEntry? && op.isDirectory ==> op.path != ""
  }

  function RunTree(m: Tree, ops: seq<Op>): Tree
    requires WellNamed(ops)
    decreases |ops|
  {
    if ops == [] then m else RunTree(ApplyTree(m, ops[0]).0, ops[1..])
  }

  /** Over every allowed run the disk is the map, so every read gives what was last written. */
  lemma {:induction false} RunRefines(d: Volume, ops: seq<Op>)
    requires Good(d) && AllowedRun(d, ops) && WellNamed(ops)
    ensures ExtentsInside(d) && Good(Run(d, ops)) && ExtentsInside(Run(d, ops))
    ensures TreeOf(Run(d, ops)) == RunTree(TreeOf(d), ops)
    ensures forall path, max :: Read(Run(d, ops), path, max) == TreeRead(RunTree(TreeOf(d), ops), path, max)
    decreases |ops|
  {
    GoodInside(d);
    if ops != [] {
      StepRefines(d, ops[0]);
      RunRefines(Apply(d, ops[0]).0, ops[1..]);
    } else {
      forall path, max ensures Read(d, path, max) == TreeRead(TreeOf(d), path, max) {
        ReadRefines(d, path, max);
      }
    }
  }

  lemma EmptyGood(data: seq<Byte>)
    requires |data| == DATA_SIZE
    ensures Good(Empty(data)) && ExtentsInside(Empty(data)) && TreeOf(Empty(data)) == map[]
  {
    EmptyOk(data);
    assert Names(Empty(data).files) == {};
  }

  // ---------- outside the allowed runs ----------

  // What a file holds that was written with x and then overwritten from its start with y.
  function Covered(x: seq<Byte>, y: seq<Byte>): seq<Byte> {
    if |x| <= |y| then y[..|x|] else y + x[|y|..]
  }

  lemma SharedExtent(d: Volume, i: nat, j: nat, x: seq<Byte>, y: seq<Byte>)
    requires i < |d.files| && j < |d.files| && i != j && d.files[i].offset == d.files[j].offset
    requires d.files[i].offset + |x| <= |d.data| && d.files[i].offset + |y| <= |d.data|
    ensures var r := Fill(Fill(d, i, x), j, y);
      r.files[i].offset + r.files[i].size <= |r.data| && Contents(r, i) == Covered(x, y)
  {
    var r := Fill(Fill(d, i, x), j, y);
    forall k | 0 <= k < |x| ensures Contents(r, i)[k] == Covered(x, y)[k] {
      assert Contents(r, i)[k] == r.data[d.files[i].offset + k];
    }
  }

  // Two new files, one after the other.
  function BothCreated(d: Volume, a: string, b: string): Volume {
    Create(Create(d, a, false).0, b, false).0
  }

  lemma TwoNew(d: Volume, a: string, b: string)
    requires TableOk(d) && d.count + 2 <= MAX_FILES && a != b && |a| < NAME_SIZE && |b| < NAME_SIZE
    requires Search(d.files, a, 0).None? && Search(d.files, b, 0).None?
    ensures var r := BothCreated(d, a, b);
      && TableOk(r) && r.next == d.next && r.data == d.data && r.count == d.count + 2
      && Search(r.files, a, 0).Some? && Search(r.files, b, 0).Some?
      && r.files[Search(r.files, a, 0).value] == Entry(a, 0, d.next, false, true)
      && r.files[Search(r.files, b, 0).value] == Entry(b, 0, d.next, false, true)
  {
    CreateOk(d, a, false);
    var d1, i := Create(d, a, false).0, FirstFree(d.files, 0).value;
    assert Search(d1.files, b, 0).None?;
    CreateOk(d1, b, false);
    var r, j := Create(d1, b, false).0, FirstFree(d1.files, 0).value;
    SearchUnique(r, i);
    SearchUnique(r, j);
  }

  /**
   Two files that are created before either is written share their bytes: what is
   then written to the second is read from the first.
   */
  lemma CreatedTogetherCollide(d: Volume, a: string, b: string, x: seq<Byte>, y: seq<Byte>, max: nat)
    requires Good(d) && d.count + 2 <= MAX_FILES && a != b && |a| < NAME_SIZE && |b| < NAME_SIZE
    requires Search(d.files, a, 0).None? && Search(d.files, b, 0).None?
    requires |x| <= MAX_FILE_SIZE && |y| <= MAX_FILE_SIZE
    requires d.next + |x| <= DATA_SIZE && d.next + |y| <= DATA_SIZE
    ensures var d2 := BothCreated(d, a, b);
      && InBounds(d2, a, |x|)
      && var d3 := Write(d2, a, x).0;
      && InBounds(d3, b, |y|)
      && var d4 := Write(d3, b, y).0;
      ExtentsInside(d4) && Read(d4, a, max) == Bytes(Prefix(Covered(x, y), max))
  {
    var d2 := BothCreated(d, a, b);
    TwoNew(d, a, b);
    var i, j := Search(d2.files, a, 0).value, Search(d2.files, b, 0).value;
    FillOk(d2, i, x);
    var d3 := Fill(d2, i, x);
    SearchUnique(d3, i);
    SearchUnique(d3, j);
    FillOk(d3, j, y);
    var d4 := Fill(d3, j, y);
    SearchUnique(d4, i);
    SharedExtent(d2, i, j, x, y);
    GoodInside(d);
    BothInside(d, a, b, x, y, i, j);
  }

  lemma BothInside(d: Volume, a: string, b: string, x: seq<Byte>, y: seq<Byte>, i: nat, j: nat)
    requires TableOk(d) && ExtentsInside(d) && d.count + 2 <= MAX_FILES && a != b && |a| < NAME_SIZE && |b| < NAME_SIZE
    requires Search(d.files, a, 0).None? && Search(d.files, b, 0).None?
    requires d.next + |x| <= DATA_SIZE && d.next + |y| <= DATA_SIZE && i < MAX_FILES && j < MAX_FILES
    requires var r := BothCreated(d, a, b);
      Search(r.files, a, 0) == Some(i) && Search(r.files, b, 0) == Some(j)
    ensures var r := BothCreated(d, a, b);
      && |r.files| == MAX_FILES && |r.data| == DATA_SIZE && r.files[i].offset == r.files[j].offset == d.next
      && ExtentsInside(Fill(Fill(r, i, x), j, y))
  {
    CreateOk(d, a, false);
    CreateOk(Create(d, a, false).0, b, false);
    TwoNew(d, a, b);
  }

  /** Without deletions no run leaves the data array, whatever it writes. */
  lemma {:induction false} NoDeletionsStayInside(d: Volume, ops: seq<Op>)
    requires Packed(d) && WellNamed(ops) && ShortNamed(ops) && forall op | op in ops :: !op.Remove?
    ensures StaysInside(d, ops)
    decreases |ops|
  {
    if ops != [] {
      assert ops[0] in ops;
      match ops[0]
      case MakeEntry(path, isDirectory) =>
        CreatePacked(d, path, isDirectory);
        NoDeletionsStayInside(Create(d, path, isDirectory).0, ops[1..]);
      case Store(path, bytes) =>
        WritePacked(d, path, bytes);
        NoDeletionsStayInside(Write(d, path, bytes).0, ops[1..]);
    }
  }

  predicate ShortNamed(ops: seq<Op>)
    requires WellNamed(ops)
  {
    forall op | op in ops && !op.Remove? :: |NewName(op)| < NAME_SIZE
  }

  // The name under which the step would store a new entry.
  function NewName(op: Op): string
    requires op.MakeEntry? && op.isDirectory ==> op.path != ""
  {
    if op.MakeEntry? then FixedName(op.path, op.isDirectory) else op.path
  }

  predicate StaysInside(d: Volume, ops: seq<Op>)
    decreases |ops|
  {
    ops != [] ==>
      match ops[0]
      case MakeEntry(path, isDirectory) =>
        (isDirectory ==> path != "") && StaysInside(Create(d, path, isDirectory).0, ops[1..])
      case Store(path, bytes) => InBounds(d, path, |bytes|) && StaysInside(Write(d, path, bytes).0, ops[1..])
      case Remove(path) => StaysInside(Delete(d, path).0, ops[1..])
  }

  lemma EmptyPacked(data: seq<Byte>)
    requires |data| == DATA_SIZE
    ensures Packed(Empty(data))
  {
    EmptyOk(data);
    NoneInUse(Empty(data).files);
  }
}
