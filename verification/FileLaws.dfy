/**
 What each call of the file system tells its caller and does to the names and
 contents (kernel/fs.c:52-172), and that a new directory can be entered.
 */
module FileLaws {
  import opened Words
  import opened Disk
  import opened FileMap
  import opened Path

  // A directory's name ends in a slash, added if it is missing; a file's stays as it is.
  predicate Stored(path: string, isDirectory: bool, name: string) {
    if isDirectory && path != "" && path[|path| - 1] != '/' then name == path + "/" else name == path
  }

  /**
   Creating: -1 when 64 names are taken, -2 when the name is one of them, and
   otherwise the one new name, of an empty file or a directory.
   */
  lemma CreateTells(d: Volume, path: string, isDirectory: bool, name: string)
    requires Good(d) && (isDirectory ==> path != "") && Stored(path, isDirectory, name) && NameFits(d, name)
    ensures var r := Create(d, path, isDirectory);
      && ExtentsInside(d) && Good(r.0) && ExtentsInside(r.0)
      && var m := TreeOf(d);
      && r.1 == (if |m| >= 64 then 0 - 1 else if name in m then 0 - 2 else 0)
      && TreeOf(r.0) == if r.1 == 0 then m[name := if isDirectory then Directory else File([])] else m
  {
    hide Create, Good, TreeOf, ExtentsInside;
    NameIs(path, isDirectory, name);
    CreateRefines(d, path, isDirectory);
  }

  lemma NameIs(path: string, isDirectory: bool, name: string)
    requires (isDirectory ==> path != "") && Stored(path, isDirectory, name)
    ensures FixedName(path, isDirectory) == name
  {
  }

  /**
   Writing: -1 beyond 8192 bytes, -2 when a new name finds no place, -4 for a
   directory, and otherwise the number of bytes, which the file then holds.
   */
  lemma WriteTells(d: Volume, path: string, bytes: seq<Byte>)
    requires Good(d) && NameFits(d, path) && InBounds(d, path, |bytes|) && SafeWrite(d, path, |bytes|)
    ensures var r := Write(d, path, bytes);
      && ExtentsInside(d) && Good(r.0) && ExtentsInside(r.0)
      && var m := TreeOf(d);
      && r.1 == (if |bytes| > 8192 then 0 - 1
                 else if path !in m then (if |m| >= 64 then 0 - 2 else |bytes|)
                 else if m[path].Directory? then 0 - 4
                 else |bytes|)
      && TreeOf(r.0) == if r.1 >= 0 then m[path := File(bytes)] else m
  {
    hide Write, Good, TreeOf, ExtentsInside, InBounds, SafeWrite;
    WriteRefines(d, path, bytes);
  }

  /** Deleting: the name and nothing else is gone, or -1 when there is none. */
  lemma DeleteTells(d: Volume, path: string)
    requires Good(d)
    ensures var r := Delete(d, path);
      && ExtentsInside(d) && Good(r.0) && ExtentsInside(r.0)
      && var m := TreeOf(d);
      && r.1 == (if path in m then 0 else 0 - 1)
      && TreeOf(r.0).Keys == m.Keys - {path} && forall x | x in TreeOf(r.0) :: TreeOf(r.0)[x] == m[x]
  {
    hide Delete, Good, TreeOf, ExtentsInside;
    DeleteRefines(d, path);
  }

  /** Reading: -2 for a missing name, -1 for a directory, and otherwise the first min(size, max) bytes. */
  lemma ReadTells(d: Volume, path: string, max: nat)
    requires TableOk(d) && ExtentsInside(d)
    ensures var m, r := TreeOf(d), Read(d, path, max);
      if path !in m then r == ReadError(0 - 2)
      else if m[path].Directory? then r == ReadError(0 - 1)
      else
        var contents := m[path].bytes;
        && r.Bytes? && |r.bytes| == (if |contents| < max then |contents| else max)
        && forall k | 0 <= k < |r.bytes| :: r.bytes[k] == contents[k]
  {
    hide Read, TreeOf;
    ReadRefines(d, path, max);
  }

  /** A directory created under a normal absolute name can be entered from anywhere. */
  lemma CreatedIsEntered(d: Volume, n: string, s: string, name: string)
    requires Good(d) && Absolute(n) && Normalize(n) == n && Stored(n, true, name) && NameFits(d, name) && CwdOk(s)
    requires Create(d, n, true).1 == 0
    ensures var r := Create(d, n, true).0;
      && ExtentsInside(r) && CdTarget(s, n) in TreeOf(r) && TreeOf(r)[CdTarget(s, n)] == Directory
  {
    hide Create, Good, TreeOf, ExtentsInside, Normalize;
    CreateTells(d, n, true, name);
  }
}
