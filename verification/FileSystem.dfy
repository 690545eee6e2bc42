/** The file system as the kernel keeps it (kernel/fs.c): a table and a byte array changed in place. */
module FileSystem {
  import opened Words
  import opened Disk
  import FileMap

  class FileSystem {
    const files: array<Entry>
    const data: array<Byte>
    var numFiles: int
    var nextOffset: nat

    ghost predicate Valid()
      reads this, files, data
    {
      files.Length == MAX_FILES && data.Length == DATA_SIZE && TableOk(View())
    }

    ghost function View(): Volume
      reads this, files, data
    {
      Volume(files[..], data[..], numFiles, nextOffset)
    }

    /** fs_init: an empty table and then the root directory. */
    constructor ()
      ensures Valid() && fresh(files) && fresh(data)
      ensures exists bytes: seq<Byte> :: |bytes| == DATA_SIZE && View() == Disk.Create(Empty(bytes), "/", true).0
      ensures FileMap.Good(View()) && Packed(View()) && ExtentsInside(View())
      ensures FileMap.TreeOf(View()) == map["/" := FileMap.Directory]
    {
      files := new Entry[MAX_FILES](_ => Entry("", 0, 0, false, false));
      data := new Byte[DATA_SIZE];
      numFiles, nextOffset := 0, 0;
      new;
      assert files[..] == Empty(data[..]).files;
      EmptyOk(data[..]);
      ghost var bytes := data[..];
      FileMap.EmptyGood(bytes);
      FileMap.CreateRefines(Empty(bytes), "/", true);
      FileMap.EmptyPacked(bytes);
      CreatePacked(Empty(bytes), "/", true);
      var code := CreateFile("/", true);
    }

    /** The index of the entry in use with that name, or -1; the empty path names nothing. */
    method Find(path: string) returns (index: int)
      requires Valid()
      ensures index == if path == "" || Search(files[..], path, 0).None? then -1 else Search(files[..], path, 0).value
    {
      if path == "" {
        return -1;
      }
      var found := FindEntry(path);
      return if found.None? then -1 else found.value;
    }

    method FindEntry(path: string) returns (found: Option<nat>)
      requires Valid()
      ensures found == Search(files[..], path, 0)
    {
      var i := 0;
      while i < MAX_FILES
        invariant 0 <= i <= MAX_FILES
        invariant Search(files[..], path, 0) == Search(files[..], path, i)
      {
        if files[i].inUse && files[i].name == path {
          return Some(i);
        }
        i := i + 1;
      }
      return None;
    }

    method CreateFile(path: string, isDirectory: bool) returns (code: int)
      requires Valid() && (isDirectory ==> path != "") && NameFits(View(), FixedName(path, isDirectory))
      modifies this`numFiles, files
      ensures Valid()
      ensures (View(), code) == Disk.Create(old(View()), path, isDirectory)
    {
      CreateOk(View(), path, isDirectory);
      var fixedPath := path;
      if isDirectory && path[|path| - 1] != '/' {
        fixedPath := path + "/";
      }
      if numFiles >= MAX_FILES {
        return -1;
      }
      var existing := FindEntry(fixedPath);
      if existing.Some? {
        return -2;
      }
      var i := 0;
      while i < MAX_FILES
        invariant 0 <= i <= MAX_FILES
        invariant FirstFree(files[..], 0) == FirstFree(files[..], i)
      {
        if !files[i].inUse {
          files[i] := Entry(fixedPath, 0, nextOffset, isDirectory, true);
          numFiles := numFiles + 1;
          assert View() == Disk.Create(old(View()), path, isDirectory).0;
          return 0;
        }
        i := i + 1;
      }
      return -3;
    }

    // The copying loop of a write.
    method Store(offset: nat, bytes: seq<Byte>)
      requires data.Length == DATA_SIZE && offset + |bytes| <= DATA_SIZE
      modifies data
      ensures data[..] == Overwrite(old(data[..]), offset, bytes)
    {
      var i := 0;
      while i < |bytes|
        invariant 0 <= i <= |bytes|
        invariant forall k | 0 <= k < DATA_SIZE ::
          data[k] == if offset <= k < offset + i then bytes[k - offset] else old(data[k])
      {
        data[offset + i] := bytes[i];
        i := i + 1;
      }
      assert data[..] == Overwrite(old(data[..]), offset, bytes);
    }

    method Write(path: string, bytes: seq<Byte>) returns (code: int)
      requires Valid() && NameFits(View(), path) && InBounds(View(), path, |bytes|)
      modifies this, files, data
      ensures Valid()
      ensures (View(), code) == Disk.Write(old(View()), path, bytes)
    {
      WriteOk(View(), path, bytes);
      TargetOk(View(), path);
      if |bytes| > MAX_FILE_SIZE {
        return -1;
      }
      var index := FindEntry(path);
      if index.None? {
        var created := CreateFile(path, false);
        if created < 0 {
          return -2;
        }
        index := FindEntry(path);
      }
      if index.None? {
        return -3;
      }
      var i := index.value;
      if files[i].isDirectory {
        return -4;
      }
      ghost var d := View();
      assert (d, index) == Target(old(View()), path);
      var offset := files[i].offset;
      Store(offset, bytes);
      files[i] := files[i].(size := |bytes|);
      if offset + |bytes| > nextOffset {
        nextOffset := offset + |bytes|;
      }
      assert View() == Fill(d, i, bytes);
      return |bytes|;
    }

    /** Up to max bytes into the caller's buffer; the rest of it stays as it was. */
    method Read(path: string, buffer: array<Byte>, max: nat) returns (code: int)
      requires Valid() && ExtentsInside(View()) && buffer != data && max <= buffer.Length
      modifies buffer
      ensures View() == old(View())
      ensures match Disk.Read(View(), path, max)
        case ReadError(e) => code == e && buffer[..] == old(buffer[..])
        case Bytes(bytes) => code == |bytes| && buffer[..] == bytes + old(buffer[..])[|bytes|..]
    {
      var index := FindEntry(path);
      if index.None? {
        return -2;
      }
      var i := index.value;
      if files[i].isDirectory {
        return -1;
      }
      var toRead := if files[i].size < max then files[i].size else max;
      ghost var contents := Contents(View(), i);
      var j := 0;
      while j < toRead
        invariant 0 <= j <= toRead && View() == old(View())
        invariant forall k | 0 <= k < buffer.Length :: buffer[k] == if k < j then contents[k] else old(buffer[k])
      {
        assert contents[j] == data[..][files[i].offset + j];
        buffer[j] := data[files[i].offset + j];
        j := j + 1;
      }
      assert Disk.Read(View(), path, max) == Bytes(contents[..toRead]);
      assert buffer[..] == contents[..toRead] + old(buffer[..])[toRead..];
      return toRead;
    }

    method Delete(path: string) returns (code: int)
      requires Valid()
      modifies this`numFiles, files
      ensures Valid()
      ensures (View(), code) == Disk.Delete(old(View()), path)
    {
      DeleteOk(View(), path);
      var index := FindEntry(path);
      if index.None? {
        return -1;
      }
      files[index.value] := files[index.value].(inUse := false);
      numFiles := numFiles - 1;
      assert View() == Disk.Delete(old(View()), path).0;
      return 0;
    }

    method Exists(path: string) returns (yes: bool)
      requires Valid() && ExtentsInside(View())
      ensures yes <==> path in FileMap.TreeOf(View())
    {
      FileMap.SearchTree(View(), path);
      var index := FindEntry(path);
      return index.Some?;
    }

    /** The length of the file's contents; 0 for directories and missing names. */
    method Size(path: string) returns (n: nat)
      requires Valid() && FileMap.Good(View())
      ensures ExtentsInside(View())
      ensures var m := FileMap.TreeOf(View());
        n == if path in m && m[path].File? then |m[path].bytes| else 0
    {
      FileMap.GoodInside(View());
      FileMap.SearchTree(View(), path);
      var index := FindEntry(path);
      if index.None? {
        return 0;
      }
      assert FileMap.Kept(View().files[index.value], nextOffset);
      return files[index.value].size;
    }

    method IsDirectory(path: string) returns (yes: bool)
      requires Valid() && ExtentsInside(View())
      ensures var m := FileMap.TreeOf(View());
        yes <==> path != "" && path in m && m[path].Directory?
    {
      FileMap.SearchTree(View(), path);
      var index := Find(path);
      return index >= 0 && files[index].isDirectory;
    }
  }
}
