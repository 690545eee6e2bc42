/** Path buffers and the `cd` command as the kernel runs them (kernel/fs.c:254-266, kernel/kernel.c). */
module Shell {
  import opened Path
  import opened FileSystem
  import FileMap
  import Disk

  const NUL: char := '\0'
  const PATH_BUFFER: nat := 256

  /** The memory starts with the characters of s and a NUL. */
  ghost predicate Holds(memory: seq<char>, s: string) {
    |s| < |memory| && memory[..|s|] == s && memory[|s|] == NUL && NUL !in s
  }

  // The first NUL is the one behind the text.
  lemma TextAt(memory: seq<char>, s: string, k: nat)
    requires Holds(memory, s) && k <= |s|
    ensures memory[k] == NUL <==> k == |s|
    ensures k < |s| ==> memory[k] == s[k]
  {
    if k < |s| {
      assert memory[..|s|][k] == s[k] && s[k] in s;
    }
  }

  method StrLen(path: array<char>, ghost s: string) returns (n: nat)
    requires Holds(path[..], s)
    ensures n == |s|
  {
    n := 0;
    TextAt(path[..], s, n);
    while path[n] != NUL
      invariant 0 <= n <= |s| && (path[n] == NUL <==> n == |s|)
      decreases |s| - n
    {
      n := n + 1;
      TextAt(path[..], s, n);
    }
  }

  /** Copies up to and including the NUL. */
  method StrCopy(dest: array<char>, at: nat, src: seq<char>, ghost s: string)
    requires Holds(src, s) && at + |s| < dest.Length
    modifies dest
    ensures dest[..at] == old(dest[..at]) && dest[at..at + |s|] == s && dest[at + |s|] == NUL
  {
    var i := 0;
    TextAt(src, s, i);
    while src[i] != NUL
      invariant 0 <= i <= |s| && (src[i] == NUL <==> i == |s|) && (i < |s| ==> src[i] == s[i])
      invariant dest[..at] == old(dest[..at]) && dest[at..at + i] == s[..i]
      decreases |s| - i
    {
      dest[at + i] := src[i];
      i := i + 1;
      TextAt(src, s, i);
    }
    dest[at + i] := NUL;
  }

  /** Removes doubled slashes and a final one, in place. */
  method NormalizePath(path: array<char>, ghost s: string)
    requires Holds(path[..], s)
    modifies path
    ensures Holds(path[..], Normalize(s))
  {
    var w := Compact(path, s);
    ghost var q := Squeeze(s, false);
    path[w] := NUL;
    assert path[..w] == q;
    SqueezeNoNul(s, false);
    var len := StrLen(path, q);
    if len > 1 && path[len - 1] == '/' {
      path[len - 1] := NUL;
      assert path[..len - 1] == Normalize(s);
    }
  }

  lemma SqueezeOne(s: string, r: nat)
    requires r < |s|
    ensures var after := r > 0 && s[r - 1] == '/';
      Squeeze(s[r..], after) ==
        (if s[r] == '/' && after then [] else [s[r]]) + Squeeze(s[r + 1..], s[r] == '/')
  {
    assert s[r..][0] == s[r] && s[r..][1..] == s[r + 1..];
  }

  lemma SqueezeNone(s: string, after: bool)
    ensures Squeeze(s[|s|..], after) == []
  {
  }

  // The copying loop: w characters are left.
  method Compact(path: array<char>, ghost s: string) returns (w: nat)
    requires Holds(path[..], s)
    modifies path
    ensures w <= |s| && path[..w] == Squeeze(s, false)
  {
    hide Squeeze;
    ghost var before := path[..];
    var r := 0;
    w := 0;
    assert s[0..] == s;
    StillThere(path[..], before, s, w, r);
    while path[r] != NUL
      invariant 0 <= w <= r <= |s| && path.Length == |before|
      invariant path[..][w..] == before[w..] && (w == r ==> path[..w] == s[..w])
      invariant path[r] == NUL <==> r == |s|
      invariant Squeeze(s, false) == path[..w] + Squeeze(s[r..], r > 0 && s[r - 1] == '/')
      decreases |s| - r
    {
      StillThere(path[..], before, s, w, r);
      SqueezeOne(s, r);
      if r > 0 && path[r] == '/' && path[r - 1] == '/' {
      } else {
        ghost var kept, more := path[..w], Squeeze(s[r + 1..], s[r] == '/');
        path[w] := path[r];
        w := w + 1;
        assert path[..w] == kept + [s[r]] && kept + ([s[r]] + more) == (kept + [s[r]]) + more;
      }
      r := r + 1;
      StillThere(path[..], before, s, w, r);
    }
    SqueezeNone(s, r > 0 && s[r - 1] == '/');
  }

  // The characters the loop looks at are still those of s, although it has written up to w.
  lemma StillThere(now: seq<char>, before: seq<char>, s: string, w: nat, r: nat)
    requires Holds(before, s) && |now| == |before| && w <= r <= |s| && now[w..] == before[w..]
    requires w == r ==> now[..w] == s[..w]
    ensures now[r] == NUL <==> r == |s|
    ensures r < |s| ==> now[r] == s[r] && s[r..][1..] == s[r + 1..]
    ensures r > 0 ==> now[r - 1] == s[r - 1]
  {
    TextAt(before, s, r);
    assert now[r] == now[w..][r - w] == before[w..][r - w] == before[r];
    if r > 0 {
      TextAt(before, s, r - 1);
      if w == r {
        assert now[..w][r - 1] == s[..w][r - 1];
      } else {
        assert now[r - 1] == now[w..][r - 1 - w] == before[w..][r - 1 - w] == before[r - 1];
      }
    }
  }

  lemma {:induction false} SqueezeNoNul(s: string, after: bool)
    requires NUL !in s
    ensures NUL !in Squeeze(s, after)
  {
    if s != "" {
      SqueezeNoNul(s[1..], s[0] == '/');
    }
  }

  // ---------- construct_path ----------

  lemma Held(memory: seq<char>, s: string)
    requires |s| < |memory| && memory[..|s|] == s && memory[|s|] == NUL && NUL !in s
    ensures Holds(memory, s)
  {
  }

  method ConstructPath(dest: array<char>, current: seq<char>, ghost cwd: string, arg: string)
    requires Holds(current, cwd) && cwd != "" && NUL !in arg
    requires |cwd| + |arg| + 2 < dest.Length
    modifies dest
    ensures Holds(dest[..], Construct(cwd, arg))
  {
    hide ParentLength;
    if arg != "" && arg[0] == '/' {
      Held(arg + [NUL], arg);
      StrCopy(dest, 0, arg + [NUL], arg);
    } else if arg == ".." {
      StrCopy(dest, 0, current, cwd);
      TakeParent(dest, cwd);
    } else if arg == "." {
      StrCopy(dest, 0, current, cwd);
    } else {
      StrCopy(dest, 0, current, cwd);
      var len := StrLen(dest, cwd);
      ghost var base := cwd;
      if dest[len - 1] != '/' {
        dest[len] := '/';
        dest[len + 1] := NUL;
        base := cwd + "/";
        assert dest[..len + 1] == base;
      }
      len := StrLen(dest, base);
      Held(arg + [NUL], arg);
      StrCopy(dest, len, arg + [NUL], arg);
      assert dest[..len + |arg|] == dest[..len] + dest[len..len + |arg|] == base + arg;
    }
  }

  lemma OneShorter(s: string, len: nat)
    requires 1 < len <= |s| && s[len - 1] != '/'
    ensures ParentLength(s, len) == ParentLength(s, len - 1)
  {
  }

  lemma ShortParent(s: string)
    requires |s| <= 1
    ensures Parent(s) == "/"
  {
  }

  // A slash and a NUL behind the parent's name.
  lemma CutAt(memory: seq<char>, cwd: string, from: nat, len: nat)
    requires Holds(memory, cwd) && |cwd| + 2 < |memory| && |cwd| > 1
    requires from == if cwd[|cwd| - 1] == '/' then |cwd| - 1 else |cwd|
    requires 1 <= len <= from && ParentLength(cwd, from) == ParentLength(cwd, len) && (len == 1 || cwd[len - 1] == '/')
    ensures Holds(memory[len := '/'][len + 1 := NUL], Parent(cwd))
  {
    var after := memory[len := '/'][len + 1 := NUL];
    assert ParentLength(cwd, len) == len;
    assert after[..len] == cwd[..len];
    assert after[..len + 1] == cwd[..len] + "/";
    assert NUL !in cwd[..len];
  }

  method TakeParent(dest: array<char>, ghost cwd: string)
    requires Holds(dest[..], cwd) && cwd != "" && |cwd| + 2 < dest.Length
    modifies dest
    ensures Holds(dest[..], Parent(cwd))
  {
    hide Parent, ParentLength;
    var len := StrLen(dest, cwd);
    ghost var before := dest[..];
    if len > 1 {
      TextAt(before, cwd, len - 1);
      if dest[len - 1] == '/' {
        len := len - 1;
      }
      ghost var from := len;
      while len > 1 && dest[len - 1] != '/'
        invariant 1 <= len <= from && dest[..] == old(dest[..])
        invariant ParentLength(cwd, from) == ParentLength(cwd, len)
      {
        TextAt(before, cwd, len - 1);
        OneShorter(cwd, len);
        len := len - 1;
      }
      TextAt(before, cwd, len - 1);
      CutAt(before, cwd, from, len);
      dest[len] := '/';
      dest[len + 1] := NUL;
      assert dest[..] == before[len := '/'][len + 1 := NUL];
    } else {
      assert Parent(cwd) == "/" by {
        ShortParent(cwd);
      }
      Held("/" + [NUL], "/");
      StrCopy(dest, 0, "/" + [NUL], "/");
    }
  }

  // ---------- cd ----------

  class Shell {
    const currentPath: array<char>
    // The text in the buffer.
    ghost var cwd: string

    ghost predicate Valid()
      reads this, currentPath
    {
      currentPath.Length == PATH_BUFFER && Holds(currentPath[..], cwd) && CwdOk(cwd)
    }

    constructor ()
      ensures Valid() && fresh(currentPath) && cwd == "/"
    {
      currentPath := new char[PATH_BUFFER];
      cwd := "/";
      new;
      currentPath[0], currentPath[1] := '/', NUL;
      assert currentPath[..1] == "/";
    }

    /** The current directory changes to the target if the file system has a directory of that name. */
    method Cd(fs: FileSystem, args: string)
      requires Valid() && fs.Valid() && Disk.ExtentsInside(fs.View())
      requires NUL !in args && |cwd| + |args| + 4 < PATH_BUFFER
      modifies this, currentPath
      ensures Valid()
      ensures args == "" ==> cwd == old(cwd)
      ensures args != "" ==>
        var m, t := FileMap.TreeOf(old(fs.View())), CdTarget(old(cwd), args);
        cwd == if t in m && m[t].Directory? then t else old(cwd)
    {
      if args == "" {
        return;
      }
      CdIsDestination(cwd, args);
      var path := new char[PATH_BUFFER];
      var len := BuildTarget(path, currentPath[..], cwd, args);
      ghost var t := CdTarget(cwd, args);
      assert path[..len] == path[..][..len] == t;
      var found := fs.Exists(path[..len]);
      var directory := fs.IsDirectory(path[..len]);
      if found && directory {
        SetPath(path[..], t);
      }
    }

    method SetPath(path: seq<char>, ghost t: string)
      requires Valid() && Holds(path, t) && CwdOk(t) && |t| < PATH_BUFFER
      modifies this, currentPath
      ensures Valid() && cwd == t
    {
      StrCopy(currentPath, 0, path, t);
      cwd := t;
      assert currentPath[..|t|] == currentPath[0..0 + |t|] == t;
    }
  }

  // The name `cd` asks for, in a fresh buffer.
  method BuildTarget(path: array<char>, current: seq<char>, ghost cwd: string, args: string) returns (len: nat)
    requires Holds(current, cwd) && CwdOk(cwd) && args != "" && NUL !in args
    requires |cwd| + |args| + 4 < path.Length
    modifies path
    ensures Holds(path[..], CdTarget(cwd, args)) && len == |CdTarget(cwd, args)| && len + 1 < path.Length
  {
    hide Construct, Normalize;
    ConstructPath(path, current, cwd, args);
    ghost var raw := Construct(cwd, args);
    NormalizePath(path, raw);
    ghost var p := Normalize(raw);
    NormalizeNormal(raw);
    ConstructLength(cwd, args);
    len := StrLen(path, p);
    TextAt(path[..], p, len - 1);
    if path[len - 1] != '/' {
      SlashAt(path[..], p);
      ghost var before := path[..];
      path[len] := '/';
      path[len + 1] := NUL;
      assert path[..] == before[len := '/'][len + 1 := NUL];
      len := len + 1;
    }
  }

  lemma SlashAt(memory: seq<char>, p: string)
    requires Holds(memory, p) && |p| + 1 < |memory|
    ensures Holds(memory[|p| := '/'][|p| + 1 := NUL], p + "/")
  {
    var after := memory[|p| := '/'][|p| + 1 := NUL];
    assert after[..|p|] == p && after[..|p| + 1] == p + "/";
  }

  lemma ConstructLength(current: string, arg: string)
    requires current != ""
    ensures Construct(current, arg) != "" && |Construct(current, arg)| <= |current| + |arg| + 1
  {
  }
}
