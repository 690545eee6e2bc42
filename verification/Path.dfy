/** Path strings of the kernel's shell (kernel/fs.c, kernel/kernel.c). */
module Path {
  import opened Words

  predicate Absolute(s: string) {
    s != "" && s[0] == '/'
  }

  /** The non-empty parts between slashes. */
  function Components(s: string): seq<string>
    decreases |s|
  {
    if s == "" then []
    else if s[0] == '/' then Components(s[1..])
    else
      var n := Part(s);
      [s[..n]] + Components(s[n..])
  }

  // Length of the first component of a string that starts with one.
  function Part(s: string): (n: nat)
    ensures n <= |s| && (forall k | 0 <= k < n :: s[k] != '/') && (n < |s| ==> s[n] == '/')
    ensures s != "" && s[0] != '/' ==> n > 0
  {
    if s == "" || s[0] == '/' then 0 else 1 + Part(s[1..])
  }

  /** The one way to write components without an empty part: separators between them, and one in front if absolute. */
  function Joined(cs: seq<string>): string {
    if cs == [] then "" else if |cs| == 1 then cs[0] else cs[0] + "/" + Joined(cs[1..])
  }

  function Canonical(cs: seq<string>, absolute: bool): string {
    (if absolute then "/" else "") + Joined(cs)
  }

  // ---------- fs_normalize_path ----------

  // Drops slashes that follow a slash.
  function Squeeze(s: string, afterSlash: bool): string {
    if s == "" then ""
    else if s[0] == '/' && afterSlash then Squeeze(s[1..], true)
    else [s[0]] + Squeeze(s[1..], s[0] == '/')
  }

  function Trim(s: string): string {
    if |s| > 1 && s[|s| - 1] == '/' then s[..|s| - 1] else s
  }

  function Normalize(s: string): string {
    Trim(Squeeze(s, false))
  }

  predicate NoDoubleSlash(s: string) {
    forall k | 0 <= k < |s| - 1 :: !(s[k] == '/' && s[k + 1] == '/')
  }

  predicate Normal(s: string) {
    NoDoubleSlash(s) && (|s| > 1 ==> s[|s| - 1] != '/')
  }

  lemma {:induction false} SqueezeShape(s: string, after: bool)
    ensures var q := Squeeze(s, after);
      && NoDoubleSlash(q) && |q| <= |s|
      && (after && q != "" ==> q[0] != '/')
      && (!after ==> (q == "" <==> s == "") && (s != "" ==> q[0] == s[0]))
  {
    if s != "" {
      SqueezeShape(s[1..], s[0] == '/');
    }
  }

  lemma {:induction false} SqueezeKeeps(s: string)
    requires NoDoubleSlash(s)
    ensures Squeeze(s, false) == s
    ensures s != "" && s[0] != '/' ==> Squeeze(s, true) == s
  {
    if s != "" {
      assert forall k | 0 <= k < |s[1..]| :: s[1..][k] == s[k + 1];
      SqueezeKeeps(s[1..]);
      if |s| > 1 && s[0] == '/' {
        assert s[0 + 1] != '/';
      }
      assert s == [s[0]] + s[1..];
      if |s| == 1 {
        assert Squeeze(s[1..], s[0] == '/') == "";
      }
    }
  }

  /** The result has no doubled slash and none at the end, except "/" itself. */
  lemma NormalizeNormal(s: string)
    ensures Normal(Normalize(s)) && |Normalize(s)| <= |s|
    ensures Absolute(Normalize(s)) == Absolute(s)
    ensures Normalize(s) == "" <==> s == ""
  {
    SqueezeShape(s, false);
    var q := Squeeze(s, false);
    if |q| > 1 && q[|q| - 1] == '/' {
      assert q[|q| - 2] != '/';
    }
  }

  /** Normal paths stay as they are, so normalising twice is normalising once. */
  lemma NormalStays(s: string)
    requires Normal(s)
    ensures Normalize(s) == s
  {
    SqueezeKeeps(s);
  }

  lemma NormalizeTwice(s: string)
    ensures Normalize(Normalize(s)) == Normalize(s)
  {
    NormalizeNormal(s);
    NormalStays(Normalize(s));
  }

  // ---------- components ----------

  lemma {:induction false} PartAlone(c: string, rest: string)
    requires (forall k | 0 <= k < |c| :: c[k] != '/') && (rest == "" || rest[0] == '/')
    ensures Part(c + rest) == |c|
  {
    if c == "" {
      assert c + rest == rest;
    } else {
      assert (c + rest)[1..] == c[1..] + rest;
      PartAlone(c[1..], rest);
    }
  }

  predicate Plain(c: string) {
    c != "" && forall k | 0 <= k < |c| :: c[k] != '/'
  }

  lemma ComponentFirst(c: string, rest: string)
    requires Plain(c) && (rest == "" || rest[0] == '/')
    ensures Components(c + rest) == [c] + Components(rest)
  {
    PartAlone(c, rest);
    assert (c + rest)[..|c|] == c && (c + rest)[|c|..] == rest;
  }

  lemma {:induction false} ComponentsPlain(s: string)
    ensures forall c | c in Components(s) :: Plain(c)
    decreases |s|
  {
    if s != "" {
      if s[0] == '/' {
        ComponentsPlain(s[1..]);
      } else {
        ComponentsPlain(s[Part(s)..]);
      }
    }
  }

  /** Components of what stands on both sides of a slash. */
  lemma {:induction false} ComponentsJoin(a: string, b: string)
    requires b == "" || b[0] == '/' || a == "" || a[|a| - 1] == '/'
    ensures Components(a + b) == Components(a) + Components(b)
    decreases |a|
  {
    if a == "" {
      assert a + b == b;
    } else if a[0] == '/' {
      assert (a + b)[1..] == a[1..] + b;
      ComponentsJoin(a[1..], b);
    } else {
      var n := Part(a);
      var c, rest := a[..n], a[n..];
      assert a + b == c + (rest + b) && a == c + rest;
      assert rest != "" ==> rest[|rest| - 1] == a[|a| - 1];
      assert rest == "" ==> rest + b == b && c == a;
      ComponentFirst(c, rest + b);
      ComponentFirst(c, rest);
      ComponentsJoin(rest, b);
      Assoc([c], Components(rest), Components(b));
    }
  }

  lemma OneSlash()
    ensures Components("/") == []
  {
    assert "/"[1..] == "";
  }

  lemma {:induction false} JoinedComponents(cs: seq<string>)
    requires forall c | c in cs :: Plain(c)
    ensures Components(Joined(cs)) == cs && NoDoubleSlash(Joined(cs))
    ensures cs != [] ==> Joined(cs) != "" && Joined(cs)[0] != '/' && Joined(cs)[|Joined(cs)| - 1] != '/'
  {
    if |cs| == 1 {
      assert cs[0] + "" == cs[0] && cs == [cs[0]];
      ComponentFirst(cs[0], "");
    } else if |cs| > 1 {
      var rest := Joined(cs[1..]);
      JoinedComponents(cs[1..]);
      assert cs[0] in cs;
      SlashBetween(cs[0], rest);
      assert cs == [cs[0]] + cs[1..];
    }
  }

  lemma SlashBetween(c: string, rest: string)
    requires Plain(c) && rest != "" && rest[0] != '/' && NoDoubleSlash(rest)
    ensures var s := c + "/" + rest;
      && Components(s) == [c] + Components(rest) && NoDoubleSlash(s)
      && s[0] != '/' && s[|s| - 1] == rest[|rest| - 1]
  {
    var s := c + "/" + rest;
    assert s == c + ("/" + rest) && ("/" + rest)[1..] == rest;
    ComponentFirst(c, "/" + rest);
    forall k | 0 <= k < |s| - 1 ensures !(s[k] == '/' && s[k + 1] == '/') {
      if k > |c| {
        assert s[k] == rest[k - |c| - 1] && s[k + 1] == rest[k - |c| - 1 + 1];
      }
    }
  }

  /** Normal strings are exactly the canonical writings. */
  lemma {:induction false} NormalIsCanonical(s: string)
    requires Normal(s)
    ensures s == Canonical(Components(s), Absolute(s))
    decreases |s|
  {
    if s != "" {
      assert forall k | 0 <= k < |s[1..]| :: s[1..][k] == s[k + 1];
      if s[0] == '/' {
        if |s| > 1 {
          assert s[0 + 1] != '/';
        }
        NormalIsCanonical(s[1..]);
        assert s == "/" + s[1..];
      } else {
        NormalRelative(s);
      }
    }
  }

  lemma {:induction false} NormalRelative(s: string)
    requires Normal(s) && s != "" && s[0] != '/'
    ensures s == Joined(Components(s))
    decreases |s|
  {
    var n := Part(s);
    if n == |s| {
      assert s[..n] == s && s[n..] == "";
    } else {
      var rest := s[n + 1..];
      assert n + 1 < |s| && s[n + 1] != '/';
      assert forall k | 0 <= k < |rest| :: rest[k] == s[n + 1 + k];
      NormalRelative(rest);
      assert s[n..][1..] == rest && s == s[..n] + "/" + rest;
      assert Components(s) == [s[..n]] + Components(rest);
      assert Components(rest) != [];
      assert Components(s)[1..] == Components(rest);
    }
  }

  lemma {:induction false} SqueezeComponents(s: string, after: bool)
    ensures Components(Squeeze(s, after)) == Components(s)
    decreases |s|
  {
    if s != "" {
      if s[0] == '/' {
        SqueezeComponents(s[1..], true);
        assert ([s[0]] + Squeeze(s[1..], true))[1..] == Squeeze(s[1..], true);
      } else {
        var n := Part(s);
        SqueezePart(s, n, after);
        SqueezeComponents(s[n..], false);
        SqueezeShape(s[n..], false);
        ComponentFirst(s[..n], Squeeze(s[n..], false));
        assert s == s[..n] + s[n..];
        ComponentFirst(s[..n], s[n..]);
      }
    }
  }

  lemma {:induction false} SqueezePart(s: string, n: nat, after: bool)
    requires 0 < n <= |s| && forall k | 0 <= k < n :: s[k] != '/'
    ensures Squeeze(s, after) == s[..n] + Squeeze(s[n..], false)
  {
    if n > 1 {
      SqueezePart(s[1..], n - 1, false);
      assert s[1..][n - 1..] == s[n..] && s[..n] == [s[0]] + s[1..][..n - 1];
    } else {
      assert s[..1] == [s[0]];
    }
  }

  /** Normalising gives the canonical writing of the same components. */
  lemma NormalizeIsCanonical(s: string)
    ensures Components(Normalize(s)) == Components(s)
    ensures Normalize(s) == Canonical(Components(s), Absolute(s))
  {
    var q := Squeeze(s, false);
    SqueezeComponents(s, false);
    if |q| > 1 && q[|q| - 1] == '/' {
      assert q == q[..|q| - 1] + "/";
      ComponentsJoin(q[..|q| - 1], "/");
      OneSlash();
    }
    NormalizeNormal(s);
    NormalIsCanonical(Normalize(s));
  }

  /** Two normal paths with the same components are the same. */
  lemma NormalUnique(a: string, b: string)
    requires Normal(a) && Normal(b) && Components(a) == Components(b) && Absolute(a) == Absolute(b)
    ensures a == b
  {
    NormalIsCanonical(a);
    NormalIsCanonical(b);
  }

  // ---------- construct_path and cd ----------

  // The length that is left when the last component and a slash behind it are taken away.
  function ParentLength(s: string, len: nat): (n: nat)
    requires len <= |s|
    ensures n <= len && (len >= 1 ==> n >= 1)
    ensures n > 1 ==> s[n - 1] == '/'
    ensures forall k | n <= k < len && 1 <= k :: s[k] != '/'
  {
    if len > 1 && s[len - 1] != '/' then ParentLength(s, len - 1) else len
  }

  function Parent(current: string): string {
    if |current| > 1 then
      var len := if current[|current| - 1] == '/' then |current| - 1 else |current|;
      current[..ParentLength(current, len)] + "/"
    else "/"
  }

  function Construct(current: string, arg: string): string
    requires current != ""
  {
    if Absolute(arg) then arg
    else if arg == ".." then Parent(current)
    else if arg == "." then current
    else if current[|current| - 1] != '/' then current + "/" + arg
    else current + arg
  }

  // What `cd` looks up and, if it is a directory, makes current.
  function CdTarget(current: string, arg: string): string
    requires current != "" && arg != ""
  {
    var p := Normalize(Construct(current, arg));
    if p != "" && p[|p| - 1] != '/' then p + "/" else p
  }

  /** A directory's full name: its components, each followed by a slash. */
  function DirName(cs: seq<string>): string {
    Canonical(cs, true) + if cs == [] then "" else "/"
  }

  predicate CwdOk(s: string) {
    Absolute(s) && s[|s| - 1] == '/' && NoDoubleSlash(s)
  }

  lemma CwdIsDirName(s: string)
    requires CwdOk(s)
    ensures s == DirName(Components(s))
  {
    if |s| == 1 {
      OneSlash();
    } else {
      var p := s[..|s| - 1];
      assert s == p + "/" && p[|p| - 1] == s[|s| - 2];
      assert s[|s| - 2] != '/' && p[0] == s[0];
      NormalIsCanonical(p);
      ComponentsJoin(p, "/");
      OneSlash();
      ComponentsNotEmpty(p);
      assert Components(s) == Components(p) + [] == Components(p);
    }
  }

  lemma {:induction false} ComponentsNotEmpty(p: string)
    requires p != "" && p[|p| - 1] != '/'
    ensures Components(p) != []
    decreases |p|
  {
    if p[0] == '/' {
      ComponentsNotEmpty(p[1..]);
    }
  }

  lemma DirNameOk(cs: seq<string>)
    requires forall c | c in cs :: Plain(c)
    ensures CwdOk(DirName(cs)) && Components(DirName(cs)) == cs
  {
    JoinedComponents(cs);
    var j := Joined(cs);
    OneSlash();
    if cs != [] {
      assert DirName(cs) == "/" + (j + "/");
      ComponentsJoin("/", j + "/");
      ComponentsJoin(j, "/");
    } else {
      assert DirName(cs) == "/";
    }
  }

  /** Where `cd` leads, in components. */
  function Destination(cs: seq<string>, arg: string): seq<string> {
    if Absolute(arg) then Components(arg)
    else if arg == ".." then (if cs == [] then [] else cs[..|cs| - 1])
    else if arg == "." then cs
    else cs + Components(arg)
  }

  lemma ParentComponents(s: string)
    requires CwdOk(s)
    ensures var cs := Components(s);
      Absolute(Parent(s)) && Components(Parent(s)) == if cs == [] then [] else cs[..|cs| - 1]
  {
    if |s| > 1 {
      hide Components;
      var a, c := ParentParts(s);
      LastComponent(a, c);
    } else {
      OneSlash();
    }
  }

  // The last component and what stands before it.
  lemma ParentParts(s: string) returns (a: string, c: string)
    requires CwdOk(s) && |s| > 1
    ensures s == a + (c + "/") && Parent(s) == a + "/" && Plain(c)
    ensures a != "" && a[|a| - 1] == '/' && Absolute(a + "/")
  {
    var n := ParentLength(s, |s| - 1);
    a, c := s[..n], s[n..|s| - 1];
    assert s[|s| - 2] != '/';
  }

  lemma LastComponent(a: string, c: string)
    requires a != "" && a[|a| - 1] == '/' && Plain(c)
    ensures Components(a + (c + "/")) == Components(a) + [c] && Components(a + "/") == Components(a)
  {
    OneSlash();
    ComponentsJoin(a, c + "/");
    ComponentFirst(c, "/");
    ComponentsJoin(a, "/");
    assert Components(a) + [] == Components(a);
  }

  lemma ConstructComponents(s: string, arg: string)
    requires CwdOk(s) && arg != ""
    ensures Absolute(Construct(s, arg)) && Components(Construct(s, arg)) == Destination(Components(s), arg)
  {
    if arg == ".." {
      ParentComponents(s);
    } else if !Absolute(arg) && arg != "." {
      ComponentsJoin(s, arg);
    }
  }

  /** `cd` works on components: the new name is the directory name of the destination. */
  lemma CdIsDestination(s: string, arg: string)
    requires CwdOk(s) && arg != ""
    ensures CdTarget(s, arg) == DirName(Destination(Components(s), arg))
    ensures CwdOk(CdTarget(s, arg)) && Components(CdTarget(s, arg)) == Destination(Components(s), arg)
  {
    ConstructComponents(s, arg);
    var cs := Destination(Components(s), arg);
    NormalizeIsCanonical(Construct(s, arg));
    ComponentsPlain(Construct(s, arg));
    JoinedComponents(cs);
    DirNameOk(cs);
  }

  // ---------- any number of cd commands ----------

  predicate NonEmpty(args: seq<string>) {
    args != [] ==> args[0] != "" && NonEmpty(args[1..])
  }

  // The directory stays the same when the target is none.
  function CdRun(s: string, args: seq<string>, isDirectory: string -> bool): string
    requires s != "" && NonEmpty(args)
    decreases |args|
  {
    if args == [] then s
    else
      var t := CdTarget(s, args[0]);
      CdRun(if t != "" && isDirectory(t) then t else s, args[1..], isDirectory)
  }

  /** After any commands the path is absolute, slash-terminated, without doubled slashes, and an existing directory. */
  lemma {:induction false} CdRunOk(s: string, args: seq<string>, isDirectory: string -> bool)
    requires CwdOk(s) && isDirectory(s) && NonEmpty(args)
    ensures CwdOk(CdRun(s, args, isDirectory)) && isDirectory(CdRun(s, args, isDirectory))
    decreases |args|
  {
    if args != [] {
      CdIsDestination(s, args[0]);
      var t := CdTarget(s, args[0]);
      CdRunOk(if isDirectory(t) then t else s, args[1..], isDirectory);
    }
  }

  /** Going into a directory and back up returns to where one was. */
  lemma CdAndBack(s: string, name: string, isDirectory: string -> bool)
    requires CwdOk(s) && Plain(name) && name != "." && name != ".."
    requires isDirectory(s) && isDirectory(CdTarget(s, name))
    ensures CdRun(s, [name, ".."], isDirectory) == s
  {
    var t := CdTarget(s, name);
    TargetAndBack(s, name);
    CdIsDestination(s, name);
    assert [name, ".."][1..] == [".."] && [".."][1..] == [];
    assert CdRun(t, [".."], isDirectory) == CdRun(s, [], isDirectory);
  }

  lemma TargetAndBack(s: string, name: string)
    requires CwdOk(s) && Plain(name) && name != "." && name != ".."
    ensures CwdOk(CdTarget(s, name)) && CdTarget(CdTarget(s, name), "..") == s
  {
    CdIsDestination(s, name);
    CdIsDestination(CdTarget(s, name), "..");
    assert name + "" == name;
    ComponentFirst(name, "");
    CwdIsDirName(s);
    var cs := Components(s);
    assert (cs + [name])[..|cs|] == cs;
  }
}
