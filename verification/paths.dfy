/** The parts of Go's `path/filepath` and `strings` the interceptor uses, on
    Unix paths (separator `/`, no volume names). `Dir` and `Join` leave out
    the final `filepath.Clean`: they agree with Go's on paths without `.`
    or `..` elements. */
module Paths {

  const Slash: char := '/'

  predicate HasSuffix(s: string, suffix: string)
  {
    |suffix| <= |s| && s[|s| - |suffix|..] == suffix
  }

  function TrimSuffix(s: string, suffix: string): (r: string)
    ensures HasSuffix(s, suffix) ==> r + suffix == s
    ensures !HasSuffix(s, suffix) ==> r == s
  {
    if HasSuffix(s, suffix) then s[..|s| - |suffix|] else s
  }

  /** Index of the last c in s, or -1. */
  function LastIndex(s: string, c: char): (i: int)
    ensures -1 <= i < |s|
  {
    if s == [] then -1
    else if s[|s| - 1] == c then |s| - 1
    else LastIndex(s[..|s| - 1], c)
  }

  /** Index of the first c in s, or -1. */
  function IndexOf(s: string, c: char): (i: int)
    ensures -1 <= i < |s|
    ensures i >= 0 ==> s[i] == c && c !in s[..i]
    ensures i < 0 ==> c !in s
  {
    if s == [] then -1
    else if s[0] == c then 0
    else
      var j := IndexOf(s[1..], c);
      if j < 0 then -1
      else
        assert s[..j + 1] == [s[0]] + s[1..][..j];
        j + 1
  }

  /** The first c in a + [c] + b is the one after a. */
  lemma {:induction false} IndexOfAfter(a: string, c: char, b: string)
    requires c !in a
    ensures IndexOf(a + [c] + b, c) == |a|
  {
    if a != [] {
      assert (a + [c] + b)[1..] == a[1..] + [c] + b;
      IndexOfAfter(a[1..], c, b);
    }
  }

  /** The last c is at i and nowhere after it; -1 when c does not occur. */
  lemma {:induction false} LastIndexSpec(s: string, c: char)
    ensures LastIndex(s, c) >= 0 ==> s[LastIndex(s, c)] == c
    ensures forall j :: LastIndex(s, c) < j < |s| ==> s[j] != c
  {
    if s != [] && s[|s| - 1] != c {
      LastIndexSpec(s[..|s| - 1], c);
    }
  }

  /** s without its trailing slashes. */
  function StripSlashes(s: string): (r: string)
    ensures |r| <= |s| && r == s[..|r|]
    ensures r == [] || r[|r| - 1] != Slash
  {
    if s == [] || s[|s| - 1] != Slash then s else StripSlashes(s[..|s| - 1])
  }

  /** `filepath.Base`: the last element, trailing slashes removed; "." for
      the empty path and "/" for a path of slashes. */
  function Base(path: string): string
  {
    if path == [] then "."
    else
      var p := StripSlashes(path);
      if p == [] then "/" else p[LastIndex(p, Slash) + 1..]
  }

  /** `filepath.Ext`: the suffix from the last dot of the last element, or
      empty. */
  function Ext(path: string): string
  {
    var dot := LastIndex(path, '.');
    if dot >= 0 && LastIndex(path, Slash) < dot then path[dot..] else ""
  }

  /** `filepath.Dir`: everything before the last element. */
  function Dir(path: string): string
  {
    var i := LastIndex(path, Slash);
    if i < 0 then "."
    else
      var d := StripSlashes(path[..i + 1]);
      if d == [] then "/" else d
  }

  /** `filepath.Join` of two elements: empty elements are dropped. */
  function Join(a: string, b: string): string
  {
    if a == [] then b
    else if b == [] then a
    else if a[|a| - 1] == Slash then a + b
    else a + [Slash] + b
  }

  /** The last element without its extension: what the interceptor
      compares with a tool name. */
  function Stem(command: string): string
  {
    var b := Base(command);
    var e := Ext(b);
    if e != "" then TrimSuffix(b, e) else b
  }

  /** Splitting a path at its last slash and joining the parts again gives
      the path back. */
  lemma DirJoinBase(dir: string, name: string)
    requires dir != [] && dir[|dir| - 1] != Slash && dir[0] == Slash
    requires name != [] && Slash !in name
    ensures Dir(dir + [Slash] + name) == dir
    ensures Base(dir + [Slash] + name) == name
    ensures Join(Dir(dir + [Slash] + name), Base(dir + [Slash] + name)) == dir + [Slash] + name
  {
    var p := dir + [Slash] + name;
    LastIndexAfter(dir + [Slash], name, Slash);
    assert p[..|dir| + 1] == dir + [Slash];
    assert StripSlashes(dir + [Slash]) == dir by {
      assert (dir + [Slash])[..|dir|] == dir;
    }
    assert StripSlashes(p) == p;
    assert p[|dir| + 1..] == name;
  }

  /** The last occurrence of c in a + b, when b does not contain c and a
      ends with it. */
  lemma {:induction false} LastIndexAfter(a: string, b: string, c: char)
    requires a != [] && a[|a| - 1] == c && c !in b
    ensures LastIndex(a + b, c) == |a| - 1
    decreases |b|
  {
    if b == [] {
      assert a + b == a;
    } else {
      assert (a + b)[..|a + b| - 1] == a + b[..|b| - 1];
      assert b[|b| - 1] in b;
      LastIndexAfter(a, b[..|b| - 1], c);
    }
  }

  /** A name with no slash is its own stem, whatever directory it sits in
      and whatever single extension follows it; with no extension, the name
      must not hold a dot either. */
  lemma StemOf(dir: string, name: string, ext: string)
    requires name != [] && Slash !in name && (ext == [] ==> '.' !in name)
    requires ext == [] || (ext[0] == '.' && Slash !in ext && '.' !in ext[1..])
    ensures Stem(dir + [Slash] + name + ext) == name
  {
    var b := name + ext;
    assert Slash !in b by {
      forall i | 0 <= i < |b| ensures b[i] != Slash {
        if i < |name| { assert b[i] == name[i]; } else { assert b[i] == ext[i - |name|]; }
      }
    }
    assert dir + [Slash] + name + ext == dir + [Slash] + b;
    BaseAfterSlash(dir, b);
    ExtOf(name, ext);
    if ext != [] {
      assert b[..|b| - |ext|] == name;
    }
  }

  /** The last element of `dir/b` is b. */
  lemma BaseAfterSlash(dir: string, b: string)
    requires b != [] && Slash !in b
    ensures Base(dir + [Slash] + b) == b
  {
    var p := dir + [Slash] + b;
    assert p == (dir + [Slash]) + b;
    LastIndexAfter(dir + [Slash], b, Slash);
    assert p[|p| - 1] == b[|b| - 1] && b[|b| - 1] in b;
    assert StripSlashes(p) == p;
    assert p[|dir| + 1..] == b;
  }

  /** The extension of `name + ext` is ext. */
  lemma ExtOf(name: string, ext: string)
    requires Slash !in name && (ext == [] ==> '.' !in name)
    requires ext == [] || (ext[0] == '.' && Slash !in ext && '.' !in ext[1..])
    ensures Ext(name + ext) == ext
  {
    var b := name + ext;
    assert Slash !in b by {
      forall i | 0 <= i < |b| ensures b[i] != Slash {
        if i < |name| { assert b[i] == name[i]; } else { assert b[i] == ext[i - |name|]; }
      }
    }
    LastIndexSlashAbsent(b);
    if ext == [] {
      assert b == name;
      LastIndexAbsent(name, '.');
    } else {
      assert b == (name + ['.']) + ext[1..];
      LastIndexAfter(name + ['.'], ext[1..], '.');
      assert b[|name|..] == ext;
    }
  }

  lemma {:induction false} LastIndexAbsent(s: string, c: char)
    requires c !in s
    ensures LastIndex(s, c) == -1
  {
    if s != [] {
      assert s[|s| - 1] in s;
      assert forall x :: x in s[..|s| - 1] ==> x in s;
      LastIndexAbsent(s[..|s| - 1], c);
    }
  }

  lemma LastIndexSlashAbsent(s: string)
    requires Slash !in s
    ensures LastIndex(s, Slash) == -1
  {
    LastIndexAbsent(s, Slash);
  }
}
