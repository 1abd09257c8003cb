/**
 * The parts of Node's POSIX `path` module the generator relies on: `resolve`
 * against a working directory, `dirname`, `basename` with an extension, and
 * `relative`. A resolved path is a list of segments below the root.
 */
module PosixPath {
  import opened Strings

  /** The segments of a resolved path, outermost first; `[]` is the root. */
  type Segments = seq<string>

  /** A segment that names a directory entry: not empty, not `.` or `..`, no separator. */
  predicate IsName(seg: string) {
    seg != "" && seg != "." && seg != ".." && '/' !in seg
  }

  predicate AllNames(p: Segments) {
    forall i :: 0 <= i < |p| ==> IsName(p[i])
  }

  predicate NoSlash(p: Segments) {
    forall i :: 0 <= i < |p| ==> '/' !in p[i]
  }

  /**
   * Applies raw segments to a directory as `path.resolve` normalises them:
   * `..` goes up (never above the root), `.` and empty segments are skipped,
   * anything else goes down.
   */
  function Resolve(dir: Segments, rel: Segments): (r: Segments)
    ensures AllNames(dir) && NoSlash(rel) ==> AllNames(r)
    decreases |rel|
  {
    if |rel| == 0 then dir
    else if rel[0] == ".." then Resolve(if |dir| == 0 then dir else dir[..|dir| - 1], rel[1..])
    else if rel[0] == "" || rel[0] == "." then Resolve(dir, rel[1..])
    else Resolve(dir + [rel[0]], rel[1..])
  }

  lemma {:induction false} ResolveAppend(dir: Segments, x: Segments, y: Segments)
    ensures Resolve(dir, x + y) == Resolve(Resolve(dir, x), y)
    decreases |x|
  {
    if |x| == 0 {
      assert x + y == y;
    } else {
      assert (x + y)[0] == x[0];
      assert (x + y)[1..] == x[1..] + y;
      if x[0] == ".." {
        ResolveAppend(if |dir| == 0 then dir else dir[..|dir| - 1], x[1..], y);
      } else if x[0] == "" || x[0] == "." {
        ResolveAppend(dir, x[1..], y);
      } else {
        ResolveAppend(dir + [x[0]], x[1..], y);
      }
    }
  }

  /** Plain names are appended as they are. */
  lemma {:induction false} ResolveNames(dir: Segments, names: Segments)
    requires AllNames(names)
    ensures Resolve(dir, names) == dir + names
    decreases |names|
  {
    if |names| > 0 {
      ResolveNames(dir + [names[0]], names[1..]);
      assert dir + [names[0]] + names[1..] == dir + names;
    }
  }

  /** `n` copies of `s`. */
  function Repeat(s: string, n: nat): (r: seq<string>)
    ensures |r| == n
    ensures forall i :: 0 <= i < n ==> r[i] == s
  {
    if n == 0 then [] else [s] + Repeat(s, n - 1)
  }

  /** `n` leading `..` segments climb `n` directories. */
  lemma {:induction false} ResolveUp(dir: Segments, n: nat, rest: Segments)
    requires n <= |dir|
    ensures Resolve(dir, Repeat("..", n) + rest) == Resolve(dir[..|dir| - n], rest)
    decreases n
  {
    if n == 0 {
      assert Repeat("..", 0) + rest == rest;
      assert dir[..|dir|] == dir;
    } else {
      var up := Repeat("..", n) + rest;
      assert up[0] == "..";
      assert up[1..] == Repeat("..", n - 1) + rest;
      ResolveUp(dir[..|dir| - 1], n - 1, rest);
      assert dir[..|dir| - 1][..|dir| - 1 - (n - 1)] == dir[..|dir| - n];
    }
  }

  /** `path.resolve(s)` when the process working directory is `cwd`. */
  function Absolute(cwd: Segments, s: string): (r: Segments)
    ensures AllNames(cwd) ==> AllNames(r)
  {
    Resolve(if StartsWith(s, "/") then [] else cwd, Split(s, '/'))
  }

  /** The directory `a + "/"` names: the root when `a` is empty, `a` resolved otherwise. */
  function Anchor(cwd: Segments, a: string): (r: Segments)
    ensures AllNames(cwd) ==> AllNames(r)
  {
    if a == "" then [] else Absolute(cwd, a)
  }

  /** Resolving `a + "/" + b` is resolving `b` inside `a`. */
  lemma AbsoluteBelow(cwd: Segments, a: string, b: string)
    ensures Absolute(cwd, a + "/" + b) == Resolve(Anchor(cwd, a), Split(b, '/'))
  {
    var s := a + "/" + b;
    SplitAround(a, '/', b);
    var start := if StartsWith(s, "/") then [] else cwd;
    ResolveAppend(start, Split(a, '/'), Split(b, '/'));
    if a == "" {
      assert StartsWith(s, "/");
      assert Split(a, '/') == [""];
    } else {
      assert s[..1] == a[..1];
      assert StartsWith(s, "/") == StartsWith(a, "/");
    }
  }

  /** Resolving `a + "/" + n1 + "/" + ... + nk` appends the names to the anchor of `a`. */
  lemma AbsoluteJoin(cwd: Segments, a: string, names: Segments)
    requires |names| >= 1 && AllNames(names)
    ensures Absolute(cwd, a + "/" + Join(names, "/")) == Anchor(cwd, a) + names
  {
    AbsoluteBelow(cwd, a, Join(names, "/"));
    SplitJoin(names, '/');
    ResolveNames(Anchor(cwd, a), names);
  }

  /** `s` with its trailing `/` characters removed, never the one at index 0. */
  function TrimTrailingSlashes(s: string): (t: string)
    requires |s| >= 1
    ensures 1 <= |t| <= |s| && t == s[..|t|]
    ensures |t| == 1 || t[|t| - 1] != '/'
    ensures forall i :: |t| <= i < |s| ==> s[i] == '/'
    decreases |s|
  {
    if |s| > 1 && s[|s| - 1] == '/' then TrimTrailingSlashes(s[..|s| - 1]) else s
  }

  /** The last index from 1 on that holds `/`, or -1. */
  function LastSlashFrom1(t: string): (k: int)
    ensures k == -1 || (1 <= k < |t| && t[k] == '/')
    ensures forall i :: k < i < |t| && 1 <= i ==> t[i] != '/'
    decreases |t|
  {
    if |t| <= 1 then -1
    else if t[|t| - 1] == '/' then |t| - 1
    else LastSlashFrom1(t[..|t| - 1])
  }

  /** Node's POSIX `path.dirname`. */
  function Dirname(s: string): string {
    if |s| == 0 then "."
    else
      var k := LastSlashFrom1(TrimTrailingSlashes(s));
      if k == -1 then (if s[0] == '/' then "/" else ".")
      else if s[0] == '/' && k == 1 then "//"
      else s[..k]
  }

  /** The directory of a file `a + "/" + f` resolves to the anchor of `a`. */
  lemma DirnameOfFile(cwd: Segments, a: string, f: string)
    requires f != "" && '/' !in f
    ensures Absolute(cwd, Dirname(a + "/" + f)) == Anchor(cwd, a)
  {
    var s := a + "/" + f;
    assert s[|s| - 1] == f[|f| - 1];
    assert TrimTrailingSlashes(s) == s;
    var k := LastSlashFrom1(s);
    assert s[|a|] == '/';
    forall i | |a| < i < |s|
      ensures s[i] != '/'
    {
      assert s[i] == f[i - |a| - 1];
    }
    if |a| == 0 {
      assert k == -1;
      assert Dirname(s) == "/";
      assert "/"[1..] == "";
      assert Split("/", '/') == ["", ""];
      assert Resolve([], [""]) == [];
    } else {
      assert k == |a|;
      if a == "/" {
        assert Dirname(s) == "//";
        assert "//"[1..] == "/" && "/"[1..] == "";
        assert Split("/", '/') == ["", ""];
        assert Split("//", '/') == ["", "", ""];
        assert Resolve([], [""]) == [];
        assert Resolve([], ["", ""]) == [];
      } else {
        assert s[..k] == a;
        if a[0] == '/' {
          assert k != 1;
        }
      }
    }
  }

  /** The longest common prefix of two segment lists. */
  function CommonPrefixLength(a: Segments, b: Segments): (k: nat)
    ensures k <= |a| && k <= |b|
    ensures a[..k] == b[..k]
    ensures k == |a| || k == |b| || a[k] != b[k]
    decreases |a|
  {
    if |a| == 0 || |b| == 0 || a[0] != b[0] then 0
    else
      var k := CommonPrefixLength(a[1..], b[1..]);
      assert a[..k + 1] == [a[0]] + a[1..][..k];
      assert b[..k + 1] == [b[0]] + b[1..][..k];
      k + 1
  }

  /** Two paths that share `p` and then part ways have exactly `p` in common. */
  lemma {:induction false} CommonPrefixOfShared(p: Segments, x: Segments, y: Segments)
    requires |x| == 0 || |y| == 0 || x[0] != y[0]
    ensures CommonPrefixLength(p + x, p + y) == |p|
    decreases |p|
  {
    if |p| == 0 {
      assert p + x == x && p + y == y;
    } else {
      assert (p + x)[0] == p[0] == (p + y)[0];
      assert (p + x)[1..] == p[1..] + x;
      assert (p + y)[1..] == p[1..] + y;
      CommonPrefixOfShared(p[1..], x, y);
    }
  }

  /**
   * `path.relative(from, to)` between resolved paths: one `..` for every
   * segment of `from` beyond the common prefix, then the rest of `to`.
   */
  function Relative(from: Segments, to: Segments): (r: Segments)
    ensures var k := CommonPrefixLength(from, to); |r| == |from| - k + |to| - k
  {
    var k := CommonPrefixLength(from, to);
    Repeat("..", |from| - k) + to[k..]
  }

  /** Resolving the relative path inside `from` leads back to `to`. */
  lemma RelativeRoundTrip(from: Segments, to: Segments)
    requires AllNames(to)
    ensures Resolve(from, Relative(from, to)) == to
  {
    var k := CommonPrefixLength(from, to);
    ResolveUp(from, |from| - k, to[k..]);
    assert from[..|from| - (|from| - k)] == from[..k];
    assert AllNames(to[k..]) by {
      forall i | 0 <= i < |to[k..]|
        ensures IsName(to[k..][i])
      {
        assert to[k..][i] == to[k + i];
      }
    }
    ResolveNames(from[..k], to[k..]);
    assert from[..k] + to[k..] == to[..k] + to[k..] == to;
  }

  /** `s` with every trailing `/` removed (possibly down to the empty string). */
  function TrimAllTrailingSlashes(s: string): (t: string)
    ensures |t| <= |s| && t == s[..|t|]
    ensures |t| == 0 || t[|t| - 1] != '/'
    ensures forall i :: |t| <= i < |s| ==> s[i] == '/'
    decreases |s|
  {
    if |s| > 0 && s[|s| - 1] == '/' then TrimAllTrailingSlashes(s[..|s| - 1]) else s
  }

  /**
   * Node's POSIX `path.basename(s, ext)`: the last component, with `ext`
   * cut off when the component ends with it and is longer. Node also returns
   * `""` when `s` is exactly `ext`, and keeps the trailing slashes when the
   * whole last component is a proper tail of `ext`.
   */
  function Basename(s: string, ext: string): string {
    var t := TrimAllTrailingSlashes(s);
    var start := AfterLast(t, '/');
    var comp := t[start..];
    if |ext| == 0 || |ext| > |s| then comp
    else if ext == s then ""
    else if |comp| > |ext| && EndsWith(comp, ext) then comp[..|comp| - |ext|]
    else if |comp| < |ext| && EndsWith(ext, comp) then s[start..]
    else comp
  }

  lemma NoCharConcat(a: string, b: string, c: char)
    requires c !in a && c !in b
    ensures c !in a + b
  {
  }

  /** The last component of `dir + name`, for a directory part ending in `/`, is `name`. */
  lemma LastComponent(dir: string, name: string)
    requires dir == "" || dir[|dir| - 1] == '/'
    requires name != "" && '/' !in name && name[|name| - 1] != '/'
    ensures TrimAllTrailingSlashes(dir + name) == dir + name
    ensures AfterLast(dir + name, '/') == |dir|
  {
    var s := dir + name;
    assert s[|s| - 1] == name[|name| - 1];
    AfterLastAppend(dir, name, '/');
    if dir != "" {
      assert AfterLast(dir, '/') == |dir|;
    }
  }

  /** A last component that is longer than `ext` and ends with it loses `ext`. */
  lemma BasenameStrips(dir: string, name: string, ext: string)
    requires dir == "" || dir[|dir| - 1] == '/'
    requires '/' !in name && |name| > |ext| > 0 && EndsWith(name, ext)
    ensures Basename(dir + name, ext) == name[..|name| - |ext|]
  {
    LastComponent(dir, name);
    var s := dir + name;
    var comp := TrimAllTrailingSlashes(s)[AfterLast(TrimAllTrailingSlashes(s), '/')..];
    assert comp == name by {
      assert s[|dir|..] == name;
    }
    assert |ext| <= |s| && ext != s;
  }

  /** The base name of `dir + stem + ext` without `ext` is `stem`, for a directory part ending in `/`. */
  lemma BasenameOfFile(dir: string, stem: string, ext: string)
    requires dir == "" || dir[|dir| - 1] == '/'
    requires stem != "" && '/' !in stem && ext != "" && '/' !in ext
    ensures Basename(dir + stem + ext, ext) == stem
  {
    var name := stem + ext;
    calc {
      Basename(dir + stem + ext, ext);
      { assert dir + stem + ext == dir + name; }
      Basename(dir + name, ext);
      { NoCharConcat(stem, ext, '/');
        assert name[|name| - |ext|..] == ext;
        BasenameStrips(dir, name, ext); }
      name[..|name| - |ext|];
    }
  }
}
