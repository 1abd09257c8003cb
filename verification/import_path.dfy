/**
 * The import specifiers the generated files use to reach each other: a path
 * relative to the importing file's directory, without the `.ts` extension,
 * always starting with `./` or `..`, with forward slashes.
 */
module ImportPath {
  import opened Strings
  import opened PosixPath
  import ResolvePaths

  /** The resolved directory of the importing file. */
  function ImporterDir(cwd: Segments, from: string): (d: Segments)
    ensures AllNames(cwd) ==> AllNames(d)
  {
    Absolute(cwd, Dirname(from))
  }

  /** `path.relative(path.dirname(from), to)`. */
  function RawRelative(cwd: Segments, from: string, to: string): string {
    Join(Relative(ImporterDir(cwd, from), Absolute(cwd, to)), "/")
  }

  /** `s.replace(/\.ts$/, "")`. */
  function StripTs(s: string): (r: string)
    ensures EndsWith(s, ".ts") ==> r + ".ts" == s
    ensures !EndsWith(s, ".ts") ==> r == s
  {
    if EndsWith(s, ".ts") then s[..|s| - 3] else s
  }

  /** `s.replace(/\\/g, "/")`. */
  function ToForwardSlashes(s: string): (r: string)
    ensures |r| == |s| && '\\' !in r
    ensures forall i :: 0 <= i < |s| ==> r[i] == (if s[i] == '\\' then '/' else s[i])
  {
    seq(|s|, i requires 0 <= i < |s| => if s[i] == '\\' then '/' else s[i])
  }

  lemma ForwardSlashesIdentity(s: string)
    requires '\\' !in s
    ensures ToForwardSlashes(s) == s
  {
  }

  /** A specifier that leaves the importing directory: `..` alone or `../…`. */
  predicate Ascends(s: string) {
    s == ".." || StartsWith(s, "../")
  }

  /** A relative module specifier, as opposed to a bare package name. */
  predicate IsRelativeSpecifier(s: string) {
    StartsWith(s, "./") || Ascends(s)
  }

  /** The prefix rule as written: anything beginning with the two characters `..` is left alone. */
  function PrefixAsWritten(s: string): string {
    if StartsWith(s, "..") then s else "./" + s
  }

  /** The prefix rule as intended: only a path that climbs is left alone. */
  function Prefix(s: string): (r: string)
    ensures IsRelativeSpecifier(r)
    ensures EndsWith(r, s)
    ensures r == s || r == "./" + s
  {
    if Ascends(s) then s
    else
      assert ("./" + s)[..2] == "./";
      assert ("./" + s)[2..] == s;
      "./" + s
  }

  /** The two rules agree exactly on the paths where `..` at the front means climbing. */
  lemma PrefixAgreement(s: string)
    ensures PrefixAsWritten(s) == Prefix(s) <==> (StartsWith(s, "..") ==> Ascends(s))
  {
    if StartsWith(s, "..") && !Ascends(s) {
      assert |PrefixAsWritten(s)| != |Prefix(s)|;
    }
    if Ascends(s) {
      assert s[..2] == "..";
    }
  }

  /** The result of the as-written rule: it starts with `./` or merely with two dots. */
  predicate DotLed(s: string) {
    StartsWith(s, "./") || StartsWith(s, "..")
  }

  /**
   * `getRelativeImportPath(from, to)` as written: it always opens with `./`
   * or `..`, but `..` alone does not make it a relative specifier.
   */
  function RelativeImportPathAsWritten(cwd: Segments, from: string, to: string): (r: string)
    ensures '\\' !in r && DotLed(r)
    ensures StartsWith(r, "..") <==> StartsWith(StripTs(RawRelative(cwd, from, to)), "..")
  {
    var s := StripTs(RawRelative(cwd, from, to));
    SlashedPrefixAsWritten(s);
    ToForwardSlashes(PrefixAsWritten(s))
  }

  /** The slash rewrite leaves the first two characters of the as-written prefix alone. */
  lemma SlashedPrefixAsWritten(s: string)
    ensures var r := ToForwardSlashes(PrefixAsWritten(s));
      DotLed(r) && (StartsWith(r, "..") <==> StartsWith(s, ".."))
  {
    var p := PrefixAsWritten(s);
    var r := ToForwardSlashes(p);
    if StartsWith(s, "..") {
      assert s[0] == '.' && s[1] == '.';
      assert r[..2] == "..";
    } else {
      assert p[0] == '.' && p[1] == '/';
      assert r[..2] == "./";
      assert r[..2] != "..";
    }
  }

  /** `getRelativeImportPath(from, to)` with the intended prefix rule. */
  function RelativeImportPath(cwd: Segments, from: string, to: string): (r: string)
    ensures IsRelativeSpecifier(r)
    ensures '\\' !in r
  {
    var s := StripTs(RawRelative(cwd, from, to));
    SlashedPrefixRelative(s);
    ToForwardSlashes(Prefix(s))
  }

  /** Turning backslashes into slashes keeps a prefixed path relative. */
  lemma SlashedPrefixRelative(s: string)
    ensures IsRelativeSpecifier(ToForwardSlashes(Prefix(s)))
  {
    var p := Prefix(s);
    var r := ToForwardSlashes(p);
    if !Ascends(s) {
      assert p[0] == '.' && p[1] == '/';
      assert r[..2] == "./";
    } else if s == ".." {
      assert r == "..";
    } else {
      assert s[..3] == "../";
      assert s[0] == '.' && s[1] == '.' && s[2] == '/';
      assert r[..3] == "../";
    }
  }

  /** The as-written path equals the intended one unless the stripped relative path starts with `..` without climbing. */
  lemma AsWrittenAgrees(cwd: Segments, from: string, to: string)
    requires var s := StripTs(RawRelative(cwd, from, to)); StartsWith(s, "..") ==> Ascends(s)
    ensures RelativeImportPathAsWritten(cwd, from, to) == RelativeImportPath(cwd, from, to)
  {
    PrefixAgreement(StripTs(RawRelative(cwd, from, to)));
  }

  /** The extension-less module path a resolver looks up for a `.ts` file. */
  function ModulePath(t: Segments): (m: Segments)
    requires |t| > 0
    ensures |m| == |t| && m[..|t| - 1] == t[..|t| - 1]
  {
    t[..|t| - 1] + [StripTs(t[|t| - 1])]
  }

  predicate IsPrefix(a: Segments, b: Segments) {
    |a| <= |b| && b[..|a|] == a
  }

  predicate NoBackslash(p: Segments) {
    forall i :: 0 <= i < |p| ==> '\\' !in p[i]
  }

  /**
   * What the round trip needs: a target that is a `.ts` file with a proper
   * name once the extension is gone, not an ancestor of (or the same as) the
   * importing directory, and no backslash in the segments the specifier spells.
   */
  predicate ImportableFrom(d: Segments, t: Segments) {
    |t| > 0 && EndsWith(t[|t| - 1], ".ts") && IsName(StripTs(t[|t| - 1]))
    && !IsPrefix(t, d) && NoBackslash(t[CommonPrefixLength(d, t)..])
  }

  /** The relative path with the extension cut from its last segment. */
  function Steps(d: Segments, t: Segments): (s: Segments)
    requires |t| > 0 && CommonPrefixLength(d, t) < |t|
  {
    var k := CommonPrefixLength(d, t);
    Repeat("..", |d| - k) + ModulePath(t)[k..]
  }

  /** A target that is not an ancestor of `d` keeps at least one segment of its own. */
  lemma TargetBeyondShared(d: Segments, t: Segments)
    requires !IsPrefix(t, d)
    ensures CommonPrefixLength(d, t) < |t|
  {
  }

  /** Climbing segments and names hold no separator of either kind. */
  lemma RepeatClean(n: nat)
    ensures NoSlash(Repeat("..", n)) && NoBackslash(Repeat("..", n))
  {
  }

  lemma ConcatClean(a: Segments, b: Segments)
    ensures NoSlash(a) && NoSlash(b) ==> NoSlash(a + b)
    ensures NoBackslash(a) && NoBackslash(b) ==> NoBackslash(a + b)
  {
    forall i | 0 <= i < |a + b|
      ensures (a + b)[i] == (if i < |a| then a[i] else b[i - |a|])
    {
    }
  }

  /** Every segment of a module path is a name. */
  lemma ModulePathNames(t: Segments, k: nat)
    requires AllNames(t) && |t| > 0 && IsName(StripTs(t[|t| - 1])) && k <= |t|
    ensures AllNames(ModulePath(t)[k..]) && NoSlash(ModulePath(t)[k..])
  {
    var m := ModulePath(t);
    assert m[|t| - 1] == StripTs(t[|t| - 1]);
    forall i | 0 <= i < |m[k..]|
      ensures IsName(m[k..][i])
    {
      assert m[k..][i] == m[k + i];
      if k + i < |t| - 1 {
        assert m[k + i] == t[k + i];
      }
    }
  }

  /** Cutting the extension adds no backslash. */
  lemma ModulePathNoBackslash(t: Segments, k: nat)
    requires k < |t| && NoBackslash(t[k..])
    ensures NoBackslash(ModulePath(t)[k..])
  {
    var m := ModulePath(t);
    var last := t[|t| - 1];
    assert t[k..][|t| - 1 - k] == last;
    assert m[|t| - 1] == StripTs(last);
    assert forall c :: c in StripTs(last) ==> c in last;
    forall i | 0 <= i < |m[k..]|
      ensures '\\' !in m[k..][i]
    {
      assert m[k..][i] == m[k + i];
      assert t[k..][i] == t[k + i];
      if k + i < |t| - 1 {
        assert m[k + i] == t[k + i];
      }
    }
  }

  /** The module path agrees with `t` on every segment but the last. */
  lemma ModulePathPrefix(t: Segments, k: nat)
    requires k < |t|
    ensures ModulePath(t)[..k] == t[..k]
  {
    assert ModulePath(t)[..k] == ModulePath(t)[..|t| - 1][..k];
    assert t[..k] == t[..|t| - 1][..k];
  }

  /** The steps hold no separator. */
  lemma StepsNoSlash(d: Segments, t: Segments)
    requires AllNames(t) && |t| > 0 && IsName(StripTs(t[|t| - 1]))
    requires CommonPrefixLength(d, t) < |t|
    ensures NoSlash(Steps(d, t))
  {
    var k := CommonPrefixLength(d, t);
    ModulePathNames(t, k);
    RepeatClean(|d| - k);
    ConcatClean(Repeat("..", |d| - k), ModulePath(t)[k..]);
  }

  lemma StepsAreSegments(d: Segments, t: Segments)
    requires AllNames(t) && ImportableFrom(d, t)
    ensures CommonPrefixLength(d, t) < |t|
    ensures |Steps(d, t)| >= 1 && NoSlash(Steps(d, t)) && NoBackslash(Steps(d, t))
  {
    TargetBeyondShared(d, t);
    var k := CommonPrefixLength(d, t);
    StepsNoSlash(d, t);
    ModulePathNoBackslash(t, k);
    RepeatClean(|d| - k);
    ConcatClean(Repeat("..", |d| - k), ModulePath(t)[k..]);
  }

  /** `Relative(d, t)` ends with the target's own last segment, and cutting `.ts` from it gives the steps. */
  lemma RelativeLast(d: Segments, t: Segments)
    requires |t| > 0 && CommonPrefixLength(d, t) < |t| && EndsWith(t[|t| - 1], ".ts")
    ensures var rel := Relative(d, t); var last := t[|t| - 1];
      |rel| >= 1 && rel[|rel| - 1] == last
      && rel[..|rel| - 1] + [last[..|last| - 3]] == Steps(d, t)
  {
    var k := CommonPrefixLength(d, t);
    var up := Repeat("..", |d| - k);
    var last := t[|t| - 1];
    var mid := t[k..|t| - 1];
    ModulePathTail(t, k);
    SnocParts(up, mid, last);
    Assoc(up, mid, [last[..|last| - 3]]);
  }

  /** The segments of `t` from `k` on, and of its module path, differ only in the last one. */
  lemma ModulePathTail(t: Segments, k: nat)
    requires k < |t| && EndsWith(t[|t| - 1], ".ts")
    ensures var last := t[|t| - 1];
      t[k..] == t[k..|t| - 1] + [last]
      && ModulePath(t)[k..] == t[k..|t| - 1] + [last[..|last| - 3]]
  {
    var last := t[|t| - 1];
    assert StripTs(last) == last[..|last| - 3];
    assert t[k..] == t[k..|t| - 1] + [last];
  }

  lemma SnocParts<T>(a: seq<T>, mid: seq<T>, x: T)
    ensures var s := a + (mid + [x]); |s| >= 1 && s[|s| - 1] == x && s[..|s| - 1] == a + mid
  {
    var s := a + (mid + [x]);
    assert s == (a + mid) + [x];
  }

  /** The stripped raw relative path is the joined steps. */
  lemma StripRelative(d: Segments, t: Segments)
    requires ImportableFrom(d, t)
    ensures CommonPrefixLength(d, t) < |t|
    ensures StripTs(Join(Relative(d, t), "/")) == Join(Steps(d, t), "/")
  {
    TargetBeyondShared(d, t);
    RelativeLast(d, t);
    var rel := Relative(d, t);
    JoinEndsWithLast(rel, "/");
    EndsWithTrans(Join(rel, "/"), rel[|rel| - 1], ".ts");
    JoinTrimLast(rel, "/", 3);
  }

  /** Without backslashes the slash rewrite changes neither prefix rule's result. */
  lemma SlashesHarmless(s: string)
    requires '\\' !in s
    ensures ToForwardSlashes(Prefix(s)) == Prefix(s)
    ensures ToForwardSlashes(PrefixAsWritten(s)) == PrefixAsWritten(s)
  {
    assert '\\' !in "./" + s;
    ForwardSlashesIdentity(Prefix(s));
    ForwardSlashesIdentity(PrefixAsWritten(s));
  }

  /** Under the round-trip conditions the specifier is the intended prefix rule applied to the steps. */
  lemma SpecifierIsSteps(cwd: Segments, from: string, to: string)
    requires AllNames(cwd) && ImportableFrom(ImporterDir(cwd, from), Absolute(cwd, to))
    ensures var d := ImporterDir(cwd, from); var t := Absolute(cwd, to);
      CommonPrefixLength(d, t) < |t|
      && StripTs(RawRelative(cwd, from, to)) == Join(Steps(d, t), "/")
      && RelativeImportPath(cwd, from, to) == Prefix(Join(Steps(d, t), "/"))
  {
    var d := ImporterDir(cwd, from);
    var t := Absolute(cwd, to);
    StepsAreSegments(d, t);
    StripRelative(d, t);
    JoinChars(Steps(d, t), "/", '\\');
    SlashesHarmless(Join(Steps(d, t), "/"));
  }

  /** The same for the prefix rule as written. */
  lemma SpecifierAsWrittenIsSteps(cwd: Segments, from: string, to: string)
    requires AllNames(cwd) && ImportableFrom(ImporterDir(cwd, from), Absolute(cwd, to))
    ensures var d := ImporterDir(cwd, from); var t := Absolute(cwd, to);
      CommonPrefixLength(d, t) < |t|
      && RelativeImportPathAsWritten(cwd, from, to) == PrefixAsWritten(Join(Steps(d, t), "/"))
  {
    var d := ImporterDir(cwd, from);
    var t := Absolute(cwd, to);
    StepsAreSegments(d, t);
    StripRelative(d, t);
    JoinChars(Steps(d, t), "/", '\\');
    SlashesHarmless(Join(Steps(d, t), "/"));
  }

  /** A path that climbs splits into `..` first. */
  lemma AscendsHead(s: string)
    requires Ascends(s)
    ensures Split(s, '/')[0] == ".."
  {
    SplitNoSeparator("..", '/');
    if s != ".." {
      assert s == ".." + ['/'] + s[3..];
      SplitAround("..", '/', s[3..]);
    }
  }

  /** Resolving the steps inside `d` leads to the module path of `t`. */
  lemma StepsResolve(d: Segments, t: Segments)
    requires AllNames(t) && |t| > 0 && IsName(StripTs(t[|t| - 1]))
    requires CommonPrefixLength(d, t) < |t|
    ensures Resolve(d, Steps(d, t)) == ModulePath(t)
  {
    var k := CommonPrefixLength(d, t);
    var m := ModulePath(t);
    var n := |d| - k;
    StepsParts(d, t);
    ModulePathPrefix(t, k);
    ModulePathNames(t, k);
    calc {
      Resolve(d, Steps(d, t));
      Resolve(d, Repeat("..", n) + m[k..]);
      { ResolveUp(d, n, m[k..]); }
      Resolve(d[..k], m[k..]);
      { assert d[..k] == m[..k]; }
      Resolve(m[..k], m[k..]);
      { ResolveNames(m[..k], m[k..]); }
      m[..k] + m[k..];
      { SplitAt(m, k); }
      m;
    }
  }

  lemma SplitAt<T>(s: seq<T>, k: nat)
    requires k <= |s|
    ensures s[..k] + s[k..] == s
  {
  }

  /** Splitting the prefixed join gives the steps back, after a harmless `.` when one was added. */
  lemma SplitPrefixed(steps: Segments)
    requires |steps| >= 1 && NoSlash(steps)
    ensures var s := Join(steps, "/");
      Split(Prefix(s), '/') == (if Ascends(s) then steps else ["."] + steps)
  {
    var s := Join(steps, "/");
    SplitJoin(steps, '/');
    if !Ascends(s) {
      SplitDotSlash(s);
    }
  }

  lemma SplitDotSlash(s: string)
    ensures Split("./" + s, '/') == ["."] + Split(s, '/')
  {
    var x := "./" + s;
    assert x[1..] == "/" + s;
    assert x[1..][1..] == s;
    var rest := Split(x[1..], '/');
    assert rest == [""] + Split(s, '/');
    assert Split(x, '/') == [[x[0]] + rest[0]] + rest[1..];
    assert [x[0]] + rest[0] == ".";
    assert rest[1..] == Split(s, '/');
  }

  /** Resolving the prefixed steps inside `d` leads to the module path of `t`. */
  lemma StepsRoundTrip(d: Segments, t: Segments)
    requires AllNames(t) && ImportableFrom(d, t)
    ensures CommonPrefixLength(d, t) < |t|
    ensures Resolve(d, Split(Prefix(Join(Steps(d, t), "/")), '/')) == ModulePath(t)
  {
    StepsAreSegments(d, t);
    StepsResolve(d, t);
    var steps := Steps(d, t);
    SplitPrefixed(steps);
    assert (["."] + steps)[0] == "." && (["."] + steps)[1..] == steps;
  }

  /** A `d` that is a prefix of `t` is exactly what they share. */
  lemma PrefixIsShared(d: Segments, t: Segments)
    requires IsPrefix(d, t)
    ensures CommonPrefixLength(d, t) == |d|
  {
    assert d + [] == d && d + t[|d|..] == t;
    CommonPrefixOfShared(d, [], t[|d|..]);
  }

  /** Joined segments that open with a name do not climb. */
  lemma NameHeadStays(steps: Segments)
    requires |steps| >= 1 && IsName(steps[0]) && NoSlash(steps)
    ensures !Ascends(Join(steps, "/"))
  {
    var s := Join(steps, "/");
    if Ascends(s) {
      AscendsHead(s);
      SplitJoin(steps, '/');
    }
  }

  /** Joined segments that open with `..` and go on climb. */
  lemma ParentHeadClimbs(steps: Segments)
    requires |steps| >= 2 && steps[0] == ".."
    ensures Ascends(Join(steps, "/"))
  {
    var s := Join(steps, "/");
    assert s == ".." + "/" + Join(steps[1..], "/");
    assert s[..3] == "../";
  }

  /** The joined steps climb exactly when `d` is not a prefix of `t`. */
  lemma StepsBelowIff(d: Segments, t: Segments)
    requires AllNames(t) && |t| > 0 && IsName(StripTs(t[|t| - 1]))
    requires CommonPrefixLength(d, t) < |t|
    ensures Ascends(Join(Steps(d, t), "/")) <==> !IsPrefix(d, t)
  {
    if IsPrefix(d, t) {
      StepsStay(d, t);
    } else {
      StepsClimb(d, t);
    }
  }

  /** Below `d` the steps open with a name. */
  lemma StepsStay(d: Segments, t: Segments)
    requires AllNames(t) && |t| > 0 && IsName(StripTs(t[|t| - 1]))
    requires CommonPrefixLength(d, t) < |t| && IsPrefix(d, t)
    ensures !Ascends(Join(Steps(d, t), "/"))
  {
    var k := CommonPrefixLength(d, t);
    var steps := Steps(d, t);
    PrefixIsShared(d, t);
    StepsNoSlash(d, t);
    ModulePathNames(t, k);
    assert steps[0] == ModulePath(t)[k..][0];
    NameHeadStays(steps);
  }

  /** Outside `d` the steps open with `..`. */
  lemma StepsClimb(d: Segments, t: Segments)
    requires CommonPrefixLength(d, t) < |t| && !IsPrefix(d, t)
    ensures Ascends(Join(Steps(d, t), "/"))
  {
    var k := CommonPrefixLength(d, t);
    var steps := Steps(d, t);
    assert k < |d|;
    assert steps[0] == "..";
    ParentHeadClimbs(steps);
  }

  /**
   * Resolving the specifier against the importing directory (the way a
   * module resolver reads `./` and `..`) gives the target without its
   * `.ts` extension.
   */
  lemma ImportRoundTrip(cwd: Segments, from: string, to: string)
    requires AllNames(cwd) && ImportableFrom(ImporterDir(cwd, from), Absolute(cwd, to))
    ensures Resolve(ImporterDir(cwd, from), Split(RelativeImportPath(cwd, from, to), '/'))
      == ModulePath(Absolute(cwd, to))
  {
    SpecifierIsSteps(cwd, from, to);
    StepsRoundTrip(ImporterDir(cwd, from), Absolute(cwd, to));
  }

  /** The specifier starts with `./` exactly when the target lies inside the importing directory. */
  lemma ImportBelowIff(cwd: Segments, from: string, to: string)
    requires AllNames(cwd) && ImportableFrom(ImporterDir(cwd, from), Absolute(cwd, to))
    ensures StartsWith(RelativeImportPath(cwd, from, to), "./")
      <==> IsPrefix(ImporterDir(cwd, from), Absolute(cwd, to))
  {
    var d := ImporterDir(cwd, from);
    var t := Absolute(cwd, to);
    SpecifierIsSteps(cwd, from, to);
    StepsAreSegments(d, t);
    StepsBelowIff(d, t);
    PrefixDotSlash(Join(Steps(d, t), "/"));
  }

  /** The intended prefix rule adds `./` exactly to the paths that do not climb. */
  lemma PrefixDotSlash(s: string)
    ensures StartsWith(Prefix(s), "./") <==> !Ascends(s)
  {
    if Ascends(s) {
      assert s[..2] == "..";
    } else {
      assert ("./" + s)[..2] == "./";
    }
  }

  /** The segments of the prefixed steps: a `.` exactly when `d` contains `t`, then the steps. */
  lemma StepsSplit(d: Segments, t: Segments)
    requires AllNames(t) && ImportableFrom(d, t)
    ensures CommonPrefixLength(d, t) < |t|
    ensures Split(Prefix(Join(Steps(d, t), "/")), '/') == (if IsPrefix(d, t) then ["."] else []) + Steps(d, t)
  {
    StepsAreSegments(d, t);
    StepsBelowIff(d, t);
    var steps := Steps(d, t);
    SplitPrefixed(steps);
    assert [] + steps == steps;
  }

  /**
   * The segments a specifier from `d` to `t` is meant to hold: `.` alone
   * when nothing is climbed, one `..` for every segment of `d` beyond the
   * part it shares with `t`, then the rest of `t` without `.ts`.
   */
  function ClimbSegments(d: Segments, t: Segments): Segments
    requires ImportableFrom(d, t)
  {
    var k := CommonPrefixLength(d, t);
    (if IsPrefix(d, t) then ["."] else []) + Repeat("..", |d| - k) + ModulePath(t)[k..]
  }

  /** The specifier's segments are the climbs followed by the rest of the target. */
  lemma ImportClimbs(cwd: Segments, from: string, to: string)
    requires AllNames(cwd) && ImportableFrom(ImporterDir(cwd, from), Absolute(cwd, to))
    ensures CommonPrefixLength(ImporterDir(cwd, from), Absolute(cwd, to)) < |Absolute(cwd, to)|
    ensures Split(RelativeImportPath(cwd, from, to), '/') == ClimbSegments(ImporterDir(cwd, from), Absolute(cwd, to))
  {
    var d := ImporterDir(cwd, from);
    var t := Absolute(cwd, to);
    SpecifierIsSteps(cwd, from, to);
    ClimbsThenDescends(d, t, RelativeImportPath(cwd, from, to));
  }

  /** The prefixed steps split into the climb segments. */
  lemma ClimbsThenDescends(d: Segments, t: Segments, spec: string)
    requires AllNames(t) && ImportableFrom(d, t)
    requires CommonPrefixLength(d, t) < |t| && spec == Prefix(Join(Steps(d, t), "/"))
    ensures Split(spec, '/') == ClimbSegments(d, t)
  {
    var k := CommonPrefixLength(d, t);
    StepsSplit(d, t);
    StepsParts(d, t);
    var x := Split(spec, '/');
    if IsPrefix(d, t) {
      Regroup3(x, ["."], Steps(d, t), Repeat("..", |d| - k), ModulePath(t)[k..]);
    } else {
      Regroup3(x, [], Steps(d, t), Repeat("..", |d| - k), ModulePath(t)[k..]);
    }
  }

  lemma StepsParts(d: Segments, t: Segments)
    requires |t| > 0 && CommonPrefixLength(d, t) < |t|
    ensures Steps(d, t) == Repeat("..", |d| - CommonPrefixLength(d, t)) + ModulePath(t)[CommonPrefixLength(d, t)..]
  {
  }

  lemma Regroup3<T>(x: seq<T>, a: seq<T>, s: seq<T>, b: seq<T>, c: seq<T>)
    requires x == a + s && s == b + c
    ensures x == a + b + c
  {
  }

  lemma Assoc<T>(a: seq<T>, b: seq<T>, c: seq<T>)
    ensures a + (b + c) == a + b + c
  {
  }

  /**
   * An edge between `P + X` (the importing directory) and `P + Y` (the
   * target) that part ways right after `P`: one `..` per segment of `X`,
   * then `Y` without the extension.
   */
  lemma EdgeSpecifier(cwd: Segments, from: string, to: string, p: Segments, x: Segments, y: Segments)
    requires AllNames(cwd)
    requires ImporterDir(cwd, from) == p + x && Absolute(cwd, to) == p + y
    requires |y| >= 1 && (|x| == 0 || x[0] != y[0])
    requires AllNames(y) && NoBackslash(y)
    requires EndsWith(y[|y| - 1], ".ts") && IsName(StripTs(y[|y| - 1]))
    ensures var s := Join(Repeat("..", |x|) + ModulePath(y), "/");
      RelativeImportPath(cwd, from, to) == Prefix(s)
      && RelativeImportPathAsWritten(cwd, from, to) == PrefixAsWritten(s)
  {
    EdgeSteps(p, x, y);
    SpecifierIsSteps(cwd, from, to);
    SpecifierAsWrittenIsSteps(cwd, from, to);
  }

  lemma EdgeSteps(p: Segments, x: Segments, y: Segments)
    requires |y| >= 1 && (|x| == 0 || x[0] != y[0])
    requires NoBackslash(y)
    requires EndsWith(y[|y| - 1], ".ts") && IsName(StripTs(y[|y| - 1]))
    ensures ImportableFrom(p + x, p + y)
    ensures CommonPrefixLength(p + x, p + y) == |p|
    ensures Steps(p + x, p + y) == Repeat("..", |x|) + ModulePath(y)
  {
    EdgeImportable(p, x, y);
    EdgeStepsValue(p, x, y);
  }

  /** A target in a sibling subtree is importable. */
  lemma EdgeImportable(p: Segments, x: Segments, y: Segments)
    requires |y| >= 1 && (|x| == 0 || x[0] != y[0])
    requires NoBackslash(y)
    requires EndsWith(y[|y| - 1], ".ts") && IsName(StripTs(y[|y| - 1]))
    ensures ImportableFrom(p + x, p + y)
  {
    var t := p + y;
    CommonPrefixOfShared(p, x, y);
    SharedNotPrefix(p, x, y);
    assert t[|p|..] == y;
    assert t[|t| - 1] == y[|y| - 1];
  }

  /** Between sibling subtrees the steps climb out of `x` and descend `y`. */
  lemma EdgeStepsValue(p: Segments, x: Segments, y: Segments)
    requires |y| >= 1 && (|x| == 0 || x[0] != y[0])
    ensures CommonPrefixLength(p + x, p + y) == |p|
    ensures Steps(p + x, p + y) == Repeat("..", |x|) + ModulePath(y)
  {
    CommonPrefixOfShared(p, x, y);
    ModulePathAppend(p, y);
    assert |p + x| - |p| == |x|;
    assert (p + ModulePath(y))[|p|..] == ModulePath(y);
  }

  lemma ModulePathAppend(p: Segments, y: Segments)
    requires |y| >= 1
    ensures ModulePath(p + y) == p + ModulePath(y)
  {
    assert (p + y)[..|p + y| - 1] == p + y[..|y| - 1];
    assert (p + y)[|p + y| - 1] == y[|y| - 1];
  }

  /** Two paths that part ways after `p` do not contain one another. */
  lemma SharedNotPrefix(p: Segments, x: Segments, y: Segments)
    requires |y| >= 1 && (|x| == 0 || x[0] != y[0])
    ensures !IsPrefix(p + y, p + x)
  {
    assert (p + y)[|p|] == y[0];
  }

  /** The four edges between generated files that need an import. */
  datatype ImportPaths = ImportPaths(
    repositoryToContract: string,
    repositoryToTransport: string,
    serviceToContract: string,
    serviceToRepository: string)

  /** `calculateImportPaths(paths)`, with the intended prefix rule. */
  function CalculateImportPaths(cwd: Segments, p: ResolvePaths.Paths): (r: ImportPaths)
    ensures IsRelativeSpecifier(r.repositoryToContract) && IsRelativeSpecifier(r.repositoryToTransport)
    ensures IsRelativeSpecifier(r.serviceToContract) && IsRelativeSpecifier(r.serviceToRepository)
  {
    ImportPaths(
      RelativeImportPath(cwd, p.repository, p.contract),
      RelativeImportPath(cwd, p.repository, p.transport),
      RelativeImportPath(cwd, p.service, p.contract),
      RelativeImportPath(cwd, p.service, p.repository))
  }

  /** `calculateImportPaths(paths)` as written. */
  function CalculateImportPathsAsWritten(cwd: Segments, p: ResolvePaths.Paths): (r: ImportPaths)
    ensures DotLed(r.repositoryToContract) && DotLed(r.repositoryToTransport)
    ensures DotLed(r.serviceToContract) && DotLed(r.serviceToRepository)
    ensures '\\' !in r.repositoryToContract && '\\' !in r.repositoryToTransport
    ensures '\\' !in r.serviceToContract && '\\' !in r.serviceToRepository
  {
    ImportPaths(
      RelativeImportPathAsWritten(cwd, p.repository, p.contract),
      RelativeImportPathAsWritten(cwd, p.repository, p.transport),
      RelativeImportPathAsWritten(cwd, p.service, p.contract),
      RelativeImportPathAsWritten(cwd, p.service, p.repository))
  }

  /** Every edge leads from its importing file to the file it names. */
  lemma ImportPathsResolve(cwd: Segments, p: ResolvePaths.Paths)
    requires AllNames(cwd)
    requires ImportableFrom(ImporterDir(cwd, p.repository), Absolute(cwd, p.contract))
    requires ImportableFrom(ImporterDir(cwd, p.repository), Absolute(cwd, p.transport))
    requires ImportableFrom(ImporterDir(cwd, p.service), Absolute(cwd, p.contract))
    requires ImportableFrom(ImporterDir(cwd, p.service), Absolute(cwd, p.repository))
    ensures var r := CalculateImportPaths(cwd, p);
      Resolve(ImporterDir(cwd, p.repository), Split(r.repositoryToContract, '/')) == ModulePath(Absolute(cwd, p.contract))
      && Resolve(ImporterDir(cwd, p.repository), Split(r.repositoryToTransport, '/')) == ModulePath(Absolute(cwd, p.transport))
      && Resolve(ImporterDir(cwd, p.service), Split(r.serviceToContract, '/')) == ModulePath(Absolute(cwd, p.contract))
      && Resolve(ImporterDir(cwd, p.service), Split(r.serviceToRepository, '/')) == ModulePath(Absolute(cwd, p.repository))
  {
    ImportRoundTrip(cwd, p.repository, p.contract);
    ImportRoundTrip(cwd, p.repository, p.transport);
    ImportRoundTrip(cwd, p.service, p.contract);
    ImportRoundTrip(cwd, p.service, p.repository);
  }

  /** No edge depends on where the view model goes. */
  lemma ImportPathsIgnoreViewModel(cwd: Segments, p: ResolvePaths.Paths, viewModel: string)
    ensures CalculateImportPaths(cwd, p.(viewModel := viewModel)) == CalculateImportPaths(cwd, p)
    ensures CalculateImportPathsAsWritten(cwd, p.(viewModel := viewModel)) == CalculateImportPathsAsWritten(cwd, p)
  {
  }
}
