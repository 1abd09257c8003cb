/**
 * The pure part of the descriptor search: a depth-limited walk over a
 * directory tree that collects files whose name matches a pattern, the
 * service-descriptor filter on top of it, and the list of directories
 * offered for selection.
 *
 * The file system is an inductive tree: a directory's listing is absent
 * when reading it fails. Paths in results are relative to the root, written
 * as the directory names and the file name joined by `/`.
 */
module FileFinder {
  import opened Wrappers
  import opened Strings
  import opened Ordering

  /**
   * A directory entry: a regular file, a directory (whose `children` are
   * meaningful only when it can be read), or anything else.
   */
  datatype Entry =
    | File(name: string)
    | Dir(name: string, readable: bool, children: seq<Entry>)
    | Other(name: string)

  /** The options of `findFiles`; `pattern` stands for the regular expression's `test`. */
  datatype FindOptions = FindOptions(pattern: string -> bool, maxDepth: int, excludeDirs: seq<string>)

  /** The directories skipped by default. */
  const DefaultExcludes: seq<string> := ["node_modules", "dist", ".git", "build"]

  /** The options with the default depth limit and exclusions. */
  function Defaults(pattern: string -> bool): FindOptions {
    FindOptions(pattern, 10, DefaultExcludes)
  }

  /** A file found by the walk: the directories below the root leading to it, and its name. */
  datatype Hit = Hit(dirs: seq<string>, name: string)

  /** `path.relative(rootDir, fullPath)` for a file found below the root. */
  function PathOf(h: Hit): string {
    Join(h.dirs + [h.name], "/")
  }

  /** Hits of a subdirectory, seen from its parent. */
  function Under(dir: string, hits: seq<Hit>): (r: seq<Hit>)
    ensures |r| == |hits|
    ensures forall i :: 0 <= i < |hits| ==> r[i] == Hit([dir] + hits[i].dirs, hits[i].name)
  {
    seq(|hits|, i requires 0 <= i < |hits| => Hit([dir] + hits[i].dirs, hits[i].name))
  }

  /**
   * The loop of `search` over the entries of a directory at `depth`, which
   * has already passed the depth check: the hits of every entry, in entry order.
   */
  function Search(entries: seq<Entry>, depth: int, opts: FindOptions): seq<Hit>
    decreases entries
  {
    if |entries| == 0 then [] else Visit(entries[0], depth, opts) + Search(entries[1..], depth, opts)
  }

  /**
   * One entry of a directory at `depth`: a matching file is collected, and a
   * non-excluded directory is searched at `depth + 1` when that passes the
   * depth check and the directory can be read.
   */
  function Visit(e: Entry, depth: int, opts: FindOptions): seq<Hit>
    decreases e
  {
    match e
    case File(n) => if opts.pattern(n) then [Hit([], n)] else []
    case Other(_) => []
    case Dir(n, readable, children) =>
      if n in opts.excludeDirs || depth + 1 > opts.maxDepth || !readable then []
      else Under(n, Search(children, depth + 1, opts))
  }

  /** `search(rootDir, 0)`: nothing when the limit is negative or the root cannot be read. */
  function Walk(root: Option<seq<Entry>>, opts: FindOptions): seq<Hit> {
    if 0 > opts.maxDepth || root.None? then [] else Search(root.value, 0, opts)
  }

  /** The paths of the hits, in walk order. */
  function Paths(hits: seq<Hit>): (r: seq<string>)
    ensures |r| == |hits| && forall i :: 0 <= i < |hits| ==> r[i] == PathOf(hits[i])
  {
    seq(|hits|, i requires 0 <= i < |hits| => PathOf(hits[i]))
  }

  /**
   * `findFiles`: the relative paths of the matching files, sorted, each
   * found file listed once per way the walk reaches it.
   */
  function FindFiles(root: Option<seq<Entry>>, opts: FindOptions): (r: seq<string>)
    ensures Sorted(r)
    ensures multiset(r) == multiset(Paths(Walk(root, opts)))
  {
    SortStrings(Paths(Walk(root, opts)))
  }

  // ---------------------------------------------------------------------------
  // The walk against an independent description of the tree
  // ---------------------------------------------------------------------------

  /** A regular file `name` lies at `dirs` below a directory with these entries. */
  predicate Located(entries: seq<Entry>, dirs: seq<string>, name: string)
    decreases entries
  {
    exists i :: 0 <= i < |entries| && LocatedIn(entries[i], dirs, name)
  }

  /** ... reached through the entry `e`. */
  predicate LocatedIn(e: Entry, dirs: seq<string>, name: string)
    decreases e
  {
    if |dirs| == 0 then e == File(name)
    else e.Dir? && e.name == dirs[0] && e.readable && Located(e.children, dirs[1..], name)
  }

  /** The walk keeps a file found `|h.dirs|` levels below a directory at `depth`. */
  predicate Admitted(h: Hit, depth: int, opts: FindOptions) {
    opts.pattern(h.name)
    && (forall k :: 0 <= k < |h.dirs| ==> h.dirs[k] !in opts.excludeDirs)
    && depth + |h.dirs| <= opts.maxDepth
  }

  /** Every hit of the search is a file of the tree that the pattern, exclusions and depth limit admit. */
  lemma {:induction false} SearchSound(entries: seq<Entry>, depth: int, opts: FindOptions, h: Hit)
    requires depth <= opts.maxDepth
    requires h in Search(entries, depth, opts)
    ensures Located(entries, h.dirs, h.name) && Admitted(h, depth, opts)
    decreases entries, 1
  {
    if h in Visit(entries[0], depth, opts) {
      VisitSound(entries[0], depth, opts, h);
      assert LocatedIn(entries[0], h.dirs, h.name);
    } else {
      SearchSound(entries[1..], depth, opts, h);
      var i :| 0 <= i < |entries[1..]| && LocatedIn(entries[1..][i], h.dirs, h.name);
      assert entries[1..][i] == entries[i + 1];
    }
  }

  /** Every hit of one entry is that entry's file, or a file below that directory, and is admitted. */
  lemma {:induction false} VisitSound(e: Entry, depth: int, opts: FindOptions, h: Hit)
    requires depth <= opts.maxDepth
    requires h in Visit(e, depth, opts)
    ensures LocatedIn(e, h.dirs, h.name) && Admitted(h, depth, opts)
    decreases e, 0
  {
    if e.Dir? {
      var sub := Search(e.children, depth + 1, opts);
      var k :| 0 <= k < |sub| && h == Hit([e.name] + sub[k].dirs, sub[k].name);
      SearchSound(e.children, depth + 1, opts, sub[k]);
      assert h.dirs[1..] == sub[k].dirs;
      assert forall j :: 1 <= j < |h.dirs| ==> h.dirs[j] == sub[k].dirs[j - 1];
    }
  }

  /** Every admitted file of the tree is a hit of the search. */
  lemma {:induction false} SearchComplete(entries: seq<Entry>, depth: int, opts: FindOptions, h: Hit)
    requires Located(entries, h.dirs, h.name) && Admitted(h, depth, opts)
    ensures h in Search(entries, depth, opts)
    decreases entries, 1
  {
    var i :| 0 <= i < |entries| && LocatedIn(entries[i], h.dirs, h.name);
    if i == 0 {
      VisitComplete(entries[0], depth, opts, h);
    } else {
      assert entries[1..][i - 1] == entries[i];
      SearchComplete(entries[1..], depth, opts, h);
    }
  }

  /** Every admitted file at or below one entry is a hit of that entry. */
  lemma {:induction false} VisitComplete(e: Entry, depth: int, opts: FindOptions, h: Hit)
    requires LocatedIn(e, h.dirs, h.name) && Admitted(h, depth, opts)
    ensures h in Visit(e, depth, opts)
    decreases e, 0
  {
    if |h.dirs| > 0 {
      var tail := Hit(h.dirs[1..], h.name);
      assert h.dirs[0] !in opts.excludeDirs;
      assert forall j :: 0 <= j < |tail.dirs| ==> tail.dirs[j] == h.dirs[j + 1];
      SearchComplete(e.children, depth + 1, opts, tail);
      var sub := Search(e.children, depth + 1, opts);
      var k :| 0 <= k < |sub| && sub[k] == tail;
      assert [h.dirs[0]] + h.dirs[1..] == h.dirs;
      assert Under(e.name, sub)[k] == h;
    }
  }

  /** `findFiles` returns exactly the admitted files of a readable root, as relative paths. */
  lemma FindFilesExactly(root: seq<Entry>, opts: FindOptions, p: string)
    ensures p in FindFiles(Some(root), opts) <==>
      exists h :: p == PathOf(h) && Located(root, h.dirs, h.name) && Admitted(h, 0, opts)
  {
    if opts.maxDepth < 0 {
      NegativeDepthFindsNothing(root, opts);
    } else if p in FindFiles(Some(root), opts) {
      FoundFileSound(root, opts, p);
    }
    if exists h :: p == PathOf(h) && Located(root, h.dirs, h.name) && Admitted(h, 0, opts) {
      var h :| p == PathOf(h) && Located(root, h.dirs, h.name) && Admitted(h, 0, opts);
      FoundFileComplete(root, opts, h);
    }
  }

  /** Below depth 0 the walk never starts, and no file is admitted either. */
  lemma NegativeDepthFindsNothing(root: seq<Entry>, opts: FindOptions)
    requires opts.maxDepth < 0
    ensures FindFiles(Some(root), opts) == []
    ensures forall h :: !Admitted(h, 0, opts)
  {
    assert multiset(FindFiles(Some(root), opts)) == multiset([]);
  }

  /** Every path `findFiles` returns names an admitted file of the tree. */
  lemma FoundFileSound(root: seq<Entry>, opts: FindOptions, p: string)
    requires 0 <= opts.maxDepth && p in FindFiles(Some(root), opts)
    ensures exists h :: p == PathOf(h) && Located(root, h.dirs, h.name) && Admitted(h, 0, opts)
  {
    var hits := Search(root, 0, opts);
    var paths := Paths(hits);
    assert p in multiset(paths);
    var i :| 0 <= i < |paths| && paths[i] == p;
    SearchSound(root, 0, opts, hits[i]);
  }

  /** Every admitted file of the tree is among the paths `findFiles` returns. */
  lemma FoundFileComplete(root: seq<Entry>, opts: FindOptions, h: Hit)
    requires Located(root, h.dirs, h.name) && Admitted(h, 0, opts)
    ensures PathOf(h) in FindFiles(Some(root), opts)
  {
    var hits := Search(root, 0, opts);
    var paths := Paths(hits);
    SearchComplete(root, 0, opts, h);
    var i :| 0 <= i < |hits| && hits[i] == h;
    assert paths[i] == PathOf(h);
    assert PathOf(h) in multiset(FindFiles(Some(root), opts));
  }

  /** An unreadable root yields no files and no failure. */
  lemma UnreadableRoot(opts: FindOptions)
    ensures FindFiles(None, opts) == []
  {
  }

  /** An unreadable subdirectory contributes nothing: the walk is as if it were empty. */
  lemma UnreadableDirectory(name: string, children: seq<Entry>, entries: seq<Entry>, depth: int, opts: FindOptions)
    ensures Search([Dir(name, false, children)] + entries, depth, opts) == Search([Dir(name, true, [])] + entries, depth, opts)
  {
    var a := [Dir(name, false, children)] + entries;
    var b := [Dir(name, true, [])] + entries;
    assert a[1..] == entries && b[1..] == entries;
    assert Visit(b[0], depth, opts) == [];
  }

  // ---------------------------------------------------------------------------
  // Service descriptors
  // ---------------------------------------------------------------------------

  /** `/-service\.ts$/.test(name)`. */
  predicate IsServiceFileName(name: string) {
    EndsWith(name, "-service.ts")
  }

  /** The path looks like a generated service stub and is not the loader itself. */
  predicate IsDescriptorPath(path: string) {
    var lower := LowerString(path);
    !Contains(lower, "load-service")
    && (Contains(lower, "stub") || Contains(lower, "proto") || Contains(lower, "grpc"))
  }

  /** `r` is `s` with some elements left out, the rest in their original order. */
  predicate IsSubsequence(r: seq<string>, s: seq<string>)
    decreases |s|
  {
    |r| == 0 || (|s| > 0 && (if r[0] == s[0] then IsSubsequence(r[1..], s[1..]) else IsSubsequence(r, s[1..])))
  }

  /** `Array.prototype.filter` with the descriptor-path test. */
  function FilterDescriptors(s: seq<string>): (r: seq<string>)
    ensures forall p :: p in r <==> p in s && IsDescriptorPath(p)
    ensures IsSubsequence(r, s)
    decreases |s|
  {
    if |s| == 0 then []
    else
      var rest := FilterDescriptors(s[1..]);
      assert forall p :: p in s <==> p == s[0] || p in s[1..];
      if IsDescriptorPath(s[0]) then [s[0]] + rest else rest
  }

  /** Like `filter`, the descriptor filter keeps every copy of a passing path and none of a failing one. */
  lemma {:induction false} FilterKeepsEveryCopy(s: seq<string>)
    ensures forall p :: multiset(FilterDescriptors(s))[p] == if IsDescriptorPath(p) then multiset(s)[p] else 0
    decreases |s|
  {
    if |s| > 0 {
      FilterKeepsEveryCopy(s[1..]);
      var rest := FilterDescriptors(s[1..]);
      assert s == [s[0]] + s[1..];
      assert multiset(s) == multiset([s[0]]) + multiset(s[1..]);
      if IsDescriptorPath(s[0]) {
        assert FilterDescriptors(s) == [s[0]] + rest;
        assert multiset([s[0]] + rest) == multiset([s[0]]) + multiset(rest);
      } else {
        assert FilterDescriptors(s) == rest;
      }
    }
  }

  /** The options `findServiceDescriptors` passes to `findFiles`. */
  function ServiceOptions(): FindOptions {
    FindOptions(name => IsServiceFileName(name), 8, DefaultExcludes)
  }

  /**
   * `findServiceDescriptors`: the `findFiles` paths of `-service.ts` files
   * (depth at most 8) that mention a stub, proto or gRPC directory and are
   * not the loader, in the sorted order `findFiles` gives them.
   */
  function FindServiceDescriptors(root: Option<seq<Entry>>): (r: seq<string>)
    ensures IsSubsequence(r, FindFiles(root, ServiceOptions()))
    ensures forall p :: p in r <==> p in FindFiles(root, ServiceOptions()) && IsDescriptorPath(p)
  {
    FilterDescriptors(FindFiles(root, ServiceOptions()))
  }

  /** Every copy of a passing path that `findFiles` returns is a service descriptor, and nothing else is. */
  lemma ServiceDescriptorCopies(root: Option<seq<Entry>>)
    ensures var found := FindFiles(root, ServiceOptions());
      forall p :: multiset(FindServiceDescriptors(root))[p] == if IsDescriptorPath(p) then multiset(found)[p] else 0
  {
    FilterKeepsEveryCopy(FindFiles(root, ServiceOptions()));
  }

  /** A subsequence of a sorted list is sorted. */
  lemma {:induction false} SubsequenceSorted(r: seq<string>, s: seq<string>)
    requires IsSubsequence(r, s) && Sorted(s)
    ensures Sorted(r)
    ensures forall x :: x in r ==> x in s
    decreases |s|
  {
    if |r| > 0 {
      if r[0] == s[0] {
        SubsequenceSorted(r[1..], s[1..]);
        forall j | 0 < j < |r|
          ensures Le(r[0], r[j])
        {
          assert r[1..][j - 1] == r[j];
          assert r[j] in r[1..];
          var k :| 0 <= k < |s[1..]| && s[1..][k] == r[j];
          assert s[k + 1] == r[j];
        }
        forall i, j | 0 <= i < j < |r|
          ensures Le(r[i], r[j])
        {
          if i > 0 {
            assert r[1..][i - 1] == r[i] && r[1..][j - 1] == r[j];
          }
        }
        assert forall x :: x in r ==> x == r[0] || x in r[1..];
      } else {
        SubsequenceSorted(r, s[1..]);
      }
    }
  }

  /** Every path `findFiles` returns ends with the name of a file the pattern accepts. */
  lemma FoundFileMatches(root: Option<seq<Entry>>, opts: FindOptions, p: string)
    requires p in FindFiles(root, opts)
    ensures exists name :: opts.pattern(name) && EndsWith(p, name)
  {
    var hits := Walk(root, opts);
    var paths := Paths(hits);
    assert p in multiset(FindFiles(root, opts));
    assert p in multiset(paths);
    var i :| 0 <= i < |paths| && paths[i] == p;
    var h := hits[i];
    SearchSound(root.value, 0, opts, h);
    var parts := h.dirs + [h.name];
    JoinEndsWithLast(parts, "/");
    assert parts[|parts| - 1] == h.name;
  }

  /** Every service descriptor path is sorted, names a `-service.ts` file, and passes the path filter. */
  lemma ServiceDescriptorsShape(root: Option<seq<Entry>>)
    ensures Sorted(FindServiceDescriptors(root))
    ensures forall p :: p in FindServiceDescriptors(root) ==>
      && EndsWith(p, "-service.ts")
      && !Contains(LowerString(p), "load-service")
      && (Contains(LowerString(p), "stub") || Contains(LowerString(p), "proto") || Contains(LowerString(p), "grpc"))
  {
    var opts := ServiceOptions();
    SubsequenceSorted(FindServiceDescriptors(root), FindFiles(root, opts));
    forall p | p in FindServiceDescriptors(root)
      ensures EndsWith(p, "-service.ts")
    {
      FoundFileMatches(root, opts, p);
      var name :| opts.pattern(name) && EndsWith(p, name);
      EndsWithTrans(p, name, "-service.ts");
    }
  }

  // ---------------------------------------------------------------------------
  // Directories offered for selection
  // ---------------------------------------------------------------------------

  /** The directories always offered. */
  const Seeds: seq<string> := ["./", "./src", "./app", "./lib"]

  /** A top-level directory worth offering: not hidden and not a build or dependency directory. */
  predicate Offered(e: Entry) {
    e.Dir? && !StartsWith(e.name, ".") && e.name !in ["node_modules", "dist", "build"]
  }

  /** `./<name>` for every offered entry, in listing order. */
  function OfferedDirs(entries: seq<Entry>): (r: seq<string>)
    ensures forall p :: p in r <==> exists i :: 0 <= i < |entries| && Offered(entries[i]) && p == "./" + entries[i].name
    decreases |entries|
  {
    if |entries| == 0 then []
    else
      var rest := OfferedDirs(entries[1..]);
      assert forall i :: 1 <= i < |entries| ==> entries[1..][i - 1] == entries[i];
      (if Offered(entries[0]) then ["./" + entries[0].name] else []) + rest
  }

  /** Every element occurs at most once. */
  predicate NoDuplicates(s: seq<string>) {
    forall x :: x in s ==> multiset(s)[x] == 1
  }

  /** `[...new Set(s)]`: first occurrences, in order. */
  function Dedup(s: seq<string>): (r: seq<string>)
    ensures NoDuplicates(r)
    ensures forall x :: x in r <==> x in s
    decreases |s|
  {
    if |s| == 0 then []
    else
      var init := s[..|s| - 1];
      var last := s[|s| - 1];
      var d := Dedup(init);
      assert s == init + [last];
      if last in d then d
      else
        assert multiset(d + [last]) == multiset(d) + multiset{last};
        d + [last]
  }

  /**
   * `getDirectories`: the seeds and the offered top-level directories of a
   * readable root, once each, sorted. An unreadable root gives just the seeds.
   */
  function GetDirectories(root: Option<seq<Entry>>): (r: seq<string>)
    ensures Sorted(r) && NoDuplicates(r)
    ensures forall p :: p in Seeds ==> p in r
    ensures forall p :: p in r <==>
              p in Seeds
              || (root.Some? && exists i :: 0 <= i < |root.value| && Offered(root.value[i]) && p == "./" + root.value[i].name)
  {
    var dirs := Seeds + (if root.Some? then OfferedDirs(root.value) else []);
    var r := SortStrings(Dedup(dirs));
    SameElements(Dedup(dirs), r);
    r
  }

  /** Two lists with the same multiset have the same elements, and duplicates in neither or both. */
  lemma SameElements(a: seq<string>, b: seq<string>)
    requires multiset(a) == multiset(b)
    ensures forall x :: x in a <==> x in b
    ensures NoDuplicates(a) ==> NoDuplicates(b)
  {
    forall x
      ensures x in a <==> x in b
    {
      assert x in a <==> x in multiset(a);
      assert x in b <==> x in multiset(b);
    }
  }
}
