/**
 * The import specifiers between the default file locations of each
 * directory layout: what the generated repository and service files write
 * in their `import` statements.
 */
module LayoutImports {
  import opened Strings
  import opened PosixPath
  import opened ImportPath
  import opened ResolvePaths
  import opened Wrappers

  lemma JoinCons(x: string, rest: seq<string>, sep: string)
    requires |rest| >= 1
    ensures Join([x] + rest, sep) == x + sep + Join(rest, sep)
  {
    assert ([x] + rest)[1..] == rest;
  }

  lemma {:induction false} JoinSnoc(parts: seq<string>, x: string, sep: string)
    requires |parts| >= 1
    ensures Join(parts + [x], sep) == Join(parts, sep) + sep + x
    decreases |parts|
  {
    if |parts| == 1 {
      assert parts + [x] == [parts[0]] + [x];
      JoinCons(parts[0], [x], sep);
    } else {
      JoinSnoc(parts[1..], x, sep);
      assert (parts + [x])[1..] == parts[1..] + [x];
    }
  }

  lemma NamesSnoc(dirs: Segments, f: string)
    requires AllNames(dirs) && IsName(f)
    ensures AllNames(dirs + [f])
  {
    forall i | 0 <= i < |dirs + [f]|
      ensures IsName((dirs + [f])[i])
    {
      if i < |dirs| {
        assert (dirs + [f])[i] == dirs[i];
      }
    }
  }

  lemma Regroup(x: Segments, common: Segments, dirs: Segments, f: string)
    ensures x + (common + dirs + [f]) == (x + common) + (dirs + [f])
    ensures x + (common + dirs) == (x + common) + dirs
  {
  }

  /** Where a file `a/c1/…/d1/…/f` resolves to. */
  lemma FileAt(cwd: Segments, a: string, common: Segments, dirs: Segments, f: string)
    requires |common + dirs| >= 1 && AllNames(common + dirs) && IsName(f)
    ensures Absolute(cwd, a + "/" + Join(common + dirs + [f], "/")) == (Anchor(cwd, a) + common) + (dirs + [f])
  {
    NamesSnoc(common + dirs, f);
    AbsoluteJoin(cwd, a, common + dirs + [f]);
    Regroup(Anchor(cwd, a), common, dirs, f);
  }

  /** The directory a file `a/c1/…/d1/…/f` imports from. */
  lemma FileDir(cwd: Segments, a: string, common: Segments, dirs: Segments, f: string)
    requires |common + dirs| >= 1 && AllNames(common + dirs) && IsName(f)
    ensures ImporterDir(cwd, a + "/" + Join(common + dirs + [f], "/")) == (Anchor(cwd, a) + common) + dirs
  {
    var a2 := a + "/" + Join(common + dirs, "/");
    calc {
      ImporterDir(cwd, a + "/" + Join(common + dirs + [f], "/"));
      { PathSnoc(a, common + dirs, f); }
      ImporterDir(cwd, a2 + "/" + f);
      { DirnameOfFile(cwd, a2, f); }
      Anchor(cwd, a2);
      { AbsoluteJoin(cwd, a, common + dirs); }
      Anchor(cwd, a) + (common + dirs);
      { Regroup(Anchor(cwd, a), common, dirs, f); }
      (Anchor(cwd, a) + common) + dirs;
    }
  }

  /** The path `a/n1/…/nk/f` is the path `a/n1/…/nk` followed by `/f`. */
  lemma PathSnoc(a: string, names: Segments, f: string)
    requires |names| >= 1
    ensures a + "/" + Join(names + [f], "/") == (a + "/" + Join(names, "/")) + "/" + f
  {
    var j := Join(names, "/");
    calc {
      a + "/" + Join(names + [f], "/");
      { JoinSnoc(names, f, "/"); }
      a + "/" + (j + "/" + f);
      { Assoc(a + "/", j + "/", f); }
      a + "/" + (j + "/") + f;
      { Assoc(a + "/", j, "/"); }
      a + "/" + j + "/" + f;
    }
  }

  /**
   * The specifier between two files of one layout under `a`: from
   * `a/common/from…/fromFile` to `a/common/to…/toFile`, once the two
   * directory chains part ways.
   */
  lemma LayoutEdge(cwd: Segments, a: string, common: Segments, fromDirs: Segments, fromFile: string,
                   toDirs: Segments, toFile: string, from: string, to: string)
    requires AllNames(cwd) && AllNames(common + fromDirs) && AllNames(common + toDirs)
    requires |common + fromDirs| >= 1 && |common + toDirs| >= 1
    requires IsName(fromFile) && IsName(toFile) && IsName(StripTs(toFile)) && EndsWith(toFile, ".ts")
    requires NoBackslash(toDirs) && '\\' !in toFile
    requires |fromDirs| == 0 || |toDirs| == 0 || fromDirs[0] != toDirs[0]
    requires |fromDirs| == 0 || |toDirs| > 0
    requires from == a + "/" + Join(common + fromDirs + [fromFile], "/")
    requires to == a + "/" + Join(common + toDirs + [toFile], "/")
    ensures var s := Join(Repeat("..", |fromDirs|) + toDirs + [StripTs(toFile)], "/");
      RelativeImportPath(cwd, from, to) == Prefix(s)
      && RelativeImportPathAsWritten(cwd, from, to) == PrefixAsWritten(s)
  {
    FileDir(cwd, a, common, fromDirs, fromFile);
    FileAt(cwd, a, common, toDirs, toFile);
    EdgeByDirs(cwd, from, to, Anchor(cwd, a) + common, fromDirs, common, toDirs, toFile);
  }

  /** The edge once both ends are resolved to `p + fromDirs` and `p + toDirs + [toFile]`. */
  lemma EdgeByDirs(cwd: Segments, from: string, to: string, p: Segments, fromDirs: Segments,
                   common: Segments, toDirs: Segments, toFile: string)
    requires AllNames(cwd) && AllNames(common + toDirs)
    requires ImporterDir(cwd, from) == p + fromDirs && Absolute(cwd, to) == p + (toDirs + [toFile])
    requires IsName(toFile) && IsName(StripTs(toFile)) && EndsWith(toFile, ".ts")
    requires NoBackslash(toDirs) && '\\' !in toFile
    requires |fromDirs| == 0 || |toDirs| == 0 || fromDirs[0] != toDirs[0]
    requires |fromDirs| == 0 || |toDirs| > 0
    ensures var s := Join(Repeat("..", |fromDirs|) + toDirs + [StripTs(toFile)], "/");
      RelativeImportPath(cwd, from, to) == Prefix(s)
      && RelativeImportPathAsWritten(cwd, from, to) == PrefixAsWritten(s)
  {
    var y := toDirs + [toFile];
    FileTail(common, toDirs, toFile);
    EdgeSpecifier(cwd, from, to, p, fromDirs, y);
    Assoc(Repeat("..", |fromDirs|), toDirs, [StripTs(toFile)]);
  }

  /** The directories below the shared part, then the file: names without backslashes. */
  lemma FileTail(common: Segments, toDirs: Segments, toFile: string)
    requires AllNames(common + toDirs) && NoBackslash(toDirs)
    requires IsName(toFile) && '\\' !in toFile
    ensures var y := toDirs + [toFile];
      |y| >= 1 && AllNames(y) && NoBackslash(y) && y[|y| - 1] == toFile
      && ModulePath(y) == toDirs + [StripTs(toFile)]
  {
    var y := toDirs + [toFile];
    forall i | 0 <= i < |y|
      ensures IsName(y[i]) && '\\' !in y[i]
    {
      if i < |toDirs| {
        assert y[i] == (common + toDirs)[|common| + i] == toDirs[i];
      }
    }
    assert y[..|y| - 1] == toDirs;
  }

  /** A generated file name `m + kind + ".ts"`. */
  lemma TsFile(m: string, kind: string)
    requires IsName(m) && '\\' !in m
    requires IsKind(kind)
    ensures var f := m + kind + ".ts";
      IsName(f) && '\\' !in f && EndsWith(f, ".ts")
      && StripTs(f) == m + kind && IsName(m + kind)
  {
    var f := m + kind + ".ts";
    NoCharConcat(m, kind, '/');
    NoCharConcat(m + kind, ".ts", '/');
    NoCharConcat(m, kind, '\\');
    NoCharConcat(m + kind, ".ts", '\\');
    assert f[|f| - 3..] == ".ts";
    assert f[..|f| - 3] == m + kind;
    assert |m + kind| >= 3;
  }

  lemma Join2(x: string, y: string)
    ensures Join([x, y], "/") == x + "/" + y
  {
    JoinCons(x, [y], "/");
    assert [x] + [y] == [x, y];
  }

  lemma Join3(x: string, y: string, z: string)
    ensures Join([x, y, z], "/") == x + "/" + y + "/" + z
  {
    Join2(y, z);
    JoinCons(x, [y, z], "/");
    assert [x] + [y, z] == [x, y, z];
  }

  lemma Join5(v: string, w: string, x: string, y: string, z: string)
    ensures Join([v, w, x, y, z], "/") == v + "/" + w + "/" + x + "/" + y + "/" + z
  {
    Join3(x, y, z);
    JoinCons(w, [x, y, z], "/");
    JoinCons(v, [w, x, y, z], "/");
    assert [w] + [x, y, z] == [w, x, y, z];
    assert [v] + [w, x, y, z] == [v, w, x, y, z];
  }

  /** The clean layout's contract file, as segments below the output directory. */
  lemma CleanContractShape(b: string, m: string)
    ensures DefaultPaths(b, m, Clean).contract == b + "/" + Join([] + ["domain", m] + [m + ".contract" + ".ts"], "/")
  {
    var f := m + ".contract" + ".ts";
    KindSuffixes(m);
    assert [] + ["domain", m] + [f] == ["domain", m, f];
    Join3("domain", m, f);
    assert b + "/domain/" + m + "/" + f == b + "/" + ("domain" + "/" + m + "/" + f);
  }

  lemma CleanTransportShape(b: string, m: string)
    ensures DefaultPaths(b, m, Clean).transport
      == b + "/" + Join([] + ["transport", "gateway", "gRPC", "requests"] + [m + ".requests" + ".ts"], "/")
  {
    var dirs := ["transport", "gateway", "gRPC", "requests"];
    var f := m + ".requests" + ".ts";
    var l := "transport/gateway/gRPC/requests/";
    calc {
      b + "/" + Join([] + dirs + [f], "/");
      { assert [] + dirs + [f] == dirs + [f]; JoinSnoc(dirs, f, "/"); }
      b + "/" + (Join(dirs, "/") + "/" + f);
      { TransportDirsJoin(); }
      b + "/" + (l + f);
      { Assoc(b + "/", l, f); }
      b + "/" + l + f;
      { Assoc(b, "/", l); TransportLiterals(); }
      b + "/transport/gateway/gRPC/requests/" + f;
      { KindSuffixes(m); }
      DefaultPaths(b, m, Clean).transport;
    }
  }

  /** The four transport directories joined, with the closing `/`. */
  lemma TransportDirsJoin()
    ensures Join(["transport", "gateway", "gRPC", "requests"], "/") + "/" == "transport/gateway/gRPC/requests/"
  {
    Join3("gateway", "gRPC", "requests");
    JoinCons("transport", ["gateway", "gRPC", "requests"], "/");
    assert ["transport"] + ["gateway", "gRPC", "requests"] == ["transport", "gateway", "gRPC", "requests"];
  }

  lemma TransportLiterals()
    ensures "/" + "transport/gateway/gRPC/requests/" == "/transport/gateway/gRPC/requests/"
  {
  }

  lemma ClimbTransportLiterals()
    ensures "../../" + "transport/gateway/gRPC/requests/" == "../../transport/gateway/gRPC/requests/"
  {
  }

  lemma CleanRepositoryShape(b: string, m: string)
    ensures DefaultPaths(b, m, Clean).repository == b + "/" + Join([] + ["repository", m] + [m + ".grpc.repo" + ".ts"], "/")
  {
    var f := m + ".grpc.repo" + ".ts";
    KindSuffixes(m);
    assert [] + ["repository", m] + [f] == ["repository", m, f];
    Join3("repository", m, f);
    assert b + "/repository/" + m + "/" + f == b + "/" + ("repository" + "/" + m + "/" + f);
  }

  lemma CleanServiceShape(b: string, m: string)
    ensures DefaultPaths(b, m, Clean).service == b + "/" + Join([] + ["service", m] + [m + ".service" + ".ts"], "/")
  {
    var f := m + ".service" + ".ts";
    KindSuffixes(m);
    assert [] + ["service", m] + [f] == ["service", m, f];
    Join3("service", m, f);
    assert b + "/service/" + m + "/" + f == b + "/" + ("service" + "/" + m + "/" + f);
  }

  /** A path of two `..` steps and then names climbs. */
  lemma ClimbTwo(rest: seq<string>)
    requires |rest| >= 1
    ensures var s := Join(Repeat("..", 2) + rest, "/");
      Prefix(s) == s && PrefixAsWritten(s) == s
  {
    ClimbTwoJoin(rest);
    ClimbTwoKept(Join(rest, "/"));
  }

  lemma ClimbTwoKept(j: string)
    ensures var s := "../../" + j; Prefix(s) == s && PrefixAsWritten(s) == s
  {
    var s := "../../" + j;
    assert s[..3] == "../" && s[..2] == "..";
  }

  lemma KindFacts(m: string, kind: string)
    requires IsName(m) && '\\' !in m
    requires IsKind(kind)
    ensures var f := m + kind + ".ts";
      IsName(f) && '\\' !in f && EndsWith(f, ".ts") && StripTs(f) == m + kind && IsName(StripTs(f))
  {
    TsFile(m, kind);
  }

  /** Between `b/fromDir/m/…` and `b/toDir/m/…` (the clean layout's shape) the specifier climbs twice. */
  lemma CleanEdge(cwd: Segments, b: string, m: string, fromDir: string, fromKind: string, toDirs: Segments, toKind: string,
                  from: string, to: string)
    requires AllNames(cwd) && IsName(m) && '\\' !in m
    requires IsName(fromDir) && AllNames(toDirs) && NoBackslash(toDirs) && |toDirs| >= 1 && toDirs[0] != fromDir
    requires IsKind(fromKind)
    requires IsKind(toKind)
    requires from == b + "/" + Join([] + [fromDir, m] + [m + fromKind + ".ts"], "/")
    requires to == b + "/" + Join([] + toDirs + [m + toKind + ".ts"], "/")
    ensures var s := Join(Repeat("..", 2) + toDirs + [m + toKind], "/");
      RelativeImportPath(cwd, from, to) == s && RelativeImportPathAsWritten(cwd, from, to) == s
  {
    CleanEdgeReady(m, fromDir, fromKind, toDirs, toKind);
    LayoutEdge(cwd, b, [], [fromDir, m], m + fromKind + ".ts", toDirs, m + toKind + ".ts", from, to);
    ClimbTwo(toDirs + [m + toKind]);
  }

  lemma CleanEdgeReady(m: string, fromDir: string, fromKind: string, toDirs: Segments, toKind: string)
    requires IsName(m) && '\\' !in m
    requires IsName(fromDir) && AllNames(toDirs) && NoBackslash(toDirs) && |toDirs| >= 1 && toDirs[0] != fromDir
    requires IsKind(fromKind)
    requires IsKind(toKind)
    ensures AllNames([] + [fromDir, m]) && AllNames([] + toDirs)
    ensures |[] + [fromDir, m]| >= 1 && |[] + toDirs| >= 1
    ensures var fromFile := m + fromKind + ".ts"; var toFile := m + toKind + ".ts";
      IsName(fromFile) && IsName(toFile) && IsName(StripTs(toFile)) && EndsWith(toFile, ".ts")
      && '\\' !in toFile && StripTs(toFile) == m + toKind
    ensures [fromDir, m][0] != toDirs[0]
    ensures Repeat("..", |[fromDir, m]|) + toDirs + [m + toKind] == Repeat("..", 2) + (toDirs + [m + toKind])
  {
    KindFacts(m, fromKind);
    KindFacts(m, toKind);
    assert [] + [fromDir, m] == [fromDir, m];
    assert [] + toDirs == toDirs;
  }

  /** A file kind such as `.service`: at least two characters, no separator of either kind. */
  predicate IsKind(kind: string) {
    |kind| >= 2 && '/' !in kind && '\\' !in kind
  }

  lemma KindNames()
    ensures IsKind(".requests") && IsKind(".contract") && IsKind(".repo")
    ensures IsKind(".service") && IsKind(".grpc.repo")
  {
  }

  /** The directory names the layouts use are plain names without backslashes. */
  lemma LayoutDirNames()
    ensures IsName("transport") && IsName("gateway") && IsName("gRPC") && IsName("requests")
    ensures IsName("domain") && IsName("repository") && IsName("service")
    ensures IsName("contracts") && IsName("repos") && IsName("services")
    ensures '\\' !in "transport" && '\\' !in "gateway" && '\\' !in "gRPC" && '\\' !in "requests"
    ensures '\\' !in "domain" && '\\' !in "repository" && '\\' !in "contracts" && '\\' !in "repos"
  {
    TransportDirNames();
    CleanDirNames();
    ModulesDirNames();
  }

  lemma TransportDirNames()
    ensures IsName("transport") && IsName("gateway") && IsName("gRPC") && IsName("requests")
    ensures '\\' !in "transport" && '\\' !in "gateway" && '\\' !in "gRPC" && '\\' !in "requests"
  {
  }

  lemma CleanDirNames()
    ensures IsName("domain") && IsName("repository") && IsName("service")
    ensures '\\' !in "domain" && '\\' !in "repository"
  {
  }

  lemma ModulesDirNames()
    ensures IsName("contracts") && IsName("repos") && IsName("services")
    ensures '\\' !in "contracts" && '\\' !in "repos"
  {
  }

  lemma TwoNames(x: string, m: string)
    requires IsName(x) && IsName(m) && '\\' !in x && '\\' !in m
    ensures AllNames([x, m]) && NoBackslash([x, m])
  {
  }

  /** In the clean layout the repository reaches the contract two levels up, in `domain/<m>/`. */
  lemma CleanRepositoryToContract(cwd: Segments, b: string, m: string)
    requires AllNames(cwd) && IsName(m) && '\\' !in m
    ensures var p := DefaultPaths(b, m, Clean);
      var e := "../../domain/" + m + "/" + m + ".contract";
      RelativeImportPath(cwd, p.repository, p.contract) == e
      && RelativeImportPathAsWritten(cwd, p.repository, p.contract) == e
  {
    CleanRepositoryShape(b, m);
    CleanContractShape(b, m);
    LayoutDirNames();
    TwoNames("domain", m);
    KindNames();
    CleanEdge(cwd, b, m, "repository", ".grpc.repo", ["domain", m], ".contract",
      DefaultPaths(b, m, Clean).repository, DefaultPaths(b, m, Clean).contract);
    LayerLiterals();
    LayerPath("domain", "../../domain/", m, ".contract");
  }

  /** Climbing two levels and down `layer/m/` to `m + kind`, spelled with the layer's literal directory. */
  lemma LayerPath(layer: string, lit: string, m: string, kind: string)
    requires lit == "../../" + layer + "/"
    ensures Join(Repeat("..", 2) + [layer, m] + [m + kind], "/") == lit + m + "/" + m + kind
  {
    LayerSteps(layer, m, kind);
    RegroupLayer("../../", layer, m, kind);
  }

  /** Climbing two levels and then down `layer/m/` to the file `m + kind`. */
  lemma LayerSteps(layer: string, m: string, kind: string)
    ensures Join(Repeat("..", 2) + [layer, m] + [m + kind], "/") == "../../" + (layer + "/" + m + "/" + (m + kind))
  {
    assert Repeat("..", 2) + [layer, m] + [m + kind] == Repeat("..", 2) + [layer, m, m + kind];
    ClimbTwoJoin([layer, m, m + kind]);
    Join3(layer, m, m + kind);
  }

  lemma RegroupLayer(p: string, layer: string, m: string, kind: string)
    ensures p + (layer + "/" + m + "/" + (m + kind)) == p + layer + "/" + m + "/" + m + kind
  {
  }

  lemma LayerLiterals()
    ensures "../../" + "domain" + "/" == "../../domain/"
    ensures "../../" + "repository" + "/" == "../../repository/"
  {
  }

  lemma FourNames(v: string, w: string, x: string, y: string)
    requires IsName(v) && IsName(w) && IsName(x) && IsName(y)
    requires '\\' !in v && '\\' !in w && '\\' !in x && '\\' !in y
    ensures AllNames([v, w, x, y]) && NoBackslash([v, w, x, y])
  {
  }

  /** Two leading `..` steps spell `../../`. */
  lemma ClimbTwoJoin(rest: seq<string>)
    requires |rest| >= 1
    ensures Join(Repeat("..", 2) + rest, "/") == "../../" + Join(rest, "/")
  {
    RepeatTwo(rest);
    JoinTwice(rest);
    DotDotSlashes(Join(rest, "/"));
  }

  lemma RepeatTwo(rest: seq<string>)
    ensures Repeat("..", 2) + rest == [".."] + ([".."] + rest)
  {
    assert Repeat("..", 2) == ["..", ".."];
  }

  lemma DotDotSlashes(j: string)
    ensures ".." + "/" + (".." + "/" + j) == "../../" + j
  {
  }

  lemma JoinTwice(rest: seq<string>)
    requires |rest| >= 1
    ensures Join([".."] + ([".."] + rest), "/") == ".." + "/" + (".." + "/" + Join(rest, "/"))
  {
    JoinCons("..", rest, "/");
    JoinCons("..", [".."] + rest, "/");
  }

  lemma TransportSteps(m: string)
    ensures Join(Repeat("..", 2) + ["transport", "gateway", "gRPC", "requests"] + [m + ".requests"], "/")
      == "../../transport/gateway/gRPC/requests/" + m + ".requests"
  {
    var dirs := ["transport", "gateway", "gRPC", "requests"];
    var r := m + ".requests";
    var l := "transport/gateway/gRPC/requests/";
    calc {
      Join(Repeat("..", 2) + dirs + [r], "/");
      { Assoc(Repeat("..", 2), dirs, [r]); }
      Join(Repeat("..", 2) + (dirs + [r]), "/");
      { ClimbTwoJoin(dirs + [r]); }
      "../../" + Join(dirs + [r], "/");
      { JoinSnoc(dirs, r, "/"); TransportDirsJoin(); }
      "../../" + (l + r);
      { Assoc("../../", l, r); ClimbTransportLiterals(); }
      "../../transport/gateway/gRPC/requests/" + r;
      { Assoc("../../transport/gateway/gRPC/requests/", m, ".requests"); }
      "../../transport/gateway/gRPC/requests/" + m + ".requests";
    }
  }

  /** In the clean layout the repository reaches the request types four levels down `transport/gateway/gRPC/requests/`. */
  lemma CleanRepositoryToTransport(cwd: Segments, b: string, m: string)
    requires AllNames(cwd) && IsName(m) && '\\' !in m
    ensures var p := DefaultPaths(b, m, Clean);
      var e := "../../transport/gateway/gRPC/requests/" + m + ".requests";
      RelativeImportPath(cwd, p.repository, p.transport) == e
      && RelativeImportPathAsWritten(cwd, p.repository, p.transport) == e
  {
    CleanRepositoryShape(b, m);
    CleanTransportShape(b, m);
    LayoutDirNames();
    FourNames("transport", "gateway", "gRPC", "requests");
    KindNames();
    CleanEdge(cwd, b, m, "repository", ".grpc.repo", ["transport", "gateway", "gRPC", "requests"], ".requests",
      DefaultPaths(b, m, Clean).repository, DefaultPaths(b, m, Clean).transport);
    TransportSteps(m);
  }

  /** In the clean layout the service reaches the contract two levels up, in `domain/<m>/`. */
  lemma CleanServiceToContract(cwd: Segments, b: string, m: string)
    requires AllNames(cwd) && IsName(m) && '\\' !in m
    ensures var p := DefaultPaths(b, m, Clean);
      var e := "../../domain/" + m + "/" + m + ".contract";
      RelativeImportPath(cwd, p.service, p.contract) == e
      && RelativeImportPathAsWritten(cwd, p.service, p.contract) == e
  {
    CleanServiceShape(b, m);
    CleanContractShape(b, m);
    LayoutDirNames();
    TwoNames("domain", m);
    KindNames();
    CleanEdge(cwd, b, m, "service", ".service", ["domain", m], ".contract",
      DefaultPaths(b, m, Clean).service, DefaultPaths(b, m, Clean).contract);
    LayerLiterals();
    LayerPath("domain", "../../domain/", m, ".contract");
  }

  /** In the clean layout the service reaches the repository two levels up, in `repository/<m>/`. */
  lemma CleanServiceToRepository(cwd: Segments, b: string, m: string)
    requires AllNames(cwd) && IsName(m) && '\\' !in m
    ensures var p := DefaultPaths(b, m, Clean);
      var e := "../../repository/" + m + "/" + m + ".grpc.repo";
      RelativeImportPath(cwd, p.service, p.repository) == e
      && RelativeImportPathAsWritten(cwd, p.service, p.repository) == e
  {
    CleanServiceShape(b, m);
    CleanRepositoryShape(b, m);
    LayoutDirNames();
    TwoNames("repository", m);
    KindNames();
    CleanEdge(cwd, b, m, "service", ".service", ["repository", m], ".grpc.repo",
      DefaultPaths(b, m, Clean).service, DefaultPaths(b, m, Clean).repository);
    LayerLiterals();
    LayerPath("repository", "../../repository/", m, ".grpc.repo");
  }

  /**
   * The clean layout (the default, and what any structure other than
   * `flat` or `modules` selects) imports across the layer directories.
   */
  lemma CleanImports(cwd: Segments, outDir: string, m: string, structure: Option<string>)
    requires AllNames(cwd) && IsName(m) && '\\' !in m
    requires structure != Some("flat") && structure != Some("modules")
    ensures var p := ResolvePaths.ResolvePaths(outDir, m, structure, NoOverrides);
      && CalculateImportPaths(cwd, p) == ImportPaths(
        "../../domain/" + m + "/" + m + ".contract",
        "../../transport/gateway/gRPC/requests/" + m + ".requests",
        "../../domain/" + m + "/" + m + ".contract",
        "../../repository/" + m + "/" + m + ".grpc.repo")
      && CalculateImportPathsAsWritten(cwd, p) == CalculateImportPaths(cwd, p)
  {
    var b := StripTrailingSlash(outDir);
    assert StructureOf(structure) == Clean;
    CleanRepositoryToContract(cwd, b, m);
    CleanRepositoryToTransport(cwd, b, m);
    CleanServiceToContract(cwd, b, m);
    CleanServiceToRepository(cwd, b, m);
  }

  /** The modules layout's file of one layer, as segments below the modules base. */
  lemma ModulesShape(b: string, m: string, dir: string, kind: string, path: string)
    requires path == ModuleHome(b, m) + (dir + "/") + (m + kind + ".ts")
    ensures path == ModulesBase(b) + "/" + Join([m] + [dir] + [m + kind + ".ts"], "/")
  {
    var f := m + kind + ".ts";
    assert [m] + [dir] + [f] == [m, dir, f];
    Join3(m, dir, f);
  }

  lemma ModulesPaths(b: string, m: string)
    ensures var p := DefaultPaths(b, m, Modules);
      && p.transport == ModuleHome(b, m) + ("requests" + "/") + (m + ".requests" + ".ts")
      && p.contract == ModuleHome(b, m) + ("contracts" + "/") + (m + ".contract" + ".ts")
      && p.repository == ModuleHome(b, m) + ("repos" + "/") + (m + ".repo" + ".ts")
      && p.service == ModuleHome(b, m) + ("services" + "/") + (m + ".service" + ".ts")
  {
    KindSuffixes(m);
    LayerDirs();
  }

  lemma LayerDirs()
    ensures "requests/" == "requests" + "/" && "contracts/" == "contracts" + "/"
    ensures "repos/" == "repos" + "/" && "services/" == "services" + "/"
  {
  }

  /** Each generated file name is the module name, the kind, then `.ts`. */
  lemma KindSuffixes(m: string)
    ensures m + ".requests.ts" == m + ".requests" + ".ts"
    ensures m + ".contract.ts" == m + ".contract" + ".ts"
    ensures m + ".repo.ts" == m + ".repo" + ".ts"
    ensures m + ".service.ts" == m + ".service" + ".ts"
    ensures m + ".grpc.repo.ts" == m + ".grpc.repo" + ".ts"
  {
  }

  lemma ModulesEdgeReady(m: string, fromDir: string, fromKind: string, toDir: string, toKind: string)
    requires IsName(m) && '\\' !in m
    requires IsName(fromDir) && IsName(toDir) && '\\' !in toDir && fromDir != toDir
    requires IsKind(fromKind)
    requires IsKind(toKind)
    ensures AllNames([m] + [fromDir]) && AllNames([m] + [toDir]) && NoBackslash([toDir])
    ensures var fromFile := m + fromKind + ".ts"; var toFile := m + toKind + ".ts";
      IsName(fromFile) && IsName(toFile) && IsName(StripTs(toFile)) && EndsWith(toFile, ".ts")
      && '\\' !in toFile && StripTs(toFile) == m + toKind
    ensures Join(Repeat("..", |[fromDir]|) + [toDir] + [m + toKind], "/") == "../" + toDir + "/" + (m + toKind)
  {
    KindFacts(m, fromKind);
    KindFacts(m, toKind);
    assert Repeat("..", 1) + [toDir] + [m + toKind] == ["..", toDir, m + toKind];
    Join3("..", toDir, m + toKind);
  }

  /** Between `base/m/fromDir/…` and `base/m/toDir/…` (the modules layout's shape) the specifier climbs once. */
  lemma ModulesEdge(cwd: Segments, a: string, m: string, fromDir: string, fromKind: string, toDir: string, toKind: string,
                    from: string, to: string)
    requires AllNames(cwd) && IsName(m) && '\\' !in m
    requires IsName(fromDir) && IsName(toDir) && '\\' !in toDir && fromDir != toDir
    requires IsKind(fromKind)
    requires IsKind(toKind)
    requires from == a + "/" + Join([m] + [fromDir] + [m + fromKind + ".ts"], "/")
    requires to == a + "/" + Join([m] + [toDir] + [m + toKind + ".ts"], "/")
    ensures var s := "../" + toDir + "/" + (m + toKind);
      RelativeImportPath(cwd, from, to) == s && RelativeImportPathAsWritten(cwd, from, to) == s
  {
    ModulesEdgeReady(m, fromDir, fromKind, toDir, toKind);
    LayoutEdge(cwd, a, [m], [fromDir], m + fromKind + ".ts", [toDir], m + toKind + ".ts", from, to);
    ClimbOnce(toDir, m + toKind);
  }

  /** A specifier that climbs once into a sibling directory is kept as it is by both prefix rules. */
  lemma ClimbOnce(dir: string, rest: string)
    ensures var s := "../" + dir + "/" + rest;
      Prefix(s) == s && PrefixAsWritten(s) == s
  {
    var s := "../" + dir + "/" + rest;
    assert s[..3] == "../";
  }

  lemma SiblingLiterals()
    ensures "../contracts/" == "../" + "contracts" + "/"
    ensures "../requests/" == "../" + "requests" + "/"
    ensures "../repos/" == "../" + "repos" + "/"
  {
  }

  lemma SiblingSpec(dir: string, lit: string, m: string, kind: string)
    requires lit == "../" + dir + "/"
    ensures "../" + dir + "/" + (m + kind) == lit + m + kind
  {
  }

  /** In the modules layout the repository reaches the contract in the sibling `contracts/` directory. */
  lemma ModulesRepositoryToContract(cwd: Segments, b: string, m: string)
    requires AllNames(cwd) && IsName(m) && '\\' !in m
    ensures var p := DefaultPaths(b, m, Modules);
      var e := "../contracts/" + m + ".contract";
      RelativeImportPath(cwd, p.repository, p.contract) == e
      && RelativeImportPathAsWritten(cwd, p.repository, p.contract) == e
  {
    var p := DefaultPaths(b, m, Modules);
    ModulesPaths(b, m);
    ModulesShape(b, m, "repos", ".repo", p.repository);
    ModulesShape(b, m, "contracts", ".contract", p.contract);
    LayoutDirNames();
    KindNames();
    ModulesEdge(cwd, ModulesBase(b), m, "repos", ".repo", "contracts", ".contract", p.repository, p.contract);
    SiblingLiterals();
    SiblingSpec("contracts", "../contracts/", m, ".contract");
  }

  /** In the modules layout the repository reaches the request types in the sibling `requests/` directory. */
  lemma ModulesRepositoryToTransport(cwd: Segments, b: string, m: string)
    requires AllNames(cwd) && IsName(m) && '\\' !in m
    ensures var p := DefaultPaths(b, m, Modules);
      var e := "../requests/" + m + ".requests";
      RelativeImportPath(cwd, p.repository, p.transport) == e
      && RelativeImportPathAsWritten(cwd, p.repository, p.transport) == e
  {
    var p := DefaultPaths(b, m, Modules);
    ModulesPaths(b, m);
    ModulesShape(b, m, "repos", ".repo", p.repository);
    ModulesShape(b, m, "requests", ".requests", p.transport);
    LayoutDirNames();
    KindNames();
    ModulesEdge(cwd, ModulesBase(b), m, "repos", ".repo", "requests", ".requests", p.repository, p.transport);
    SiblingLiterals();
    SiblingSpec("requests", "../requests/", m, ".requests");
  }

  /** In the modules layout the service reaches the contract in the sibling `contracts/` directory. */
  lemma ModulesServiceToContract(cwd: Segments, b: string, m: string)
    requires AllNames(cwd) && IsName(m) && '\\' !in m
    ensures var p := DefaultPaths(b, m, Modules);
      var e := "../contracts/" + m + ".contract";
      RelativeImportPath(cwd, p.service, p.contract) == e
      && RelativeImportPathAsWritten(cwd, p.service, p.contract) == e
  {
    var p := DefaultPaths(b, m, Modules);
    ModulesPaths(b, m);
    ModulesShape(b, m, "services", ".service", p.service);
    ModulesShape(b, m, "contracts", ".contract", p.contract);
    LayoutDirNames();
    KindNames();
    ModulesEdge(cwd, ModulesBase(b), m, "services", ".service", "contracts", ".contract", p.service, p.contract);
    SiblingLiterals();
    SiblingSpec("contracts", "../contracts/", m, ".contract");
  }

  /** In the modules layout the service reaches the repository in the sibling `repos/` directory. */
  lemma ModulesServiceToRepository(cwd: Segments, b: string, m: string)
    requires AllNames(cwd) && IsName(m) && '\\' !in m
    ensures var p := DefaultPaths(b, m, Modules);
      var e := "../repos/" + m + ".repo";
      RelativeImportPath(cwd, p.service, p.repository) == e
      && RelativeImportPathAsWritten(cwd, p.service, p.repository) == e
  {
    var p := DefaultPaths(b, m, Modules);
    ModulesPaths(b, m);
    ModulesShape(b, m, "services", ".service", p.service);
    ModulesShape(b, m, "repos", ".repo", p.repository);
    LayoutDirNames();
    KindNames();
    ModulesEdge(cwd, ModulesBase(b), m, "services", ".service", "repos", ".repo", p.service, p.repository);
    SiblingLiterals();
    SiblingSpec("repos", "../repos/", m, ".repo");
  }

  /** The modules layout imports between sibling layer directories of `modules/<m>/`. */
  lemma ModulesImports(cwd: Segments, outDir: string, m: string)
    requires AllNames(cwd) && IsName(m) && '\\' !in m
    ensures var p := ResolvePaths.ResolvePaths(outDir, m, Some("modules"), NoOverrides);
      && CalculateImportPaths(cwd, p) == ImportPaths(
        "../contracts/" + m + ".contract",
        "../requests/" + m + ".requests",
        "../contracts/" + m + ".contract",
        "../repos/" + m + ".repo")
      && CalculateImportPathsAsWritten(cwd, p) == CalculateImportPaths(cwd, p)
  {
    var b := StripTrailingSlash(outDir);
    ModulesRepositoryToContract(cwd, b, m);
    ModulesRepositoryToTransport(cwd, b, m);
    ModulesServiceToContract(cwd, b, m);
    ModulesServiceToRepository(cwd, b, m);
  }

  lemma FlatShape(b: string, m: string, kind: string, path: string)
    requires path == ModuleHome(b, m) + (m + kind + ".ts")
    ensures path == ModulesBase(b) + "/" + Join([m] + [] + [m + kind + ".ts"], "/")
  {
    var f := m + kind + ".ts";
    assert [m] + [] + [f] == [m, f];
    Join2(m, f);
  }

  lemma FlatPaths(b: string, m: string)
    ensures var p := DefaultPaths(b, m, Flat);
      && p.transport == ModuleHome(b, m) + (m + ".requests" + ".ts")
      && p.contract == ModuleHome(b, m) + (m + ".contract" + ".ts")
      && p.repository == ModuleHome(b, m) + (m + ".repo" + ".ts")
      && p.service == ModuleHome(b, m) + (m + ".service" + ".ts")
  {
    KindSuffixes(m);
  }

  /** The as-written rule leaves a sibling file name without `./` exactly when the module name starts with `..`. */
  lemma SiblingName(m: string, kind: string)
    requires IsName(m) && |kind| >= 2 && '/' !in kind
    ensures !Ascends(m + kind)
    ensures StartsWith(m + kind, "..") <==> StartsWith(m, "..")
  {
    NoCharConcat(m, kind, '/');
    var s := m + kind;
    assert s[2] != '/';
    if |m| >= 2 {
      assert s[..2] == m[..2];
    } else {
      assert s[0] == m[0];
      assert m != ".";
      assert m[..1] != ".";
    }
  }

  lemma FlatEdgeReady(m: string, fromKind: string, toKind: string)
    requires IsName(m) && '\\' !in m
    requires IsKind(fromKind)
    requires IsKind(toKind)
    ensures AllNames([m] + []) && |[m] + []| >= 1 && NoBackslash([])
    ensures var fromFile := m + fromKind + ".ts"; var toFile := m + toKind + ".ts";
      IsName(fromFile) && IsName(toFile) && IsName(StripTs(toFile)) && EndsWith(toFile, ".ts")
      && '\\' !in toFile && StripTs(toFile) == m + toKind
    ensures Join(Repeat("..", 0) + [] + [m + toKind], "/") == m + toKind
    ensures Prefix(m + toKind) == "./" + m + toKind
    ensures PrefixAsWritten(m + toKind) == if StartsWith(m, "..") then m + toKind else "./" + m + toKind
  {
    KindFacts(m, fromKind);
    KindFacts(m, toKind);
    assert Repeat("..", 0) + [] + [m + toKind] == [m + toKind];
    SiblingName(m, toKind);
    assert "./" + (m + toKind) == "./" + m + toKind;
  }

  /** Between two files of one directory (the flat layout's shape) the specifier is `./` and the file name. */
  lemma FlatEdge(cwd: Segments, b: string, m: string, fromKind: string, toKind: string, from: string, to: string)
    requires AllNames(cwd) && IsName(m) && '\\' !in m
    requires IsKind(fromKind)
    requires IsKind(toKind)
    requires from == ModuleHome(b, m) + (m + fromKind + ".ts")
    requires to == ModuleHome(b, m) + (m + toKind + ".ts")
    ensures RelativeImportPath(cwd, from, to) == "./" + m + toKind
      && RelativeImportPathAsWritten(cwd, from, to) == if StartsWith(m, "..") then m + toKind else "./" + m + toKind
  {
    FlatShape(b, m, fromKind, from);
    FlatShape(b, m, toKind, to);
    FlatEdgeReady(m, fromKind, toKind);
    LayoutEdge(cwd, ModulesBase(b), [m], [], m + fromKind + ".ts", [], m + toKind + ".ts", from, to);
  }

  lemma FlatRepositoryToContract(cwd: Segments, b: string, m: string)
    requires AllNames(cwd) && IsName(m) && '\\' !in m
    ensures var p := DefaultPaths(b, m, Flat);
      && RelativeImportPath(cwd, p.repository, p.contract) == "./" + m + ".contract"
      && RelativeImportPathAsWritten(cwd, p.repository, p.contract)
        == if StartsWith(m, "..") then m + ".contract" else "./" + m + ".contract"
  {
    var p := DefaultPaths(b, m, Flat);
    FlatPaths(b, m);
    KindNames();
    FlatEdge(cwd, b, m, ".repo", ".contract", p.repository, p.contract);
  }

  lemma FlatRepositoryToTransport(cwd: Segments, b: string, m: string)
    requires AllNames(cwd) && IsName(m) && '\\' !in m
    ensures var p := DefaultPaths(b, m, Flat);
      && RelativeImportPath(cwd, p.repository, p.transport) == "./" + m + ".requests"
      && RelativeImportPathAsWritten(cwd, p.repository, p.transport)
        == if StartsWith(m, "..") then m + ".requests" else "./" + m + ".requests"
  {
    var p := DefaultPaths(b, m, Flat);
    FlatPaths(b, m);
    KindNames();
    FlatEdge(cwd, b, m, ".repo", ".requests", p.repository, p.transport);
  }

  lemma FlatServiceToContract(cwd: Segments, b: string, m: string)
    requires AllNames(cwd) && IsName(m) && '\\' !in m
    ensures var p := DefaultPaths(b, m, Flat);
      && RelativeImportPath(cwd, p.service, p.contract) == "./" + m + ".contract"
      && RelativeImportPathAsWritten(cwd, p.service, p.contract)
        == if StartsWith(m, "..") then m + ".contract" else "./" + m + ".contract"
  {
    var p := DefaultPaths(b, m, Flat);
    FlatPaths(b, m);
    KindNames();
    FlatEdge(cwd, b, m, ".service", ".contract", p.service, p.contract);
  }

  lemma FlatServiceToRepository(cwd: Segments, b: string, m: string)
    requires AllNames(cwd) && IsName(m) && '\\' !in m
    ensures var p := DefaultPaths(b, m, Flat);
      && RelativeImportPath(cwd, p.service, p.repository) == "./" + m + ".repo"
      && RelativeImportPathAsWritten(cwd, p.service, p.repository)
        == if StartsWith(m, "..") then m + ".repo" else "./" + m + ".repo"
  {
    var p := DefaultPaths(b, m, Flat);
    FlatPaths(b, m);
    KindNames();
    FlatEdge(cwd, b, m, ".service", ".repo", p.service, p.repository);
  }

  /**
   * The flat layout keeps every file of a module in one directory, so each
   * edge is `./` and a file name; the as-written rule agrees with that
   * exactly when the module name does not start with `..`.
   */
  lemma FlatImports(cwd: Segments, outDir: string, m: string)
    requires AllNames(cwd) && IsName(m) && '\\' !in m
    ensures var p := ResolvePaths.ResolvePaths(outDir, m, Some("flat"), NoOverrides);
      && CalculateImportPaths(cwd, p) == ImportPaths(
        "./" + m + ".contract",
        "./" + m + ".requests",
        "./" + m + ".contract",
        "./" + m + ".repo")
      && (CalculateImportPathsAsWritten(cwd, p) == CalculateImportPaths(cwd, p) <==> !StartsWith(m, ".."))
  {
    var b := StripTrailingSlash(outDir);
    FlatRepositoryToContract(cwd, b, m);
    FlatRepositoryToTransport(cwd, b, m);
    FlatServiceToContract(cwd, b, m);
    FlatServiceToRepository(cwd, b, m);
    if StartsWith(m, "..") {
      assert |m + ".contract"| != |"./" + m + ".contract"|;
    }
  }

  /** The flat layout with module `..x`: the as-written repository import of the contract is the bare specifier `..x.contract`. */
  lemma FlatDotDotModule(cwd: Segments, outDir: string)
    requires AllNames(cwd)
    ensures var p := ResolvePaths.ResolvePaths(outDir, "..x", Some("flat"), NoOverrides);
      && CalculateImportPathsAsWritten(cwd, p).repositoryToContract == "..x.contract"
      && !IsRelativeSpecifier(CalculateImportPathsAsWritten(cwd, p).repositoryToContract)
      && CalculateImportPaths(cwd, p).repositoryToContract == "./..x.contract"
  {
    DotDotLiterals();
    FlatRepositoryToContract(cwd, StripTrailingSlash(outDir), "..x");
  }

  lemma DotDotLiterals()
    ensures IsName("..x") && '\\' !in "..x" && StartsWith("..x", "..")
    ensures "..x" + ".contract" == "..x.contract"
    ensures "./" + "..x" + ".contract" == "./..x.contract"
    ensures !IsRelativeSpecifier("..x.contract")
  {
    var e := "..x.contract";
    assert e[1] == '.' && e[2] == 'x';
    assert e[..2] != "./";
    assert e[..3] != "../";
    assert e != "..";
  }
}
