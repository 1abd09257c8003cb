/**
 * The layout resolver: from an output root, a module name, a structural
 * convention and per-layer overrides to the five output file paths.
 */
module ResolvePaths {
  import opened Wrappers
  import opened Strings

  /** The three directory conventions. */
  datatype Structure = Clean | Modules | Flat

  /** Per-layer overrides. A `Some` entry wins over the default, even `Some("")`, because the source uses `??`. */
  datatype Overrides = Overrides(
    transport: Option<string>,
    contract: Option<string>,
    repository: Option<string>,
    service: Option<string>,
    viewModel: Option<string>)

  const NoOverrides: Overrides := Overrides(None, None, None, None, None)

  /** One output file per layer. */
  datatype Paths = Paths(
    transport: string,
    contract: string,
    repository: string,
    service: string,
    viewModel: string)

  /**
   * `input.structure || "clean"` followed by the two equality tests: a
   * missing or empty structure, and any name other than `flat` or `modules`,
   * selects the clean layout.
   */
  function StructureOf(structure: Option<string>): (s: Structure)
    ensures s == Flat <==> structure == Some("flat")
    ensures s == Modules <==> structure == Some("modules")
  {
    var name := if structure.None? || structure.value == "" then "clean" else structure.value;
    if name == "flat" then Flat else if name == "modules" then Modules else Clean
  }

  /** `outDir.replace(/\/$/, "")`: exactly one trailing `/` is removed. */
  function StripTrailingSlash(outDir: string): (base: string)
    ensures EndsWith(outDir, "/") ==> base + "/" == outDir
    ensures !EndsWith(outDir, "/") ==> base == outDir
  {
    if |outDir| > 0 && outDir[|outDir| - 1] == '/' then outDir[..|outDir| - 1] else outDir
  }

  /** The base already names a `modules` directory. */
  predicate HasModulesSegment(base: string) {
    EndsWith(base, "/modules") || Contains(base, "/modules/")
  }

  /** The root of the `modules` and `flat` layouts: `/modules` is appended only when not already there. */
  function ModulesBase(base: string): (mb: string)
    ensures HasModulesSegment(mb)
    ensures mb == base || mb == base + "/modules"
    ensures HasModulesSegment(base) ==> mb == base
  {
    if HasModulesSegment(base) then base else base + "/modules"
  }

  /** `path` is a file directly inside `dir` (no further `/` after it). */
  predicate InDir(path: string, dir: string) {
    StartsWith(path, dir) && '/' !in path[|dir|..]
  }

  predicate AllEndWithTs(p: Paths) {
    EndsWith(p.transport, ".ts") && EndsWith(p.contract, ".ts") && EndsWith(p.repository, ".ts")
    && EndsWith(p.service, ".ts") && EndsWith(p.viewModel, ".ts")
  }

  predicate PairwiseDistinct(p: Paths) {
    && p.transport != p.contract && p.transport != p.repository && p.transport != p.service
    && p.transport != p.viewModel && p.contract != p.repository && p.contract != p.service
    && p.contract != p.viewModel && p.repository != p.service && p.repository != p.viewModel
    && p.service != p.viewModel
  }

  /** The directory holding one module in the `modules` and `flat` layouts. */
  function ModuleHome(base: string, moduleName: string): string {
    ModulesBase(base) + "/" + moduleName + "/"
  }

  /** The default path of every layer, before overrides, for an already stripped base. */
  function DefaultPaths(base: string, moduleName: string, structure: Structure): (p: Paths)
    ensures AllEndWithTs(p)
    ensures PairwiseDistinct(p)
    ensures structure == Flat ==>
      && EndsWith(p.transport, "/" + moduleName + ".requests.ts")
      && EndsWith(p.contract, "/" + moduleName + ".contract.ts")
      && EndsWith(p.repository, "/" + moduleName + ".repo.ts")
      && EndsWith(p.service, "/" + moduleName + ".service.ts")
      && EndsWith(p.viewModel, "/" + moduleName + ".view-model.ts")
    ensures structure == Flat && '/' !in moduleName ==>
      && InDir(p.transport, ModuleHome(base, moduleName))
      && InDir(p.contract, ModuleHome(base, moduleName))
      && InDir(p.repository, ModuleHome(base, moduleName))
      && InDir(p.service, ModuleHome(base, moduleName))
      && InDir(p.viewModel, ModuleHome(base, moduleName))
    ensures structure == Modules ==>
      && EndsWith(p.transport, "/" + moduleName + ".requests.ts")
      && EndsWith(p.contract, "/" + moduleName + ".contract.ts")
      && EndsWith(p.repository, "/" + moduleName + ".repo.ts")
      && EndsWith(p.service, "/" + moduleName + ".service.ts")
      && EndsWith(p.viewModel, "/" + moduleName + ".view-model.ts")
    ensures structure == Modules && '/' !in moduleName ==>
      && InDir(p.transport, ModuleHome(base, moduleName) + "requests/")
      && InDir(p.contract, ModuleHome(base, moduleName) + "contracts/")
      && InDir(p.repository, ModuleHome(base, moduleName) + "repos/")
      && InDir(p.service, ModuleHome(base, moduleName) + "services/")
      && InDir(p.viewModel, ModuleHome(base, moduleName) + "view-models/")
    ensures structure == Clean ==>
      && EndsWith(p.transport, "/" + moduleName + ".requests.ts")
      && EndsWith(p.contract, "/" + moduleName + ".contract.ts")
      && EndsWith(p.repository, "/" + moduleName + ".grpc.repo.ts")
      && EndsWith(p.service, "/" + moduleName + ".service.ts")
      && EndsWith(p.viewModel, "/" + moduleName + ".view-model.ts")
    ensures structure == Clean && '/' !in moduleName ==>
      && InDir(p.transport, base + "/transport/gateway/gRPC/requests/")
      && InDir(p.contract, base + "/domain/" + moduleName + "/")
      && InDir(p.repository, base + "/repository/" + moduleName + "/")
      && InDir(p.service, base + "/service/" + moduleName + "/")
      && InDir(p.viewModel, base + "/presentation/" + moduleName + "/")
  {
    match structure
    case Flat =>
      var home := ModuleHome(base, moduleName);
      var p := Paths(
        home + (moduleName + ".requests.ts"),
        home + (moduleName + ".contract.ts"),
        home + (moduleName + ".repo.ts"),
        home + (moduleName + ".service.ts"),
        home + (moduleName + ".view-model.ts"));
      FlatFacts(home, moduleName, p);
      FlatNames(ModulesBase(base) + "/" + moduleName, moduleName, p);
      p
    case Modules =>
      var home := ModuleHome(base, moduleName);
      var p := Paths(
        home + "requests/" + (moduleName + ".requests.ts"),
        home + "contracts/" + (moduleName + ".contract.ts"),
        home + "repos/" + (moduleName + ".repo.ts"),
        home + "services/" + (moduleName + ".service.ts"),
        home + "view-models/" + (moduleName + ".view-model.ts"));
      ModulesFacts(home, moduleName, p);
      ModulesNames(home, moduleName, p);
      p
    case Clean =>
      var p := Paths(
        base + "/transport/gateway/gRPC/requests/" + (moduleName + ".requests.ts"),
        base + "/domain/" + moduleName + "/" + (moduleName + ".contract.ts"),
        base + "/repository/" + moduleName + "/" + (moduleName + ".grpc.repo.ts"),
        base + "/service/" + moduleName + "/" + (moduleName + ".service.ts"),
        base + "/presentation/" + moduleName + "/" + (moduleName + ".view-model.ts"));
      CleanFacts(base, moduleName, p);
      CleanNames(base, moduleName, p);
      p
  }

  /** `dir + name` is directly inside `dir` when `name` holds no `/`. */
  lemma InDirAppend(dir: string, name: string)
    requires '/' !in name
    ensures InDir(dir + name, dir)
  {
    assert (dir + name)[|dir|..] == name;
  }

  /** A string ends with whatever its last piece ends with. */
  lemma EndsWithAppend(s: string, t: string, suffix: string)
    requires EndsWith(t, suffix)
    ensures EndsWith(s + t, suffix)
  {
    assert (s + t)[|s + t| - |suffix|..] == t[|t| - |suffix|..];
  }

  /** File names built from one module name and two different suffixes differ, whatever the directory. */
  lemma DistinctNames(dir: string, name: string, s1: string, s2: string, k: nat)
    requires k < |s1| && k < |s2| && s1[k] != s2[k]
    ensures dir + (name + s1) != dir + (name + s2)
  {
    assert (dir + (name + s1))[|dir| + |name| + k] == s1[k];
    assert (dir + (name + s2))[|dir| + |name| + k] == s2[k];
  }

  /** A literal suffix ends in `.ts` when its last three characters say so. */
  lemma TsSuffix(suffix: string)
    requires |suffix| >= 3 && suffix[|suffix| - 3] == '.' && suffix[|suffix| - 2] == 't' && suffix[|suffix| - 1] == 's'
    ensures EndsWith(suffix, ".ts")
  {
  }

  /** A default file `dir + (name + suffix)` ends in `.ts` when its suffix does. */
  lemma FileTs(dir: string, name: string, suffix: string)
    requires |suffix| >= 3 && suffix[|suffix| - 3] == '.' && suffix[|suffix| - 2] == 't' && suffix[|suffix| - 1] == 's'
    ensures EndsWith(dir + (name + suffix), ".ts")
  {
    TsSuffix(suffix);
    EndsWithAppend(name, suffix, ".ts");
    EndsWithAppend(dir, name + suffix, ".ts");
  }

  lemma FileSuffix(dir: string, name: string, suffix: string)
    ensures EndsWith(dir + (name + suffix), suffix)
  {
    assert (dir + (name + suffix))[|dir + (name + suffix)| - |suffix|..] == suffix;
  }

  lemma FileInDir(dir: string, name: string, suffix: string)
    requires '/' !in name && '/' !in suffix
    ensures InDir(dir + (name + suffix), dir)
  {
    InDirAppend(dir, name + suffix);
  }

  /** A file `m + suffix` placed in a directory ending in `/` has the file name `/` + `m + suffix` at its end. */
  lemma FileNamed(a: string, lit: string, m: string, suffix: string)
    requires |lit| > 0 && lit[|lit| - 1] == '/'
    ensures EndsWith(a + lit + (m + suffix), "/" + m + suffix)
  {
    var dir := a + lit;
    var s := dir + (m + suffix);
    assert dir[|dir| - 1..] == "/";
    assert s[|dir| - 1..] == dir[|dir| - 1..] + (m + suffix);
  }

  lemma FlatNames(a: string, moduleName: string, p: Paths)
    requires p == Paths(
      a + "/" + (moduleName + ".requests.ts"),
      a + "/" + (moduleName + ".contract.ts"),
      a + "/" + (moduleName + ".repo.ts"),
      a + "/" + (moduleName + ".service.ts"),
      a + "/" + (moduleName + ".view-model.ts"))
    ensures EndsWith(p.transport, "/" + moduleName + ".requests.ts")
    ensures EndsWith(p.contract, "/" + moduleName + ".contract.ts")
    ensures EndsWith(p.repository, "/" + moduleName + ".repo.ts")
    ensures EndsWith(p.service, "/" + moduleName + ".service.ts")
    ensures EndsWith(p.viewModel, "/" + moduleName + ".view-model.ts")
  {
    FileNamed(a, "/", moduleName, ".requests.ts");
    FileNamed(a, "/", moduleName, ".contract.ts");
    FileNamed(a, "/", moduleName, ".repo.ts");
    FileNamed(a, "/", moduleName, ".service.ts");
    FileNamed(a, "/", moduleName, ".view-model.ts");
  }

  lemma LayerDirLiterals()
    ensures var l := "requests/"; |l| > 0 && l[|l| - 1] == '/'
    ensures var l := "contracts/"; |l| > 0 && l[|l| - 1] == '/'
    ensures var l := "repos/"; |l| > 0 && l[|l| - 1] == '/'
    ensures var l := "services/"; |l| > 0 && l[|l| - 1] == '/'
    ensures var l := "view-models/"; |l| > 0 && l[|l| - 1] == '/'
    ensures var l := "/transport/gateway/gRPC/requests/"; |l| > 0 && l[|l| - 1] == '/'
  {
  }

  lemma ModulesNames(home: string, moduleName: string, p: Paths)
    requires p == Paths(
      home + "requests/" + (moduleName + ".requests.ts"),
      home + "contracts/" + (moduleName + ".contract.ts"),
      home + "repos/" + (moduleName + ".repo.ts"),
      home + "services/" + (moduleName + ".service.ts"),
      home + "view-models/" + (moduleName + ".view-model.ts"))
    ensures EndsWith(p.transport, "/" + moduleName + ".requests.ts")
    ensures EndsWith(p.contract, "/" + moduleName + ".contract.ts")
    ensures EndsWith(p.repository, "/" + moduleName + ".repo.ts")
    ensures EndsWith(p.service, "/" + moduleName + ".service.ts")
    ensures EndsWith(p.viewModel, "/" + moduleName + ".view-model.ts")
  {
    LayerDirLiterals();
    FileNamed(home, "requests/", moduleName, ".requests.ts");
    FileNamed(home, "contracts/", moduleName, ".contract.ts");
    FileNamed(home, "repos/", moduleName, ".repo.ts");
    FileNamed(home, "services/", moduleName, ".service.ts");
    FileNamed(home, "view-models/", moduleName, ".view-model.ts");
  }

  lemma CleanNames(base: string, moduleName: string, p: Paths)
    requires p == Paths(
      base + "/transport/gateway/gRPC/requests/" + (moduleName + ".requests.ts"),
      base + "/domain/" + moduleName + "/" + (moduleName + ".contract.ts"),
      base + "/repository/" + moduleName + "/" + (moduleName + ".grpc.repo.ts"),
      base + "/service/" + moduleName + "/" + (moduleName + ".service.ts"),
      base + "/presentation/" + moduleName + "/" + (moduleName + ".view-model.ts"))
    ensures EndsWith(p.transport, "/" + moduleName + ".requests.ts")
    ensures EndsWith(p.contract, "/" + moduleName + ".contract.ts")
    ensures EndsWith(p.repository, "/" + moduleName + ".grpc.repo.ts")
    ensures EndsWith(p.service, "/" + moduleName + ".service.ts")
    ensures EndsWith(p.viewModel, "/" + moduleName + ".view-model.ts")
  {
    LayerDirLiterals();
    FileNamed(base, "/transport/gateway/gRPC/requests/", moduleName, ".requests.ts");
    FileNamed(base + "/domain/" + moduleName, "/", moduleName, ".contract.ts");
    FileNamed(base + "/repository/" + moduleName, "/", moduleName, ".grpc.repo.ts");
    FileNamed(base + "/service/" + moduleName, "/", moduleName, ".service.ts");
    FileNamed(base + "/presentation/" + moduleName, "/", moduleName, ".view-model.ts");
  }

  lemma FlatEndings(home: string, moduleName: string, p: Paths)
    requires p == Paths(
      home + (moduleName + ".requests.ts"),
      home + (moduleName + ".contract.ts"),
      home + (moduleName + ".repo.ts"),
      home + (moduleName + ".service.ts"),
      home + (moduleName + ".view-model.ts"))
    ensures AllEndWithTs(p)
    ensures EndsWith(p.transport, ".requests.ts") && EndsWith(p.contract, ".contract.ts")
    ensures EndsWith(p.repository, ".repo.ts") && EndsWith(p.service, ".service.ts")
    ensures EndsWith(p.viewModel, ".view-model.ts")
  {
    FileTs(home, moduleName, ".requests.ts");
    FileTs(home, moduleName, ".contract.ts");
    FileTs(home, moduleName, ".repo.ts");
    FileTs(home, moduleName, ".service.ts");
    FileTs(home, moduleName, ".view-model.ts");
    FileSuffix(home, moduleName, ".requests.ts");
    FileSuffix(home, moduleName, ".contract.ts");
    FileSuffix(home, moduleName, ".repo.ts");
    FileSuffix(home, moduleName, ".service.ts");
    FileSuffix(home, moduleName, ".view-model.ts");
  }

  lemma FlatInDir(home: string, moduleName: string, p: Paths)
    requires '/' !in moduleName
    requires p == Paths(
      home + (moduleName + ".requests.ts"),
      home + (moduleName + ".contract.ts"),
      home + (moduleName + ".repo.ts"),
      home + (moduleName + ".service.ts"),
      home + (moduleName + ".view-model.ts"))
    ensures InDir(p.transport, home) && InDir(p.contract, home) && InDir(p.repository, home)
    ensures InDir(p.service, home) && InDir(p.viewModel, home)
  {
    FileInDir(home, moduleName, ".requests.ts");
    FileInDir(home, moduleName, ".contract.ts");
    FileInDir(home, moduleName, ".repo.ts");
    FileInDir(home, moduleName, ".service.ts");
    FileInDir(home, moduleName, ".view-model.ts");
  }

  lemma FlatFacts(home: string, moduleName: string, p: Paths)
    requires p == Paths(
      home + (moduleName + ".requests.ts"),
      home + (moduleName + ".contract.ts"),
      home + (moduleName + ".repo.ts"),
      home + (moduleName + ".service.ts"),
      home + (moduleName + ".view-model.ts"))
    ensures AllEndWithTs(p) && PairwiseDistinct(p)
    ensures EndsWith(p.transport, ".requests.ts") && EndsWith(p.contract, ".contract.ts")
    ensures EndsWith(p.repository, ".repo.ts") && EndsWith(p.service, ".service.ts")
    ensures EndsWith(p.viewModel, ".view-model.ts")
    ensures '/' !in moduleName ==>
      InDir(p.transport, home) && InDir(p.contract, home) && InDir(p.repository, home)
      && InDir(p.service, home) && InDir(p.viewModel, home)
  {
    FlatEndings(home, moduleName, p);
    if '/' !in moduleName {
      FlatInDir(home, moduleName, p);
    }
    DistinctNames(home, moduleName, ".requests.ts", ".contract.ts", 1);
    DistinctNames(home, moduleName, ".requests.ts", ".repo.ts", 3);
    DistinctNames(home, moduleName, ".requests.ts", ".service.ts", 1);
    DistinctNames(home, moduleName, ".requests.ts", ".view-model.ts", 1);
    DistinctNames(home, moduleName, ".contract.ts", ".repo.ts", 1);
    DistinctNames(home, moduleName, ".contract.ts", ".service.ts", 1);
    DistinctNames(home, moduleName, ".contract.ts", ".view-model.ts", 1);
    DistinctNames(home, moduleName, ".repo.ts", ".service.ts", 1);
    DistinctNames(home, moduleName, ".repo.ts", ".view-model.ts", 1);
    DistinctNames(home, moduleName, ".service.ts", ".view-model.ts", 1);
  }

  lemma ModulesInDir(home: string, moduleName: string, p: Paths)
    requires '/' !in moduleName
    requires p == Paths(
      home + "requests/" + (moduleName + ".requests.ts"),
      home + "contracts/" + (moduleName + ".contract.ts"),
      home + "repos/" + (moduleName + ".repo.ts"),
      home + "services/" + (moduleName + ".service.ts"),
      home + "view-models/" + (moduleName + ".view-model.ts"))
    ensures InDir(p.transport, home + "requests/")
    ensures InDir(p.contract, home + "contracts/")
    ensures InDir(p.repository, home + "repos/")
    ensures InDir(p.service, home + "services/")
    ensures InDir(p.viewModel, home + "view-models/")
  {
    FileInDir(home + "requests/", moduleName, ".requests.ts");
    FileInDir(home + "contracts/", moduleName, ".contract.ts");
    FileInDir(home + "repos/", moduleName, ".repo.ts");
    FileInDir(home + "services/", moduleName, ".service.ts");
    FileInDir(home + "view-models/", moduleName, ".view-model.ts");
  }

  lemma ModulesFacts(home: string, moduleName: string, p: Paths)
    requires p == Paths(
      home + "requests/" + (moduleName + ".requests.ts"),
      home + "contracts/" + (moduleName + ".contract.ts"),
      home + "repos/" + (moduleName + ".repo.ts"),
      home + "services/" + (moduleName + ".service.ts"),
      home + "view-models/" + (moduleName + ".view-model.ts"))
    ensures AllEndWithTs(p) && PairwiseDistinct(p)
    ensures '/' !in moduleName ==>
      && InDir(p.transport, home + "requests/")
      && InDir(p.contract, home + "contracts/")
      && InDir(p.repository, home + "repos/")
      && InDir(p.service, home + "services/")
      && InDir(p.viewModel, home + "view-models/")
  {
    FileTs(home + "requests/", moduleName, ".requests.ts");
    FileTs(home + "contracts/", moduleName, ".contract.ts");
    FileTs(home + "repos/", moduleName, ".repo.ts");
    FileTs(home + "services/", moduleName, ".service.ts");
    FileTs(home + "view-models/", moduleName, ".view-model.ts");
    if '/' !in moduleName {
      ModulesInDir(home, moduleName, p);
    }
    var n := |home|;
    assert p.transport[n] == 'r' && p.transport[n + 2] == 'q';
    assert p.contract[n] == 'c';
    assert p.repository[n] == 'r' && p.repository[n + 2] == 'p';
    assert p.service[n] == 's';
    assert p.viewModel[n] == 'v';
  }

  lemma CleanInDir(base: string, moduleName: string, p: Paths)
    requires '/' !in moduleName
    requires p == Paths(
      base + "/transport/gateway/gRPC/requests/" + (moduleName + ".requests.ts"),
      base + "/domain/" + moduleName + "/" + (moduleName + ".contract.ts"),
      base + "/repository/" + moduleName + "/" + (moduleName + ".grpc.repo.ts"),
      base + "/service/" + moduleName + "/" + (moduleName + ".service.ts"),
      base + "/presentation/" + moduleName + "/" + (moduleName + ".view-model.ts"))
    ensures InDir(p.transport, base + "/transport/gateway/gRPC/requests/")
    ensures InDir(p.contract, base + "/domain/" + moduleName + "/")
    ensures InDir(p.repository, base + "/repository/" + moduleName + "/")
    ensures InDir(p.service, base + "/service/" + moduleName + "/")
    ensures InDir(p.viewModel, base + "/presentation/" + moduleName + "/")
  {
    FileInDir(base + "/transport/gateway/gRPC/requests/", moduleName, ".requests.ts");
    FileInDir(base + "/domain/" + moduleName + "/", moduleName, ".contract.ts");
    FileInDir(base + "/repository/" + moduleName + "/", moduleName, ".grpc.repo.ts");
    FileInDir(base + "/service/" + moduleName + "/", moduleName, ".service.ts");
    FileInDir(base + "/presentation/" + moduleName + "/", moduleName, ".view-model.ts");
  }

  lemma CleanFacts(base: string, moduleName: string, p: Paths)
    requires p == Paths(
      base + "/transport/gateway/gRPC/requests/" + (moduleName + ".requests.ts"),
      base + "/domain/" + moduleName + "/" + (moduleName + ".contract.ts"),
      base + "/repository/" + moduleName + "/" + (moduleName + ".grpc.repo.ts"),
      base + "/service/" + moduleName + "/" + (moduleName + ".service.ts"),
      base + "/presentation/" + moduleName + "/" + (moduleName + ".view-model.ts"))
    ensures AllEndWithTs(p) && PairwiseDistinct(p)
    ensures '/' !in moduleName ==>
      && InDir(p.transport, base + "/transport/gateway/gRPC/requests/")
      && InDir(p.contract, base + "/domain/" + moduleName + "/")
      && InDir(p.repository, base + "/repository/" + moduleName + "/")
      && InDir(p.service, base + "/service/" + moduleName + "/")
      && InDir(p.viewModel, base + "/presentation/" + moduleName + "/")
  {
    CleanTs(base, moduleName, p);
    if '/' !in moduleName {
      CleanInDir(base, moduleName, p);
    }
    CleanDistinct(base, moduleName, p);
  }

  lemma CleanTs(base: string, moduleName: string, p: Paths)
    requires p == Paths(
      base + "/transport/gateway/gRPC/requests/" + (moduleName + ".requests.ts"),
      base + "/domain/" + moduleName + "/" + (moduleName + ".contract.ts"),
      base + "/repository/" + moduleName + "/" + (moduleName + ".grpc.repo.ts"),
      base + "/service/" + moduleName + "/" + (moduleName + ".service.ts"),
      base + "/presentation/" + moduleName + "/" + (moduleName + ".view-model.ts"))
    ensures AllEndWithTs(p)
  {
    FileTs(base + "/transport/gateway/gRPC/requests/", moduleName, ".requests.ts");
    FileTs(base + "/domain/" + moduleName + "/", moduleName, ".contract.ts");
    FileTs(base + "/repository/" + moduleName + "/", moduleName, ".grpc.repo.ts");
    FileTs(base + "/service/" + moduleName + "/", moduleName, ".service.ts");
    FileTs(base + "/presentation/" + moduleName + "/", moduleName, ".view-model.ts");
  }

  /** The layers part right after the base directory, each with its own first letter. */
  lemma CleanDistinct(base: string, moduleName: string, p: Paths)
    requires p == Paths(
      base + "/transport/gateway/gRPC/requests/" + (moduleName + ".requests.ts"),
      base + "/domain/" + moduleName + "/" + (moduleName + ".contract.ts"),
      base + "/repository/" + moduleName + "/" + (moduleName + ".grpc.repo.ts"),
      base + "/service/" + moduleName + "/" + (moduleName + ".service.ts"),
      base + "/presentation/" + moduleName + "/" + (moduleName + ".view-model.ts"))
    ensures PairwiseDistinct(p)
  {
    var n := |base|;
    assert p.transport[n + 1] == 't';
    assert p.contract[n + 1] == 'd';
    assert p.repository[n + 1] == 'r';
    assert p.service[n + 1] == 's';
    assert p.viewModel[n + 1] == 'p';
  }

  /**
   * `resolvePaths`: a given override (even `""`) is used as it is; a missing
   * one falls back to the default for the output root, with one trailing `/`
   * removed, and the selected structure.
   */
  function ResolvePaths(outDir: string, moduleName: string, structure: Option<string>, custom: Overrides): (p: Paths)
    ensures custom.transport.Some? ==> p.transport == custom.transport.value
    ensures custom.contract.Some? ==> p.contract == custom.contract.value
    ensures custom.repository.Some? ==> p.repository == custom.repository.value
    ensures custom.service.Some? ==> p.service == custom.service.value
    ensures custom.viewModel.Some? ==> p.viewModel == custom.viewModel.value
    ensures var d := DefaultPaths(StripTrailingSlash(outDir), moduleName, StructureOf(structure));
      && (custom.transport.None? ==> p.transport == d.transport)
      && (custom.contract.None? ==> p.contract == d.contract)
      && (custom.repository.None? ==> p.repository == d.repository)
      && (custom.service.None? ==> p.service == d.service)
      && (custom.viewModel.None? ==> p.viewModel == d.viewModel)
    ensures custom == NoOverrides ==> AllEndWithTs(p) && PairwiseDistinct(p)
  {
    var d := DefaultPaths(StripTrailingSlash(outDir), moduleName, StructureOf(structure));
    Paths(
      custom.transport.GetOr(d.transport),
      custom.contract.GetOr(d.contract),
      custom.repository.GetOr(d.repository),
      custom.service.GetOr(d.service),
      custom.viewModel.GetOr(d.viewModel))
  }

  /** One trailing `/` on the output root makes no difference. */
  lemma TrailingSlashIgnored(outDir: string, moduleName: string, structure: Option<string>, custom: Overrides)
    requires !EndsWith(outDir, "/")
    ensures ResolvePaths(outDir + "/", moduleName, structure, custom) == ResolvePaths(outDir, moduleName, structure, custom)
  {
    assert EndsWith(outDir + "/", "/");
    assert StripTrailingSlash(outDir + "/") == outDir;
  }

  /** A missing, empty or unrecognised structure resolves exactly like `clean`. */
  lemma MissingStructureIsClean(outDir: string, moduleName: string, custom: Overrides, other: string)
    requires other != "flat" && other != "modules"
    ensures ResolvePaths(outDir, moduleName, None, custom) == ResolvePaths(outDir, moduleName, Some("clean"), custom)
    ensures ResolvePaths(outDir, moduleName, Some(other), custom) == ResolvePaths(outDir, moduleName, Some("clean"), custom)
  {
  }

  /** Without overrides every path ends in `.ts` and no two layers share a path, in every structure. */
  lemma DefaultsDistinct(outDir: string, moduleName: string, structure: Option<string>)
    ensures AllEndWithTs(ResolvePaths(outDir, moduleName, structure, NoOverrides))
    ensures PairwiseDistinct(ResolvePaths(outDir, moduleName, structure, NoOverrides))
  {
  }

  /** An override replaces that one layer; the others keep their defaults. An empty override is kept. */
  lemma OverrideTouchesOneLayer(outDir: string, moduleName: string, structure: Option<string>, v: string)
    ensures var d := ResolvePaths(outDir, moduleName, structure, NoOverrides);
      && ResolvePaths(outDir, moduleName, structure, NoOverrides.(transport := Some(v))) == d.(transport := v)
      && ResolvePaths(outDir, moduleName, structure, NoOverrides.(contract := Some(v))) == d.(contract := v)
      && ResolvePaths(outDir, moduleName, structure, NoOverrides.(repository := Some(v))) == d.(repository := v)
      && ResolvePaths(outDir, moduleName, structure, NoOverrides.(service := Some(v))) == d.(service := v)
      && ResolvePaths(outDir, moduleName, structure, NoOverrides.(viewModel := Some(v))) == d.(viewModel := v)
  {
  }

  /**
   * An output root that already ends in `/modules` gives the same `modules`
   * and `flat` layouts as its parent: the segment is never doubled.
   */
  lemma ModulesNotDoubled(parent: string, moduleName: string, structure: string, custom: Overrides)
    requires structure == "modules" || structure == "flat"
    requires !EndsWith(parent, "/") && !HasModulesSegment(parent)
    ensures ResolvePaths(parent + "/modules", moduleName, Some(structure), custom)
         == ResolvePaths(parent, moduleName, Some(structure), custom)
  {
    var withModules := parent + "/modules";
    assert withModules[|withModules| - 8..] == "/modules";
    assert StripTrailingSlash(withModules) == withModules;
    assert ModulesBase(withModules) == withModules;
  }

  lemma OutModulesExample(moduleName: string)
    ensures ResolvePaths("out/modules", moduleName, Some("modules"), NoOverrides)
         == ResolvePaths("out", moduleName, Some("modules"), NoOverrides)
  {
    assert !HasModulesSegment("out");
    assert "out" + "/modules" == "out/modules";
    ModulesNotDoubled("out", moduleName, "modules", NoOverrides);
  }
}
