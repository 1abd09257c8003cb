# Service-layer scaffold generator: a verified model of its core

The generator reads a compiled protobuf-ts service descriptor and writes a
transport, contract, repository, service and view-model file for one module.
It supports three directory conventions: `clean`, `modules` and `flat`.
This project models the pure core of that tool in Dafny and proves what the
code promises about it:

- **Layout resolver** (`ResolvePaths`). It maps an output root, a module
  name, a structure name and per-layer overrides to five file paths.
- **Import-path calculator** (`ImportPath`, with the layout-specific edges in
  `LayoutImports`). It computes the relative, `.ts`-less, `/`-separated
  specifier from one generated file to another, and the four edges the
  generators need.
  - Node's POSIX `path.dirname`, `path.basename`, `path.resolve` and
    `path.relative` are modelled in `PosixPath`. Paths are strings; they are
    resolved to segment lists against a current-directory parameter.
- **Descriptor loading** (`LoadService`). It covers:
  - the type-source map built from the sibling stub files;
  - the not-found and no-methods checks;
  - per-method normalisation: method name, short type name, source-file
    fallback;
  - the error rewriting of the `catch` block.

  The dynamic imports are inputs. The descriptor module is an ordered list of
  exports, or the value its import threw. The stub directory is an optional
  listing of files with optional export lists.
- **Naming helpers** (`Naming`): `camel`, `pascal` and `toCamelCase`, over
  ASCII letters.
- **File finder** (`FileFinder`). It covers:
  - the depth-limited, exclusion-aware walk of `findFiles` over an inductive
    directory tree;
  - the `findServiceDescriptors` filter;
  - the seeded, de-duplicated, sorted list of `getDirectories`.
- **Support modules:**
  - `Strings`: JavaScript string predicates, `split` and `join`.
  - `Ordering`: the default `Array.prototype.sort` order, and an insertion
    sort proved to be the unique sorted permutation.
  - `Wrappers`: `Option` and `Result`.

The import specifier's relative-prefix rule has a corner case (see
Findings). The model keeps both versions:
- `...AsWritten` members follow the code;
- the unsuffixed members use the evidently intended rule, and the round-trip
  results are proved about them.

Two places where the code's own declarations and comments promise more than
its statements do; the model follows the statements:
- `src/types/index.ts:18` declares a fifth import edge,
  `viewModelToRepository`, which `calculateImportPaths`
  (`src/utils/import-path.ts:28-50`) never sets. The model has four edges.
- The comment at `src/core/load-service.ts:98` calls method names camel-case,
  but `m.localName || m.name.charAt(0).toLowerCase() + m.name.slice(1)`
  (`src/core/load-service.ts:99-100`) gives the empty name when `name` is
  `""` and `localName` is falsy. Nothing rejects it, and the model keeps it.

## Model

| member | source | states |
|---|---|---|
| Naming.Camel | src/utils/naming.ts:1-5 | same length, first character lower-cased, every later character unchanged; `""` stays `""` |
| Naming.Pascal | src/utils/naming.ts:7-10 | same length, first character upper-cased, every later character unchanged; `""` stays `""` |
| Naming.CamelIdempotent | src/utils/naming.ts:1-5 | `camel(camel(s)) = camel(s)` |
| Naming.PascalIdempotent | src/utils/naming.ts:7-10 | `pascal(pascal(s)) = pascal(s)` |
| Naming.CamelPascalAbsorb | src/utils/naming.ts:1-10 | `camel(pascal(s)) = camel(s)` and `pascal(camel(s)) = pascal(s)` |
| Naming.Recase | src/utils/naming.ts:15-17 | only index 0 can be lower-cased, later characters are kept or upper-cased, and separator characters stay separators |
| Naming.RemoveSeparators | src/utils/naming.ts:18 | the output has no white space, `_` or `-`, and no character that was not in the input |
| Naming.ToCamelCase | src/utils/naming.ts:13-19 | the output is no longer than the input and contains no white space, `_` or `-` |
| Naming.ToCamelCaseOfWord | src/utils/naming.ts:13-19 | on one alphanumeric word `toCamelCase` equals `camel` |
| Naming.KebabToCamel | src/utils/naming.ts:13-19 | `a-b` of lower-case words becomes `a` followed by `b` capitalised |
| Naming.SnakeAsWritten | src/utils/naming.ts:15 | as written, `a_b` of lower-case words becomes `ab`: the word after `_` is not capitalised |
| Naming.SnakeAsWrittenExample | src/utils/naming.ts:15 | `toCamelCase("user_service")` is `"userservice"` |
| Naming.ToCamelCaseCorrected | src/utils/naming.ts:12-19 | the corrected conversion also has no separator in its output |
| Naming.SnakeCorrected | src/utils/naming.ts:12-19 | with `_` treated as a word break, `a_b` becomes `a` followed by `b` capitalised |
| ResolvePaths.StructureOf | src/core/resolve-paths.ts:17-50 | the flat branch is taken exactly for `"flat"` and the modules branch exactly for `"modules"`; anything else, including a missing or empty name, is clean |
| ResolvePaths.StripTrailingSlash | src/core/resolve-paths.ts:16 | exactly one trailing `/` is removed and nothing else changes |
| ResolvePaths.ModulesBase | src/core/resolve-paths.ts:22-25 | the result always names a `modules` directory; `/modules` is appended only when the base has none |
| ResolvePaths.DefaultPaths | src/core/resolve-paths.ts:19-103 | every default ends in `.ts` and no two layers share a path. Each layer's file is `<m>` plus its suffix: `.requests.ts`, `.contract.ts`, `.repo.ts` (`.grpc.repo.ts` in clean), `.service.ts`, `.view-model.ts`. Flat: all five lie directly in `<modulesBase>/<m>/`. Modules: each lies in its subdirectory `requests/`, `contracts/`, `repos/`, `services/`, `view-models/` of that directory. Clean: in `transport/gateway/gRPC/requests/`, `domain/<m>/`, `repository/<m>/`, `service/<m>/`, `presentation/<m>/` under the base |
| ResolvePaths.ResolvePaths | src/core/resolve-paths.ts:15-104 | a given override, even `""`, is the layer's path verbatim. A missing one is the default for the root with one trailing `/` removed and the selected structure. With no overrides the five paths end in `.ts` and are pairwise distinct |
| ResolvePaths.TrailingSlashIgnored | src/core/resolve-paths.ts:16 | `outDir + "/"` resolves exactly like `outDir` |
| ResolvePaths.MissingStructureIsClean | src/core/resolve-paths.ts:17 | a missing or unrecognised structure resolves exactly like `clean` |
| ResolvePaths.DefaultsDistinct | src/core/resolve-paths.ts:27-103 | without overrides every path ends in `.ts` and the five are pairwise distinct, in every structure |
| ResolvePaths.OverrideTouchesOneLayer | src/core/resolve-paths.ts:84-103 | an override replaces exactly its own layer; the other four keep their defaults |
| ResolvePaths.ModulesNotDoubled | src/core/resolve-paths.ts:54-57 | a root already ending in `/modules` gives the same modules and flat paths as its parent |
| ResolvePaths.OutModulesExample | src/core/resolve-paths.ts:54-57 | `out/modules` and `out` give the same modules layout |
| PosixPath.Resolve | src/utils/import-path.ts:11 | resolving plain names keeps a path of plain names |
| PosixPath.AbsoluteJoin | src/utils/import-path.ts:10-11 | a directory joined with plain names resolves to the directory's segments followed by those names |
| PosixPath.DirnameOfFile | src/utils/import-path.ts:10 | `dirname(a/f)` resolves to the same directory as `a` |
| PosixPath.CommonPrefixLength | src/utils/import-path.ts:11 | the result is the length of the longest shared prefix: the prefixes agree and the next segments differ |
| PosixPath.CommonPrefixOfShared | src/utils/import-path.ts:11 | two paths that part ways right after `P` share exactly `P` |
| PosixPath.RelativeRoundTrip | src/utils/import-path.ts:11 | resolving `relative(from, to)` inside `from` gives back `to` |
| PosixPath.BasenameOfFile | src/core/load-service.ts:115 | the base name of `dir/stem.ts` without `.ts` is `stem` |
| ImportPath.StripTs | src/utils/import-path.ts:14 | one trailing `.ts` is removed and nothing else |
| ImportPath.ToForwardSlashes | src/utils/import-path.ts:22 | the result has no backslash and differs from the input only where a backslash was |
| ImportPath.Prefix | src/utils/import-path.ts:17-19 | the result is a relative specifier (`./…`, `..` or `../…`) ending with the input, which is left alone or given `./` |
| ImportPath.PrefixAgreement | src/utils/import-path.ts:17 | the as-written and intended prefix rules agree exactly when a leading `..` means climbing |
| ImportPath.PrefixDotSlash | src/utils/import-path.ts:17-19 | the intended rule adds `./` exactly to paths that do not climb |
| ImportPath.RelativeImportPathAsWritten | src/utils/import-path.ts:9-23 | the code's specifier has no backslash and opens with `./` or `..`. It opens with `..` exactly when the `.ts`-stripped relative path does, which need not mean it climbs |
| ImportPath.RelativeImportPath | src/utils/import-path.ts:9-23 | the specifier is relative and contains no backslash |
| ImportPath.AsWrittenAgrees | src/utils/import-path.ts:17-19 | the code's result equals the intended one unless the stripped path starts with `..` without climbing |
| ImportPath.SpecifierIsSteps | src/utils/import-path.ts:10-22 | the `.ts`-stripped relative path is the climb-then-descend steps joined by `/`; the specifier is the intended prefix rule applied to those steps |
| ImportPath.SpecifierAsWrittenIsSteps | src/utils/import-path.ts:10-22 | the function as written returns its own prefix rule (`./` unless the path starts with `..`) applied to the same joined steps |
| ImportPath.StepsResolve | src/utils/import-path.ts:10-14 | resolving the steps inside `dirname(from)` gives the target without `.ts` |
| ImportPath.StepsBelowIff | src/utils/import-path.ts:11-19 | the joined steps climb exactly when `dirname(from)` is not a prefix of `to` |
| ImportPath.StepsRoundTrip | src/utils/import-path.ts:10-19 | the steps with the intended prefix split back into steps that resolve to the target without `.ts` |
| ImportPath.ImportRoundTrip | src/utils/import-path.ts:10-14 | resolving the specifier inside `dirname(from)` gives `to` without `.ts` |
| ImportPath.ImportBelowIff | src/utils/import-path.ts:17-19 | the specifier starts with `./` exactly when `to` lies inside `dirname(from)` |
| ImportPath.ImportClimbs | src/utils/import-path.ts:10-11 | split at `/`, the specifier is `ClimbSegments`: `.` alone exactly when `dirname(from)` contains `to`, then one `..` for every segment of `dirname(from)` beyond its common prefix with `to`, then the rest of `to` without `.ts` |
| ImportPath.EdgeSpecifier | src/utils/import-path.ts:10-19 | between `P/X…` and `P/Y…`, the specifier is `|X|` climbs followed by `Y` without `.ts` |
| ImportPath.EdgeStepsValue | src/utils/import-path.ts:10-14 | two directories that part ways after `P` share exactly `P`, and the steps are `|X|` climbs then `Y` without `.ts` |
| ImportPath.CalculateImportPaths | src/utils/import-path.ts:28-50 | all four edges are relative specifiers |
| ImportPath.CalculateImportPathsAsWritten | src/utils/import-path.ts:28-50 | each of the code's four edges has no backslash and opens with `./` or `..` |
| ImportPath.ImportPathsResolve | src/utils/import-path.ts:34-49 | each of the four edges resolves from its importing file's directory to its target without `.ts` |
| ImportPath.ImportPathsIgnoreViewModel | src/utils/import-path.ts:28-33 | the edges do not depend on the view-model path |
| LayoutImports.LayoutEdge | src/utils/import-path.ts:9-23 | two files under one anchor get `../` once per directory of the importer, then the target's directories and stem |
| LayoutImports.CleanRepositoryToContract | src/utils/import-path.ts:36-39 | in the clean layout the repository imports the contract as `../../domain/<m>/<m>.contract` |
| LayoutImports.CleanImports | src/utils/import-path.ts:34-49 | all four clean-layout edges, climbing two levels; the code's rule gives the same |
| LayoutImports.ModulesImports | src/utils/import-path.ts:34-49 | all four modules-layout edges, `../<layer>/<m>.<kind>`; the code's rule gives the same |
| LayoutImports.FlatImports | src/utils/import-path.ts:34-49 | all four flat-layout edges are `./<m>.<kind>`; the code agrees exactly when the module name does not start with `..` |
| LayoutImports.FlatDotDotModule | src/utils/import-path.ts:17-19 | for module `..x` in the flat layout the code's repository-to-contract edge is the bare specifier `..x.contract`; the intended one is `./..x.contract` |
| LoadService.FileTypes | src/core/load-service.ts:25-36 | a readable `.ts` non-client file maps each of its type exports (not `default`, not `...Client`) to its base name without `.ts`, and nothing else |
| LoadService.TypeSourceMapSpec | src/core/load-service.ts:15-42 | a name is in the map exactly when some scanned file provides it, and it maps to the base name of the last file that does |
| LoadService.TypeSourceMapKeys | src/core/load-service.ts:20-35 | a name is a key of the map exactly when some scanned file provides it |
| LoadService.TypeSourceMapLast | src/core/load-service.ts:20-35 | a name maps to the base name of the last scanned file that provides it, since each `set` overwrites |
| LoadService.BuildTypeSourceMap | src/core/load-service.ts:8-50 | an unreadable directory gives the empty map; otherwise the map holds exactly the names some file provides, each mapped to the base name of the last file providing it (the `Map.set` overwrite) |
| LoadService.LaterFileWins | src/core/load-service.ts:34 | of two files exporting the same type, the later one is recorded |
| LoadService.ClientsIgnored | src/core/load-service.ts:15-36 | `default`, `...Client` exports and `.client.ts` files never enter the map |
| LoadService.ShortTypeName | src/core/load-service.ts:107-108 | the short type name is never empty and contains no `.` |
| LoadService.ShortTypeNameIsPoppedPiece | src/core/load-service.ts:108 | it is the last piece of `split(".")`, or `Unknown` when that piece is empty |
| LoadService.ShortTypeNameOfQualified | src/core/load-service.ts:107-108 | `pkg.Name` shortens to `Name` |
| LoadService.ShortTypeNameTrailingDot | src/core/load-service.ts:108 | a name ending in `.` shortens to `Unknown` |
| LoadService.GetTypeInfo | src/core/load-service.ts:103-125 | a missing descriptor or falsy `typeName` gives `Unknown` with no source or full name. Otherwise it gives the short name, the full name, and the map's non-empty entry or else the descriptor's base name as source (never null) |
| LoadService.SourceFallsBackToDescriptor | src/core/load-service.ts:111-116 | a type missing from the map is attributed to the descriptor file's stem |
| LoadService.SourceFromStub | src/core/load-service.ts:111 | a type in the map is attributed to the last stub file that exports it |
| LoadService.NormalizeMethod | src/core/load-service.ts:97-143 | the name is the truthy `localName`, else `name` with its first character lower-cased and the rest unchanged. A nullish element or a missing `name` throws. The record carries the original names and both type infos |
| LoadService.NormalizeAll | src/core/load-service.ts:97 | it succeeds exactly when every element normalises, with one record per element in order; otherwise it fails with the first element's error |
| LoadService.Lookup | src/core/load-service.ts:68 | an export is found exactly when some binding has the name, and what is found is bound to it |
| LoadService.Attempt | src/core/load-service.ts:56-144 | an import failure is thrown on; a missing or falsy export throws the not-found error listing the export names; a schema is named after the service |
| LoadService.Catch | src/core/load-service.ts:145-157 | an `Error` mentioning `Cannot find module` becomes the `Failed to load descriptor: <path>` error; other `Error`s keep their message; anything else is wrapped |
| LoadService.LoadServiceDescriptor | src/core/load-service.ts:52-158 | it succeeds exactly when the module loads, the export and its `methods` are truthy, and every method normalises. The schema then has the service's name and one record per method, in array or `Object.values` order |
| LoadService.NotFound | src/core/load-service.ts:68-76 | a missing or falsy export fails with the not-found message, passed through the catch |
| LoadService.NoMethods | src/core/load-service.ts:78-83 | an export without `methods` fails with the no-methods message, passed through the catch |
| LoadService.MissingModule | src/core/load-service.ts:146-153 | an import error mentioning a missing module is reported as `Failed to load descriptor: <path>` |
| LoadService.MethodNames | src/core/load-service.ts:99-100 | in a loaded schema, method `i` is named by its truthy `localName`, else by `camel(name)` |
| FileFinder.FindFiles | src/utils/file-finder.ts:14-49 | the result is sorted and is a permutation of the paths the walk collected |
| FileFinder.SearchSound | src/utils/file-finder.ts:24-45 | every collected file exists in the tree and matches the pattern. No directory on its path is excluded, and it is at most `maxDepth` levels down |
| FileFinder.SearchComplete | src/utils/file-finder.ts:24-45 | every file of the tree meeting those three conditions is collected |
| FileFinder.VisitSound | src/utils/file-finder.ts:27-40 | every file collected through one entry is that file, or lies below that directory, and is admitted |
| FileFinder.VisitComplete | src/utils/file-finder.ts:27-40 | every admitted file at or below one entry is collected through it |
| FileFinder.FindFilesExactly | src/utils/file-finder.ts:14-49 | for every depth limit, a negative one included, a path is returned exactly when it names an admitted file of the tree |
| FileFinder.FoundFileSound | src/utils/file-finder.ts:14-49 | every returned path names an admitted file of the tree |
| FileFinder.FoundFileComplete | src/utils/file-finder.ts:14-49 | every admitted file of the tree has its path returned |
| FileFinder.UnreadableRoot | src/utils/file-finder.ts:42-44 | an unreadable root yields the empty list rather than a failure |
| FileFinder.UnreadableDirectory | src/utils/file-finder.ts:42-44 | an unreadable subdirectory contributes what an empty one does |
| FileFinder.FilterDescriptors | src/utils/file-finder.ts:64-72 | a path is in the result exactly when it is in the input and passes the descriptor test, and the result keeps the input's order |
| FileFinder.FilterKeepsEveryCopy | src/utils/file-finder.ts:64-72 | every copy of a passing path is kept and every copy of a failing one dropped, so with the order clause the result is exactly what `filter` returns |
| FileFinder.FindServiceDescriptors | src/utils/file-finder.ts:54-73 | the result is the sub-list of `findFiles` (pattern `-service.ts`, depth 8) whose members are exactly the paths passing the descriptor test |
| FileFinder.ServiceDescriptorCopies | src/utils/file-finder.ts:54-73 | each passing path appears as often as `findFiles` returns it, and no failing path appears |
| FileFinder.SubsequenceSorted | src/utils/file-finder.ts:64 | filtering a sorted list keeps it sorted |
| FileFinder.ServiceDescriptorsShape | src/utils/file-finder.ts:57-72 | every descriptor path is sorted and ends with `-service.ts`. Lower-cased, it lacks `load-service` and holds `stub`, `proto` or `grpc` |
| FileFinder.OfferedDirs | src/utils/file-finder.ts:82-91 | `./<name>` is offered exactly for directories not starting with `.` and not `node_modules`, `dist` or `build` |
| FileFinder.Dedup | src/utils/file-finder.ts:96 | the result has no duplicates and the same elements as the input |
| FileFinder.GetDirectories | src/utils/file-finder.ts:78-97 | the result is sorted, duplicate-free, always holds the four seeds, and holds nothing but seeds and offered directories |
| Ordering.SortStrings | src/utils/file-finder.ts:48 | the result is sorted and a permutation of the input |
| Ordering.SortedPermutationUnique | src/utils/file-finder.ts:48 | two sorted permutations of one list are equal, so any correct sort gives the modelled result |

## Left out

- I/O is abstracted. The process's current directory, the file system and the dynamic `import()` become inputs. These include the descriptor module, the stub listing and the directory tree. Logging (`logger.debug`/`warn`) is not modelled.
- The generators, the template rendering, the file writing, the proto compiler and the command-line plumbing are not part of this model. They wrap external tools or perform side effects.
- Windows paths are out of scope: drive letters and `\` as a separator. Paths are POSIX; the backslash rewrite is modelled as a character substitution.
- `PosixPath` models what the import calculation needs of Node's `path`. `dirname` and `basename` follow Node's POSIX string rules. `resolve` and `relative` work on segment lists, with `..` at the root staying at the root.
- ImportPath.ImportRoundTrip: proved for targets that are `.ts` files with a plain name and lie outside `dirname(from)`'s ancestry. No backslash may appear in the segments the specifier spells; a backslash would be rewritten to `/`.
- Naming.Camel: case mapping covers ASCII letters only; JavaScript's `toLowerCase` also maps other scripts.
- Naming.Pascal: case mapping covers ASCII letters only; JavaScript's `toUpperCase` also maps other scripts, sometimes to several characters (`'ß'` becomes `"SS"`).
- Naming.ToCamelCase: `\w` and word boundaries are ASCII, as JavaScript regular expressions without the `u` flag define them.
- Ordering.SortStrings: strings are compared by Dafny character, not by UTF-16 code unit. The two orders differ only for characters outside the Basic Multilingual Plane.
- LoadService.NormalizeMethod: a throw from reading a property of a nullish value uses V8's message text. `null` and `undefined` elements are not told apart. Values of other types in `name`, `localName` or `typeName` are not modelled.
- LoadService.LoadServiceDescriptor: the `file://` URL built for the import is not modelled, because the import itself is an input. The order of `Object.keys` and `Object.values` is part of the input.
- FileFinder.FindFiles: the regular expression is an arbitrary predicate on the entry name. The relative path is the directory names and file name joined by `/`, which is what `path.relative` gives for entries below the root. Symbolic links and other non-regular entries are neither searched nor returned, as `Dirent` reports them.

## Findings

| source | as written | input that shows it | evidently intended | confidence | as-written member | corrected member |
|---|---|---|---|---|---|---|
| src/utils/naming.ts:15 | `\b\w` never matches after `_`, because `_` is itself a word character | `toCamelCase("user_service")` gives `"userservice"` | `"userService"`, as the snake_case comment says | high, not executed | Naming.SnakeAsWrittenExample | Naming.SnakeCorrected |
| src/utils/import-path.ts:17 | `startsWith("..")` also skips `./` for a name that merely begins with two dots | flat layout, module `..x`: the repository imports the contract as `..x.contract`, a bare package specifier | `./..x.contract`: only `..` and `../…` climb | medium, not executed | LayoutImports.FlatDotDotModule | ImportPath.RelativeImportPath |
