/**
 * Loading a protobuf-ts service descriptor and normalising its methods.
 *
 * The dynamic `import()` of the descriptor module and of its sibling stub
 * files is replaced by inputs: the descriptor module is an ordered list of
 * named exports (in `Object.keys` order) or the value its import threw, and
 * the stub directory is an optional listing (absent when it cannot be read)
 * of file names with their export names (absent when the import threw).
 */
module LoadService {
  import opened Wrappers
  import opened Strings
  import PosixPath
  import Naming

  /** A thrown value: an `Error` with its message, or anything else with its `String(...)` text. */
  datatype Thrown = Error(message: string) | NonError(text: string)

  /** A protobuf-ts message type reference (`m.I` / `m.O`); `typeName` absent when undefined. */
  datatype TypeDescriptor = TypeDescriptor(typeName: Option<string>)

  /** One element of a service's `methods`: a nullish value or a method info object. */
  datatype MethodEntry =
    | Nullish
    | Entry(name: Option<string>, localName: Option<string>,
            input: Option<TypeDescriptor>, output: Option<TypeDescriptor>)

  /** A truthy `methods` value: an array, or any other object read through `Object.values`. */
  datatype Methods = MethodArray(elements: seq<MethodEntry>) | MethodObject(values: seq<MethodEntry>)

  /** The value of a module export: falsy, or a truthy value whose `methods` property may be falsy. */
  datatype Export = Falsy | Value(methods: Option<Methods>)

  datatype Binding = Binding(name: string, value: Export)

  /** A module namespace: its exports in `Object.keys` order. */
  type Namespace = seq<Binding>

  /** The outcome of importing the descriptor module. */
  datatype ModuleLoad = Loaded(ns: Namespace) | ImportFailed(thrown: Thrown)

  /** A directory entry of the stub directory and, when its import succeeded, its export names. */
  datatype StubFile = StubFile(name: string, exports: Option<seq<string>>)

  /** Type name, the stub file it comes from (`null` as `None`), and the full dotted name. */
  datatype TypeInfo = TypeInfo(name: string, source: Option<string>, fullTypeName: Option<string>)

  /** The normalised method record. */
  datatype Method = Method(
    name: string, originalName: Option<string>, localName: Option<string>,
    input: string, output: string,
    inputSource: Option<string>, outputSource: Option<string>,
    inputFullType: Option<string>, outputFullType: Option<string>)

  /** The loaded service: its name and normalised methods. */
  datatype Schema = Schema(name: string, methods: seq<Method>)

  /** JavaScript truthiness of an optional string. */
  predicate Truthy(s: Option<string>) {
    s.Some? && s.value != ""
  }

  // ---------------------------------------------------------------------------
  // The type source map
  // ---------------------------------------------------------------------------

  /** A stub file worth scanning: a `.ts` file that is not a generated `.client.ts`. */
  predicate IsStubSource(fileName: string) {
    EndsWith(fileName, ".ts") && !EndsWith(fileName, ".client.ts")
  }

  /** An export that names a type: neither `default` nor a `...Client` class. */
  predicate IsTypeExport(exportName: string) {
    exportName != "default" && !EndsWith(exportName, "Client")
  }

  /** The file records `exportName` as one of its types. */
  predicate Provides(f: StubFile, exportName: string) {
    IsStubSource(f.name) && f.exports.Some? && exportName in f.exports.value && IsTypeExport(exportName)
  }

  /** The module name a stub file is recorded under: its base name without `.ts`. */
  function StubBase(fileName: string): string {
    PosixPath.Basename(fileName, ".ts")
  }

  /** The entries one file contributes. */
  function FileTypes(f: StubFile): (m: map<string, string>)
    ensures forall k :: k in m <==> Provides(f, k)
    ensures forall k :: k in m ==> m[k] == StubBase(f.name)
  {
    if IsStubSource(f.name) && f.exports.Some? then
      map e | e in f.exports.value && IsTypeExport(e) :: StubBase(f.name)
    else map[]
  }

  /** The type map after scanning `files` in directory order, each file overwriting earlier entries. */
  function TypeSourceMap(files: seq<StubFile>): map<string, string>
    decreases |files|
  {
    if |files| == 0 then map[]
    else TypeSourceMap(files[..|files| - 1]) + FileTypes(files[|files| - 1])
  }

  /**
   * A name is in the type map exactly when some file provides it, and it is
   * mapped to the base name of the LAST file that does.
   */
  lemma TypeSourceMapSpec(files: seq<StubFile>)
    ensures forall k :: k in TypeSourceMap(files) <==> exists i :: 0 <= i < |files| && Provides(files[i], k)
    ensures forall k, i ::
              0 <= i < |files| && Provides(files[i], k) && (forall j :: i < j < |files| ==> !Provides(files[j], k))
              ==> k in TypeSourceMap(files) && TypeSourceMap(files)[k] == StubBase(files[i].name)
  {
    TypeSourceMapKeys(files);
    TypeSourceMapLast(files);
  }

  lemma {:induction false} TypeSourceMapKeys(files: seq<StubFile>)
    ensures forall k :: k in TypeSourceMap(files) <==> exists i :: 0 <= i < |files| && Provides(files[i], k)
    decreases |files|
  {
    if |files| > 0 {
      var init := files[..|files| - 1];
      var f := files[|files| - 1];
      TypeSourceMapKeys(init);
      forall k
        ensures k in TypeSourceMap(files) <==> exists i :: 0 <= i < |files| && Provides(files[i], k)
      {
        if k in FileTypes(f) {
          assert Provides(files[|files| - 1], k);
        } else if k in TypeSourceMap(init) {
          var i :| 0 <= i < |init| && Provides(init[i], k);
          assert files[i] == init[i];
        } else {
          forall i | 0 <= i < |files|
            ensures !Provides(files[i], k)
          {
            if i < |init| {
              assert files[i] == init[i];
            }
          }
        }
      }
    }
  }

  lemma {:induction false} TypeSourceMapLast(files: seq<StubFile>)
    ensures forall k, i ::
              0 <= i < |files| && Provides(files[i], k) && (forall j :: i < j < |files| ==> !Provides(files[j], k))
              ==> k in TypeSourceMap(files) && TypeSourceMap(files)[k] == StubBase(files[i].name)
    decreases |files|
  {
    if |files| > 0 {
      var init := files[..|files| - 1];
      var f := files[|files| - 1];
      TypeSourceMapLast(init);
      forall k, i | 0 <= i < |files| && Provides(files[i], k) && (forall j :: i < j < |files| ==> !Provides(files[j], k))
        ensures k in TypeSourceMap(files) && TypeSourceMap(files)[k] == StubBase(files[i].name)
      {
        if i < |init| {
          assert !Provides(f, k);
          assert init[i] == files[i];
          assert forall j :: i < j < |init| ==> init[j] == files[j];
        }
      }
    }
  }

  /** The stub that provides `k` last is the one the map names for it. */
  lemma LastProviderWins(files: seq<StubFile>, i: nat, k: string)
    requires i < |files| && Provides(files[i], k)
    requires forall j :: i < j < |files| ==> !Provides(files[j], k)
    ensures k in TypeSourceMap(files) && TypeSourceMap(files)[k] == StubBase(files[i].name)
  {
    TypeSourceMapLast(files);
  }

  /**
   * `buildTypeSourceMap`: an unreadable stub directory yields the empty map;
   * otherwise every exported type name maps to the last file providing it.
   */
  function BuildTypeSourceMap(listing: Option<seq<StubFile>>): (m: map<string, string>)
    ensures listing.None? ==> m == map[]
    ensures listing.Some? ==> forall k :: k in m <==>
      exists i :: 0 <= i < |listing.value| && Provides(listing.value[i], k)
    ensures listing.Some? ==> forall k, i ::
      0 <= i < |listing.value| && Provides(listing.value[i], k)
      && (forall j :: i < j < |listing.value| ==> !Provides(listing.value[j], k))
      ==> k in m && m[k] == StubBase(listing.value[i].name)
  {
    match listing
    case None => map[]
    case Some(files) => TypeSourceMapSpec(files); TypeSourceMap(files)
  }

  /** A later file providing the same name wins. */
  lemma LaterFileWins(earlier: StubFile, later: StubFile, k: string)
    requires Provides(earlier, k) && Provides(later, k)
    ensures k in TypeSourceMap([earlier, later])
    ensures TypeSourceMap([earlier, later])[k] == StubBase(later.name)
  {
    var files := [earlier, later];
    TypeSourceMapSpec(files);
    assert files[1] == later;
  }

  /** Client files and `...Client` exports never enter the map. */
  lemma ClientsIgnored(files: seq<StubFile>, k: string)
    requires EndsWith(k, "Client") || k == "default"
      || forall i :: 0 <= i < |files| ==> EndsWith(files[i].name, ".client.ts")
    ensures k !in TypeSourceMap(files)
  {
    TypeSourceMapSpec(files);
  }

  // ---------------------------------------------------------------------------
  // Type information
  // ---------------------------------------------------------------------------

  /** `fullTypeName.split(".").pop() || "Unknown"`. */
  function ShortTypeName(fullTypeName: string): (r: string)
    ensures r != "" && '.' !in r
  {
    var last := LastSegment(fullTypeName, '.');
    if last == "" then UnknownHasNoDot(); "Unknown" else last
  }

  lemma UnknownHasNoDot()
    ensures '.' !in "Unknown"
  {
    var u := "Unknown";
    assert u == ['U', 'n', 'k', 'n', 'o', 'w', 'n'];
  }

  /** The short type name is the piece `pop()` takes from the split, unless that piece is empty. */
  lemma ShortTypeNameIsPoppedPiece(fullTypeName: string)
    ensures var pieces := Split(fullTypeName, '.');
      ShortTypeName(fullTypeName) == (if pieces[|pieces| - 1] == "" then "Unknown" else pieces[|pieces| - 1])
  {
    LastSegmentIsLastPiece(fullTypeName, '.');
  }

  /** A qualified name's short name is its last component. */
  lemma ShortTypeNameOfQualified(package: string, name: string)
    requires name != "" && '.' !in name
    ensures ShortTypeName(package + "." + name) == name
  {
    LastSegmentAppend(package, '.', name);
  }

  /** A name ending in `.` has no last component and is reported as `Unknown`. */
  lemma ShortTypeNameTrailingDot(package: string)
    ensures ShortTypeName(package + ".") == "Unknown"
  {
    LastSegmentAppend(package, '.', "");
    assert package + "." + "" == package + ".";
  }

  /** The `getTypeInfo` helper for one side (`m.I` or `m.O`) of a method. */
  function GetTypeInfo(descriptorPath: string, typeMap: map<string, string>, t: Option<TypeDescriptor>): (r: TypeInfo)
    ensures (t.None? || !Truthy(t.value.typeName)) ==> r == TypeInfo("Unknown", None, None)
    ensures t.Some? && Truthy(t.value.typeName) ==>
      r.fullTypeName == t.value.typeName
      && r.name == ShortTypeName(t.value.typeName.value)
      && r.source.Some?
      && (r.name in typeMap && typeMap[r.name] != "" ==> r.source.value == typeMap[r.name])
      && (r.name !in typeMap || typeMap[r.name] == "" ==>
          r.source.value == PosixPath.Basename(descriptorPath, ".ts"))
  {
    if t.None? || !Truthy(t.value.typeName) then TypeInfo("Unknown", None, None)
    else
      var full := t.value.typeName.value;
      var name := ShortTypeName(full);
      var found := if name in typeMap then typeMap[name] else "";
      var source := if found != "" then found else PosixPath.Basename(descriptorPath, ".ts");
      TypeInfo(name, Some(source), Some(full))
  }

  /** A type missing from the map is attributed to the descriptor file itself. */
  lemma SourceFallsBackToDescriptor(dir: string, stem: string, typeMap: map<string, string>, package: string, name: string)
    requires dir == "" || dir[|dir| - 1] == '/'
    requires stem != "" && '/' !in stem
    requires name != "" && '.' !in name && name !in typeMap
    ensures GetTypeInfo(dir + stem + ".ts", typeMap, Some(TypeDescriptor(Some(package + "." + name))))
      == TypeInfo(name, Some(stem), Some(package + "." + name))
  {
    ShortTypeNameOfQualified(package, name);
    PosixPath.BasenameOfFile(dir, stem, ".ts");
  }

  /** A type found in the map is attributed to the stub file that last exported it. */
  lemma SourceFromStub(descriptorPath: string, files: seq<StubFile>, i: nat, package: string, name: string)
    requires i < |files| && Provides(files[i], name)
    requires forall j :: i < j < |files| ==> !Provides(files[j], name)
    requires StubBase(files[i].name) != ""
    requires name != "" && '.' !in name
    ensures GetTypeInfo(descriptorPath, TypeSourceMap(files), Some(TypeDescriptor(Some(package + "." + name))))
      == TypeInfo(name, Some(StubBase(files[i].name)), Some(package + "." + name))
  {
    var m := TypeSourceMap(files);
    LastProviderWins(files, i, name);
    ShortTypeNameOfQualified(package, name);
    FoundInMap(descriptorPath, m, package + "." + name);
  }

  /** A qualified name whose short name the map attributes to a stub takes that stub as its source. */
  lemma FoundInMap(descriptorPath: string, typeMap: map<string, string>, full: string)
    requires full != "" && ShortTypeName(full) in typeMap && typeMap[ShortTypeName(full)] != ""
    ensures GetTypeInfo(descriptorPath, typeMap, Some(TypeDescriptor(Some(full))))
      == TypeInfo(ShortTypeName(full), Some(typeMap[ShortTypeName(full)]), Some(full))
  {
  }

  // ---------------------------------------------------------------------------
  // Method normalisation
  // ---------------------------------------------------------------------------

  /** The message a property read on `undefined` throws. */
  function ReadOfUndefined(property: string): string {
    "Cannot read properties of undefined (reading '" + property + "')"
  }

  /**
   * One element of `methods` mapped to its method record: the name is the
   * truthy `localName`, else `name` with its first character lower-cased;
   * reading through a nullish element or a missing `name` throws.
   */
  function NormalizeMethod(descriptorPath: string, typeMap: map<string, string>, m: MethodEntry): (r: Result<Method, Thrown>)
    ensures m.Nullish? ==> r == Failure(Error(ReadOfUndefined("localName")))
    ensures m.Entry? && Truthy(m.localName) ==> r.Success? && r.value.name == m.localName.value
    ensures m.Entry? && !Truthy(m.localName) && m.name.None? ==> r == Failure(Error(ReadOfUndefined("charAt")))
    ensures m.Entry? && !Truthy(m.localName) && m.name.Some? ==>
      r.Success? && |r.value.name| == |m.name.value|
      && (|m.name.value| > 0 ==> r.value.name[0] == ToLower(m.name.value[0]))
      && (forall j :: 1 <= j < |m.name.value| ==> r.value.name[j] == m.name.value[j])
    ensures r.Success? ==>
      r.value.originalName == m.name && r.value.localName == m.localName
      && var i := GetTypeInfo(descriptorPath, typeMap, m.input);
      var o := GetTypeInfo(descriptorPath, typeMap, m.output);
      r.value.input == i.name && r.value.inputSource == i.source && r.value.inputFullType == i.fullTypeName
      && r.value.output == o.name && r.value.outputSource == o.source && r.value.outputFullType == o.fullTypeName
  {
    match m
    case Nullish => Failure(Error(ReadOfUndefined("localName")))
    case Entry(name, localName, input, output) =>
      if !Truthy(localName) && name.None? then Failure(Error(ReadOfUndefined("charAt")))
      else
        var methodName := if Truthy(localName) then localName.value else Naming.Camel(name.value);
        var i := GetTypeInfo(descriptorPath, typeMap, input);
        var o := GetTypeInfo(descriptorPath, typeMap, output);
        Success(Method(methodName, name, localName, i.name, o.name, i.source, o.source, i.fullTypeName, o.fullTypeName))
  }

  /**
   * `methodsArray.map(...)`: every element normalised in order, or the
   * error of the first element that throws.
   */
  function NormalizeAll(descriptorPath: string, typeMap: map<string, string>, ms: seq<MethodEntry>): (r: Result<seq<Method>, Thrown>)
    ensures r.Success? <==> forall i :: 0 <= i < |ms| ==> NormalizeMethod(descriptorPath, typeMap, ms[i]).Success?
    ensures r.Success? ==> (|r.value| == |ms|
      && forall i :: 0 <= i < |ms| ==> Success(r.value[i]) == NormalizeMethod(descriptorPath, typeMap, ms[i]))
    ensures r.Failure? ==>
              exists i :: 0 <= i < |ms| && NormalizeMethod(descriptorPath, typeMap, ms[i]) == Failure(r.error)
                && forall j :: 0 <= j < i ==> NormalizeMethod(descriptorPath, typeMap, ms[j]).Success?
    decreases |ms|
  {
    if |ms| == 0 then Success([])
    else
      var head := NormalizeMethod(descriptorPath, typeMap, ms[0]);
      var tail := NormalizeAll(descriptorPath, typeMap, ms[1..]);
      assert forall i :: 1 <= i < |ms| ==> ms[1..][i - 1] == ms[i];
      if head.Failure? then Failure(head.error)
      else if tail.Failure? then Failure(tail.error)
      else Success([head.value] + tail.value)
  }

  // ---------------------------------------------------------------------------
  // Loading the descriptor
  // ---------------------------------------------------------------------------

  /** `mod[key]`: the export bound to `key`, absent when there is none. */
  function Lookup(ns: Namespace, key: string): (r: Option<Export>)
    ensures r.Some? <==> exists i :: 0 <= i < |ns| && ns[i].name == key
    ensures r.Some? ==> exists i :: 0 <= i < |ns| && ns[i] == Binding(key, r.value)
    decreases |ns|
  {
    if |ns| == 0 then None
    else if ns[0].name == key then Some(ns[0].value)
    else
      assert forall i :: 1 <= i < |ns| ==> ns[1..][i - 1] == ns[i];
      Lookup(ns[1..], key)
  }

  /** `Object.keys(mod)`. */
  function Keys(ns: Namespace): (r: seq<string>)
    ensures |r| == |ns| && forall i :: 0 <= i < |ns| ==> r[i] == ns[i].name
  {
    seq(|ns|, i requires 0 <= i < |ns| => ns[i].name)
  }

  /** `Array.isArray(methods) ? methods : Object.values(methods)`. */
  function MethodList(methods: Methods): seq<MethodEntry> {
    match methods
    case MethodArray(elements) => elements
    case MethodObject(values) => values
  }

  function NotFoundMessage(serviceName: string, keys: seq<string>): string {
    "Service \"" + serviceName + "\" not found in descriptor.\nAvailable exports: " + Join(keys, ", ")
  }

  function NoMethodsMessage(serviceName: string): string {
    "Service \"" + serviceName + "\" exists but has no methods property. "
      + "Make sure you're loading a protobuf-ts compiled service."
  }

  function CannotLoadMessage(descriptorPath: string): string {
    "Failed to load descriptor: " + descriptorPath + "\n"
      + "Make sure the file exists and is a compiled TypeScript/JavaScript file."
  }

  /** The `try` block: import, look up, check, normalise. */
  function Attempt(descriptorPath: string, serviceName: string, load: ModuleLoad, listing: Option<seq<StubFile>>): (r: Result<Schema, Thrown>)
    ensures load.ImportFailed? ==> r == Failure(load.thrown)
    ensures load.Loaded? && !(Lookup(load.ns, serviceName).Some? && Lookup(load.ns, serviceName).value.Value?) ==>
      r == Failure(Error(NotFoundMessage(serviceName, Keys(load.ns))))
    ensures r.Success? ==> r.value.name == serviceName
  {
    match load
    case ImportFailed(thrown) => Failure(thrown)
    case Loaded(ns) =>
      match Lookup(ns, serviceName)
      case None => Failure(Error(NotFoundMessage(serviceName, Keys(ns))))
      case Some(Falsy) => Failure(Error(NotFoundMessage(serviceName, Keys(ns))))
      case Some(Value(None)) => Failure(Error(NoMethodsMessage(serviceName)))
      case Some(Value(Some(methods))) =>
        var typeMap := BuildTypeSourceMap(listing);
        var normalised :- NormalizeAll(descriptorPath, typeMap, MethodList(methods));
        Success(Schema(serviceName, normalised))
  }

  /**
   * The `catch` block: an `Error` mentioning a missing module becomes a
   * "Failed to load descriptor" error, other `Error`s pass through with
   * their message, and a non-`Error` is wrapped.
   */
  function Catch(descriptorPath: string, thrown: Thrown): (message: string)
    ensures thrown.Error? && Contains(thrown.message, "Cannot find module") ==>
      message == CannotLoadMessage(descriptorPath)
    ensures thrown.Error? && !Contains(thrown.message, "Cannot find module") ==> message == thrown.message
    ensures thrown.NonError? ==> message == "Failed to load service descriptor: " + thrown.text
  {
    match thrown
    case Error(msg) => if Contains(msg, "Cannot find module") then CannotLoadMessage(descriptorPath) else msg
    case NonError(text) => "Failed to load service descriptor: " + text
  }

  /**
   * `loadServiceDescriptor`: the service's schema, or the message of the
   * `Error` it throws. It succeeds exactly when the module loads, exports a
   * truthy value under `serviceName` with a truthy `methods`, and every
   * method normalises; the schema then carries `serviceName` and one record
   * per method, in order.
   */
  function LoadServiceDescriptor(descriptorPath: string, serviceName: string, load: ModuleLoad, listing: Option<seq<StubFile>>)
    : (r: Result<Schema, string>)
    ensures r.Success? <==>
      load.Loaded?
      && var found := Lookup(load.ns, serviceName);
      found.Some? && found.value.Value? && found.value.methods.Some?
      && forall i :: 0 <= i < |MethodList(found.value.methods.value)| ==>
           NormalizeMethod(descriptorPath, BuildTypeSourceMap(listing), MethodList(found.value.methods.value)[i]).Success?
    ensures r.Success? ==>
      var ms := MethodList(Lookup(load.ns, serviceName).value.methods.value);
      r.value.name == serviceName && |r.value.methods| == |ms|
      && forall i :: 0 <= i < |ms| ==>
           Success(r.value.methods[i]) == NormalizeMethod(descriptorPath, BuildTypeSourceMap(listing), ms[i])
  {
    match Attempt(descriptorPath, serviceName, load, listing)
    case Success(schema) => Success(schema)
    case Failure(thrown) => Failure(Catch(descriptorPath, thrown))
  }

  /** A missing or falsy export fails with the not-found message (as rewritten by the catch). */
  lemma NotFound(descriptorPath: string, serviceName: string, ns: Namespace, listing: Option<seq<StubFile>>)
    requires forall i :: 0 <= i < |ns| && ns[i].name == serviceName ==> ns[i].value == Falsy
    ensures LoadServiceDescriptor(descriptorPath, serviceName, Loaded(ns), listing)
      == Failure(Catch(descriptorPath, Error(NotFoundMessage(serviceName, Keys(ns)))))
  {
    var found := Lookup(ns, serviceName);
    if found.Some? {
      var i :| 0 <= i < |ns| && ns[i] == Binding(serviceName, found.value);
    }
  }

  /** An export without `methods` fails with the no-methods message (as rewritten by the catch). */
  lemma NoMethods(descriptorPath: string, serviceName: string, ns: Namespace, listing: Option<seq<StubFile>>)
    requires Lookup(ns, serviceName) == Some(Value(None))
    ensures LoadServiceDescriptor(descriptorPath, serviceName, Loaded(ns), listing)
      == Failure(Catch(descriptorPath, Error(NoMethodsMessage(serviceName))))
  {
    assert Attempt(descriptorPath, serviceName, Loaded(ns), listing) == Failure(Error(NoMethodsMessage(serviceName)));
  }

  /** A failed import whose message mentions a missing module reports the descriptor path. */
  lemma MissingModule(descriptorPath: string, serviceName: string, message: string, listing: Option<seq<StubFile>>)
    requires Contains(message, "Cannot find module")
    ensures LoadServiceDescriptor(descriptorPath, serviceName, ImportFailed(Error(message)), listing)
      == Failure(CannotLoadMessage(descriptorPath))
  {
  }

  /** Method names come from `localName` when it is set, else from `name` made camel-case. */
  lemma MethodNames(descriptorPath: string, serviceName: string, ns: Namespace, listing: Option<seq<StubFile>>, i: nat)
    requires LoadServiceDescriptor(descriptorPath, serviceName, Loaded(ns), listing).Success?
    requires Lookup(ns, serviceName).Some? && Lookup(ns, serviceName).value.Value?
    requires Lookup(ns, serviceName).value.methods.Some?
    requires i < |MethodList(Lookup(ns, serviceName).value.methods.value)|
    ensures var m := MethodList(Lookup(ns, serviceName).value.methods.value)[i];
      var r := LoadServiceDescriptor(descriptorPath, serviceName, Loaded(ns), listing).value;
      m.Entry? && i < |r.methods|
      && r.methods[i].name == (if Truthy(m.localName) then m.localName.value else Naming.Camel(m.name.value))
  {
    var m := MethodList(Lookup(ns, serviceName).value.methods.value)[i];
    var typeMap := BuildTypeSourceMap(listing);
    assert NormalizeMethod(descriptorPath, typeMap, m).Success?;
  }
}
