/** `TSService` (src/background/services/typescript.ts): the in-memory analysis bridge.
    It keeps a virtual workspace of source files, fills it with an entry file and the
    type declarations of the packages that file imports, binds a language-service host
    that reads through to the workspace, and answers three position queries.
    The TypeScript language service itself is abstract: its answers are an `Engine`. */
module TypeScriptService {
  import opened Wrappers
  import opened Sequences
  import opened Hints
  import ImportExtractor
  import opened DeclarationFetcher

  // ---------------------------------------------------------------------------
  // Declaration paths

  const TypesRoot: string := "/node_modules/@types/"
  const IndexFile: string := "/index.d.ts"

  /** `getFullLibName`: the workspace path under which a package's declarations live. */
  function FullLibName(name: string): (path: string)
    ensures LibNameOf(path) == Some(name)
  {
    var path := TypesRoot + name + IndexFile;
    assert path[..|TypesRoot|] == TypesRoot;
    assert path[|path| - |IndexFile|..] == IndexFile;
    assert path[|TypesRoot|..|path| - |IndexFile|] == name;
    path
  }

  /** The package a declaration path was derived from, if it is one. */
  function LibNameOf(path: string): Option<string> {
    if |path| >= |TypesRoot| + |IndexFile|
      && path[..|TypesRoot|] == TypesRoot && path[|path| - |IndexFile|..] == IndexFile
    then Some(path[|TypesRoot|..|path| - |IndexFile|])
    else None
  }

  /** Distinct package names get distinct workspace keys. */
  lemma FullLibNameInjective(a: string, b: string)
    requires a != b
    ensures FullLibName(a) != FullLibName(b)
  {
  }

  // ---------------------------------------------------------------------------
  // The virtual workspace

  /** One workspace entry: its version (never bumped, see `updateContent`) and text. */
  datatype WorkspaceFile = WorkspaceFile(version: nat, content: string)

  type Files = map<string, WorkspaceFile>

  /** The effect of `updateContent`: a path already present keeps its entry whatever
      the new code; an absent path gets version 0 with the code. */
  function Inserted(files: Files, path: string, code: string): (r: Files)
    ensures r.Keys == files.Keys + {path}
    ensures forall p :: p in files ==> r[p] == files[p]
    ensures path in files ==> r == files
    ensures path !in files ==> r[path] == WorkspaceFile(0, code)
  {
    if path in files then files else files[path := WorkspaceFile(0, code)]
  }

  /** Inserting at a path twice is the same as inserting once, whatever the second code. */
  lemma InsertedIdempotent(files: Files, path: string, code: string, code': string)
    ensures Inserted(Inserted(files, path, code), path, code') == Inserted(files, path, code)
  {
  }

  /** The `forEach` of `createService`: every name whose fetched text is truthy has that
      text inserted at its declaration path, in name order. */
  function Installed(files: Files, names: seq<string>, codes: seq<Option<string>>): (r: Files)
    requires |names| == |codes|
    ensures forall p :: p in files ==> p in r && r[p] == files[p]
  {
    if names == [] then files
    else
      var n := |names| - 1;
      var g := Installed(files, names[..n], codes[..n]);
      if Truthy(codes[n]) then Inserted(g, FullLibName(names[n]), codes[n].value) else g
  }

  /** The declaration paths of the names whose fetched text is truthy. */
  ghost function InstalledPaths(names: seq<string>, codes: seq<Option<string>>): set<string>
    requires |names| == |codes|
  {
    set i | 0 <= i < |names| && Truthy(codes[i]) :: FullLibName(names[i])
  }

  /** Installing keeps every existing entry, adds exactly the paths of the names with
      truthy text and, when the names are distinct, stores each fetched text at its path. */
  lemma {:induction false} InstalledSpec(files: Files, names: seq<string>, codes: seq<Option<string>>)
    requires |names| == |codes|
    ensures Installed(files, names, codes).Keys == files.Keys + InstalledPaths(names, codes)
    ensures forall p :: p in files ==> Installed(files, names, codes)[p] == files[p]
    ensures NoDuplicates(names) ==>
      forall i :: 0 <= i < |names| && Truthy(codes[i]) && FullLibName(names[i]) !in files ==>
        Installed(files, names, codes)[FullLibName(names[i])] == WorkspaceFile(0, codes[i].value)
  {
    if names != [] {
      var n := |names| - 1;
      var g := Installed(files, names[..n], codes[..n]);
      InstalledSpec(files, names[..n], codes[..n]);
      var r := Installed(files, names, codes);
      assert InstalledPaths(names, codes) ==
        InstalledPaths(names[..n], codes[..n]) + (if Truthy(codes[n]) then {FullLibName(names[n])} else {});
      if NoDuplicates(names) {
        assert NoDuplicates(names[..n]);
        forall i | 0 <= i < |names| && Truthy(codes[i]) && FullLibName(names[i]) !in files
          ensures r[FullLibName(names[i])] == WorkspaceFile(0, codes[i].value)
        {
          if i < n {
            assert names[..n][i] == names[i] && codes[..n][i] == codes[i];
            assert g[FullLibName(names[i])] == WorkspaceFile(0, codes[i].value);
            if Truthy(codes[n]) {
              FullLibNameInjective(names[i], names[n]);
            }
          } else {
            forall j | 0 <= j < n
              ensures FullLibName(names[..n][j]) != FullLibName(names[n])
            {
              assert names[..n][j] == names[j];
              FullLibNameInjective(names[j], names[n]);
            }
            assert FullLibName(names[n]) !in g;
          }
        }
      }
    }
  }

  /** One more round of the `forEach`. */
  lemma InstalledStep(files: Files, names: seq<string>, codes: seq<Option<string>>, i: nat)
    requires |names| == |codes| && i < |names|
    ensures Installed(files, names[..i + 1], codes[..i + 1]) ==
      var g := Installed(files, names[..i], codes[..i]);
      if Truthy(codes[i]) then Inserted(g, FullLibName(names[i]), codes[i].value) else g
  {
    assert names[..i + 1][..i] == names[..i] && codes[..i + 1][..i] == codes[..i];
  }

  // ---------------------------------------------------------------------------
  // Declaration fetching against the workspace

  /** `fetchLibCode`: nothing is requested for a package whose declaration path is
      already in the workspace; otherwise the registry lookup decides. */
  function FetchLibCode(files: Files, name: string, net: Network): (f: Fetch)
    ensures FullLibName(name) in files ==> f.text == None && f.requests == []
    ensures FullLibName(name) !in files ==> f == FetchDeclarations(name, net)
  {
    if FullLibName(name) in files then Fetch(None, []) else FetchDeclarations(name, net)
  }

  /** `Promise.all(libNames.map(fetchLibCode))`: every lookup starts before any result
      is inserted, so all of them see the same workspace. Results are in name order. */
  function LibCodes(files: Files, names: seq<string>, net: Network): (codes: seq<Option<string>>)
    ensures |codes| == |names|
    ensures forall i :: 0 <= i < |names| && FullLibName(names[i]) in files ==> codes[i] == None
    ensures forall i :: 0 <= i < |names| && FullLibName(names[i]) !in files ==>
      codes[i] == FetchDeclarations(names[i], net).text
  {
    seq(|names|, i requires 0 <= i < |names| => FetchLibCode(files, names[i], net).text)
  }

  /** `fetchLibCode` as written: the same workspace check, then the as-written lookup,
      whose promise can reject. When it resolves, it agrees with `FetchLibCode`. */
  function FetchLibCodeAsWritten(files: Files, name: string, net: Network): (a: Attempt)
    ensures FullLibName(name) in files ==> a == Attempt(Resolved(None), [])
    ensures a.settled.Resolved? ==> a.settled.value == FetchLibCode(files, name, net).text
    ensures FullLibName(name) !in files ==> |a.requests| >= 1
    ensures a.settled.Rejected? ==> FullLibName(name) !in files && !Supplies(net(a.requests[|a.requests| - 1]))
  {
    if FullLibName(name) in files then Attempt(Resolved(None), [])
    else
      AsWrittenRejectsOnlyOnUnreadableBody(name, net);
      FetchDeclarationsAsWritten(name, net)
  }

  /** `await Promise.all(libNames.map(fetchLibCode))` as written: it throws (`None`)
      as soon as one lookup rejects; otherwise it yields every lookup's value, in name
      order, and these are the corrected values `LibCodes`. */
  function LibCodesAsWritten(files: Files, names: seq<string>, net: Network): (r: Option<seq<Option<string>>>)
    ensures r.None? <==> exists i :: 0 <= i < |names| && FetchLibCodeAsWritten(files, names[i], net).settled.Rejected?
    ensures r.Some? ==> r.value == LibCodes(files, names, net)
  {
    var settled := seq(|names|, i requires 0 <= i < |names| => FetchLibCodeAsWritten(files, names[i], net).settled);
    if exists i :: 0 <= i < |settled| && settled[i].Rejected? then None
    else
      assert forall i :: 0 <= i < |names| ==> settled[i] == FetchLibCodeAsWritten(files, names[i], net).settled;
      Some(seq(|names|, i requires 0 <= i < |names| => settled[i].value))
  }

  /** One package whose `@types` file answers OK with an unreadable body is enough for
      the batch to throw; the corrected lookups yield `undefined` for it instead. */
  lemma BatchRejectionExample(files: Files, name: string)
    requires FullLibName(name) !in files
    ensures LibCodesAsWritten(files, [name], u => Response(true, Manifest(None), Unreadable)) == None
    ensures LibCodes(files, [name], u => Response(true, Manifest(None), Unreadable)) == [None]
  {
    var net: Network := u => Response(true, Manifest(None), Unreadable);
    AsWrittenRejectionExample(name);
    assert FetchLibCodeAsWritten(files, [name][0], net).settled.Rejected?;
  }

  /** Once a package's declarations are installed, a later lookup for it issues no
      request: a session fetches each package at most once. */
  lemma InstalledNotFetchedAgain(files: Files, names: seq<string>, codes: seq<Option<string>>, i: nat, net: Network)
    requires |names| == |codes| && i < |names| && Truthy(codes[i])
    ensures FetchLibCode(Installed(files, names, codes), names[i], net) == Fetch(None, [])
  {
    InstalledSpec(files, names, codes);
    assert FullLibName(names[i]) in InstalledPaths(names, codes);
  }

  // ---------------------------------------------------------------------------
  // The language-service host and the session

  /** `TSService.defaultLibName`: the synthetic name of the embedded standard library. */
  const DefaultLibName: string := "//lib.d.ts"

  /** The host's `getCurrentDirectory`. */
  const CurrentDirectory: string := "/"

  /** The fixed compilation settings handed to the engine. */
  datatype CompilationSettings = CompilationSettings(allowJs: bool, diagnostics: bool, allowSyntheticDefaultImports: bool)

  const Settings: CompilationSettings := CompilationSettings(true, true, true)

  /** A script snapshot: the embedded default library, or one built from a string. */
  datatype Snapshot = DefaultLib | FromString(text: string)

  /** The language service created over a host. */
  datatype LanguageService = LanguageService(
    host: LanguageServiceHost, settings: CompilationSettings, currentDirectory: string, defaultLibFileName: string)

  /** `Number.prototype.toString` for the natural numbers stored as versions. */
  function DecimalString(n: nat): (s: string)
    ensures |s| >= 1
    ensures forall k :: 0 <= k < |s| ==> '0' <= s[k] <= '9'
    ensures s == "0" <==> n == 0
  {
    if n < 10 then [Digit(n)] else DecimalString(n / 10) + [Digit(n % 10)]
  }

  function Digit(d: nat): (c: char)
    requires d < 10
    ensures '0' <= c <= '9'
    ensures c == '0' <==> d == 0
  {
    ['0', '1', '2', '3', '4', '5', '6', '7', '8', '9'][d]
  }

  /** The value of a string of decimal digits. */
  function DecimalValue(s: string): nat
    requires forall k :: 0 <= k < |s| ==> '0' <= s[k] <= '9'
  {
    if s == [] then 0 else 10 * DecimalValue(s[..|s| - 1]) + (s[|s| - 1] - '0') as nat
  }

  /** The decimal rendering of a version reads back as that version. */
  lemma {:induction false} DecimalRoundTrip(n: nat)
    ensures DecimalValue(DecimalString(n)) == n
  {
    var s := DecimalString(n);
    if n >= 10 {
      DecimalRoundTrip(n / 10);
      assert s[..|s| - 1] == DecimalString(n / 10);
    }
    assert (Digit(n % 10) - '0') as nat == n % 10;
  }

  /** The `LanguageServiceHost` object literal of `createService`. It holds only the
      service it reads from and caches nothing: file names, versions and snapshots are
      recomputed from the workspace on every call. */
  class LanguageServiceHost {
    const owner: TSService

    constructor (owner: TSService)
      ensures this.owner == owner
    {
      this.owner := owner;
    }

    /** `getScriptFileNames`: `Object.keys(files)`, in insertion order. */
    function GetScriptFileNames(): (names: seq<string>)
      reads owner
      requires owner.Valid()
      ensures NoDuplicates(names)
      ensures forall p :: p in names <==> p in owner.files
    {
      owner.fileNames
    }

    /** `getScriptVersion`: the stored version as a string, `"0"` for an unknown name. */
    function GetScriptVersion(fileName: string): (v: string)
      reads owner
      ensures fileName in owner.files ==>
        (forall k :: 0 <= k < |v| ==> '0' <= v[k] <= '9') && DecimalValue(v) == owner.files[fileName].version
      ensures fileName !in owner.files ==> v == "0"
    {
      var s := if fileName in owner.files then DecimalString(owner.files[fileName].version) else "";
      DecimalRoundTrip(if fileName in owner.files then owner.files[fileName].version else 0);
      if s != "" then s else "0"
    }

    /** `getScriptSnapshot`: the default library by its synthetic name (checked first),
        a snapshot of the stored text for a workspace file, and nothing otherwise. */
    function GetScriptSnapshot(fileName: string): (s: Option<Snapshot>)
      reads owner
      ensures fileName == DefaultLibName ==> s == Some(DefaultLib)
      ensures fileName != DefaultLibName ==> (s.Some? <==> fileName in owner.files)
      ensures fileName != DefaultLibName && fileName in owner.files ==>
        s == Some(FromString(owner.files[fileName].content))
    {
      if fileName == DefaultLibName then Some(DefaultLib)
      else if fileName in owner.files then Some(FromString(owner.files[fileName].content))
      else None
    }
  }

  /** Versions are never bumped, so the host reports version `"0"` for every name. */
  lemma VersionAlwaysZero(host: LanguageServiceHost, fileName: string)
    requires host.owner.Valid()
    ensures host.GetScriptVersion(fileName) == "0"
  {
    if fileName in host.owner.files {
      assert DecimalString(0) == "0";
    }
  }

  // ---------------------------------------------------------------------------
  // The engine's answers

  /** A site from `getReferencesAtPosition`. */
  datatype ReferenceEntry = ReferenceEntry(fileName: string, textSpan: TextSpan, isWriteAccess: bool)

  /** A site from `getDefinitionAtPosition`. */
  datatype DefinitionInfo = DefinitionInfo(fileName: string, textSpan: TextSpan)

  /** The answer of `getQuickInfoAtPosition`. */
  datatype QuickInfoEntry = QuickInfoEntry(displayParts: seq<DisplayPart>, textSpan: TextSpan)

  /** What the language service answers for the queried file: the source file's
      `getPositionOfLineAndCharacter` (`None` where it throws, including when the
      program has no such file) and `getLineAndCharacterOfPosition`, and the three
      lookups by file and offset (`None` for `undefined`). */
  datatype Engine = Engine(
    positionOf: (nat, nat) -> Option<nat>,
    lineAndCharacterOf: nat -> Position,
    references: (string, nat) -> Option<seq<ReferenceEntry>>,
    definitions: (string, nat) -> Option<seq<DefinitionInfo>>,
    quickInfo: (string, nat) -> Option<QuickInfoEntry>)

  /** The test `({ fileName }) => fileName === file`. */
  function InFile(file: string): ReferenceEntry -> bool {
    (ref: ReferenceEntry) => ref.fileName == file
  }

  /** The hint drawn for one reference. */
  function ToOccurrence(ref: ReferenceEntry, engine: Engine): Occurrence {
    Occurrence(ref.isWriteAccess, engine.lineAndCharacterOf(ref.textSpan.start), ref.textSpan.length)
  }

  /** The references in `file`, turned into hints, in their original order. */
  function SameFileOccurrences(refs: seq<ReferenceEntry>, file: string, engine: Engine): (r: seq<Occurrence>)
    ensures |r| <= |refs|
    ensures forall o :: o in r <==>
      exists ref :: ref in refs && ref.fileName == file && o == ToOccurrence(ref, engine)
  {
    var kept := Filter(refs, InFile(file));
    var r := seq(|kept|, k requires 0 <= k < |kept| => ToOccurrence(kept[k], engine));
    assert forall o :: o in r <==> exists ref :: ref in kept && o == ToOccurrence(ref, engine) by {
      forall o ensures o in r <==> exists ref :: ref in kept && o == ToOccurrence(ref, engine) {
        if o in r {
          var k :| 0 <= k < |r| && r[k] == o;
          assert kept[k] in kept;
        }
        if exists ref :: ref in kept && o == ToOccurrence(ref, engine) {
          var ref :| ref in kept && o == ToOccurrence(ref, engine);
          var k :| 0 <= k < |kept| && kept[k] == ref;
          assert r[k] == o;
        }
      }
    }
    r
  }

  /** Filtering to the queried file keeps the references' order: the hints for a
      concatenation are the hints for each part, concatenated. */
  lemma OccurrencesKeepOrder(a: seq<ReferenceEntry>, b: seq<ReferenceEntry>, file: string, engine: Engine)
    ensures SameFileOccurrences(a + b, file, engine) ==
      SameFileOccurrences(a, file, engine) + SameFileOccurrences(b, file, engine)
  {
    FilterAppend(a, b, InFile(file));
  }

  // ---------------------------------------------------------------------------
  // The service

  /** The analysis bridge: the workspace `files`, the order in which its keys were
      inserted (`Object.keys`), and the language service once `createService` is done. */
  class TSService {
    var files: Files
    var fileNames: seq<string>
    var service: Option<LanguageService>

    /** The keys list matches the map, every version is still 0, and a created
        service reads through to this object. */
    ghost predicate Valid()
      reads this
    {
      && NoDuplicates(fileNames)
      && (forall p :: p in files <==> p in fileNames)
      && (forall p :: p in files ==> files[p].version == 0)
      && (service.Some? ==> service.value.host.owner == this)
    }

    /** The field initialiser: the workspace starts with Node's declarations. */
    constructor (nodeTypes: string)
      ensures Valid()
      ensures files == map[FullLibName("node") := WorkspaceFile(0, nodeTypes)]
      ensures fileNames == [FullLibName("node")]
      ensures service == None
    {
      files := map[FullLibName("node") := WorkspaceFile(0, nodeTypes)];
      fileNames := [FullLibName("node")];
      service := None;
    }

    /** `updateContent`: insert-only; an existing path is never overwritten. */
    method UpdateContent(name: string, code: string)
      requires Valid()
      modifies this`files, this`fileNames
      ensures Valid()
      ensures files == Inserted(old(files), name, code)
      ensures fileNames == if name in old(files) then old(fileNames) else old(fileNames) + [name]
    {
      if name in files {
        return;
      }
      files := files[name := WorkspaceFile(0, code)];
      fileNames := fileNames + [name];
    }

    /** `createService`, with its collaborators as inputs: `code` is what `fetchCode`
        yields for the entry file, `scan` the regex engine, `stdLibs` the standard-library
        names and `net` the registry. A no-op when the entry file is already present.
        Otherwise it inserts the entry file and awaits all declaration lookups. If one of
        them rejects, the returned promise rejects (`rejected`) and nothing more happens;
        otherwise it installs the declarations and creates the language service over a
        read-through host. */
    method CreateService(file: string, code: string, scan: ImportExtractor.Scanner, stdLibs: set<string>, net: Network)
      returns (rejected: bool)
      requires Valid()
      modifies this
      ensures Valid()
      ensures old(file in files) ==>
        !rejected && files == old(files) && fileNames == old(fileNames) && service == old(service)
      ensures old(file !in files) ==>
        var entry := Inserted(old(files), file, code);
        var names := ImportExtractor.ExtractedNames(code, scan, stdLibs);
        && (rejected <==> LibCodesAsWritten(entry, names, net).None?)
        && (rejected ==> files == entry && service == old(service))
        && (!rejected ==>
              && files == Installed(entry, names, LibCodes(entry, names, net))
              && service.Some? && service.value.settings == Settings
              && service.value.currentDirectory == CurrentDirectory
              && service.value.defaultLibFileName == DefaultLibName)
      ensures file in files
      ensures forall p :: p in old(files) ==> p in files && files[p] == old(files)[p]
      ensures old(fileNames) <= fileNames
    {
      rejected := false;
      if file in files {
        return;
      }
      UpdateContent(file, code);
      var names := ImportExtractor.LibNamesFromCode(code, scan, stdLibs);
      var settled := LibCodesAsWritten(files, names, net);
      if settled.None? {
        rejected := true;
        return;
      }
      var libCodes := settled.value;
      ghost var entry := files;
      InstallAll(names, libCodes);
      InstalledSpec(entry, names, libCodes);
      var host := new LanguageServiceHost(this);
      service := Some(LanguageService(host, Settings, CurrentDirectory, DefaultLibName));
    }

    /** The `forEach` of `createService`: each truthy text is inserted at its
        package's declaration path, in name order. */
    method InstallAll(names: seq<string>, libCodes: seq<Option<string>>)
      requires Valid() && |names| == |libCodes|
      modifies this`files, this`fileNames
      ensures Valid()
      ensures files == Installed(old(files), names, libCodes)
      ensures old(fileNames) <= fileNames
    {
      ghost var entry := files;
      for i := 0 to |names|
        invariant Valid()
        invariant files == Installed(entry, names[..i], libCodes[..i])
        invariant old(fileNames) <= fileNames
      {
        InstalledStep(entry, names, libCodes, i);
        if Truthy(libCodes[i]) {
          UpdateContent(FullLibName(names[i]), libCodes[i].value);
        }
      }
      assert names[..|names|] == names && libCodes[..|names|] == libCodes;
    }

    /** `getOccurrences`: `[]` before the service exists or when the position cannot
        be converted; otherwise the hints for the references in `file`. */
    function GetOccurrences(file: string, line: nat, character: nat, engine: Engine): (r: seq<Occurrence>)
      reads this
      ensures service.None? || engine.positionOf(line, character).None? ==> r == []
      ensures service.Some? && engine.positionOf(line, character).Some? ==>
        var refs := engine.references(file, engine.positionOf(line, character).value).GetOr([]);
        && r == SameFileOccurrences(refs, file, engine)
        && |r| <= |refs|
        && forall o :: o in r <==> exists ref :: ref in refs && ref.fileName == file && o == ToOccurrence(ref, engine)
    {
      if service.None? then []
      else
        match engine.positionOf(line, character)
        case None => []
        case Some(position) =>
          SameFileOccurrences(engine.references(file, position).GetOr([]), file, engine)
    }

    /** `getDefinition`: the position of the first definition in `file`, if any. */
    function GetDefinition(file: string, line: nat, character: nat, engine: Engine): (r: Option<Position>)
      reads this
      ensures r.Some? ==> service.Some? && engine.positionOf(line, character).Some?
      ensures r.Some? <==>
        && service.Some? && engine.positionOf(line, character).Some?
        && engine.definitions(file, engine.positionOf(line, character).value).Some?
        && exists d :: d in engine.definitions(file, engine.positionOf(line, character).value).value && d.fileName == file
      ensures r.Some? ==>
        var defs := engine.definitions(file, engine.positionOf(line, character).value).value;
        exists k :: 0 <= k < |defs| && defs[k].fileName == file
          && (forall j :: 0 <= j < k ==> defs[j].fileName != file)
          && r.value == engine.lineAndCharacterOf(defs[k].textSpan.start)
    {
      if service.None? then None
      else
        match engine.positionOf(line, character)
        case None => None
        case Some(position) =>
          match engine.definitions(file, position)
          case None => None
          case Some(infos) =>
            var inFile := Filter(infos, (info: DefinitionInfo) => info.fileName == file);
            if |inFile| > 0 then
              FilterFirst(infos, (info: DefinitionInfo) => info.fileName == file);
              Some(engine.lineAndCharacterOf(inFile[0].textSpan.start))
            else
              None
    }

    /** `getQuickInfo`: the engine's display parts with the span's start and length. */
    function GetQuickInfo(file: string, line: nat, character: nat, engine: Engine): (r: Option<QuickInfo>)
      reads this
      ensures r.Some? <==>
        service.Some? && engine.positionOf(line, character).Some?
        && engine.quickInfo(file, engine.positionOf(line, character).value).Some?
      ensures r.Some? ==>
        var q := engine.quickInfo(file, engine.positionOf(line, character).value).value;
        && r.value.info == Parts(q.displayParts)
        && r.value.range == engine.lineAndCharacterOf(q.textSpan.start)
        && r.value.width == q.textSpan.length
    {
      if service.None? then None
      else
        match engine.positionOf(line, character)
        case None => None
        case Some(position) =>
          match engine.quickInfo(file, position)
          case None => None
          case Some(q) => Some(QuickInfo(Parts(q.displayParts), engine.lineAndCharacterOf(q.textSpan.start), q.textSpan.length))
    }
  }

  /** Before `createService` completes every query fails soft. */
  lemma QueriesFailSoftBeforeService(ts: TSService, file: string, line: nat, character: nat, engine: Engine)
    requires ts.service.None?
    ensures ts.GetOccurrences(file, line, character, engine) == []
    ensures ts.GetDefinition(file, line, character, engine) == None
    ensures ts.GetQuickInfo(file, line, character, engine) == None
  {
  }
}
