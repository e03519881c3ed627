# octohint analysis bridge, modelled in Dafny

octohint overlays "find references", "go to definition" and "quick info" hints on
code shown on a code-hosting page. This project models its core: the in-memory
analysis bridge `TSService`. The bridge keeps a virtual workspace of files. It
fills the workspace with the page's file and with the type declarations of the
packages that file imports. It then answers position queries through the
TypeScript language service. The project also models the overlay's own pure
logic and its response state.

Modules (one per component):

- `wrappers.dfy` (`Wrappers`): `Option`, which stands for JavaScript's `undefined`.
- `sequences.dfy` (`Sequences`): lodash `uniq`, `Array.prototype.filter` and
  `replaceAll(c, '')`, with their properties.
- `hints.dfy` (`Hints`): positions, spans and the hint values shared by the bridge and
  the overlay.
- `import_extractor.dfy` (`ImportExtractor`): `getLibNamesFromCode`.
- `declaration_fetcher.dfy` (`DeclarationFetcher`): the registry lookup inside `fetchLibCode`.
- `typescript_service.dfy` (`TypeScriptService`): `getFullLibName`, the workspace,
  `fetchLibCode`, `createService`, the language-service host and the three queries.
  The `TSService` class holds `files` (a `map`), the insertion order of its keys and
  the optional language service. `LanguageServiceHost` holds only a reference to the
  service and reads through to `files` on every call.
- `content_script.dfy` (`ContentScript`): `toStyleText`, the `getCode` reducer,
  the `getPosition` guard, `getColorFromKind`, the `response` merge (class
  `Overlay`), quick-info placement and text formatting.

Collaborators are inputs:

- The entry file's text, as `fetchCode` yields it, is a parameter of `CreateService`.
- The two regular-expression scans are a `Scanner`. It returns the captured
  specifiers of each pattern in text order.
- The standard-library names (`./node-libs`) are a parameter `stdLibs`. That file is
  not part of this model.
- Each registry request is answered by a `Network` function. A `Reply` says whether
  `fetch` threw, whether the response was `ok`, and what `json()` and `text()` yield.
- The language service is an `Engine`. It carries `getPositionOfLineAndCharacter`
  (`None` where it throws), `getLineAndCharacterOfPosition`, and the three lookups.

Points where the code's behaviour is easy to misread, and what the model does:

- The first scan's `[import|export]` is a character class, not a keyword match.
  The model abstracts it as the first pattern (src/background/services/typescript.ts:47).
- `getPosition` accepts only strictly positive line and character, so a click on
  the first line or first column gives no position (src/content-script.tsx:241).
- `fetchLibCode` wraps its lookup in a `try` whose `catch` only logs
  (src/background/services/typescript.ts:91-92), so it reads as if it never rejects.
  It can reject all the same, and then `createService` stops after inserting the
  entry file; see Findings. `CreateService` models this as written: its `rejected`
  result says that the returned promise rejects.
- Within one `createService`, every `fetchLibCode` checks the workspace before any
  result is inserted. `LibCodes` evaluates all lookups against the same workspace.

## Model

| member | source | states |
|---|---|---|
| `TypeScriptService.FullLibName` | src/background/services/typescript.ts:9-11 | the package name can be read back from the derived path, so the path identifies the package |
| `TypeScriptService.FullLibNameInjective` | src/background/services/typescript.ts:9-11 | distinct package names map to distinct workspace keys |
| `TypeScriptService.Inserted` | src/background/services/typescript.ts:96-112 | a present path leaves the whole map unchanged whatever the code; an absent path gains exactly `{version: 0, content: code}`; every other entry is kept |
| `TypeScriptService.InsertedIdempotent` | src/background/services/typescript.ts:97-105 | inserting at a path a second time, with any code, changes nothing |
| `TypeScriptService.TSService.constructor` | src/background/services/typescript.ts:31-37 | the workspace starts with Node's declarations at `getFullLibName('node')`, version 0, and no service |
| `TypeScriptService.TSService.UpdateContent` | src/background/services/typescript.ts:96-114 | the new map is `Inserted(old map, name, code)`; a new key is appended to the key order; all versions stay 0 |
| `ImportExtractor.FirstSegment` | src/background/services/typescript.ts:56 | the result is the prefix of the specifier before its first `/` |
| `ImportExtractor.Candidates` | src/background/services/typescript.ts:53-59 | a name is kept exactly when it is the first segment of some match, does not start with `.` and is not a standard-library name |
| `ImportExtractor.CandidatesAppend` | src/background/services/typescript.ts:53-59 | the contribution of concatenated matches is the concatenation of their contributions, so match order is kept |
| `ImportExtractor.CandidatesSingle` | src/background/services/typescript.ts:53-59 | one match contributes exactly its first segment, unless that segment starts with `.` or is a standard-library name, in which case nothing |
| `ImportExtractor.ExtractedNames` | src/background/services/typescript.ts:46-63 | the result has no duplicates; it contains exactly the admitted names of both scans; the deduplicated names of the first scan come first |
| `ImportExtractor.ExtractedNamesFirstSeen` | src/background/services/typescript.ts:49-62 | the concatenated contributions are the contribution of the first scan's matches followed by the second's; names appear in the order of their first contributing match, first-scan matches before second-scan matches |
| `ImportExtractor.LibNamesFromCode` | src/background/services/typescript.ts:46-63 | the loop over the two patterns, followed by `uniq`, yields `ExtractedNames` |
| `ImportExtractor.DeepImportExample` | src/background/services/typescript.ts:53-62 | `import x from "lodash/throttle"` gives `["lodash"]` |
| `Sequences.Uniq` | src/background/services/typescript.ts:62 | `uniq` keeps every element once, drops nothing else and adds nothing |
| `Sequences.UniqFirstSeenOrder` | src/background/services/typescript.ts:62 | `uniq` orders its output by each element's first occurrence |
| `Sequences.UniqPrefix` | src/background/services/typescript.ts:60-62 | deduplicating `a + b` starts with the deduplicated `a` |
| `DeclarationFetcher.FetchDeclarations` | src/background/services/typescript.ts:72-93 | the requests are package.json, then the typings file only when package.json is OK and names non-empty `typings`, then `@types` only when neither threw nor the typings file answered; the text is the body of the first OK response in that order, else `undefined` |
| `DeclarationFetcher.FetchDeclarationsAsWritten` | src/background/services/typescript.ts:72-93 | as written: package.json is requested first and at most three requests are made; a resolved text is the body of the last, OK, readable response; a rejection comes from a last response that does not supply text |
| `DeclarationFetcher.AsWrittenRejectsOnlyOnUnreadableBody` | src/background/services/typescript.ts:79-90 | as written, the lookup rejects only when the returned OK response's body cannot be read; otherwise it agrees with `FetchDeclarations` |
| `DeclarationFetcher.AsWrittenRejectionExample` | src/background/services/typescript.ts:86-90 | an OK `@types` response with an unreadable body makes the as-written lookup reject |
| `TypeScriptService.FetchLibCode` | src/background/services/typescript.ts:66-70 | when the derived path is already in the workspace, the result is `undefined` and no request is made |
| `TypeScriptService.FetchLibCodeAsWritten` | src/background/services/typescript.ts:66-93 | as written: no request for a present path; when the promise resolves its value is `FetchLibCode`'s; it rejects only for an absent path whose last response does not supply text |
| `TypeScriptService.LibCodes` | src/background/services/typescript.ts:125 | one result per name, in name order: `undefined` for a name whose path is present, otherwise that name's registry lookup |
| `TypeScriptService.LibCodesAsWritten` | src/background/services/typescript.ts:125 | `Promise.all` throws exactly when one lookup rejects; otherwise its values are `LibCodes` |
| `TypeScriptService.BatchRejectionExample` | src/background/services/typescript.ts:86-125 | one package whose `@types` body cannot be read makes `Promise.all` throw, while the corrected lookups give `undefined` for it |
| `TypeScriptService.Installed` | src/background/services/typescript.ts:126-132 | installing never removes or changes an entry already in the workspace |
| `TypeScriptService.InstalledSpec` | src/background/services/typescript.ts:125-132 | installing keeps every existing entry; it adds exactly the paths of names whose text is truthy; with distinct names, each path holds its fetched text at version 0 |
| `TypeScriptService.InstalledNotFetchedAgain` | src/background/services/typescript.ts:67-70 | once a package is installed, a later lookup for it makes no request |
| `TypeScriptService.TSService.InstallAll` | src/background/services/typescript.ts:126-132 | the loop over the names leaves the workspace equal to `Installed(old workspace, names, texts)`; the key order only grows |
| `TypeScriptService.TSService.CreateService` | src/background/services/typescript.ts:117-173 | no-op when the entry file is present; otherwise the entry file is inserted, and then: when one as-written lookup rejects, the call rejects with only the entry file added and no service; else the workspace becomes the entry file plus the installed declarations and the service is created with the fixed settings, current directory and default library name; nothing present before is removed or altered |
| `TypeScriptService.LanguageServiceHost.GetScriptFileNames` | src/background/services/typescript.ts:136-140 | the names are exactly the current keys of `files`, without repeats |
| `TypeScriptService.LanguageServiceHost.GetScriptVersion` | src/background/services/typescript.ts:141-145 | the stored version in decimal for a known name, `"0"` for an unknown one |
| `TypeScriptService.DecimalRoundTrip` | src/background/services/typescript.ts:142 | the decimal string of a version reads back as that version |
| `TypeScriptService.VersionAlwaysZero` | src/background/services/typescript.ts:98-111 | because updates never bump versions, the host reports `"0"` for every name |
| `TypeScriptService.LanguageServiceHost.GetScriptSnapshot` | src/background/services/typescript.ts:146-155 | the default library for `//lib.d.ts`, checked first; otherwise the stored text for a known name, and nothing for an unknown one |
| `TypeScriptService.SameFileOccurrences` | src/background/services/typescript.ts:194-200 | every hint comes from a reference in the queried file, and every such reference gives one; the output is no longer than the input |
| `TypeScriptService.OccurrencesKeepOrder` | src/background/services/typescript.ts:195 | filtering to the queried file keeps the references' order |
| `TypeScriptService.TSService.GetOccurrences` | src/background/services/typescript.ts:180-201 | `[]` before the service exists or when offset conversion throws; otherwise exactly `SameFileOccurrences` of the references: the hints of same-file references, in input order, each with its span length as width |
| `TypeScriptService.TSService.GetDefinition` | src/background/services/typescript.ts:203-219 | a position exactly when the service exists, the offset converts, and the engine gives a definition in the queried file; it is the start of the first such definition |
| `TypeScriptService.TSService.GetQuickInfo` | src/background/services/typescript.ts:221-240 | a hint exactly when the service exists, the offset converts and the engine answers; the hint holds the display parts, the span start and the span length as width |
| `TypeScriptService.QueriesFailSoftBeforeService` | src/background/services/typescript.ts:180-240 | before `createService` completes, all three queries return empty or `undefined` |
| `ContentScript.ToStyleText` | src/content-script.tsx:6-10 | the style text is empty exactly for an empty object |
| `ContentScript.StyleTextSeparators` | src/content-script.tsx:6-10 | n entries without `;` give exactly n - 1 separators |
| `ContentScript.StyleTextSplits` | src/content-script.tsx:6-10 | splitting the text at `;` gives back `k:v` for each entry, in entry order |
| `ContentScript.GetCodeLineBreaks` | src/content-script.tsx:61-64 | the code contains exactly one line break per cell |
| `ContentScript.GetCode` | src/content-script.tsx:61-64 | the code is empty exactly when there are no cells, and otherwise ends with a line break |
| `ContentScript.GetCodeLines` | src/content-script.tsx:79-82 | the lines of the code are the cells' texts with every line break removed, one per cell, in order |
| `ContentScript.GetPosition` | src/content-script.tsx:241-243 | a position exactly when line and character are both strictly positive, holding those values |
| `ContentScript.GetColorFromKind` | src/content-script.tsx:254-263 | `#00f` exactly for `keyword`, `#000` exactly for `punctuation`, `#001080` for every other kind |
| `ContentScript.Merge` | src/content-script.tsx:268 | each property present in the response, including a present `undefined`, overrides; absent properties keep their value |
| `ContentScript.QuickInfoLastWriterWins` | src/content-script.tsx:268 | after a series of responses, the quick info is the one from the last response that carries the property |
| `ContentScript.MergeAllAppend` | src/content-script.tsx:268 | merging a series at once equals merging its parts one after another |
| `ContentScript.MergeAssociative` | src/content-script.tsx:268 | merging is associative, so a series of responses can be combined in any grouping with the same result |
| `ContentScript.MouseOutClearsOnlyQuickInfo` | src/content-script.tsx:412 | `{quickInfo: undefined}` clears the quick info and keeps occurrences and definition |
| `ContentScript.Overlay.constructor` | src/content-script.tsx:265 | the response starts empty |
| `ContentScript.Overlay.ResetResponse` | src/content-script.tsx:152-154 | the response is reset to `{}` |
| `ContentScript.Overlay.HandleResponse` | src/content-script.tsx:267-268 | the new response is the old one merged with `res` |
| `ContentScript.Overlay.MouseOut` | src/content-script.tsx:407-413 | after mouseout, `quickInfo` is `undefined` and occurrences and definition are unchanged |
| `ContentScript.Placement` | src/content-script.tsx:326-331 | exactly one of `top` and `bottom` is set; `top = (line+1)·lineHeight` exactly when line < 2, otherwise `bottom = -line·lineHeight` |
| `ContentScript.RenderPart` | src/content-script.tsx:340-345 | a part whose text is `\n` becomes a line break; every other part becomes a span coloured by its kind |
| `ContentScript.FormatInfo` | src/content-script.tsx:338-345 | string info is shown as the string with every backslash removed (`Strip`), so no backslash remains and every other character is kept; display parts map one-to-one and in order |
| `ContentScript.FormatTextPieces` | src/content-script.tsx:338-339 | the shown text is built piece by piece in order: a piece without backslashes is shown unchanged and a lone backslash disappears |
| `ContentScript.TooltipOf` | src/content-script.tsx:303-336 | a box is drawn exactly when there is a quick info with truthy info; it is placed by `Placement` and filled by `FormatInfo` |
| `ContentScript.MouseOutHidesTooltip` | src/content-script.tsx:412 | after mouseout no quick-info box is drawn |

## Findings

| source | as written | input that shows it | evidently intended | confidence | as-written member | corrected member |
|---|---|---|---|---|---|---|
| src/background/services/typescript.ts:81 | `return r1.text()` and `return r2.text()` (line 89) return the body promise without awaiting it, so the surrounding `catch` never sees its rejection and `fetchLibCode` rejects; `Promise.all` at line 125 then rejects, and `createService` stops before creating the service (`TypeScriptService.BatchRejectionExample`, and the `rejected` result of `TypeScriptService.TSService.CreateService`) | package.json answers OK without `typings`, and `@types/<name>/index.d.ts` answers OK but reading its body fails | every failure yields `undefined`, as the `try`/`catch` with `console.error` at typescript.ts:73-93 intends (`return await`) | medium, not executed | `DeclarationFetcher.AsWrittenRejectionExample` | `DeclarationFetcher.FetchDeclarations` |

## Left out

- Network I/O: `fetch`, `r.json()`, `r.text()` and the `path.join` URL building. Replies are inputs, and `Url` names the three request shapes.
- A non-string truthy `typings` value: `path.join` would throw and the lookup would yield `undefined`. The model treats `typings` as an optional string.
- The TypeScript language service and compiler API: `createLanguageService`, the document registry, `getProgram().getSourceFile`, the three lookups and line/offset conversion. These are the abstract `Engine`. The embedded default library is the `DefaultLib` snapshot, not its text.
- The regular-expression semantics of the two scans. The `Scanner` input stands for them, including their false matches in comments and strings.
- Concurrency: `Promise.all` is modelled as one lookup per name against the same workspace, with results in name order. `createService` is modelled as a method call that runs to completion. The TSService constructor starts it without awaiting; here it is a separate call.
- TypeScriptService.LanguageServiceHost.GetScriptVersion: the model does not cover keys inherited from `Object.prototype` (such as `constructor`), which `this.files[name]` treats as present. The same truthiness test appears in `getScriptSnapshot` (src/background/services/typescript.ts:150), `updateContent` (:97), `fetchLibCode` (:68) and `createService` (:118), so `GetScriptSnapshot`, `UpdateContent`, `FetchLibCode` and `CreateService` treat such names as absent, as the map model does.
- Logging: the host's `log`, `trace` and `error` and every `console` call.
- The overlay's DOM work: `init` and its `initPropsMap`, `getFontParams`, `getOffsetTop`, measurements, Preact rendering, event listeners, `debounce` and `chrome.runtime.sendMessage`.
- The float division and `Math.floor` in `getPosition`. The guard is modelled on the already floored line and character.
- ContentScript.ToStyleText: style values are given as text, and number-to-string conversion is not modelled.
- ContentScript.Placement: `lineHeight` is an exact real, so floating-point rounding is not modelled.
- webpack.config.js, src/content-script/safari.ts and src/content-script/containers/index.tsx: build configuration and messaging or component wiring, outside the core.
