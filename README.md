# Upgrade advisor of vscode-java-dependency, modelled in Dafny

The Java dependency extension for VS Code includes an *upgrade advisor*. It
scans the projects of a workspace folder and reports two kinds of issue:

- the project's Java source level is older than 21;
- a Maven dependency's version falls outside the supported range that a
  downloaded compatibility table gives for its group id.

Issues are kept in a registry, file path -> (package id -> issue). Each
change to a file's map is pushed to two display surfaces:

- a diagnostics collection, with one warning per issue;
- a one-shot notification, meant to be shown once per session.

Two editor providers read the registry back:

- a quick-fix provider, which offers "Fix: Upgrade <name>" for the
  advisor's diagnostics;
- a code-lens provider, which shows at most two "Upgrade <name> with Java
  Upgrade Tool" lenses, the Java engine's first.

A separate component parses a `pom.xml` tree into a map from package id to
the source range that declares it.

The model has one module per source file:

| module | file | form |
|---|---|---|
| `Types` | `type.ts` | datatypes: issue, reason, metadata item, cached item, range, command |
| `Utility` | `utility.ts` | pure functions: message and prompt texts, `String(n)` |
| `Lexer` | `lexerUtils.ts` | XML tree datatype; `getChildrenByTags` as a method with a loop, the rest as functions |
| `IssueMaps` | (JavaScript object semantics) | a file map as a sequence of entries in insertion order (the enumeration order of non-index keys), with lookup, assignment and `delete` |
| `Registry` | `issueManager.ts` | class `IssueManager` over the registry |
| `Diagnostics` | `display/diagnosticsManager.ts` | class `DiagnosticsManager` with its collection |
| `Notifications` | `display/notificationManager.ts` | class `NotificationManager` with its `hasShown` latch |
| `Metadata` | `metadataManager.ts` | class `MetadataManager` holding the table; the refresh rule as functions |
| `PomData` | `pomDataManager.ts` | reader functions; the loops of `parsePom` as methods proved against `PomRanges` |
| `Upgrade` | `upgradeManager.ts` | per-check decisions as functions; class `UpgradeManager` whose methods apply them to the registry |
| `CodeActions` | `upgradeCodeActionProvider.ts` | the provider's loop as a method, proved against `CodeActionsFor` |
| `CodeLenses` | `upgradeCodeLensProvider.ts` | map, filter, sort and slice as functions |

How the host's inputs enter the model:

- **Language server answers.** Readiness, the import-error flag, the project
  list and each container's packages are parameters.
- **Foreign helpers.** Semantic-version coercion (`semver.coerce`) and
  range satisfaction (`semver.satisfies`) are function parameters. So are
  the document's offset-to-position map and path normalization.
- **Host and user answers.** Whether the tool extension is installed, and
  whether the user pressed the notification's button, are chosen
  nondeterministically.
- **Clock and storage.** The current time, the item cached in global
  storage and the parsed download are parameters of the metadata refresh.
  The refresh returns what it writes back to storage.
- **The providers' lookups.** The providers call `issueManager.getIssues`,
  `issueManager.getIssue`, `metadataManager.getMetadataById` and
  `metadataManager.getDependencyMetadataByPackageId`. None of the four is
  defined in `issueManager.ts` or `metadataManager.ts`. The model reads
  the two registry lookups as "the file's map, empty when the file has
  none", which is `Registry.IssueManager.GetIssues`. The providers take that
  map and a package-id -> metadata function as inputs, and
  `CodeActions.PublishedDiagnosticsActions` connects the map to the
  diagnostics it was published as.
- **Diagnostics keys.** `diagnosticsManager.refresh` keys the collection by
  `Uri.parse(filePath)`. The model keys it by the file path itself, which
  assumes that distinct paths parse to distinct URIs.

Behaviour of the code that the proofs make explicit:

- **No wildcard fallback.** Metadata lookup is a plain lookup by group id,
  plus the engine's reserved id. There is no wildcard key
  (`Metadata.DependencyMetadata`). Ids that name members inherited by every
  JavaScript object are the exception; see "## Left out". `MetadataManager.getDependencyMetadata`
  is that lookup on the table the manager currently holds
  (`Metadata.MetadataManager.GetDependencyMetadata`, used by
  `Upgrade.UpgradeManager.CheckDependencyVersion`).
- **Management pass one level too shallow.** It reads `<dependency>`
  elements directly under `<dependencyManagement>`. In a descriptor laid out
  as Maven's schema prescribes, managed entries sit under
  `<dependencyManagement><dependencies>`, so they are never recorded
  (`PomData.NestedManagedDependencyNotRecorded`).
- **Two engine keys.** The POM map stores the `java.version` range under
  `<engine id>:*`. The registry files the engine issue under the bare engine
  id.
- **Check order can matter.** Dependency issues are keyed by group id, so
  two packages of one group whose checks disagree leave a result that
  depends on the order of the checks (`Upgrade.SameGroupOrderMatters`).
  When no two steps touch the same key with different verdicts, the order
  does not matter (`Upgrade.OrderIndependent`).
- **Empty key, no quick fix.** The quick-fix provider skips a diagnostic
  whose code is falsy. An entry filed under the empty package id therefore
  never gets a quick fix (`CodeActions.PublishedDiagnosticsActions` with
  `CodeActions.EntryAction`).

## Model

| member | source | states |
|---|---|---|
| Utility.BuildMessage | src/upgrade/utility.ts:6-21 | the reason can be read back from the message, so messages for different reasons never coincide; dependency messages contain the display name (or the package id when there is none) and the current version; the engine message contains the current version |
| Utility.EngineMessageIgnoresPackage | src/upgrade/utility.ts:17-19 | the engine message depends on the current version only, not on the package id or display name |
| Utility.BuildFixPrompt | src/upgrade/utility.ts:23-41 | the prompt starts with the reason's sentence; it is exactly that sentence when the suggested version is empty; otherwise that sentence, a space and "The target version is V."; it is longer than the sentence iff a version is suggested |
| Utility.EnginePromptIgnoresPackage | src/upgrade/utility.ts:37-39 | the engine prompt starts with "Upgrade Java version." and depends only on the suggested version |
| Utility.NumberToString | src/upgrade/upgradeManager.ts:108-109 | `String(n)` of an integer is in canonical decimal form: an optional minus sign and then digits, with no leading zero, no "-0", and "0" only for zero |
| Utility.NumberRoundTrip | src/upgrade/upgradeManager.ts:108-109 | the integer is recovered from its decimal text, so distinct Java versions give distinct version strings |
| Utility.CanonicalUnique | src/upgrade/upgradeManager.ts:108-109 | two canonical decimal texts that parse to the same integer are equal, so `String(n)` is the one canonical spelling of n |
| Lexer.TagChildren | src/upgrade/lexerUtils.ts:35-43 | the selected children are exactly the children that are elements with one of the tags (both directions), and no more than the children |
| Lexer.TagChildrenAppend | src/upgrade/lexerUtils.ts:37-41 | selection distributes over concatenation, so document order is kept |
| Lexer.GetChildrenByTags | src/upgrade/lexerUtils.ts:35-43 | the loop returns the selected children in order |
| Lexer.TagChildrenCount | src/upgrade/lexerUtils.ts:46-47 | the number of selected children for one tag is that tag's count among the children |
| Lexer.GetExactlyOneChildByTag | src/upgrade/lexerUtils.ts:45-51 | a child is returned iff exactly one child element has the tag; it is that element |
| IssueMaps.GetSpec | src/upgrade/issueManager.ts:22 | a lookup finds an issue iff some entry has the key, and then that entry's issue |
| IssueMaps.Put | src/upgrade/issueManager.ts:17 | after assignment the key gives the new issue and every other key is unchanged; a new key goes last |
| IssueMaps.PutShape | src/upgrade/issueManager.ts:17 | overwriting a present key keeps the map's length and every key in its position; no entry appears besides the one written; keys stay unique and equal to their issues' package ids |
| IssueMaps.Delete | src/upgrade/issueManager.ts:25 | after `delete` the key is absent and every other key is unchanged |
| IssueMaps.DeleteShape | src/upgrade/issueManager.ts:25 | deleting a present key removes exactly that key's one entry, and the result is the map with that entry spliced out, the others in order; the map stays well formed |
| IssueMaps.DeleteSplices | src/upgrade/issueManager.ts:25 | `delete` of a present key cuts out the one entry holding it and leaves the rest as it was |
| IssueMaps.PutSame | src/upgrade/issueManager.ts:17 | assigning a key the issue it already holds leaves the map as it was |
| IssueMaps.PutThenDelete | src/upgrade/issueManager.ts:12-26 | assigning a key that was absent and deleting it restores the map |
| Registry.AddIssueTo | src/upgrade/issueManager.ts:12-17 | the issue is filed under its package id for the file; every other (file, key) lookup is unchanged; the file is created when missing; well-formedness is preserved |
| Registry.RemoveIssueFrom | src/upgrade/issueManager.ts:21-25 | the key is absent afterwards and every other lookup is unchanged; the registry is untouched when the entry was absent; no file is created or dropped |
| Registry.AddThenRemove | src/upgrade/issueManager.ts:12-26 | adding a new issue and removing it again restores the file's map (an empty map for a file that had none) |
| Registry.AddOverwrites | src/upgrade/issueManager.ts:17 | a second add with the same key replaces the first in place: the lookup gives the second issue and the map does not grow |
| Registry.Published | src/upgrade/display/diagnosticsManager.ts:16-30 | the collection that shows a registry has exactly the registry's files as keys |
| Registry.PublishedUpdate | src/upgrade/issueManager.ts:29-32 | pushing one file's new map changes that file's diagnostics in the shown collection and no other |
| Registry.IssueManager.constructor | src/upgrade/issueManager.ts:9 | the registry starts empty, over an empty diagnostics collection, so the collection shows the registry from the start |
| Registry.IssueManager.GetIssues | src/upgrade/upgradeCodeActionProvider.ts:23 | the map a provider reads for a file is well formed and answers every key as the registry does |
| Registry.IssueManager.AddIssue | src/upgrade/issueManager.ts:12-19 | the registry becomes AddIssueTo of the old one; the file's new map is pushed once to the diagnostics and to the notification; the collection still shows exactly the registry's files, each with its map's diagnostics |
| Registry.IssueManager.RemoveIssue | src/upgrade/issueManager.ts:21-27 | the registry becomes RemoveIssueFrom of the old one; when the entry was absent, nothing changes at all: registry, collection and notification; otherwise the file's new map is pushed once, and the collection still shows the registry |
| Registry.IssueManager.RefreshDisplay | src/upgrade/issueManager.ts:29-32 | the file's diagnostics are replaced and the notification is refreshed with the same map |
| Diagnostics.ToDiagnostics | src/upgrade/display/diagnosticsManager.ts:17-29 | one warning per entry, in entry order, each at the zero range, with the issue's message, the entry's key as code and the advisor's source |
| Diagnostics.DiagnosticsOfRegistryMap | src/upgrade/display/diagnosticsManager.ts:17-26 | for a registry map the codes are the package ids, pairwise distinct, and each message reads back as its issue's reason |
| Diagnostics.DiagnosticsManager.constructor | src/upgrade/display/diagnosticsManager.ts:10 | the collection starts empty |
| Diagnostics.DiagnosticsManager.Refresh | src/upgrade/display/diagnosticsManager.ts:16-30 | the file's entry is replaced, never merged, and other files are untouched |
| Notifications.NotificationManager.constructor | src/upgrade/display/notificationManager.ts:8 | no notification has been shown |
| Notifications.NotificationManager.Refresh | src/upgrade/display/notificationManager.ts:11-30 | nothing happens for an empty map or once the latch is set; otherwise exactly one notice is shown, for the map's first issue; its button reads "Upgrade" or "Install extension and upgrade" depending on whether the tool is installed; the fix prompt is sent iff the button is pressed; at most one notice per session |
| Metadata.FetchDependencyCheckMetadata | src/upgrade/metadataManager.ts:16-24 | a payload that fails to parse gives the empty table |
| Metadata.FreshForSevenDays | src/upgrade/metadataManager.ts:63 | a snapshot written at time t needs a refresh at t + d iff d exceeds 604800 seconds |
| Metadata.StaleStaysStale | src/upgrade/metadataManager.ts:63 | once a refresh is due it stays due as time passes |
| Metadata.DependencyMetadata | src/upgrade/metadataManager.ts:50-58 | the engine id always gives "Java Engine" with ">=21", whatever the table holds; any other id gives an item iff it is a key of the table, and then the table's item, with no fallback key (inherited object members aside, see Left out) |
| Metadata.MetadataManager.constructor | src/upgrade/metadataManager.ts:48 | the table starts empty |
| Metadata.MetadataManager.TryRefreshMetadata | src/upgrade/metadataManager.ts:60-74 | when a refresh is due, the fetched table is installed and written back with the current time; otherwise the cached table (empty when absent) is installed and nothing is written |
| PomData.GetRangeOfNode | src/upgrade/pomDataManager.ts:11-19 | no range iff either offset is absent or 0; otherwise from the start offset to one past the end offset |
| PomData.ReadDependencyNode | src/upgrade/pomDataManager.ts:21-40 | no dependency iff there is no range or the groupId or artifactId element is not unique; otherwise the id is "group:artifact" of the two elements' texts, the location is the range, and a version is present iff the version element is unique, and then it is that element's text |
| PomData.ExampleDependencyReadable | src/upgrade/pomDataManager.ts:21-40 | a concrete element with group "g" and artifact "a" reads as `g:a` with no version |
| PomData.RecordAllKeys | src/upgrade/pomDataManager.ts:65-70 | after a section's loop, an id is mapped iff it was mapped before or some readable entry declares it |
| PomData.UnversionedNeverOverrides | src/upgrade/pomDataManager.ts:67 | entries without a non-empty version never replace a recorded range |
| PomData.LastVersionedWins | src/upgrade/pomDataManager.ts:74-79 | the last entry with a non-empty version decides its id's range |
| PomData.RecordOne | src/upgrade/pomDataManager.ts:66-69 | one iteration records the dependency when its id is unmapped or it has a non-empty version |
| PomData.RecordSection | src/upgrade/pomDataManager.ts:72-80 | the loop over a section's dependency children equals the recorded fold over its reads, in document order |
| PomData.RecordJavaVersion | src/upgrade/pomDataManager.ts:82-91 | the `java.version` range is stored under the engine key exactly when properties and java.version are unique and it has a range |
| PomData.ReadPomRanges | src/upgrade/pomDataManager.ts:54-91 | the body of parsePom computes PomRanges of the document |
| PomData.NoProjectNoRanges | src/upgrade/pomDataManager.ts:54-57 | without exactly one `<project>` the map is empty |
| PomData.DeclaredVersionWins | src/upgrade/pomDataManager.ts:63-80 | `<dependencies>` is read after `<dependencyManagement>`, so its last versioned entry for an id decides the final range |
| PomData.ManagedRangeKept | src/upgrade/pomDataManager.ts:63-80 | a managed range survives when every `<dependencies>` entry for the id is unversioned |
| PomData.JavaVersionStored | src/upgrade/pomDataManager.ts:82-91 | a `java.version` range is the final value under the engine key |
| PomData.NestedManagedDependencyNotRecorded | src/upgrade/pomDataManager.ts:63-64 | a dependency under `<dependencyManagement><dependencies>` is not recorded |
| PomData.PomDataManager.constructor | src/upgrade/pomDataManager.ts:45 | no descriptor is mapped |
| PomData.PomDataManager.GetPomRange | src/upgrade/pomDataManager.ts:96-98 | a range is returned iff the raw path and the id are both mapped, and then it is the mapped range |
| PomData.PomDataManager.ParsePom | src/upgrade/pomDataManager.ts:47-94 | the normalized path's map is replaced in full by PomRanges of the document, other paths are untouched, and a raw path different from its normalized form sees no change through GetPomRange |
| Upgrade.Apply | src/upgrade/upgradeManager.ts:104-113 | applying an add or remove preserves the registry's well-formedness |
| Upgrade.ApplyTouchesOneKey | src/upgrade/upgradeManager.ts:99-139 | a check's action changes one (pom path, key) lookup, to its verdict, and no other |
| Upgrade.JavaVersionAction | src/upgrade/upgradeManager.ts:99-114 | no change iff the source level is absent or 0; an add iff it is below 21, of an engine issue whose current version is the canonical decimal text of the level and whose suggested version is "21"; a remove iff it is at least 21; always under the engine id |
| Upgrade.DependencyAction | src/upgrade/upgradeManager.ts:116-139 | no change iff the version or group id is missing or empty or there is no metadata; otherwise the key is the group id; an add iff the version coerces and fails the supported range, of an end-of-life issue with the metadata's name, the raw version and "latest" |
| Upgrade.UncoercibleNeverRaises | src/upgrade/upgradeManager.ts:123-127 | a version that does not coerce never adds an issue |
| Upgrade.EmptyTableNoDependencyActions | src/upgrade/upgradeManager.ts:119-122 | with an empty table no dependency check changes anything, except for the engine id |
| Upgrade.ApplyAllAppend | src/upgrade/upgradeManager.ts:74-95 | running two sequences of checks in turn is running their concatenation |
| Upgrade.PackagesPlan | src/upgrade/upgradeManager.ts:89-91 | one dependency check per package, in order, against the project's pom path |
| Upgrade.ContainersPlanSound | src/upgrade/upgradeManager.ts:81-92 | every planned step is the check of a package of a child whose kind is Container |
| Upgrade.ContainersPlanComplete | src/upgrade/upgradeManager.ts:81-92 | every package of every container child is checked |
| Upgrade.ScanPlan | src/upgrade/upgradeManager.ts:74-95 | every step is filed under the pom path of a project that has one; every such project gets its Java check |
| Upgrade.ProjectWithoutPomSkipped | src/upgrade/upgradeManager.ts:75-78 | a project without a (non-empty) pom path contributes no step |
| Upgrade.LookupAfterConsistent | src/upgrade/upgradeManager.ts:74-95 | after a consistent scan, a touched key holds its verdict and an untouched key its old value |
| Upgrade.OrderIndependent | src/upgrade/upgradeManager.ts:74-95 | any reordering of a consistent scan leaves the same registry lookups |
| Upgrade.ApplySettled | src/upgrade/upgradeManager.ts:104-113 | a check whose verdict already stands leaves the registry as it is |
| Upgrade.SettledPlanFixed | src/upgrade/upgradeManager.ts:74-95 | a scan whose every verdict already stands leaves the registry as it is |
| Upgrade.RescanIdempotent | src/upgrade/upgradeManager.ts:62-97 | repeating a consistent scan leaves the whole registry exactly as the first run did |
| Upgrade.SameGroupOrderMatters | src/upgrade/upgradeManager.ts:125-135 | two disagreeing checks of one group leave whichever ran last |
| Upgrade.UpgradeManager.CheckJavaVersion | src/upgrade/upgradeManager.ts:99-114 | the registry becomes Apply of JavaVersionAction; when the action adds, or removes a present entry, the notification is refreshed with the pom file's new map; otherwise nothing is pushed and the collection and notification are as before; a set latch stays set with nothing more shown; the collection keeps showing the registry |
| Upgrade.UpgradeManager.CheckDependencyVersion | src/upgrade/upgradeManager.ts:116-139 | the registry becomes Apply of DependencyAction, with the metadata manager's current table; an add, or the removal of a present entry, refreshes the notification with the pom file's new map; otherwise nothing is pushed and the displays are as before; a set latch stays set; the collection keeps showing the registry |
| Upgrade.UpgradeManager.CheckContainer | src/upgrade/upgradeManager.ts:83-92 | the registry becomes the container's packages' checks applied in order; a set latch stays set with nothing more shown; the collection keeps showing the registry |
| Upgrade.UpgradeManager.CheckContainers | src/upgrade/upgradeManager.ts:80-92 | the registry becomes the checks of the container children's packages, container by container in order, other children skipped; a set latch stays set; the collection keeps showing the registry |
| Upgrade.UpgradeManager.CheckProject | src/upgrade/upgradeManager.ts:74-95 | the registry becomes the project's plan applied: nothing without a pom path, else the Java check and then the container checks in order; a set latch stays set; the collection keeps showing the registry |
| Upgrade.UpgradeManager.CheckUpgradableComponents | src/upgrade/upgradeManager.ts:62-97 | nothing changes, registry and displays alike, when the server is not ready or reports an import error; otherwise the registry becomes the scan plan applied in order; a set latch stays set; the collection keeps showing the registry |
| CodeActions.ActionFor | src/upgrade/upgradeCodeActionProvider.ts:17-42 | an action exists iff the diagnostic is the advisor's, its code is truthy, the code names a live issue and that issue's package has metadata; the action is then a quick fix titled "Fix: Upgrade " and the metadata name, whose command "Upgrade" runs the upgrade tool with the issue's fix prompt |
| CodeActions.CodeActionsFor | src/upgrade/upgradeCodeActionProvider.ts:16-44 | at most one action per diagnostic |
| CodeActions.CodeActionsAppend | src/upgrade/upgradeCodeActionProvider.ts:16-44 | the actions of concatenated diagnostic lists are the concatenated actions, so diagnostic order is kept |
| CodeActions.ForeignDiagnosticsIgnored | src/upgrade/upgradeCodeActionProvider.ts:17 | diagnostics of other tools never yield an action |
| CodeActions.ProvideCodeActions | src/upgrade/upgradeCodeActionProvider.ts:12-47 | the provider's loop returns CodeActionsFor of the diagnostics |
| CodeActions.PublishedDiagnosticsActions | src/upgrade/upgradeCodeActionProvider.ts:16-42 | the diagnostics published for a file's map, handed back with that map, yield one quick fix per entry with a non-empty key and metadata, in map order |
| CodeActions.FullMetadataOneActionPerIssue | src/upgrade/upgradeCodeActionProvider.ts:16-44 | with metadata for every package and no empty key, every issue gets exactly one quick fix |
| CodeLenses.EngineLensIffEngineName | src/upgrade/upgradeCodeLensProvider.ts:19-30 | a lens has the engine title iff its metadata name is "Java Engine" |
| CodeLenses.Candidates | src/upgrade/upgradeCodeLensProvider.ts:14-27 | no more lenses than issues |
| CodeLenses.CandidatesSound | src/upgrade/upgradeCodeLensProvider.ts:14-27 | every candidate is the lens of an issue with metadata |
| CodeLenses.CandidatesComplete | src/upgrade/upgradeCodeLensProvider.ts:14-27 | every issue with metadata has its lens among the candidates |
| CodeLenses.BelowAsymmetric | src/upgrade/upgradeCodeLensProvider.ts:32 | the string `<` is asymmetric |
| CodeLenses.BelowTransitive | src/upgrade/upgradeCodeLensProvider.ts:32 | the string `<` is transitive |
| CodeLenses.BelowTotal | src/upgrade/upgradeCodeLensProvider.ts:32 | of two different strings one is `<` the other |
| CodeLenses.ComparatorOrder | src/upgrade/upgradeCodeLensProvider.ts:28-33 | the order used agrees with the comparator: a goes before b iff the comparator puts a first or does not put b first |
| CodeLenses.LensLeTotal | src/upgrade/upgradeCodeLensProvider.ts:28-33 | any two lenses are ordered one way or the other |
| CodeLenses.LensLeTransitive | src/upgrade/upgradeCodeLensProvider.ts:28-33 | the order used is transitive |
| CodeLenses.InsertSorted | src/upgrade/upgradeCodeLensProvider.ts:28-33 | inserting into a sorted list keeps it sorted |
| CodeLenses.InsertMultiset | src/upgrade/upgradeCodeLensProvider.ts:28-33 | inserting adds exactly that lens |
| CodeLenses.SortLenses | src/upgrade/upgradeCodeLensProvider.ts:28-33 | the result is sorted and a permutation of the input |
| CodeLenses.EngineFirst | src/upgrade/upgradeCodeLensProvider.ts:29-30 | in a sorted list containing an engine lens, the first lens is an engine lens |
| CodeLenses.SortedPairwise | src/upgrade/upgradeCodeLensProvider.ts:28-33 | in a sorted list every lens may stand before every later one |
| CodeLenses.SortedSplit | src/upgrade/upgradeCodeLensProvider.ts:28-34 | every lens of a sorted list's prefix may stand before every lens after it |
| CodeLenses.TakeSmallest | src/upgrade/upgradeCodeLensProvider.ts:28-34 | the prefix kept by the slice may stand before every lens the slice drops |
| CodeLenses.ProvideCodeLenses | src/upgrade/upgradeCodeLensProvider.ts:11-35 | min(2, candidates) lenses, all drawn from the candidates; every lens shown may stand before every candidate left out, so the two smallest are shown; the engine's first when it is a candidate; otherwise in ascending title order |
| CodeLenses.ShownLensesAreIssueLenses | src/upgrade/upgradeCodeLensProvider.ts:14-25 | every lens shown sits at the zero range and runs the upgrade command with the fix prompt of a document issue that has metadata, titled "Upgrade <name> with Java Upgrade Tool" |

## Left out

- Network and storage I/O are outside the model. This covers `httpsGet`, `globalState.get` and `globalState.update`, and a download rejected by the network. The parsed download and the cached item are inputs, and the value written back is an output.
- `JSON.parse` and `tryParse` (`utility.ts`) are foreign. A payload that parses to something other than a table is not distinguished from a table.
- Metadata.MetadataManager.TryRefreshMetadata: timestamps are modelled as exact reals, not as floating point.
- Parsing text into a tree (htmlparser2), `workspace.openTextDocument`, `Uri.parse`, `normalizePath` and `positionAt` are foreign. They are taken as an already-parsed tree and as function parameters.
- Semantic versions: `semver.coerce` and `semver.satisfies` are uninterpreted function parameters, so their semantics are not modelled.
- Upgrade.JavaVersionAction: `MaxSourceVersion` is modelled as an integer; a non-integral number is not modelled. Neither is a JavaScript number of magnitude 1e21 or more, which `String` writes in exponent form (such as "-1e+21"), nor one beyond 2^53, which is no longer the exact integer; only a negative source level that large reaches `String`, and the model writes its exact decimal text.
- Concurrency: the scan's `forEach(async ...)` callbacks and the providers are modelled as sequential steps, in an order given as input. The interleavings of several callbacks are not modelled; the order-independence lemmas are what justify this for consistent scans.
- Notifications.NotificationManager.Refresh: the latch is set only after the awaited answer (`notificationManager.ts` lines 24-26), and `refreshDisplay` does not await the refresh. So whenever one scan adds two or more issues, each add starts a refresh before any answer arrives, and each of them shows a notice. The model treats every refresh as atomic, so it shows at most one.
- `runUpgrade`, `initialize`, command and provider registration, `onDidChangeWorkspaceFolders` and the `dispose` methods are host plumbing and are not modelled.
- `getMetadataById` and `getDependencyMetadataByPackageId` are not part of this model: their definitions are not in the modelled files. The providers take a package-id -> metadata function as input. `getIssues` and `getIssue` are not defined in `issueManager.ts` either; `Registry.IssueManager.GetIssues` is the reading the model gives them.
- File maps whose keys look like array indices (such as "123"): a JavaScript object enumerates those keys first, in numeric order, before the others. The model keeps every key in insertion order, so for such package ids the order of diagnostics, of code lenses and the notification's "first issue" may differ from the extension's.
- Metadata.DependencyMetadata: keys that name members every JavaScript object inherits from `Object.prototype` (`constructor`, `toString`, `hasOwnProperty`, `__proto__`, ...) are not modelled. In the source, `getDependencyMetadata("constructor")` reads the inherited `Object` function from the table, a truthy value, so `checkDependencyVersion` goes on to coerce the version and compare it against that value's `supportedVersion` (undefined). The model gives no item for such an id.
- Registry.IssueManager.RemoveIssue: for a package id naming an inherited object member (such as "toString"), the source's guard `!issuesList[filePath][packageId]` is false even though the map holds no such entry. The `delete` then does nothing and `refreshDisplay` still runs, re-publishing the file's map and possibly showing a notice. The model treats the id as absent and changes nothing. The same holds for a file path such as "constructor", whose lookup on the registry finds an inherited member.
- Registry.IssueManager.AddIssue: for the package id "__proto__" the source's assignment replaces the file map's prototype instead of adding an entry, so no issue is recorded or shown for it. For a file path naming an inherited member, the source skips creating the file's map and writes onto the inherited member. The model adds an ordinary entry and map in both cases.
- `Uri.parse`: the diagnostics collection is keyed by the raw file path; two paths that parse to the same URI are not modelled.
- The document key: the providers look the document up by `document.uri.toString()`, while the registry is keyed by pom path. Whether the two agree is not modelled.
- CodeLenses.SortLenses: the JavaScript comparator never returns 0. The order it gives to lenses with equal titles, or to two engine lenses, depends on the engine's sort algorithm; the model fixes one order (insertion sort). Titles are compared by code point, not by UTF-16 code unit.
- Utility.EnginePromptIgnoresPackage: states that the engine prompt does not depend on the package id. It does not state that the prompt text never contains the package id, which fails for ids such as "Java".
- Utility.EngineMessageIgnoresPackage: likewise states independence from the package id, not absence of the id from the text.
- Lexer.GetTextFromNode: modelled as a function with no separate contract. PomData.ReadDependencyNode states the id and the version it reads through `ChildText`, which is defined with it, and PomData.ExampleDependencyReadable shows one concrete read.
- Upgrade.UpgradeManager.CheckContainer: the contract does not say which notice, if any, a run of several checks shows. It says that a set latch stays set with nothing more shown, and that the collection keeps showing the registry; the single checks state the notification's effect.
- Upgrade.UpgradeManager.CheckContainers: the contract does not say which notice, if any, a run of several checks shows. It says that a set latch stays set with nothing more shown, and that the collection keeps showing the registry; the single checks state the notification's effect.
- Upgrade.UpgradeManager.CheckProject: the contract does not say which notice, if any, a run of several checks shows. It says that a set latch stays set with nothing more shown, and that the collection keeps showing the registry; the single checks state the notification's effect.
- Upgrade.UpgradeManager.CheckUpgradableComponents: the contract does not say which notice, if any, a run of several checks shows. It says that a set latch stays set with nothing more shown, and that the collection keeps showing the registry; the single checks state the notification's effect.
