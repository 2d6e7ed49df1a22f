# esm-index in Dafny

A model of the engine of `esm-index`, a tool that writes ES-module "barrel"
index files (`index.js` re-exporting every module of a directory). The
engine exists in three generations, and each is modelled:

- **The newest**, under `src/module`, `src/contents`, `src/utils`,
  `src/transform` and `src/params`:
  - the ignore filter and module construction (`asFile`, `asDirectory`);
  - the recursive directory lister `list`, over a finite directory tree;
  - `{key}` template substitution and the index content `create`;
  - the digest comparison `compare`;
  - the sync state machine `write` with its filesystem actions `idle`, `add`,
    `update` and `remove`;
  - the configuration layer: key filtering, descriptor defaults, path
    flattening, duplicate lists, per-path option layering, and the merges of
    `computeConfig` and `toMaster`.
- **`src/index.ts`**:
  - the name sanitiser `asName`;
  - the file filter `asFile`, and `asDirectory` over its nested listing;
  - `getHash`/`compareContents`;
  - `createContents`;
  - the filter and sort of `getModules`;
  - the decision in `createFile`.
- **`src/cli.ts`** and **`bin/esm-index.ts`**: their filters, their index
  texts, and their `createFile`/`indexFile` decisions.

Modelling choices:

- **Filesystem.**
  - Files are a `map<string, string>` field of the class
    `FileActions.FileSystem`. Its methods change that field in place.
  - Which paths cannot be read, written or unlinked is a fixed `Faults` value.
  - Every state-changing method is proved equal to a pure `…Step` function of
    the old files. The properties of the source are proved as lemmas about
    those functions.
- **Regular expressions.**
  - Every fixed pattern is a small shape: literal or wildcard characters, with
    optional `^`/`$` anchors and top-level alternation.
  - In `src/module/resolve/asFile.ts` the template literals write `\.`, which
    reaches the engine as `.`. Those dots are wildcards that, as in
    JavaScript without the `s` flag, match any character but a line
    terminator (`\n`, `\r`, U+2028, U+2029).
  - The older files write `\\.`, a literal dot.
  - User `/…/` entries go to an opaque matcher.
- **Collaborators.**
  - `module/name`, `path.normalize`, `path.resolve` and md5 are
    function-valued parameters.
  - `path.join` is `dir + "/" + file`.
  - `path.basename` is modelled concretely for names without a trailing
    separator.
- **Outcomes.**
  - A rejected promise is an `Err`.
  - In the older generations a run ends `Resolved`, `Failed` (a rejection or a
    thrown exception) or `Silent` (a promise that never settles, or a script
    that just stops).
- **JavaScript objects.**
  - They are `map<string, Value>`.
  - `Object.assign` is map union, with the right operand winning.

Where the code and its doc comments disagree, the model follows the code:

- The comments on `compareContents` say comment lines are ignored. The
  normaliser blanks `//` lines rather than dropping them, and joins lines with
  `,`, so inserting a comment line changes the normalised text.
- `compare` returns `true` when the texts differ, despite its doc comment.

Facts about the code that the model keeps:

- `asName` keeps digits, so `1-my module!!` becomes `1MyModule`.
- `isIgnored` maps over the pattern list and asks whether any entry is `true`,
  so an empty list ignores nothing, not even a file without the module
  extension.
- `create` throws away the module lines its `reduce` computes, and its
  `if (dirs)` is always true.
- The list sort's comparator answers `-1` for any two recursion modules, so it
  is not consistent. The model keeps the comparator literally: its insertion
  sort places recursion modules first and does not promise an order among
  them.
- The plain modules are ordered by JavaScript's string `<`, which compares
  UTF-16 code units, not code points: a name starting with U+1F600 sorts
  before one starting with U+FFFF.

## Model

| member | source | states |
|---|---|---|
| ResolveFile.IgnoreList | src/module/resolve/asFile.ts:27-46 | exactly 2 + \|ignoreFiles\| patterns: the d/spec/test pattern, the self-file pattern, then one per entry in order |
| ResolveFile.AsFile | src/module/resolve/asFile.ts:54-63 | null exactly when ignored; otherwise a module without `hasRecursion`, named `name(basename(file, '.'+fileExtension))`, with path `./file` or `./stripped` per `moduleExtensionInPath` |
| ResolveFile.IsIgnored | src/module/resolve/asFile.ts:12-20 | ignored iff the list is non-empty and the file fails the extension test or some listed pattern matches; an empty list ignores nothing |
| Regex.WildcardAt | src/module/resolve/asFile.ts:18 | a `.` matches one character exactly when it is not a line terminator |
| ResolveFile.ExtensionPatternMeaning | src/module/resolve/asFile.ts:18 | the extension test holds exactly when the file ends with one character other than a line terminator followed by the module extension |
| ResolveFile.DeclarationPatternMeaning | src/module/resolve/asFile.ts:34 | the pattern matches exactly when the file holds `d`, `spec` or `test` between two characters that are not line terminators, followed by the module extension |
| ResolveFile.IgnoredExactly | src/module/resolve/asFile.ts:12-20 | a file is ignored iff it fails the extension test or matches some listed pattern (the list is never empty) |
| ResolveFile.SelfPatternMeaning | src/module/resolve/asFile.ts:35 | the self pattern matches name, one character other than a line terminator, extension, anchored at both ends |
| ResolveFile.PlainEntryMeaning | src/module/resolve/asFile.ts:39-41 | a plain entry `e` matches exactly `e`, one character other than a line terminator, then the module extension, anchored at both ends |
| ResolveFile.RegexEntryBody | src/module/resolve/asFile.ts:39-40 | an entry starting and ending with `/` goes to the engine without those two characters |
| ResolveFile.GeneratedFileIgnored | src/module/resolve/asFile.ts:35-57 | `<fileName>.<fileExtension>` always resolves to null |
| ResolveFile.WildcardDotIgnoresCard | src/module/resolve/asFile.ts:18-34 | with module extension `js`, `card.js` is ignored because the dots are wildcards |
| ResolveFile.KeptFileModule | src/module/resolve/asFile.ts:58-62 | a kept `stem.<fileExtension>` becomes the plain module named `name(stem)`, with path `./stem` or `./` + the whole file name per `moduleExtensionInPath` |
| ResolveDirectory.ComputeFilePath | src/module/resolve/asDirectory.ts:10-19 | `''` iff neither flag is set; `/<fileName>.<ext>` whenever `fileExtensionInPath`; `/<fileName>` with only `fileNameInPath` |
| ResolveDirectory.AsDirectory | src/module/resolve/asDirectory.ts:28-42 | null iff the modules are empty; otherwise a `hasRecursion` module named `name(basename)` with path `./` + basename + suffix |
| ResolveDirectory.OnlyEmptinessMatters | src/module/resolve/asDirectory.ts:33-41 | the result depends on the modules only through whether they are empty |
| ModuleList.FirstDeclared | src/module/list.ts:25-29 | the first declared path with the same `fileExtension` and the same normalised path, or none exactly when no path qualifies |
| ModuleList.ResolveEntry | src/module/list.ts:23-40 | a stat failure rejects, except that with `recursion` on and a declared path for the entry the callback goes on to `stats.isDirectory()` and crashes; a recursion module comes only from a directory with a declared path while `recursion` is on |
| ModuleList.ResolveFrom | src/module/list.ts:44-45 | the joined results have one entry per directory entry |
| ModuleList.List | src/module/list.ts:14-63 | for an inaccessible or unreadable directory the promise resolves to `[]` and the callback then crashes on `files.map`, so the run ends in `Crash`; a listing has recursion modules first and plain modules ascending by name |
| ModuleList.Settled | src/module/list.ts:21-43 | each position holds that entry's own result |
| ModuleList.ResolveFromValues | src/module/list.ts:44-58 | `Promise.all` succeeds iff every entry succeeds, and then holds every entry's result in order |
| ModuleList.ListRejectsIff | src/module/list.ts:24-58 | a readable directory rejects iff one of its entries rejects |
| ModuleList.ListCounts | src/module/list.ts:46-55 | the listing is a permutation of the non-null entry results |
| ModuleList.RecursionOnlyIntoDeclared | src/module/list.ts:25-33 | a recursion module implies `recursion` is on and some entry is a directory with a declared path |
| ModuleList.OtherEntriesAreFiles | src/module/list.ts:38-39 | every other entry, an undeclared directory included, goes through `asFile` |
| ModuleList.UnreadableDeclaredDirectoryCrashes | src/module/list.ts:17-21 | an unreadable declared sub-directory under `recursion` ends in `Crash`, so by `ListRejectsIff` the listing around it fails |
| ModuleList.GeneratedFileNotListed | src/module/list.ts:21-55 | adding the generated index file to a readable directory leaves its listing unchanged |
| ModuleList.DeclaredDirectoryRecurses | src/module/list.ts:30-37 | a declared directory is listed with the first declared path's options, and rejects iff that listing rejects |
| Ordering.LessIsCodeUnitOrder | src/module/list.ts:51-52 | `Less` holds exactly when the UTF-16 code units of `a` precede those of `b`, as JavaScript's string `<` compares |
| Ordering.UnitsLessFirstChar | src/module/list.ts:51-52 | two different characters are ordered by their code units exactly as `UnitRank` orders them, whatever follows |
| Ordering.SupplementaryBeforeBmpTail | src/module/list.ts:51-52 | `"\u{1F600}" < "\uFFFF"` holds although its code point is larger |
| Ordering.LessIrreflexive | src/module/list.ts:51-52 | no name is `<` itself |
| Ordering.LessTransitive | src/module/list.ts:51-52 | string `<` is transitive |
| Ordering.LessTotal | src/module/list.ts:51-52 | two distinct names are ordered one way or the other |
| Ordering.Insert | src/module/list.ts:48-54 | inserting into a canonical list keeps it canonical and adds exactly one element |
| Ordering.Sort | src/module/list.ts:48-54 | recursion entries first, plain entries ascending by name, and a permutation of the input |
| Outcomes.Present | src/module/list.ts:46 | the non-null results in their order |
| Outcomes.PresentCount | src/module/list.ts:46 | each value occurs as often as its non-null occurrences in the input |
| Template.ReplaceAll | src/contents/template.ts:13-16 | text without the placeholder comes back unchanged |
| Template.ReplaceAllIsSplitJoin | src/contents/template.ts:13-16 | global replacement equals splitting at `{key}` and joining with the value: every occurrence is replaced |
| Template.Placeholder | src/contents/template.ts:14 | the placeholder is the key in braces |
| Template.Render | src/contents/template.ts:11-19 | with empty data the template is returned unchanged |
| Template.Substitute | src/contents/template.ts:11-19 | the `forEach` that reassigns `template` per key computes `Render` |
| Template.RenderUntouched | src/contents/template.ts:13-16 | text containing no data key's placeholder comes back unchanged |
| Template.RenderAppend | src/contents/template.ts:12-17 | keys apply one after the other: rendering with `d1 + d2` is rendering with `d1`, then with `d2` |
| Template.ReplaceWhole | src/contents/template.ts:13-16 | a lone placeholder is replaced by its value |
| Template.LaterKeySubstitutesValue | src/contents/template.ts:12-17 | with `{a: "{b}", b: "x"}` the text `{a}` becomes `x` |
| IndexContent.ModuleData | src/contents/create.ts:21 | a module as template data ends with its `name` and its `path` |
| IndexContent.ModuleLines | src/contents/create.ts:17-22 | while every template is non-empty, the `reduce` only appends to the initial text |
| IndexContent.ModuleLinesReset | src/contents/create.ts:17-22 | in the discarded `reduce`, a module whose template is empty wipes out every line before it |
| IndexContent.RecursionNames | src/contents/create.ts:23-28 | the names come from `hasRecursion` modules |
| IndexContent.RecursionNamesAppend | src/contents/create.ts:23-28 | the names keep list order |
| IndexContent.Create | src/contents/create.ts:11-33 | the result starts with `contents`; it equals `contents` without an export template, and otherwise `contents` plus one rendered export line plus CRLF |
| IndexContent.IgnoresModuleTemplates | src/contents/create.ts:17-32 | the module and recursion templates never reach the result |
| IndexContent.IgnoresPlainModules | src/contents/create.ts:23-32 | a module without `hasRecursion` anywhere in the list does not change the result |
| IndexContent.ExportWithoutRecursion | src/contents/create.ts:24-30 | the export line is added even when no module recurses, with an empty module list |
| IndexContent.NoRecursionNoNames | src/contents/create.ts:23 | no recursion module, no names |
| Difference.Compare | src/contents/compare.ts:8-13 | true iff some later text's hash differs from the first one's |
| Difference.FewerThanTwo | src/contents/compare.ts:10-12 | false with fewer than two texts |
| Difference.SameText | src/contents/compare.ts:11-12 | `compare(x, x)` is false |
| Difference.Symmetric | src/contents/compare.ts:11 | for two texts the order does not matter |
| Difference.DifferentTexts | src/contents/compare.ts:4-12 | texts reported as different are different (true means "differs") |
| FileActions.Idle | src/module/fs/idle.ts:8-13 | the action is always no-change |
| FileActions.IdleInjective | src/module/fs/idle.ts:11 | distinct paths give distinct no-change messages |
| FileActions.Created | src/module/fs/add.ts:18-20 | the report of `add` has action `add` |
| FileActions.Updated | src/module/fs/update.ts:20-22 | the report of an `update` that writes has action `update` |
| FileActions.Removed | src/module/fs/remove.ts:17-19 | the report of a `remove` that unlinks has action `remove` |
| FileActions.ReportsInjective | src/module/fs/add.ts:18 | each report's message tells distinct paths apart |
| FileActions.AddStep | src/module/fs/add.ts:11-33 | `Created: "path"` on success; test mode writes nothing; otherwise the file becomes `content`; it rejects, with a write error and the files unchanged, exactly when outside test mode the path is unwritable |
| FileActions.UpdateStep | src/module/fs/update.ts:13-46 | test mode reports update and touches nothing; a read failure rejects; no-change is `idle(path)` with the files unchanged; a readable file rejects exactly when its digest differs and the path is unwritable; a rejection leaves the files unchanged |
| FileActions.RemoveStep | src/module/fs/remove.ts:11-38 | an absent file is `idle(path)`; test mode reports remove and keeps the file; otherwise a successful unlink deletes it; it rejects with an unlink error exactly when the file exists, outside test mode, and is undeletable |
| FileActions.FileSystem.Access | src/module/fs/remove.ts:21 | `access` succeeds iff the file exists |
| FileActions.FileSystem.AccessReadable | src/module/write.ts:153 | `access(R_OK)` succeeds iff the file exists and is readable |
| FileActions.FileSystem.ReadFile | src/module/fs/update.ts:26-29 | a readable file yields its text, any other a read error |
| FileActions.FileSystem.WriteFile | src/module/fs/add.ts:24-27 | the write replaces the file's text unless the path is unwritable |
| FileActions.FileSystem.Unlink | src/module/fs/remove.ts:27-30 | the unlink deletes the file unless the path is undeletable |
| FileActions.FileSystem.Add | src/module/fs/add.ts:11-33 | the method's result and new files are `AddStep` of the old files |
| FileActions.FileSystem.Update | src/module/fs/update.ts:13-46 | the method's result and new files are `UpdateStep` of the old files |
| FileActions.FileSystem.Remove | src/module/fs/remove.ts:11-38 | the method's result and new files are `RemoveStep` of the old files |
| FileActions.TestModeKeepsFiles | src/module/fs/add.ts:22-23 | in test mode no action changes the files |
| FileActions.UpdateLeavesContent | src/module/fs/update.ts:31-37 | a successful update that reports update leaves the file equal to `content` |
| FileActions.UpdateWritesIffDigestDiffers | src/module/fs/update.ts:31-41 | a readable, writable file is updated iff its digest differs from the content's |
| FileActions.UpdateTwiceIsNoChange | src/module/fs/update.ts:31-41 | a second update with the same content is `idle(path)` |
| FileActions.RemoveTwiceIsNoChange | src/module/fs/remove.ts:21-23 | a second remove is `idle(path)` |
| FileActions.AddThenUpdateIsNoChange | src/module/fs/update.ts:31-41 | an update right after a successful add is `idle(path)` |
| FileActions.OnlyOwnPath | src/module/fs/add.ts:24 | no action changes any other path |
| WriteIndex.IndexFile | src/module/write.ts:149-150 | the joined index path lies inside the declared directory |
| WriteIndex.IndexFileNamed | src/module/write.ts:149-150 | the path handed to `resolve` ends with the segment `fileName.fileExtension` when neither part holds a separator |
| WriteIndex.IndexFileInjective | src/module/write.ts:149-150 | directories with the same file name and extension give different paths to `resolve` |
| WriteIndex.Sync | src/module/write.ts:152-180 | in test mode the index files are untouched; outside it a successful add or update leaves the index holding the content, a successful remove deletes it |
| WriteIndex.WriteStep | src/module/write.ts:145-186 | a listing failure rejects with the files unchanged; a success is the action's record extended with the listed modules, the options and `create(modules, options)`; a rejection comes only from the listing or an unwritable or undeletable index, and in test mode only from the listing |
| WriteIndex.Write | src/module/write.ts:145-186 | the method's result and new files are `WriteStep` of the old files |
| WriteIndex.Decision | src/module/write.ts:152-180 | modules with an unreadable index give add; with a readable one, update or no-change (update in test mode); no modules give no-change for an absent index and remove otherwise |
| WriteIndex.UpdateBranchNoChange | src/module/write.ts:84-163 | with a readable index, no-change iff the index's digest equals the content's |
| WriteIndex.TestModeChangesNothing | src/module/write.ts:34-122 | test mode never changes the files |
| WriteIndex.IndexAfterRun | src/module/write.ts:36-123 | outside test mode, add and update leave the index holding the content, and remove deletes it |
| WriteIndex.SecondRunIsNoChange | src/module/write.ts:84-163 | a second non-test run on unchanged inputs reports no-change and writes nothing |
| ObjectUtils.FilterKeys | src/utils/filterKeys.ts:15-19 | the keys are exactly `obj`'s allowed keys, each with its value from `obj` |
| ObjectUtils.FilterTwice | src/utils/filterKeys.ts:16-18 | filtering is idempotent, and two filters in turn filter by the common keys |
| ObjectUtils.FilterNothing | src/utils/filterKeys.ts:16-18 | nothing allowed gives `{}`; no key is ever added |
| ObjectUtils.Defaults | src/utils/getParamDefaults.ts:16-20 | exactly the table's keys, each mapped to its entry's `default` |
| ObjectUtils.GetParamDefaults | src/utils/getParamDefaults.ts:10-21 | the `forEach` builds `Defaults(table)` |
| ObjectUtils.GetArgumentDefaults | src/utils/getArgumentDefaults.ts:12-19 | the `forEach` builds the defaults of `{...config, ...options}` |
| ObjectUtils.ArgumentDefaultsMerge | src/utils/getArgumentDefaults.ts:13-16 | the keys are the union of both tables; on a shared key the options table wins |
| ObjectUtils.ShownArgumentDefaults | src/args/config.ts:3-34 | `log`, `watch`, `help` and `version` default to false and `paths` to `[]` |
| ObjectUtils.NameDefaults | src/params/options.ts:6-36 | both extensions default to `js` and the file name to `index` |
| ObjectUtils.FlagDefaults | src/params/options.ts:12-54 | `recursion` is on, every `*InPath` flag is off, nothing is ignored |
| ObjectUtils.TemplateDefaults | src/params/options.ts:48-66 | the three default templates |
| Options.AsObject | src/utils/computePaths.ts:18 | a string entry `s` is `{path: s}`; an object entry keeps its fields |
| Options.OptionTableTyped | src/params/options.ts:3-70 | every option is a descriptor whose default has its declared type: boolean, string or array |
| PathList.GetPathList | src/utils/getPathList.ts:8-12 | an empty input gives `[]`; the lemmas below give the rest, where a string entry contributes itself and an object its one or several `path`s |
| PathList.GetPathListAppend | src/utils/getPathList.ts:11 | flattening distributes over concatenation |
| PathList.GetPathListFromFront | src/utils/getPathList.ts:9-11 | the output is the in-order concatenation of the contributions |
| PathList.GetPathListLength | src/utils/getPathList.ts:11 | the length is the sum of the contributions' lengths |
| PathList.AllStrings | src/utils/getPathList.ts:10-11 | an all-string input comes back element for element |
| PathList.Listed | src/utils/getPathList.ts:9-11 | a directory is listed iff some entry names it |
| Duplicates.FindArrayDuplicates | src/utils/findArrayDuplicates.ts:6-15 | the loop returns the later occurrences of repeated values, in input order |
| Duplicates.Dups | src/utils/findArrayDuplicates.ts:6-15 | the duplicates of a non-empty list are fewer than its values, since a first occurrence is never one |
| Duplicates.ListDuplicates | src/utils/listDuplicates.ts:6-13 | the same result as `findArrayDuplicates` on every input |
| Duplicates.DupsCount | src/utils/findArrayDuplicates.ts:9-13 | a value occurring k ≥ 1 times occurs k − 1 times in the output |
| Duplicates.DupsLength | src/utils/findArrayDuplicates.ts:9-13 | the output length is the input length less the number of distinct values |
| Duplicates.DupsEmptyIff | src/utils/findArrayDuplicates.ts:9-14 | the output is empty iff no value repeats |
| Duplicates.DupsAppend | src/utils/findArrayDuplicates.ts:9-13 | one more input value appends itself exactly when it was seen before |
| Configuration.PathOptions | src/utils/computePaths.ts:13-19 | `path` from the entry; keys are the option keys plus the entry's; the entry wins, then `config` on option keys, then the descriptor |
| Configuration.ComputePaths | src/utils/computePaths.ts:12-21 | one computed entry per input path, in order |
| Configuration.DescriptorsLeak | src/utils/computePaths.ts:16 | an option set by neither entry nor config holds its descriptor, not its default |
| Configuration.ToPath | src/transform/toPath.ts:12-19 | `path` is the argument; the keys are config's option keys, options' keys and `path`; options override config |
| Configuration.MergedConfig | src/utils/computeConfig.ts:17-22 | precedence defaults < params < cosmiconfig: a key set by neither object holds the default of its argument descriptor |
| Configuration.WithPaths | src/utils/computeConfig.ts:23-32 | the keys are the allowed keys of the object plus `paths`, which holds the given list; every other allowed key keeps its value |
| Configuration.FilterThenPaths | src/transform/toMaster.ts:47-52 | filtering after setting `paths` equals setting `paths` after filtering, when `paths` is allowed |
| Configuration.ComputeConfig | src/utils/computeConfig.ts:13-38 | a cosmiconfig failure rejects with its error, and only then |
| Configuration.ComputedKeys | src/utils/computeConfig.ts:17-32 | keys are parameter names; `paths` is `computePaths(merged, params.paths ++ found.paths)`; the found file beats params |
| Configuration.MasterParams | src/transform/toMaster.ts:18-23 | precedence defaults < config < cosmiconfig |
| Configuration.RawPaths | src/transform/toMaster.ts:24 | the config's entries then the merged parameters' entries: their lengths add up, exactly their members occur, and with no `paths` anywhere the list is empty |
| Configuration.FirstContaining | src/transform/toMaster.ts:28-39 | the first entry whose path list includes `p` (no earlier entry lists it), none iff there is none |
| Configuration.MatchedOptions | src/transform/toMaster.ts:28-39 | `{}` iff no entry lists the directory; otherwise the object form of the first entry that lists it, which has a `path` |
| Configuration.MasterPath | src/transform/toMaster.ts:40-44 | `path = p`; the matched entry's options beat the filtered params |
| Configuration.ToMaster | src/transform/toMaster.ts:14-54 | a cosmiconfig failure rejects with its error, and only then |
| Configuration.MasterKeys | src/transform/toMaster.ts:14-54 | keys are parameter names and include `paths`; the found file beats config on every other parameter |
| Configuration.MasterEntries | src/transform/toMaster.ts:27-45 | one master path per listed directory, each with `path` set to that directory |
| Configuration.MasterPaths | src/transform/toMaster.ts:27-45 | one master path per listed directory in order, each with `path` set to it |
| Configuration.EveryListedPathMatches | src/transform/toMaster.ts:28-39 | every listed directory has a matching entry |
| Configuration.CallerPathsTwice | src/transform/toMaster.ts:24 | without `paths` in the found file, the caller's paths are taken twice |
| LegacyIndex.TrimStart | src/index.ts:140 | strips exactly the leading non-alphanumerics |
| LegacyIndex.TrimEnd | src/index.ts:141 | strips exactly the trailing non-alphanumerics |
| LegacyIndex.CamelAlnum | src/index.ts:142-144 | camel-casing text that ends alphanumeric leaves only letters and digits |
| LegacyIndex.CamelLength | src/index.ts:142-144 | camel-casing never lengthens a text, and gives `''` only for `''` |
| LegacyIndex.AsNameLength | src/index.ts:137-145 | `asName` never lengthens a name, and gives `''` exactly when the name holds no letter or digit |
| LegacyIndex.AsNameAlnum | src/index.ts:137-145 | `asName` yields only ASCII letters and digits |
| LegacyIndex.CamelKeepsAlnum | src/index.ts:142-144 | alphanumeric text is left as is |
| LegacyIndex.AsNameKeepsAlnum | src/index.ts:137-145 | an alphanumeric name is unchanged |
| LegacyIndex.AsNameIdempotent | src/index.ts:137-145 | `asName` is idempotent |
| LegacyIndex.TrimStartSkips | src/index.ts:140 | a symbol prefix before a word is removed |
| LegacyIndex.TrimEndSkips | src/index.ts:141 | a symbol suffix after a word is removed |
| LegacyIndex.CamelAlnumHead | src/index.ts:142-144 | a leading letter or digit passes through camel-casing unchanged |
| LegacyIndex.CamelAlnumRun | src/index.ts:142-144 | a run of letters and digits inside a text passes through camel-casing unchanged |
| LegacyIndex.CamelAlnumPrefix | src/index.ts:142-144 | an alphanumeric prefix passes through camel-casing unchanged |
| LegacyIndex.AsNameStripsSymbols | src/index.ts:140-141 | surrounding symbols are dropped; an all-symbol name gives `''` |
| LegacyIndex.AsNameJoinsWords | src/index.ts:142-144 | `u<symbols>v` becomes `u` followed by `v` with its first letter upper-cased (`my-module` → `myModule`, digits kept) |
| LegacyIndex.AsNameOfWord | src/index.ts:140-142 | a name that starts and ends alphanumeric is only camel-cased |
| LegacyIndex.CamelSkipsSymbols | src/index.ts:142-144 | a symbol run before a word becomes the word's upper-cased first letter |
| LegacyIndex.FileModule | src/index.ts:83-128 | null iff the filter drops the file; otherwise `isIndex: false` named `basename(file, '.'+ext)` |
| LegacyIndex.AsFile | src/index.ts:83-128 | the `forEach` that flips `pass` computes `FileModule` |
| LegacyIndex.AsFileRejects | src/index.ts:89-118 | null for a name without `.<ext>`, one starting `<fileName>.<ext>`, a spec/test name or a `.d.ts` name |
| LegacyIndex.AsFileKeeps | src/index.ts:89-118 | conversely, a name with `.<ext>` that no fixed pattern and no ignore entry reports resolves to a plain module named by its base name |
| LegacyIndex.PlainEntryIsPrefix | src/index.ts:101-104 | a plain entry drops every name starting `basename(e).<ext>`, being unanchored at the end |
| LegacyIndex.LiteralDotKeepsCard | src/index.ts:91 | `card.js` is kept, since these dots are literal |
| LegacyIndex.DirectoryModule | src/index.ts:31-75 | a module iff recursive search is on and the nested listing exists and is non-empty; then `isIndex: true` with the basename |
| LegacyIndex.GetModules | src/index.ts:321-334 | index modules first, plain ones ascending by name, a permutation of the non-null results |
| LegacyIndex.GetModulesCounts | src/index.ts:321-325 | each module occurs as often as the entries resolving to it |
| LegacyIndex.NoRecursiveSearchNoIndex | src/index.ts:37-73 | without recursive search no index module appears |
| LegacyIndex.IndexNames | src/index.ts:179-196 | empty iff no module is an index module |
| LegacyIndex.CreateContents | src/index.ts:176-201 | `''` for no modules; otherwise the module lines, then the export line iff some module is an index module |
| LegacyIndex.LinesAppend | src/index.ts:180-191 | one line per module, in list order |
| LegacyIndex.SinglePlainContents | src/index.ts:187-189 | a plain module gives `export { default as N } from './name';` and CRLF, with N = `asName(name)` |
| LegacyIndex.SingleIndexContents | src/index.ts:183-197 | an index module gives its `import * as` line and the export line |
| LegacyIndex.CreateFileStep | src/index.ts:213-267 | with modules an unreadable or different index is written and resolves unless unwritable, an equal one never settles; without modules an existing index is unlinked unless undeletable and the promise never settles; a failure comes only from a fault and changes nothing |
| LegacyIndex.CreateFile | src/index.ts:213-267 | the method's ending and new files are `CreateFileStep` of the old files |
| LegacyIndex.SecondRunWritesNothing | src/index.ts:233-246 | after a write, a second run finds the index equal and writes nothing |
| LegacyIndex.IndexHoldsContents | src/index.ts:222-246 | with modules and a writable index, the index ends up holding text of the contents' digest |
| LegacyFilter.Patterns | src/cli.ts:84-101 | the declaration, spec/test and self patterns, then one per ignore entry in order |
| LegacyFilter.Passes | src/cli.ts:83-112 | the `forEach` that flips `pass` keeps the file iff it has the extension and no pattern matches |
| LegacyFilter.KeptExactly | src/index.ts:109-118 | a file is kept iff it has the extension and no pattern matches |
| LegacyFilter.DeclarationMeaning | src/index.ts:90 | `/\.d\.ts$/` matches exactly names ending `.d.ts` |
| LegacyFilter.SpecTestMeaning | src/index.ts:91 | the spec/test pattern matches names containing `.spec.<ext>` or `.test.<ext>` |
| LegacyFilter.NameMeaning | src/index.ts:92 | unanchored at the end a name pattern is a prefix test, anchored an equality test |
| LegacyFilter.FixedRejections | src/cli.ts:84-111 | a file some fixed pattern reports is dropped |
| LegacyFilter.SlashEntryBody | src/index.ts:99-100 | a `/…/` entry loses its first and last characters (a lone `/` stays `/`) |
| LegacyHash.CompareContents | src/index.ts:156-169 | true iff every later text has the first one's digest |
| LegacyHash.NormalizeOneLine | src/index.ts:274-284 | a text without CRLF is its own normal form, or `''` when it starts with `//`, and `getHash` digests that |
| LegacyHash.AtMostOneIsSame | src/cli.ts:46-58 | true with at most one text |
| LegacyHash.NegatesNewerCompare | src/cli.ts:46-59 | the exact negation of the newer `compare` over the normalised digest |
| LegacyHash.SplitFirstLine | src/index.ts:279 | splitting at the first CRLF |
| LegacyHash.CommentLineBlanked | src/index.ts:279-281 | a `//` line is blanked, not dropped: it still adds a `,` |
| LegacyHash.CommentTextIgnored | src/cli.ts:30-33 | the text of a comment line does not affect the digest |
| LegacyHash.InsertedCommentCounts | bin/esm-index.ts:32-36 | inserting a comment line changes the normalised text |
| LegacyCli.ModuleNames | src/cli.ts:80-115 | at most one name per file |
| LegacyCli.GetModules | src/cli.ts:73-117 | the filter then `map(basename)` computes `ModuleNames`: kept names in `readdir` order, unsorted and unsanitised |
| LegacyCli.AgreesWithFirstGeneration | src/cli.ts:82-114 | keeps exactly the files `src/index.ts`'s `asFile` resolves, with the same names in the same order |
| LegacyCli.CreateFileContents | src/cli.ts:124-132 | `''` for no modules |
| LegacyCli.ContentsSnoc | src/cli.ts:126-129 | one more module appends one `export { default as m } from './m';` CRLF line |
| LegacyCli.AgreesWithFirstGenerationContents | src/cli.ts:124-132 | for alphanumeric names, the text `src/index.ts` writes for the same plain modules |
| LegacyCli.CreateFileStep | src/cli.ts:144-177 | never resolves; with modules an unreadable or different index is written unless unwritable, an equal one left; without modules a missing index throws the access error, an existing one is unlinked unless undeletable; a failure comes only from a fault or the missing index |
| LegacyCli.CreateFile | src/cli.ts:144-177 | the method's ending and new files are `CreateFileStep` of the old files |
| LegacyCli.SecondRunWritesNothing | src/cli.ts:151-167 | after a quiet run with modules, a second run changes nothing |
| LegacyBin.KeptFiles | bin/esm-index.ts:68-94 | every kept name is an input the filter keeps, and every input the filter keeps is listed |
| LegacyBin.KeptInOrder | bin/esm-index.ts:68-94 | the kept names are `files.filter(kept)`: exactly the kept inputs, in `readdir` order |
| LegacyBin.FolderContents | bin/esm-index.ts:95-103 | null iff no file is kept, equivalently iff the filter keeps no input name |
| LegacyBin.ReadFolder | bin/esm-index.ts:63-105 | the filter loop and the push loop compute `FolderContents` |
| LegacyBin.BinKeptExactly | bin/esm-index.ts:68-94 | kept iff with the extension, no declaration/spec/test name, not `index.<ext>` whatever the configured name, and no entry matches |
| LegacyBin.PlainEntryIsExact | bin/esm-index.ts:81 | a plain entry drops exactly `base.<ext>` (the other generations drop every name starting so) |
| LegacyBin.IndexNeverListed | bin/esm-index.ts:73 | `index.<ext>` is never a module |
| LegacyBin.JoinTrailing | bin/esm-index.ts:103 | joining with CRLF after an empty last element ends every line with CRLF |
| LegacyBin.ContentsAgreeWithCli | bin/esm-index.ts:95-103 | the text equals `createFileContents` of `src/cli.ts` for the raw basenames in `readdir` order |
| LegacyBin.IndexFileStep | bin/esm-index.ts:112-141 | with text: a missing or different index is written unless unwritable, an unreadable one throws, an equal one is left; without text an existing index is unlinked unless undeletable, a missing one left; a failure comes only from a fault; never resolves |
| LegacyBin.IndexFile | bin/esm-index.ts:112-141 | the method's ending and new files are `IndexFileStep` of the old files |
| LegacyBin.SecondRunWritesNothing | bin/esm-index.ts:115-139 | after a quiet run, a second run changes nothing |
| LegacyBin.IndexHoldsContents | bin/esm-index.ts:115-130 | after a quiet run with text, the index has the text's digest |
| Strings.Substring | src/index.ts:100 | the result is never longer than the string |
| Strings.SubstringSwapsBounds | src/index.ts:100 | a lone `/` stays `/`, and `/abc/` gives `abc` |
| Strings.Basename | src/module/resolve/asFile.ts:58 | `path.basename`'s result never holds a separator |
| Strings.BasenameStripsExtension | src/module/resolve/asFile.ts:58 | `basename(stem + ext, ext)` is `stem` |

## Left out

- Asynchrony.
  - A `Crash` (an exception thrown in a filesystem callback) ends the process. The model reports it like a rejection, in entry order; in Node it wins over any rejection still pending, whatever the order.
  - Promises and callbacks are one sequential outcome per call.
  - The files of one `write` run are settled in entry order.
  - For `Promise.all` the model reports the first rejection in entry order, not the first in time.
  - In `src/index.ts` a `reject` followed by `resolve` ends as the rejection.
- Console and ANSI colour output, and the `log` flag, are left out. They only print.
- `ModuleList.List`: the in-place `sort` of the collected array is modelled on a sequence, by insertion sort with the source's comparator. Because that comparator is inconsistent between recursion modules, the contract promises no order among recursion modules.
- The digest (md5) is an uninterpreted function. Only "equal text, equal digest" is used; collisions are not ruled out.
- Regular expressions.
  - User `/…/` ignore entries are an opaque matcher.
  - `RegExp` objects in `ignoreFiles` are not modelled; entries are strings.
  - File and extension names, and plain `ignoreFiles` entries, are taken to hold no regular-expression metacharacters.
- `String.replace` `$`-patterns in template values are not modelled. Values are inserted literally.
- `path.normalize` and `path.resolve` are opaque parameters.
- `path.join` is plain concatenation with `/`, without normalising `.`, `..` or doubled separators.
- `path.dirname(rc)` is a parameter, the directory.
- The unseen modules:
  - `module/name` is a parameter;
  - `utils/filterObjectKeys` is taken to behave as `filterKeys`;
  - `args/options` is a parameter table;
  - `types` is replaced by the datatypes of `Types`.
- `Options.PathsOf`: a `paths` value that is neither a list of entries nor a list of strings gives `[]`. JavaScript would spread a string character by character and throw on a value that is not iterable.
- The cosmiconfig search (`src/utils/readCosmiconfig.ts`) is a parameter: the found object, or the error.
- `getParamDefaults`'s default argument, which spreads module namespace objects, is not modelled. The table is always passed.
- The key order of objects (`Object.keys`) is not modelled, except for the template data of a module, which is listed in declaration order.
- The older generations' glob discovery, `JSON.parse` of the configuration file, `chokidar` watching and `yargs` are left out. So are the `esmIndex` entry point and `getOptions` of `src/index.ts`, and `src/bin.ts`.
  - The parsed options, the directory and the names `readdir` gives are parameters.
- `readFolder`, `getModules` and the first generation's `readPattern`: `readdir` and `stat` failures are not modelled. In the first generation the nested listing of a sub-directory is data (its options and whether it has modules).
- `LegacyIndex.CreateFileStep`: the exception thrown when `readFile` fails after a successful `access(R_OK)` is not modelled. The read is taken to succeed.
- `LegacyCli.CreateFileStep`: the exception thrown when `readFile` fails after a successful `access(R_OK)` is not modelled. The read is taken to succeed.
- `Strings.Basename`: a path ending in `/` gives `''`, where Node's `path.basename` first drops trailing separators (`basename('lib/', '.js')` is `'lib'`).
- The machine-generated `dist/index.js`, `bin/cli.js` and `dist/bin.js`, and the build configuration, are not part of this model.
