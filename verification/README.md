# macType reconciliation engine in Dafny

macType configures a Mac from a declarative configuration. It reads the current machine state:

- Homebrew formulas and casks;
- App Store apps;
- `defaults` preference keys;
- git configuration;
- managed dotfile links.

It compares that state with the configuration in a diff of `add` / `update` / `none` / `remove` entries per resource kind. Then it applies the diff in a fixed order, one manager call per entry. Finally it records which `defaults` keys it applied, so that a later run can remove the ones dropped from the configuration.

This project models that engine and proves properties of the model:

- the diff (`src/diff.ts`);
- the orchestrator (`src/mactype.ts`);
- the managers' pure parts (`src/managers/*.ts`);
- the record types (`src/types.ts`).

Every external command goes through an oracle `Shell.Env`. The oracle maps the position of a command in the run, and the command text, to whether the command exited successfully, its stdout and its stderr. Each operation threads the log of issued commands. So contracts can say which commands run, in which order, and how each result follows from the command's answer.

Modules, one per source component:

| file | module | models |
|---|---|---|
| `optional.dfy`, `seqs.dfy` | `Optional`, `Seqs` | `Option`; filter/map/count/`Set.add` on sequences |
| `ordered_map.dfy` | `OrderedMap` | a JavaScript `Map`: distinct keys in insertion order, `set` overwriting in place |
| `js_string.dfy` | `JsString` | `trim`, `split`, `indexOf`, `replace` (first match), `toLowerCase` on ASCII, integer `toString` and its canonical inverse |
| `json.dfy` | `Json` | `JSON.stringify` on preference values, with a reader proving it injective |
| `types.dfy` | `Types` | `src/types.ts` |
| `values.dfy` | `Values` | `valuesEqual`, `parseDefaultsOutput`, `inferType`, `formatValue` |
| `shell.dfy` | `Shell` | `runCommand` / `runCommandSafe` as an oracle; the loops every manager writes |
| `brew.dfy`, `appstore.dfy`, `macos.dfy`, `git.dfy`, `dock.dfy` | one per manager | reading state, applying an entry |
| `macos_defaults.dfy`, `git_helpers.dfy` | `MacOSDefaults`, `GitHelpers` | the typed setting constructors |
| `diff_engine.dfy` | `DiffEngine` | `generateDiff` and `hasDifferences` |
| `mactype.dfy` | `MacType` | the settings record, `applyDiff` as a plan of steps folded over the oracle, `run` |

Where the code and its comments disagree, the model follows the code:

- Packages and casks never get `update`.
- `applyDiff` skips App Store entries other than `add` and `remove`.
- A `remove` of a `defaults` key schedules no restart.
- The state file is saved only after an apply.
- The Dock normalises a configured path with `.replace('.app', '')`, which removes the first `.app` rather than the suffix (see "## Findings"). `Dock.Reconcile` and `Dock.SetApps` use that as-written name, and `Dock.NormalName` is the corrected variant.
- `run` passes the previous record to the macOS `getCurrentState`, which ignores it. That function reads only the desired keys, so the record-driven `remove` entries of `diffMacOSSettings` can never appear in a real run. `MacType.RunNeverRemovesSettings` proves this.

## Model

| member | source | states |
|---|---|---|
| OrderedMap.Set | src/managers/brew.ts:17 | `Map.set`: the key then maps to the value; an existing key keeps its position and the size, a new key is appended, other entries are unchanged |
| OrderedMap.SetAllLastWins | src/managers/brew.ts:13-18 | after setting a list of pairs in turn, a key maps to the value of its last pair |
| JsString.TrimSpec | src/managers/brew.ts:11 | `trim` returns an infix of its input: what it drops at both ends is whitespace, it keeps a non-whitespace first and last character, and it is empty exactly when the input is all whitespace |
| JsString.TrimIdempotent | src/managers/macos.ts:66 | trimming twice is trimming once |
| JsString.Split | src/managers/dock.ts:129 | `split` on a character: at least one part, no part contains the separator, and joining the parts with the separator gives back the input |
| JsString.SplitJoin | src/managers/brew.ts:14 | splitting a join of separator-free parts gives back the parts |
| JsString.IntToString | src/managers/macos.ts:78 | an integer's `toString` is canonical decimal text that parses back to the integer |
| JsString.CanonicalIntRoundTrip | src/managers/macos.ts:78 | canonical decimal text is the `toString` of its value |
| JsString.CanonicalIffPrinted | src/managers/macos.ts:77-80 | text is canonical exactly when it is some integer's `toString` |
| JsString.IntToStringInjective | src/diff.ts:298-304 | different integers print differently |
| Json.QuoteRoundTrip | src/managers/macos.ts:116 | a JSON string literal written by `stringify`, followed by any text, reads back as the original string and the text after it |
| Json.NumberRoundTrip | src/managers/macos.ts:116 | an integer written by `stringify` reads back as that integer before any delimiter |
| Json.ValueRoundTrip | src/diff.ts:306 | the JSON text of any preference value (boolean, integer, string, string array, object with nested values) reads back as that value |
| Json.StringifyInjective | src/diff.ts:306 | equal JSON texts come from equal values |
| Values.ValuesEqual | src/diff.ts:285-307 | `valuesEqual` holds exactly when the values are equal, or one is an integer and the other the integer's decimal text, in either order |
| Values.FormatRoundTrip | src/managers/macos.ts:102-120 | a value written with its inferred flag reads back as that value: `1`/`0` as the boolean, decimal text as the integer, the text between the double quotes as the string, the `'("a", "b")'` list split back into its items when none contains `"`, and the JSON inside the single quotes as the object |
| Values.FormatInjective | src/managers/macos.ts:102-120 | two such values with the same inferred flag and the same written argument are equal |
| Values.FormatInferred | src/managers/macos.ts:83-120 | with the inferred flag, each value is written in its own form, and `float` is never inferred for these integer-only values |
| Values.ParseDefaultsOutput | src/managers/macos.ts:65-81 | on the trimmed text: `true` exactly for `1` or any-case `true`; `false` exactly for `0` or any-case `false`; an integer exactly for other text that is its own canonical decimal form within ±(2^53−1); otherwise the trimmed text; never an array or object (the source also reads some texts outside that range as numbers; see "## Left out") |
| Values.ReadBackInteger | src/managers/macos.ts:68-80 | an integer's text reads back as `true` for 1, as `false` for 0, as the integer within ±(2^53−1), and otherwise, in the model, as text (the source reads some of those larger integers as numbers; see "## Left out") |
| Values.ReadBackScalar | src/managers/macos.ts:65-120 | assuming `defaults` stores the written text as is (for a string, true when it holds none of `$`, backquote, `\` and `"`): a scalar written with its inferred flag and read back compares equal to the desired value exactly when it is a boolean, an integer other than 0 and 1, or a trimmed string not spelling a boolean; every other such value shows as `update` on every run |
| Shell.Attempt | src/utils/exec.ts:6-13 | one `runCommand` in a `try`/`catch`: the command is logged, and success follows its exit status; the failure message is `Command failed: <command>` plus the error output |
| Shell.RunAll | src/mactype.ts:324-330 | one command per entry in order, each result decided by that entry's own answer |
| Shell.RunEach | src/mactype.ts:324-330 | a loop that dispatches only the entries it selects is `RunAll` over exactly those entries |
| Shell.ReadEachStores | src/managers/git.ts:8-20 | in a read loop, a key read once and printing something holds the converted output |
| Shell.ReadEachSkipsSilent | src/managers/git.ts:13-15 | in a read loop, a key read once and printing nothing is absent |
| Brew.GetCurrentState | src/managers/brew.ts:5-38 | the formula listing then the cask listing are issued; each map depends only on its own listing, and a failed listing leaves its map empty |
| Brew.LineEntryOf | src/managers/brew.ts:13-17 | a line `name v1 v2 ...` maps the name to `v1 v2 ...`, and a line holding only the name maps it to `unknown` |
| Brew.ListingLastLineWins | src/managers/brew.ts:13-18 | the last listing line naming a package decides its version |
| Brew.ListingKeys | src/managers/brew.ts:10-18 | a name is in the map exactly when some listing line names it |
| Brew.CommandInjective | src/managers/brew.ts:40-146 | for whitespace-free names, equal commands mean equal action, kind and name |
| Brew.ApplyEntry | src/managers/brew.ts:40-146 | `none` succeeds without a command; `add`/`remove`/`update` issue `brew install`/`uninstall`/`upgrade`, with `--cask` for casks; success follows the command; an error is attached exactly on failure |
| AppStore.ListLineRoundTrip | src/managers/appstore.ts:33-39 | a `mas list` line of digits, whitespace, a name and ` (` reads back as the digits' value and the name |
| AppStore.SearchLineRoundTrip | src/managers/appstore.ts:90-97 | a `mas search` line of digits, whitespace, a name and ` (version)` reads back as the id, the name and the trimmed version |
| AppStore.NoParenNoMatch | src/managers/appstore.ts:34 | a line without `(` matches neither pattern |
| AppStore.Matches | src/managers/appstore.ts:33-40 | the matches of the lines, in line order: the results are the matches of strictly increasing line positions, exactly one per matching line, and every matching line contributes |
| AppStore.GetCurrentState | src/managers/appstore.ts:21-46 | without `mas`, the map is empty and no listing runs; a failed listing also leaves it empty |
| AppStore.ListedNameWins | src/managers/appstore.ts:21-46 | when the last listing line with id n reads `n<whitespace>name (`, the installed map sends n to that name |
| AppStore.InstalledIffListed | src/managers/appstore.ts:21-46 | after a successful listing, an id is installed exactly when some listing line matches with that id |
| AppStore.Search | src/managers/appstore.ts:80-104 | every failure is rethrown with the `Failed to search App Store: ` prefix; the search succeeds exactly when `mas` is present and the search command succeeds |
| AppStore.Install | src/managers/appstore.ts:48-70 | without `mas`, a fixed failure and no install command; otherwise success mirrors the install command, with its stderr on failure |
| AppStore.Uninstall | src/managers/appstore.ts:72-78 | always a failure with an error, and no command |
| AppStore.InstallAll | src/managers/appstore.ts:110-123 | one install result per app, each one of the results `install` can give for it |
| AppStore.InstallMissing | src/managers/appstore.ts:110-123 | the `apply` loop installs exactly the configured apps whose id is not installed, in order |
| AppStore.Apply | src/managers/appstore.ts:106-133 | one install result per absent app; strict mode only reports the installed apps missing from the configuration, in map order, and never uninstalls |
| MacOS.DomainTableRange | src/managers/macos.ts:5-43 | every process the table yields is one of the restartable processes, and each of the nine listed domains maps to its process |
| MacOS.GetCurrentState | src/managers/macos.ts:47-63 | one `defaults read` per desired setting, in order; only desired `domain:key` identities can be present |
| MacOS.ReadSetting | src/managers/macos.ts:50-56 | for a setting read once, its identity is present exactly when the read printed something, holding the parsed trimmed output |
| MacOS.NoteRestart | src/managers/macos.ts:157-160 | a domain outside the table leaves the restart set alone; otherwise the domain's process is added once, keeping insertion order |
| MacOS.ApplySettingDiff | src/managers/macos.ts:122-173 | `none` succeeds without a command; `remove` issues `defaults delete` and never schedules a restart; `add`/`update` issue `defaults write` and schedule the process only when the write succeeded; an error is attached exactly on failure |
| MacOS.ApplyKeepsRestartSet | src/managers/macos.ts:157-160 | applying an entry keeps the restart set free of duplicates and within the table's processes |
| MacOS.RestartProcesses | src/managers/macos.ts:175-191 | one `killall` per scheduled process in insertion order, each process at most once, failures ignored, nothing issued for an empty set, and the set empty afterwards |
| Git.GitIdentityInjective | src/managers/git.ts:9 | the state key `scope.key` determines the scope and the key |
| Git.GetCurrentState | src/managers/git.ts:5-23 | one `git config` read per desired setting, in order; only desired identities can be present |
| Git.ReadSetting | src/managers/git.ts:11-15 | the scope flag is `--global`, `--system` or `--local`; a setting read once is present exactly when the read printed something, holding the trimmed output |
| Git.ApplySettingDiff | src/managers/git.ts:25-65 | `none` succeeds without a command; `remove` unsets the key in its scope; `add`/`update` write the desired value; success follows the command; an error is attached exactly on failure |
| Dock.NormalName | src/managers/dock.ts:135-143 | the corrected normalisation: a name ending in `.app` becomes its last path component without the suffix; any other name is unchanged |
| Dock.AppPath | src/managers/dock.ts:27-29 | the add path always ends in `.app`, and is the name itself when the name ends in `.app` |
| Dock.AppPathRoundTrip | src/managers/dock.ts:166-173 | for a bare app name, normalising its add path gives back the name |
| Dock.AsWrittenAgrees | src/managers/dock.ts:139 | when `.app` occurs in the last component only as its suffix, replacing the first match is the same as stripping the suffix |
| Dock.AsWrittenMisreads | src/managers/dock.ts:139 | for a component `x.appy.app`, replacing the first `.app` gives a different name from stripping the suffix |
| Dock.FirstFields | src/managers/dock.ts:124-132 | the listing keeps the trimmed first tab field of each selected line, drops empty names, and loses no selected line with a non-empty field |
| Dock.CurrentAppsListed | src/managers/dock.ts:83-103 | every app `getCurrentApps` lists is the non-empty first field of a non-blank listing line, and every such field is listed |
| Dock.OnePersistentLine | src/managers/dock.ts:124-132 | a listing of one `persistentApps` line `name<TAB>...` with a whitespace-free name shows exactly that name |
| Dock.AddApp | src/managers/dock.ts:15-49 | without `dockutil`, the fixed failure and no command; otherwise one add command with the app's `.app` path and position flag; success follows the command and the message names the app |
| Dock.RemoveApp | src/managers/dock.ts:54-78 | without `dockutil`, the fixed failure; otherwise one remove command, with success following it |
| Dock.Records | src/managers/dock.ts:136-142 | the configured entries can be read as records exactly when none is a bare string |
| Dock.Reconcile | src/managers/dock.ts:146-193 | with configured names taken as written (first `.app` removed): all removals run before any add; one result per removal and per add, each decided by that command's answer |
| Dock.SetApps | src/managers/dock.ts:108-209 | with configured names taken as written; without `dockutil`, exactly one failure; otherwise the listing, then every removal, then every add; `killall Dock` runs exactly when some result was produced, and its failure adds one more failure |
| Dock.Restart | src/managers/dock.ts:196-198 | `killall Dock` runs exactly when something was removed or added; the earlier results are kept, and only its failure adds one more |
| Dock.ShownButMisnamed | src/managers/dock.ts:146-198 | when the Dock shows one app under a name other than the one computed for the only configured app, that app is removed, added back, and the Dock restarted |
| Dock.SetAppsChurns | src/managers/dock.ts:135-198 | for `/Applications/My.apps.app` shown as `My.apps`, the corrected name matches the Dock, but the as-written name `Mys.app` does not: `setApps` removes `My.apps`, adds the bundle back and restarts the Dock |
| Dock.NothingToDoIffSettled | src/managers/dock.ts:146-193 | nothing is removed or added exactly when every shown app is desired and every desired app is shown |
| Dock.ReconcileCovers | src/managers/dock.ts:146-193 | afterwards, every desired app was shown or is added, and every shown app is desired or is removed |
| Dock.ReconcileTouchesOnlyStrays | src/managers/dock.ts:146-193 | only undesired apps are removed, and only missing desired apps are added |
| MacOSDefaults.Make | src/managers/macos-defaults.ts:319-552 | every helper returns its fixed domain, with the key and value unchanged and no type flag |
| MacOSDefaults.HelperDomainRestarts | src/managers/macos-defaults.ts:319-552 | every helper domain has a process in the restart table |
| MacOSDefaults.SameDomainIffSameGroup | src/managers/macos-defaults.ts:319-552 | two helpers share a domain exactly when they are Dock with Mission Control, Finder with Desktop, or any two of mouse, keyboard and global |
| MacOSDefaults.MruSpacesShared | src/managers/macos-defaults.ts:36-41 | `mru-spaces` is offered by both the Dock and the Mission Control helper, with the same `com.apple.dock:mru-spaces` identity |
| GitHelpers.SectionSetting | src/managers/git-helpers.ts:57-129 | every section helper gives a global setting keyed `<section>.<name>`, with the value converted by `String` |
| GitHelpers.KeyPartsOfJoin | src/managers/git-helpers.ts:57-129 | a section key splits back into its section and name |
| GitHelpers.FlagIsItsText | src/managers/git-helpers.ts:66-121 | a boolean argument gives the same setting as its spelling as a string |
| GitHelpers.AliasSetting | src/managers/git-helpers.ts:131-137 | `alias.<name>`, global, with the command kept verbatim |
| GitHelpers.CommonAliasesShape | src/managers/git-helpers.ts:152-160 | seven global `alias.<name>` settings with distinct keys |
| GitHelpers.ModernGitSettingsShape | src/managers/git-helpers.ts:162-169 | contains `pull.rebase = "true"` and `push.autoSetupRemote = "true"`, all global |
| DiffEngine.Extras | src/diff.ts:96-97 | the observed entries whose key is not desired, in observed order, and all of them |
| DiffEngine.NameEntries | src/diff.ts:80-93 | one entry per desired name, in declared order: `add` exactly when the name is not installed, otherwise `none` with the installed version; never `update` |
| DiffEngine.NameRemovals | src/diff.ts:95-105 | one `remove` per installed name that is not desired, with its version, in listing order, and no others |
| DiffEngine.DiffNames | src/diff.ts:72-146 | packages and casks: the desired entries first, then the removals in strict mode only |
| DiffEngine.AppEntries | src/diff.ts:154-170 | one entry per desired app keyed by id: `add` exactly when the id is not installed, otherwise `none`, both with the desired name |
| DiffEngine.AppRemovals | src/diff.ts:172-182 | one `remove` per installed id not desired, carrying the installed name, in map order |
| DiffEngine.DiffApps | src/diff.ts:148-185 | the desired entries first, then the removals in strict mode only |
| DiffEngine.SettingEntries | src/diff.ts:196-228 | one entry per desired setting keyed `domain:key`: `add` exactly when nothing was read; `update` with both values and the type flag exactly when the read value is not loosely equal; `none` otherwise |
| DiffEngine.SettingRemovals | src/diff.ts:230-241 | whatever the strict flag, one `remove` per record entry that is not desired and still reads as defined, with the observed value; as many as such entries, in record order through strictly increasing record positions; none exactly when no record entry qualifies |
| DiffEngine.DiffSettings | src/diff.ts:187-244 | the desired entries first, then the record-driven removals |
| DiffEngine.SettingsWithoutRemovals | src/diff.ts:230-243 | with no record-driven removal due, the settings diff holds no `remove` |
| DiffEngine.DiffGit | src/diff.ts:246-283 | one entry per desired setting: a missing or empty observed value gives `add`, a different one `update`, an equal one `none`; never `remove` |
| DiffEngine.DiffFiles | src/diff.ts:317-364 | one entry per managed file: `add` exactly when no symlink exists at the expanded target, otherwise `update` with the link's target, whatever it points to |
| DiffEngine.NamesSettled | src/diff.ts:72-108 | every package entry is `none` exactly when every desired name is installed and, in strict mode, every installed name is desired |
| DiffEngine.AppsSettled | src/diff.ts:148-185 | the same for App Store apps by id |
| DiffEngine.SettingsSettled | src/diff.ts:187-244 | every settings entry is `none` exactly when every desired value reads as loosely equal and no record entry is removable |
| DiffEngine.NoDifferencesIffInDesiredState | src/diff.ts:366-375 | `hasDifferences` is false exactly when the machine is in the desired state; a managed file always counts as a difference |
| MacType.LoadSaveRoundTrip | src/mactype.ts:45-67 | a missing or unparsable record loads as no settings; a saved record loads back as exactly the desired settings' `(domain, key)` pairs, in order |
| MacType.PlanOrdered | src/mactype.ts:321-412 | the apply order is packages, casks, App Store, settings, the restart, the Dock, git, files |
| MacType.RestartOnce | src/mactype.ts:352-365 | the restart step occurs exactly once, after every settings step and before the Dock step |
| MacType.PackageStepIff | src/mactype.ts:324-330 | a package is dispatched exactly when its entry is not `none` |
| MacType.CaskStepIff | src/mactype.ts:332-338 | a cask is dispatched exactly when its entry is not `none` |
| MacType.AppStepIff | src/mactype.ts:340-350 | an App Store entry is installed exactly when it is `add` and uninstalled exactly when it is `remove` |
| MacType.SettingStepIff | src/mactype.ts:352-358 | a setting is dispatched exactly when its entry is not `none` |
| MacType.GitStepIff | src/mactype.ts:396-402 | a git setting is dispatched exactly when its entry is not `none` |
| MacType.FileStepIff | src/mactype.ts:404-412 | a file is dispatched exactly when its entry is not `none` |
| MacType.SingleOutcome | src/mactype.ts:324-412 | each dispatched entry calls its manager: brew steps issue exactly their command and succeed with it; App Store uninstalls and file steps issue none, and uninstalls always fail; only `add`/`update` settings steps can change the restart set, which stays duplicate-free |
| MacType.RunStep | src/mactype.ts:321-412 | a step only appends results; a single step appends one; the restart issues one `killall` per pending process and empties the set |
| MacType.Execute | src/mactype.ts:321-412 | no failure stops the walk: there are at least as many results as single steps, exactly as many without a Dock step, and earlier results are kept |
| MacType.ExecuteAppend | src/mactype.ts:321-412 | walking two plans in a row is walking their concatenation |
| MacType.ExecuteOutcome | src/mactype.ts:321-412 | the result of each single step is the one its manager gives at that point, at the position right after the results of the steps before it |
| MacType.PlanSingles | src/mactype.ts:321-412 | the plan holds exactly one single step per entry the diff acts on |
| MacType.PlanDrains | src/mactype.ts:352-361 | after the walk no restart is left pending |
| MacType.TallyTotal | src/mactype.ts:414-415 | successes plus failures count every result |
| MacType.ApplyDiff | src/mactype.ts:321-433 | the tallies account for every result; there is one result per acted-on entry plus the Dock's; without Dock apps, exactly one per entry; each entry's result is its manager's outcome, in plan order; no restart is left pending |
| MacType.Observe | src/mactype.ts:131-148 | the settings and git state hold only desired identities |
| MacType.RunDiffSettled | src/mactype.ts:150-166 | the diff `run` computes is empty exactly when the observed machine is in the desired state |
| MacType.Run | src/mactype.ts:116-183 | `run` stops without changes exactly when the machine is in the desired state, or on a dry run; the record is rewritten from the configuration only after an apply and is untouched otherwise |
| MacType.RunNeverRemovesSettings | src/mactype.ts:136-139 | because only desired keys are read, `run` never plans a settings `remove`, so a setting dropped from the configuration keeps its value |

## Left out

- Process I/O (`src/utils/exec.ts`): every command goes through the `Shell.Env` oracle.
  - `runCommandSafe` is the oracle's answer as is.
  - A rejected `runCommand` becomes the failure text `Command failed: <command>` followed by the command's stderr, which stands for `error.message`.
  - `runCommandWithOutput`, used by the App Store install, is not part of this model. Its result is taken as the command's success and stderr.
- Console output: `printDiff`, `printResult`, the summary banners and the warnings. The `verbose` flag only affects printing and is dropped.
- `loadConfig` and `src/cli.ts`: the configuration arrives as a `Types.Configuration` value.
- The state file's JSON text, its path and the `mkdir`: `MacType.StateFile` is what `JSON.parse` hands back (absent, unparsable, or a document with or without `macos.settings`).
- `src/managers/files.ts` is not part of this model.
  - Link creation is the parameter `files`, which gives the result for an entry.
  - The observed symlinks are a parameter of `run`.
  - `src/mactype.ts:141` passes the `config.files` object rather than its list to the file manager, whose behaviour on it lies in that file.
- `path.resolve`, `process.env.HOME` and `basename` in `diffFiles` are parameters (`resolve`, `home`). `expectedTarget` never changes an action and is not modelled.
- The wallpaper: `Diff` has no wallpaper field and `generateDiff` never sets one, so the branch at `src/mactype.ts:372-394` is unreachable. `src/managers/wallpaper.ts` is not part of this model.
- Floating-point numbers: preference numbers are integers, so `inferType` never gives `float` here and number formatting is decimal integer text. `Number(text)` is modelled for canonical integer text within ±(2^53−1) only. Forms such as `1e3`, `0x10` or ` 5` do not equal their own `toString`, so the source reads them as strings too. `Infinity` and `-Infinity` do equal their own `toString`, so the source reads them as numbers, and the model as strings.
- Values.ParseDefaultsOutput: double rounding is not modelled, so text the source reads as a number outside ±(2^53−1) stays text in the model. Such text includes `Infinity`, `-Infinity`, fractions and exponent forms that are their own `toString` (`1.5`, `1e+21`), and integers that are the shortest decimal of their nearest double (`9007199254740992`, `100000000000000000000`, `1152921504606847000`).
- Values.ReadBackInteger: for the same reason, an integer beyond ±(2^53−1) whose text the source reads back as a number reads back as text in the model.
- Values.ReadBackScalar: `defaults write` runs through `/bin/sh`, with a string argument inside double quotes. The shell expands `$` and backquote, removes some `\`, and a `"` ends the quoted word. The model takes the stored text to be the string as written, which holds only for strings free of those four characters.
- MacOS.Desired: an entry with no desired value is written as the text `undefined`. This is what the template literal prints; the model does not follow `formatValue` with an `undefined` argument further.
- MacOS.DomainToProcess: the table is looked up as a plain mapping. Inherited `Object.prototype` properties, such as a domain called `constructor`, are not modelled.
- Dock.Records: a bare-string Dock entry makes `setApps` throw a `TypeError`. The model reports that as one failure with a fixed message, after the listing.
- `gitSetting` (`src/managers/git-helpers.ts:139-149`) only builds the record, so it is the `Types.GitSetting` constructor. The helpers' per-key value types are not modelled: any key of the section's interface takes a string, or a boolean where the source allows one.
- async/await: the code is sequential, and so are the calls in the model.
- `config.example.ts`, `configs/zshrc.ts` and `src/index.ts`: sample data and re-exports.

## Findings

| source | as written | input that shows it | evidently intended | confidence | as-written member | corrected member |
|---|---|---|---|---|---|---|
| src/managers/dock.ts:139 | `.replace('.app', '')` removes the FIRST `.app` in the last path component | `/Applications/My.apps.app` normalises to `Mys.app` instead of `My.apps`, so the app is removed and re-added on every run | strip the trailing `.app` suffix | not executed | Dock.SetAppsChurns | Dock.AppPathRoundTrip |

`Dock.AsWrittenMisreads` shows the two names differ. `Dock.NormalName` is the corrected normalisation, and `Dock.AppPathRoundTrip` proves that it gives back a bare name from its add path. `Dock.Reconcile` and `Dock.SetApps` keep the as-written name, so that they describe what `setApps` does.
