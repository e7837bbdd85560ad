/** The diff engine (src/diff.ts): a pure function from the desired configuration, the
    observed state, the strict flag and the previously applied settings record to a list of
    add/update/none/remove entries per resource kind. */
module DiffEngine {
  import opened Optional
  import opened Seqs
  import opened JsString
  import opened OrderedMap
  import opened Types
  import opened Values

  // ---------------------------------------------------------------------------
  // Homebrew packages and casks
  // ---------------------------------------------------------------------------

  /** The observed entries whose key is not desired, in observed iteration order. */
  function Extras<K(==), V>(desired: seq<K>, observed: OMap<K, V>): (r: seq<(K, V)>)
    ensures forall i :: 0 <= i < |r| ==> r[i] in observed && Has(observed, r[i].0) && r[i].0 !in desired
    ensures forall j :: 0 <= j < |observed| && observed[j].0 !in desired ==> observed[j] in r
    ensures forall i, j :: 0 <= i < j < |r| ==> IndexOfKey(observed, r[i].0) < IndexOfKey(observed, r[j].0)
  {
    var p := (e: (K, V)) => e.0 !in desired;
    FilterKeepsOrder(observed, p);
    Filter(observed, p)
  }

  function NameEntry(name: string, observed: OMap<string, string>): PackageEntry {
    if Has(observed, name) then PackageEntry(NoAction, name, Get(observed, name))
    else PackageEntry(Add, name, None)
  }

  /** The entries for the desired names: one per name, in declared order, `add` when the name
      is not installed and `none` (with the installed version) when it is. */
  function NameEntries(desired: seq<string>, observed: OMap<string, string>): (r: seq<PackageEntry>)
    ensures |r| == |desired|
    ensures forall i :: 0 <= i < |desired| ==>
      && r[i].name == desired[i]
      && (r[i].action == Add || r[i].action == NoAction)
      && (r[i].action == Add <==> !Has(observed, desired[i]))
      && r[i].currentVersion == Get(observed, desired[i])
  {
    MapSeq(desired, n => NameEntry(n, observed))
  }

  /** The strict-mode removals: one per installed name that is not desired, in the order the
      listing produced them, carrying the installed version. */
  function NameRemovals(desired: seq<string>, observed: OMap<string, string>): (r: seq<PackageEntry>)
    ensures forall i :: 0 <= i < |r| ==>
      && r[i].action == Remove
      && r[i].name !in desired
      && Has(observed, r[i].name)
      && r[i].currentVersion == Get(observed, r[i].name)
    ensures forall j :: 0 <= j < |observed| && observed[j].0 !in desired ==>
      exists i :: 0 <= i < |r| && r[i].name == observed[j].0
    ensures forall i, j :: 0 <= i < j < |r| ==>
      IndexOfKey(observed, r[i].name) < IndexOfKey(observed, r[j].name)
  {
    NameRemovalsSound(desired, observed);
    NameRemovalsCover(desired, observed);
    MapSeq(Extras(desired, observed), NameRemoval)
  }

  lemma NameRemovalsSound(desired: seq<string>, observed: OMap<string, string>)
    ensures var r := MapSeq(Extras(desired, observed), NameRemoval);
      && (forall i :: 0 <= i < |r| ==>
            && r[i].action == Remove
            && r[i].name !in desired
            && Has(observed, r[i].name)
            && r[i].currentVersion == Get(observed, r[i].name))
      && (forall i, j :: 0 <= i < j < |r| ==>
            IndexOfKey(observed, r[i].name) < IndexOfKey(observed, r[j].name))
  {
    var extras := Extras(desired, observed);
    var r := MapSeq(extras, NameRemoval);
    assert forall i :: 0 <= i < |r| ==> r[i].name == extras[i].0 && r[i].currentVersion == Some(extras[i].1);
  }

  lemma NameRemovalsCover(desired: seq<string>, observed: OMap<string, string>)
    ensures var r := MapSeq(Extras(desired, observed), NameRemoval);
      forall j :: 0 <= j < |observed| && observed[j].0 !in desired ==>
        exists i :: 0 <= i < |r| && r[i].name == observed[j].0
  {
    var extras := Extras(desired, observed);
    forall j | 0 <= j < |observed| && observed[j].0 !in desired
      ensures NameRemoval(observed[j]) in MapSeq(extras, NameRemoval)
    {
      MapCovers(extras, NameRemoval, observed[j]);
    }
  }

  function NameRemoval(e: (string, string)): PackageEntry {
    PackageEntry(Remove, e.0, Some(e.1))
  }

  /** `diffBrewPackages` and `diffBrewCasks` (the two are the same code): the desired entries,
      then the removals in strict mode only. */
  function DiffNames(desired: seq<string>, observed: OMap<string, string>, strict: bool): (r: seq<PackageEntry>)
    ensures |r| == |desired| + (if strict then |NameRemovals(desired, observed)| else 0)
    ensures r[..|desired|] == NameEntries(desired, observed)
    ensures r[|desired|..] == if strict then NameRemovals(desired, observed) else []
  {
    var head := NameEntries(desired, observed);
    var tail := if strict then NameRemovals(desired, observed) else [];
    assert (head + tail)[..|desired|] == head;
    head + tail
  }

  // ---------------------------------------------------------------------------
  // App Store apps
  // ---------------------------------------------------------------------------

  function Ids(apps: seq<AppStoreApp>): (r: seq<int>)
    ensures |r| == |apps| && forall i :: 0 <= i < |apps| ==> r[i] == apps[i].id
  {
    MapSeq(apps, (a: AppStoreApp) => a.id)
  }

  /** The entries for the desired apps, keyed by id: `add` when the id is not installed,
      `none` when it is, both carrying the desired name. */
  function AppEntries(desired: seq<AppStoreApp>, observed: OMap<int, string>): (r: seq<AppEntry>)
    ensures |r| == |desired|
    ensures forall i :: 0 <= i < |desired| ==>
      && r[i].id == desired[i].id
      && r[i].name == desired[i].name
      && (r[i].action == Add || r[i].action == NoAction)
      && (r[i].action == Add <==> !Has(observed, desired[i].id))
  {
    MapSeq(desired, (a: AppStoreApp) => AppEntry(if Has(observed, a.id) then NoAction else Add, a.id, a.name))
  }

  /** The strict-mode removals: one per installed id that is not desired, in listing order,
      carrying the installed name. */
  function AppRemovals(desired: seq<AppStoreApp>, observed: OMap<int, string>): (r: seq<AppEntry>)
    ensures forall i :: 0 <= i < |r| ==>
      && r[i].action == Remove
      && r[i].id !in Ids(desired)
      && Has(observed, r[i].id)
      && Get(observed, r[i].id) == Some(r[i].name)
    ensures forall j :: 0 <= j < |observed| && observed[j].0 !in Ids(desired) ==>
      exists i :: 0 <= i < |r| && r[i].id == observed[j].0
    ensures forall i, j :: 0 <= i < j < |r| ==>
      IndexOfKey(observed, r[i].id) < IndexOfKey(observed, r[j].id)
  {
    AppRemovalsSound(desired, observed);
    AppRemovalsCover(desired, observed);
    MapSeq(Extras(Ids(desired), observed), AppRemoval)
  }

  lemma AppRemovalsSound(desired: seq<AppStoreApp>, observed: OMap<int, string>)
    ensures var r := MapSeq(Extras(Ids(desired), observed), AppRemoval);
      && (forall i :: 0 <= i < |r| ==>
            && r[i].action == Remove
            && r[i].id !in Ids(desired)
            && Has(observed, r[i].id)
            && Get(observed, r[i].id) == Some(r[i].name))
      && (forall i, j :: 0 <= i < j < |r| ==>
            IndexOfKey(observed, r[i].id) < IndexOfKey(observed, r[j].id))
  {
    var extras := Extras(Ids(desired), observed);
    var r := MapSeq(extras, AppRemoval);
    assert forall i :: 0 <= i < |r| ==> r[i].id == extras[i].0 && r[i].name == extras[i].1;
  }

  lemma AppRemovalsCover(desired: seq<AppStoreApp>, observed: OMap<int, string>)
    ensures var r := MapSeq(Extras(Ids(desired), observed), AppRemoval);
      forall j :: 0 <= j < |observed| && observed[j].0 !in Ids(desired) ==>
        exists i :: 0 <= i < |r| && r[i].id == observed[j].0
  {
    var extras := Extras(Ids(desired), observed);
    forall j | 0 <= j < |observed| && observed[j].0 !in Ids(desired)
      ensures AppRemoval(observed[j]) in MapSeq(extras, AppRemoval)
    {
      MapCovers(extras, AppRemoval, observed[j]);
    }
  }

  function AppRemoval(e: (int, string)): AppEntry {
    AppEntry(Remove, e.0, e.1)
  }

  /** `diffAppStoreApps`: the desired entries, then the removals in strict mode only. */
  function DiffApps(desired: seq<AppStoreApp>, observed: OMap<int, string>, strict: bool): (r: seq<AppEntry>)
    ensures |r| == |desired| + (if strict then |AppRemovals(desired, observed)| else 0)
    ensures r[..|desired|] == AppEntries(desired, observed)
    ensures r[|desired|..] == if strict then AppRemovals(desired, observed) else []
  {
    var head := AppEntries(desired, observed);
    var tail := if strict then AppRemovals(desired, observed) else [];
    assert (head + tail)[..|desired|] == head;
    head + tail
  }

  // ---------------------------------------------------------------------------
  // macOS defaults settings
  // ---------------------------------------------------------------------------

  function Identity(s: MacOSSetting): string {
    SettingIdentity(s.domain, s.key)
  }

  function RefIdentity(p: SettingRef): string {
    SettingIdentity(p.domain, p.key)
  }

  /** The identities of the desired settings (the `desiredKeys` set). */
  function DesiredIdentities(desired: seq<MacOSSetting>): set<string> {
    set i | 0 <= i < |desired| :: Identity(desired[i])
  }

  function SettingEntryFor(s: MacOSSetting, observed: map<string, Value>): SettingEntry {
    var id := Identity(s);
    if id !in observed then SettingEntry(Add, s.domain, s.key, None, Some(s.value), s.valueType)
    else if !ValuesEqual(observed[id], s.value) then
      SettingEntry(Update, s.domain, s.key, Some(observed[id]), Some(s.value), s.valueType)
    else SettingEntry(NoAction, s.domain, s.key, Some(observed[id]), Some(s.value), s.valueType)
  }

  /** One entry per desired setting, in order: `add` when nothing was read for its
      `domain:key`, `update` (with both values and the type tag) when what was read is not
      loosely equal to the desired value, `none` otherwise. */
  function SettingEntries(desired: seq<MacOSSetting>, observed: map<string, Value>): (r: seq<SettingEntry>)
    ensures |r| == |desired|
    ensures forall i :: 0 <= i < |desired| ==>
      var s, id := desired[i], Identity(desired[i]);
      && r[i].domain == s.domain && r[i].key == s.key
      && r[i].desiredValue == Some(s.value) && r[i].valueType == s.valueType
      && (r[i].action == Add <==> id !in observed)
      && (r[i].action == Update <==> id in observed && !ValuesEqual(observed[id], s.value))
      && (r[i].action == NoAction <==> id in observed && ValuesEqual(observed[id], s.value))
      && r[i].currentValue == (if id in observed then Some(observed[id]) else None)
  {
    MapSeq(desired, (s: MacOSSetting) => SettingEntryFor(s, observed))
  }

  /** A previously applied setting that is no longer desired but still reads as defined. */
  predicate Removable(p: SettingRef, ids: set<string>, observed: map<string, Value>) {
    RefIdentity(p) !in ids && RefIdentity(p) in observed
  }

  function RemovalEntry(p: SettingRef, observed: map<string, Value>): SettingEntry {
    var id := RefIdentity(p);
    SettingEntry(Remove, p.domain, p.key, if id in observed then Some(observed[id]) else None, None, None)
  }

  /** The record-driven removals, whatever the strict flag: one per record entry that is no
      longer desired and still reads as defined, in record order, carrying the observed value. */
  function SettingRemovals(desired: seq<MacOSSetting>, observed: map<string, Value>, previous: seq<SettingRef>)
    : (r: seq<SettingEntry>)
    ensures |r| <= |previous|
    ensures forall i :: 0 <= i < |r| ==>
      var id := SettingIdentity(r[i].domain, r[i].key);
      && r[i].action == Remove
      && SettingRef(r[i].domain, r[i].key) in previous
      && id !in DesiredIdentities(desired)
      && id in observed
      && r[i].currentValue == Some(observed[id])
      && r[i].desiredValue == None
    ensures forall j :: 0 <= j < |previous| && Removable(previous[j], DesiredIdentities(desired), observed) ==>
      exists i :: 0 <= i < |r| && r[i].domain == previous[j].domain && r[i].key == previous[j].key
    ensures r == [] <==> forall j :: 0 <= j < |previous| ==> !Removable(previous[j], DesiredIdentities(desired), observed)
    ensures |r| == Count(previous, RemovableIn(DesiredIdentities(desired), observed))
    ensures exists idx :: && Positions(previous, RemovableIn(DesiredIdentities(desired), observed), idx)
                          && |idx| == |r|
                          && forall i :: 0 <= i < |r| ==> r[i] == RemovalEntry(previous[idx[i]], observed)
  {
    var ids := DesiredIdentities(desired);
    FilterEmpty(previous, RemovableIn(ids, observed));
    SettingRemovalsOrdered(ids, observed, previous);
    SettingRemovalsSound(ids, observed, previous);
    SettingRemovalsCover(ids, observed, previous);
    Removals(ids, observed, previous)
  }

  lemma SettingRemovalsSound(ids: set<string>, observed: map<string, Value>, previous: seq<SettingRef>)
    ensures var r := MapSeq(Filter(previous, RemovableIn(ids, observed)), RemovalFor(observed));
      forall i :: 0 <= i < |r| ==>
        var id := SettingIdentity(r[i].domain, r[i].key);
        && r[i].action == Remove
        && SettingRef(r[i].domain, r[i].key) in previous
        && id !in ids
        && id in observed
        && r[i].currentValue == Some(observed[id])
        && r[i].desiredValue == None
  {
    var keep := Filter(previous, RemovableIn(ids, observed));
    var r := MapSeq(keep, RemovalFor(observed));
    assert forall i :: 0 <= i < |r| ==> SettingRef(r[i].domain, r[i].key) == keep[i];
  }

  lemma SettingRemovalsCover(ids: set<string>, observed: map<string, Value>, previous: seq<SettingRef>)
    ensures forall j :: 0 <= j < |previous| && Removable(previous[j], ids, observed) ==>
      exists i :: 0 <= i < |Removals(ids, observed, previous)| &&
        Removals(ids, observed, previous)[i].domain == previous[j].domain && Removals(ids, observed, previous)[i].key == previous[j].key
  {
    var keep := Filter(previous, RemovableIn(ids, observed));
    var r := Removals(ids, observed, previous);
    forall j | 0 <= j < |previous| && Removable(previous[j], ids, observed)
      ensures exists i :: 0 <= i < |r| && r[i].domain == previous[j].domain && r[i].key == previous[j].key
    {
      assert RemovableIn(ids, observed)(previous[j]);
      MapCovers(keep, RemovalFor(observed), previous[j]);
      var i :| 0 <= i < |r| && r[i] == RemovalEntry(previous[j], observed);
      assert r[i].domain == previous[j].domain && r[i].key == previous[j].key;
    }
  }

  /** The removals follow the record: one for each qualifying record position, in order. */
  lemma SettingRemovalsOrdered(ids: set<string>, observed: map<string, Value>, previous: seq<SettingRef>)
    ensures var r := MapSeq(Filter(previous, RemovableIn(ids, observed)), RemovalFor(observed));
      exists idx :: && Positions(previous, RemovableIn(ids, observed), idx)
                    && |idx| == |r|
                    && forall i :: 0 <= i < |r| ==> r[i] == RemovalEntry(previous[idx[i]], observed)
  {
    var keep := Filter(previous, RemovableIn(ids, observed));
    FilterPositions(previous, RemovableIn(ids, observed));
    var idx :| && Positions(previous, RemovableIn(ids, observed), idx)
               && |idx| == |keep|
               && forall i :: 0 <= i < |idx| ==> keep[i] == previous[idx[i]];
    var r := MapSeq(keep, RemovalFor(observed));
    assert forall i :: 0 <= i < |r| ==> r[i] == RemovalEntry(previous[idx[i]], observed);
  }

  /** The removal entries for the qualifying record entries, in record order. */
  function Removals(ids: set<string>, observed: map<string, Value>, previous: seq<SettingRef>): seq<SettingEntry> {
    MapSeq(Filter(previous, RemovableIn(ids, observed)), RemovalFor(observed))
  }

  function RemovableIn(ids: set<string>, observed: map<string, Value>): SettingRef -> bool {
    (p: SettingRef) => Removable(p, ids, observed)
  }

  function RemovalFor(observed: map<string, Value>): SettingRef -> SettingEntry {
    (p: SettingRef) => RemovalEntry(p, observed)
  }

  /** `diffMacOSSettings`: the desired entries, then the record-driven removals. */
  function DiffSettings(desired: seq<MacOSSetting>, observed: map<string, Value>, previous: seq<SettingRef>)
    : (r: seq<SettingEntry>)
    ensures |r| >= |desired|
    ensures r[..|desired|] == SettingEntries(desired, observed)
    ensures r[|desired|..] == SettingRemovals(desired, observed, previous)
  {
    var head := SettingEntries(desired, observed);
    assert (head + SettingRemovals(desired, observed, previous))[..|desired|] == head;
    head + SettingRemovals(desired, observed, previous)
  }

  // ---------------------------------------------------------------------------
  // git config
  // ---------------------------------------------------------------------------

  function GitEntryFor(s: GitSetting, observed: map<string, string>): GitEntry {
    var id := GitIdentity(s.scope, s.key);
    if id !in observed || observed[id] == "" then GitEntry(Add, s.scope, s.key, None, Some(s.value))
    else if observed[id] != s.value then GitEntry(Update, s.scope, s.key, Some(observed[id]), Some(s.value))
    else GitEntry(NoAction, s.scope, s.key, Some(observed[id]), Some(s.value))
  }

  /** `diffGitSettings`: one entry per desired setting, in order; a missing or empty observed
      value counts as absent (`add`), a different one gives `update`, an equal one `none`;
      never `remove`. */
  function DiffGit(desired: seq<GitSetting>, observed: map<string, string>): (r: seq<GitEntry>)
    ensures |r| == |desired|
    ensures forall i :: 0 <= i < |desired| ==>
      var s, id := desired[i], GitIdentity(desired[i].scope, desired[i].key);
      var present := id in observed && observed[id] != "";
      && r[i].scope == s.scope && r[i].key == s.key && r[i].desiredValue == Some(s.value)
      && r[i].action != Remove
      && (r[i].action == Add <==> !present)
      && (r[i].action == Update <==> present && observed[id] != s.value)
      && (r[i].action == NoAction <==> present && observed[id] == s.value)
      && r[i].currentValue == (if present then Some(observed[id]) else None)
  {
    MapSeq(desired, (s: GitSetting) => GitEntryFor(s, observed))
  }

  // ---------------------------------------------------------------------------
  // Managed files
  // ---------------------------------------------------------------------------

  /** `expandHome`: a leading `~/` is resolved against the home directory; `resolve` stands
      for `path.resolve`, and `home` for `process.env.HOME || '~'`. */
  function ExpandHome(path: string, home: string, resolve: (string, string) -> string): string {
    if StartsWith(path, "~/") then resolve(home, path[2..]) else path
  }

  function FileEntryFor(f: ConfigFile, symlinks: map<string, string>, home: string, resolve: (string, string) -> string)
    : FileEntry
  {
    var t := ExpandHome(f.target, home, resolve);
    if t !in symlinks then FileEntry(Add, f.source, f.target, None, f.backup)
    else FileEntry(Update, f.source, f.target, Some(symlinks[t]), f.backup)
  }

  /** `diffFiles`: one entry per managed file, in order; `add` when no symlink exists at the
      expanded target, otherwise `update` with the current link target, whether or not the link
      already points at the generated file. */
  function DiffFiles(desired: seq<ConfigFile>, symlinks: map<string, string>, home: string,
                     resolve: (string, string) -> string): (r: seq<FileEntry>)
    ensures |r| == |desired|
    ensures forall i :: 0 <= i < |desired| ==>
      var f, t := desired[i], ExpandHome(desired[i].target, home, resolve);
      && r[i].source == f.source && r[i].target == f.target && r[i].backup == f.backup
      && (r[i].action == Add || r[i].action == Update)
      && (r[i].action == Add <==> t !in symlinks)
      && r[i].currentTarget == (if t in symlinks then Some(symlinks[t]) else None)
  {
    MapSeq(desired, (f: ConfigFile) => FileEntryFor(f, symlinks, home, resolve))
  }

  // ---------------------------------------------------------------------------
  // The whole diff
  // ---------------------------------------------------------------------------

  /** `generateDiff`. */
  function GenerateDiff(config: Configuration, state: SystemState, strict: bool, previous: seq<SettingRef>,
                        home: string, resolve: (string, string) -> string): Diff
  {
    Diff(
      DiffNames(config.packages, state.packages, strict),
      DiffNames(config.casks, state.casks, strict),
      DiffApps(config.apps, state.apps, strict),
      DiffSettings(config.settings, state.settings, previous),
      DiffGit(config.gitSettings, state.git),
      DiffFiles(config.files, state.symlinks, home, resolve))
  }

  /** `hasDifferences`: some entry of the six lists is not `none`. */
  predicate HasDifferences(d: Diff) {
    || (exists i :: 0 <= i < |d.packages| && d.packages[i].action != NoAction)
    || (exists i :: 0 <= i < |d.casks| && d.casks[i].action != NoAction)
    || (exists i :: 0 <= i < |d.apps| && d.apps[i].action != NoAction)
    || (exists i :: 0 <= i < |d.settings| && d.settings[i].action != NoAction)
    || (exists i :: 0 <= i < |d.git| && d.git[i].action != NoAction)
    || (exists i :: 0 <= i < |d.files| && d.files[i].action != NoAction)
  }

  // ---------------------------------------------------------------------------
  // When the diff is empty
  // ---------------------------------------------------------------------------

  predicate NamesInPlace(desired: seq<string>, observed: OMap<string, string>, strict: bool) {
    && (forall i :: 0 <= i < |desired| ==> Has(observed, desired[i]))
    && (strict ==> forall j :: 0 <= j < |observed| ==> observed[j].0 in desired)
  }

  predicate AppsInPlace(desired: seq<AppStoreApp>, observed: OMap<int, string>, strict: bool) {
    && (forall i :: 0 <= i < |desired| ==> Has(observed, desired[i].id))
    && (strict ==> forall j :: 0 <= j < |observed| ==> observed[j].0 in Ids(desired))
  }

  predicate SettingsInPlace(desired: seq<MacOSSetting>, observed: map<string, Value>, previous: seq<SettingRef>) {
    && (forall i :: 0 <= i < |desired| ==>
          Identity(desired[i]) in observed && ValuesEqual(observed[Identity(desired[i])], desired[i].value))
    && (forall j :: 0 <= j < |previous| ==> !Removable(previous[j], DesiredIdentities(desired), observed))
  }

  predicate GitInPlace(desired: seq<GitSetting>, observed: map<string, string>) {
    forall i :: 0 <= i < |desired| ==>
      var id := GitIdentity(desired[i].scope, desired[i].key);
      id in observed && observed[id] != "" && observed[id] == desired[i].value
  }

  /** The machine already matches the configuration, in the diff engine's terms. Managed files
      never match: an existing link still gives `update`. */
  predicate InDesiredState(config: Configuration, state: SystemState, strict: bool, previous: seq<SettingRef>) {
    && NamesInPlace(config.packages, state.packages, strict)
    && NamesInPlace(config.casks, state.casks, strict)
    && AppsInPlace(config.apps, state.apps, strict)
    && SettingsInPlace(config.settings, state.settings, previous)
    && GitInPlace(config.gitSettings, state.git)
    && |config.files| == 0
  }

  lemma NamesSettled(desired: seq<string>, observed: OMap<string, string>, strict: bool)
    ensures var r := DiffNames(desired, observed, strict);
      (forall i :: 0 <= i < |r| ==> r[i].action == NoAction) <==> NamesInPlace(desired, observed, strict)
  {
    var r := DiffNames(desired, observed, strict);
    var head := NameEntries(desired, observed);
    var tail := if strict then NameRemovals(desired, observed) else [];
    assert r == head + tail by {
      assert r == r[..|desired|] + r[|desired|..];
    }
    if strict {
      NameTailNoop(desired, observed);
    }
    AllConcat(head, tail, (e: PackageEntry) => e.action == NoAction);
  }

  /** No removal is due, or only `none` entries are, exactly when every installed name is
      desired. */
  lemma NameTailNoop(desired: seq<string>, observed: OMap<string, string>)
    ensures var tail := NameRemovals(desired, observed);
      (forall i :: 0 <= i < |tail| ==> tail[i].action == NoAction)
        <==> forall j :: 0 <= j < |observed| ==> observed[j].0 in desired
  {
    var tail := NameRemovals(desired, observed);
    NameTailSettled(desired, observed);
    if tail != [] { assert tail[0].action == Remove; }
  }

  /** No removal is due exactly when every installed name is desired. */
  lemma NameTailSettled(desired: seq<string>, observed: OMap<string, string>)
    ensures NameRemovals(desired, observed) == [] <==> forall j :: 0 <= j < |observed| ==> observed[j].0 in desired
  {
    var tail := NameRemovals(desired, observed);
    if tail != [] {
      var j :| 0 <= j < |observed| && observed[j].0 == tail[0].name;
    }
  }

  lemma AppsSettled(desired: seq<AppStoreApp>, observed: OMap<int, string>, strict: bool)
    ensures var r := DiffApps(desired, observed, strict);
      (forall i :: 0 <= i < |r| ==> r[i].action == NoAction) <==> AppsInPlace(desired, observed, strict)
  {
    var r := DiffApps(desired, observed, strict);
    var head := AppEntries(desired, observed);
    var tail := if strict then AppRemovals(desired, observed) else [];
    assert r == head + tail by {
      assert r == r[..|desired|] + r[|desired|..];
    }
    if strict {
      AppTailNoop(desired, observed);
    }
    AllConcat(head, tail, (e: AppEntry) => e.action == NoAction);
  }

  /** No removal is due, or only `none` entries are, exactly when every installed id is
      desired. */
  lemma AppTailNoop(desired: seq<AppStoreApp>, observed: OMap<int, string>)
    ensures var tail := AppRemovals(desired, observed);
      (forall i :: 0 <= i < |tail| ==> tail[i].action == NoAction)
        <==> forall j :: 0 <= j < |observed| ==> observed[j].0 in Ids(desired)
  {
    var tail := AppRemovals(desired, observed);
    AppTailSettled(desired, observed);
    if tail != [] { assert tail[0].action == Remove; }
  }

  /** No removal is due exactly when every installed id is desired. */
  lemma AppTailSettled(desired: seq<AppStoreApp>, observed: OMap<int, string>)
    ensures AppRemovals(desired, observed) == [] <==> forall j :: 0 <= j < |observed| ==> observed[j].0 in Ids(desired)
  {
    var tail := AppRemovals(desired, observed);
    if tail != [] {
      var j :| 0 <= j < |observed| && observed[j].0 == tail[0].id;
    }
  }

  lemma SettingsSettled(desired: seq<MacOSSetting>, observed: map<string, Value>, previous: seq<SettingRef>)
    ensures var r := DiffSettings(desired, observed, previous);
      (forall i :: 0 <= i < |r| ==> r[i].action == NoAction) <==> SettingsInPlace(desired, observed, previous)
  {
    var r := DiffSettings(desired, observed, previous);
    var head, tail := SettingEntries(desired, observed), SettingRemovals(desired, observed, previous);
    assert r == head + tail by {
      assert r == r[..|desired|] + r[|desired|..];
    }
    AllConcat(head, tail, (e: SettingEntry) => e.action == NoAction);
    EntriesSettled(desired, observed);
    RemovalsSettled(desired, observed, previous);
  }

  /** The desired settings' entries are all `none` exactly when every desired value reads as
      loosely equal. */
  lemma EntriesSettled(desired: seq<MacOSSetting>, observed: map<string, Value>)
    ensures var head := SettingEntries(desired, observed);
      (forall i :: 0 <= i < |head| ==> head[i].action == NoAction)
        <==> forall i :: 0 <= i < |desired| ==>
               Identity(desired[i]) in observed && ValuesEqual(observed[Identity(desired[i])], desired[i].value)
  {
    var head := SettingEntries(desired, observed);
    if forall i :: 0 <= i < |head| ==> head[i].action == NoAction {
      forall i | 0 <= i < |desired|
        ensures Identity(desired[i]) in observed && ValuesEqual(observed[Identity(desired[i])], desired[i].value)
      {
        assert head[i].action == NoAction;
      }
    }
  }

  /** The record-driven entries are all `none` exactly when there are none, that is, when no
      record entry is removable. */
  lemma RemovalsSettled(desired: seq<MacOSSetting>, observed: map<string, Value>, previous: seq<SettingRef>)
    ensures var tail := SettingRemovals(desired, observed, previous);
      (forall i :: 0 <= i < |tail| ==> tail[i].action == NoAction)
        <==> forall j :: 0 <= j < |previous| ==> !Removable(previous[j], DesiredIdentities(desired), observed)
  {
    var tail := SettingRemovals(desired, observed, previous);
    if |tail| > 0 {
      assert tail[0].action == Remove;
    }
  }

  /** With no record-driven removal due, the settings diff holds no `remove` entry. */
  lemma SettingsWithoutRemovals(desired: seq<MacOSSetting>, observed: map<string, Value>, previous: seq<SettingRef>)
    requires SettingRemovals(desired, observed, previous) == []
    ensures forall i :: 0 <= i < |DiffSettings(desired, observed, previous)| ==>
      DiffSettings(desired, observed, previous)[i].action != Remove
  {
    var r := DiffSettings(desired, observed, previous);
    assert r == r[..|desired|] + r[|desired|..];
    assert r == SettingEntries(desired, observed);
  }

  /** Every git entry is `none` exactly when every desired value is already set. */
  lemma GitSettled(desired: seq<GitSetting>, observed: map<string, string>)
    ensures var r := DiffGit(desired, observed);
      (forall i :: 0 <= i < |r| ==> r[i].action == NoAction) <==> GitInPlace(desired, observed)
  {
    var r := DiffGit(desired, observed);
    if forall i :: 0 <= i < |r| ==> r[i].action == NoAction {
      forall i | 0 <= i < |desired|
        ensures var id := GitIdentity(desired[i].scope, desired[i].key);
          id in observed && observed[id] != "" && observed[id] == desired[i].value
      {
        assert r[i].action == NoAction;
      }
    }
  }

  /** The file entries are all `none` exactly when no file is managed, because every file
      entry is `add` or `update`. */
  lemma FilesSettled(desired: seq<ConfigFile>, symlinks: map<string, string>, home: string,
                     resolve: (string, string) -> string)
    ensures var r := DiffFiles(desired, symlinks, home, resolve);
      (forall i :: 0 <= i < |r| ==> r[i].action == NoAction) <==> |desired| == 0
  {
    var r := DiffFiles(desired, symlinks, home, resolve);
    if |desired| > 0 {
      assert r[0].action != NoAction;
    }
  }

  /** `hasDifferences` is false exactly when each of the six lists is all `none`. */
  lemma HasDifferencesIff(d: Diff, p: bool, c: bool, a: bool, s: bool, g: bool, f: bool)
    requires (forall i :: 0 <= i < |d.packages| ==> d.packages[i].action == NoAction) <==> p
    requires (forall i :: 0 <= i < |d.casks| ==> d.casks[i].action == NoAction) <==> c
    requires (forall i :: 0 <= i < |d.apps| ==> d.apps[i].action == NoAction) <==> a
    requires (forall i :: 0 <= i < |d.settings| ==> d.settings[i].action == NoAction) <==> s
    requires (forall i :: 0 <= i < |d.git| ==> d.git[i].action == NoAction) <==> g
    requires (forall i :: 0 <= i < |d.files| ==> d.files[i].action == NoAction) <==> f
    ensures !HasDifferences(d) <==> p && c && a && s && g && f
  {
  }

  // The six lists of the diff, one at a time.

  lemma PackagesPart(config: Configuration, state: SystemState, strict: bool, previous: seq<SettingRef>,
                     home: string, resolve: (string, string) -> string)
    ensures var d := GenerateDiff(config, state, strict, previous, home, resolve);
      (forall i :: 0 <= i < |d.packages| ==> d.packages[i].action == NoAction)
        <==> NamesInPlace(config.packages, state.packages, strict)
  {
    assert GenerateDiff(config, state, strict, previous, home, resolve).packages
      == DiffNames(config.packages, state.packages, strict);
    NamesSettled(config.packages, state.packages, strict);
  }

  lemma CasksPart(config: Configuration, state: SystemState, strict: bool, previous: seq<SettingRef>,
                  home: string, resolve: (string, string) -> string)
    ensures var d := GenerateDiff(config, state, strict, previous, home, resolve);
      (forall i :: 0 <= i < |d.casks| ==> d.casks[i].action == NoAction)
        <==> NamesInPlace(config.casks, state.casks, strict)
  {
    assert GenerateDiff(config, state, strict, previous, home, resolve).casks
      == DiffNames(config.casks, state.casks, strict);
    NamesSettled(config.casks, state.casks, strict);
  }

  lemma AppsPart(config: Configuration, state: SystemState, strict: bool, previous: seq<SettingRef>,
                 home: string, resolve: (string, string) -> string)
    ensures var d := GenerateDiff(config, state, strict, previous, home, resolve);
      (forall i :: 0 <= i < |d.apps| ==> d.apps[i].action == NoAction)
        <==> AppsInPlace(config.apps, state.apps, strict)
  {
    assert GenerateDiff(config, state, strict, previous, home, resolve).apps
      == DiffApps(config.apps, state.apps, strict);
    AppsSettled(config.apps, state.apps, strict);
  }

  lemma SettingsPart(config: Configuration, state: SystemState, strict: bool, previous: seq<SettingRef>,
                     home: string, resolve: (string, string) -> string)
    ensures var d := GenerateDiff(config, state, strict, previous, home, resolve);
      (forall i :: 0 <= i < |d.settings| ==> d.settings[i].action == NoAction)
        <==> SettingsInPlace(config.settings, state.settings, previous)
  {
    assert GenerateDiff(config, state, strict, previous, home, resolve).settings
      == DiffSettings(config.settings, state.settings, previous);
    SettingsSettled(config.settings, state.settings, previous);
  }

  lemma GitPart(config: Configuration, state: SystemState, strict: bool, previous: seq<SettingRef>,
                home: string, resolve: (string, string) -> string)
    ensures var d := GenerateDiff(config, state, strict, previous, home, resolve);
      (forall i :: 0 <= i < |d.git| ==> d.git[i].action == NoAction)
        <==> GitInPlace(config.gitSettings, state.git)
  {
    assert GenerateDiff(config, state, strict, previous, home, resolve).git
      == DiffGit(config.gitSettings, state.git);
    GitSettled(config.gitSettings, state.git);
  }

  lemma FilesPart(config: Configuration, state: SystemState, strict: bool, previous: seq<SettingRef>,
                  home: string, resolve: (string, string) -> string)
    ensures var d := GenerateDiff(config, state, strict, previous, home, resolve);
      (forall i :: 0 <= i < |d.files| ==> d.files[i].action == NoAction)
        <==> |config.files| == 0
  {
    assert GenerateDiff(config, state, strict, previous, home, resolve).files
      == DiffFiles(config.files, state.symlinks, home, resolve);
    FilesSettled(config.files, state.symlinks, home, resolve);
  }

  /** An empty diff means exactly that the machine is in the desired state. */
  lemma NoDifferencesIffInDesiredState(config: Configuration, state: SystemState, strict: bool,
                                       previous: seq<SettingRef>, home: string, resolve: (string, string) -> string)
    ensures !HasDifferences(GenerateDiff(config, state, strict, previous, home, resolve))
        <==> InDesiredState(config, state, strict, previous)
  {
    var d := GenerateDiff(config, state, strict, previous, home, resolve);
    PackagesPart(config, state, strict, previous, home, resolve);
    CasksPart(config, state, strict, previous, home, resolve);
    AppsPart(config, state, strict, previous, home, resolve);
    SettingsPart(config, state, strict, previous, home, resolve);
    GitPart(config, state, strict, previous, home, resolve);
    FilesPart(config, state, strict, previous, home, resolve);
    HasDifferencesIff(d, NamesInPlace(config.packages, state.packages, strict),
                      NamesInPlace(config.casks, state.casks, strict),
                      AppsInPlace(config.apps, state.apps, strict),
                      SettingsInPlace(config.settings, state.settings, previous),
                      GitInPlace(config.gitSettings, state.git), |config.files| == 0);
  }
}
