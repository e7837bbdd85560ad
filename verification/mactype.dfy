/** The orchestrator (src/mactype.ts): read the system, diff it against the configuration,
    apply the diff in a fixed order, and remember which settings were applied. */
module MacType {
  import opened Optional
  import opened Seqs
  import opened Types
  import opened Shell
  import opened DiffEngine
  import Brew
  import AppStore
  import MacOS
  import Git
  import Dock

  // ---------------------------------------------------------------------------
  // The settings record
  // ---------------------------------------------------------------------------

  /** The state file as `JSON.parse` hands it back: absent, unparsable, or a document whose
      `macos.settings` path is either present (a list of `(domain, key)` pairs) or missing. */
  datatype StateFile = NoFile | Unparsable | Document(settings: Option<seq<SettingRef>>)

  /** `loadPreviousState` followed by `previousState.macos?.settings || []`. */
  function LoadPreviousState(file: StateFile): seq<SettingRef> {
    match file
    case Document(Some(refs)) => refs
    case _ => []
  }

  function RefOf(s: MacOSSetting): SettingRef {
    SettingRef(s.domain, s.key)
  }

  /** `saveCurrentState`: the file is rewritten from the configuration alone. */
  function SaveCurrentState(config: Configuration): StateFile {
    Document(Some(MapSeq(config.settings, RefOf)))
  }

  /** Saving and loading gives back exactly the desired settings' `(domain, key)` pairs, in
      configuration order, whatever the file held before; a missing or unreadable record
      loads as no settings at all. */
  lemma LoadSaveRoundTrip(config: Configuration)
    ensures LoadPreviousState(NoFile) == [] && LoadPreviousState(Unparsable) == []
    ensures var refs := LoadPreviousState(SaveCurrentState(config));
      && |refs| == |config.settings|
      && forall i :: 0 <= i < |refs| ==>
           refs[i].domain == config.settings[i].domain && refs[i].key == config.settings[i].key
  {
  }

  // ---------------------------------------------------------------------------
  // The apply plan
  // ---------------------------------------------------------------------------

  /** One executor call of `applyDiff`. */
  datatype Step =
    | PackageStep(pkg: PackageEntry)
    | CaskStep(cask: PackageEntry)
    | InstallStep(install: AppEntry)
    | UninstallStep(uninstall: AppEntry)
    | SettingStep(setting: SettingEntry)
    | RestartStep
    | DockStep(items: seq<DockItem>)
    | GitStep(git: GitEntry)
    | FileStep(file: FileEntry)

  /** The position of each kind of step in the apply order. */
  function Rank(s: Step): nat {
    match s
    case PackageStep(_) => 0
    case CaskStep(_) => 1
    case InstallStep(_) => 2
    case UninstallStep(_) => 2
    case SettingStep(_) => 3
    case RestartStep => 4
    case DockStep(_) => 5
    case GitStep(_) => 6
    case FileStep(_) => 7
  }

  predicate PackagePending(e: PackageEntry) { e.action != NoAction }
  predicate AppDispatched(e: AppEntry) { e.action == Add || e.action == Remove }
  predicate SettingPending(e: SettingEntry) { e.action != NoAction }
  predicate GitPending(e: GitEntry) { e.action != NoAction }
  predicate FilePending(e: FileEntry) { e.action != NoAction }

  function AsPackageStep(e: PackageEntry): Step { PackageStep(e) }
  function AsCaskStep(e: PackageEntry): Step { CaskStep(e) }
  function AsSettingStep(e: SettingEntry): Step { SettingStep(e) }
  function AsGitStep(e: GitEntry): Step { GitStep(e) }
  function AsFileStep(e: FileEntry): Step { FileStep(e) }

  function PackageSteps(es: seq<PackageEntry>): seq<Step> {
    MapSeq(Filter(es, PackagePending), AsPackageStep)
  }

  function CaskSteps(es: seq<PackageEntry>): seq<Step> {
    MapSeq(Filter(es, PackagePending), AsCaskStep)
  }

  function AppStep(e: AppEntry): Step {
    if e.action == Add then InstallStep(e) else UninstallStep(e)
  }

  function AppSteps(es: seq<AppEntry>): seq<Step> {
    MapSeq(Filter(es, AppDispatched), AppStep)
  }

  function SettingSteps(es: seq<SettingEntry>): seq<Step> {
    MapSeq(Filter(es, SettingPending), AsSettingStep)
  }

  /** The Dock is reconciled only when `macos.dockApps` is a non-empty list. */
  function DockSteps(items: seq<DockItem>): seq<Step> {
    if |items| > 0 then [DockStep(items)] else []
  }

  function GitSteps(es: seq<GitEntry>): seq<Step> {
    MapSeq(Filter(es, GitPending), AsGitStep)
  }

  function FileSteps(es: seq<FileEntry>): seq<Step> {
    MapSeq(Filter(es, FilePending), AsFileStep)
  }

  /** The loops of `applyDiff`, in their order, with the restart between the settings loop
      and the Dock. */
  function Plan(d: Diff, dockApps: seq<DockItem>): seq<Step> {
    PackageSteps(d.packages) + CaskSteps(d.casks) + AppSteps(d.apps) + SettingSteps(d.settings)
    + [RestartStep] + DockSteps(dockApps) + GitSteps(d.git) + FileSteps(d.files)
  }

  /** Steps come in non-decreasing rank. */
  predicate Ordered(plan: seq<Step>) {
    forall i, j :: 0 <= i < j < |plan| ==> Rank(plan[i]) <= Rank(plan[j])
  }

  /** Every step of `b` has rank `r`. */
  predicate RankedBlock(b: seq<Step>, r: nat) {
    forall i :: 0 <= i < |b| ==> Rank(b[i]) == r
  }

  /** Eight blocks whose steps have ranks 0 to 7, in that order: the shape of every plan. */
  predicate Layered(b0: seq<Step>, b1: seq<Step>, b2: seq<Step>, b3: seq<Step>,
                    b4: seq<Step>, b5: seq<Step>, b6: seq<Step>, b7: seq<Step>) {
    && RankedBlock(b0, 0) && RankedBlock(b1, 1) && RankedBlock(b2, 2) && RankedBlock(b3, 3)
    && RankedBlock(b4, 4) && RankedBlock(b5, 5) && RankedBlock(b6, 6) && RankedBlock(b7, 7)
  }

  /** Every block of the plan holds steps of one rank, the restart block being the restart
      alone. */
  lemma BlockRanks(d: Diff, dockApps: seq<DockItem>)
    ensures Layered(PackageSteps(d.packages), CaskSteps(d.casks), AppSteps(d.apps), SettingSteps(d.settings),
                    [RestartStep], DockSteps(dockApps), GitSteps(d.git), FileSteps(d.files))
  {
    MappedRank(d.packages, PackagePending, AsPackageStep, 0);
    MappedRank(d.casks, PackagePending, AsCaskStep, 1);
    MappedRank(d.apps, AppDispatched, AppStep, 2);
    MappedRank(d.settings, SettingPending, AsSettingStep, 3);
    MappedRank(d.git, GitPending, AsGitStep, 6);
    MappedRank(d.files, FilePending, AsFileStep, 7);
  }

  /** A block made by a step constructor of rank `r` holds steps of rank `r` only. */
  lemma MappedRank<T>(es: seq<T>, keep: T -> bool, f: T -> Step, r: nat)
    requires forall x :: Rank(f(x)) == r
    ensures RankedBlock(MapSeq(Filter(es, keep), f), r)
  {
  }

  /** Appending a block of rank-`r` steps to an ordered plan whose ranks are at most `r`. */
  lemma AppendRanked(a: seq<Step>, b: seq<Step>, r: nat)
    requires Ordered(a) && forall i :: 0 <= i < |a| ==> Rank(a[i]) <= r
    requires RankedBlock(b, r)
    ensures Ordered(a + b) && forall i :: 0 <= i < |a + b| ==> Rank((a + b)[i]) <= r
  {
    var ab := a + b;
    forall i, j | 0 <= i < j < |ab| ensures Rank(ab[i]) <= Rank(ab[j]) {
      if j < |a| {
        assert ab[i] == a[i] && ab[j] == a[j];
      } else if i < |a| {
        assert ab[i] == a[i] && ab[j] == b[j - |a|];
      } else {
        assert ab[i] == b[i - |a|] && ab[j] == b[j - |a|];
      }
    }
  }

  /** Layered blocks concatenate to an ordered sequence. */
  lemma LayeredOrdered(b0: seq<Step>, b1: seq<Step>, b2: seq<Step>, b3: seq<Step>,
                       b4: seq<Step>, b5: seq<Step>, b6: seq<Step>, b7: seq<Step>)
    requires Layered(b0, b1, b2, b3, b4, b5, b6, b7)
    ensures Ordered(b0 + b1 + b2 + b3 + b4 + b5 + b6 + b7)
  {
    AppendRanked([], b0, 0);
    assert [] + b0 == b0;
    AppendRanked(b0, b1, 1);
    AppendRanked(b0 + b1, b2, 2);
    AppendRanked(b0 + b1 + b2, b3, 3);
    AppendRanked(b0 + b1 + b2 + b3, b4, 4);
    AppendRanked(b0 + b1 + b2 + b3 + b4, b5, 5);
    AppendRanked(b0 + b1 + b2 + b3 + b4 + b5, b6, 6);
    AppendRanked(b0 + b1 + b2 + b3 + b4 + b5 + b6, b7, 7);
  }

  /** The plan follows the fixed domain order: packages, casks, App Store, settings, the
      restart, the Dock, git, files. */
  lemma PlanOrdered(d: Diff, dockApps: seq<DockItem>)
    ensures Ordered(Plan(d, dockApps))
  {
    BlockRanks(d, dockApps);
    LayeredOrdered(PackageSteps(d.packages), CaskSteps(d.casks), AppSteps(d.apps), SettingSteps(d.settings),
                   [RestartStep], DockSteps(dockApps), GitSteps(d.git), FileSteps(d.files));
  }

  /** Concatenating two blocks whose ranks lie in `[lo, hi]`. */
  lemma ConcatRanks(a: seq<Step>, b: seq<Step>, lo: nat, hi: nat)
    requires forall i :: 0 <= i < |a| ==> lo <= Rank(a[i]) <= hi
    requires forall i :: 0 <= i < |b| ==> lo <= Rank(b[i]) <= hi
    ensures forall i :: 0 <= i < |a + b| ==> lo <= Rank((a + b)[i]) <= hi
  {
    forall i | 0 <= i < |a + b| ensures lo <= Rank((a + b)[i]) <= hi {
      if i < |a| { assert (a + b)[i] == a[i]; } else { assert (a + b)[i] == b[i - |a|]; }
    }
  }

  /** A restart between steps of lower and of higher rank is the only one, and separates them. */
  lemma RestartBetween(before: seq<Step>, after: seq<Step>)
    requires forall j :: 0 <= j < |before| ==> Rank(before[j]) <= 3
    requires forall j :: 0 <= j < |after| ==> Rank(after[j]) >= 5
    ensures var plan, i := before + [RestartStep] + after, |before|;
      && 0 <= i < |plan| && plan[i] == RestartStep
      && (forall j :: 0 <= j < |plan| && j != i ==> plan[j] != RestartStep)
      && (forall j :: 0 <= j < i ==> !plan[j].DockStep?)
      && (forall j :: i < j < |plan| ==> !plan[j].SettingStep?)
  {
    var plan, i := before + [RestartStep] + after, |before|;
    forall j | 0 <= j < |plan| && j != i
      ensures (j < i ==> Rank(plan[j]) <= 3) && (j > i ==> Rank(plan[j]) >= 5)
    {
      if j < i { assert plan[j] == before[j]; } else { assert plan[j] == after[j - i - 1]; }
    }
  }

  /** In layered blocks whose rank-4 block is the restart alone, the restart occurs once, after
      every step of rank at most 3 and before every step of rank at least 5. */
  lemma LayeredRestart(b0: seq<Step>, b1: seq<Step>, b2: seq<Step>, b3: seq<Step>,
                       b5: seq<Step>, b6: seq<Step>, b7: seq<Step>)
    requires Layered(b0, b1, b2, b3, [RestartStep], b5, b6, b7)
    ensures var plan := b0 + b1 + b2 + b3 + [RestartStep] + b5 + b6 + b7;
      exists i :: 0 <= i < |plan| && plan[i] == RestartStep
        && (forall j :: 0 <= j < |plan| && j != i ==> plan[j] != RestartStep)
        && (forall j :: 0 <= j < i ==> !plan[j].DockStep?)
        && (forall j :: i < j < |plan| ==> !plan[j].SettingStep?)
  {
    ConcatRanks(b0, b1, 0, 3);
    ConcatRanks(b0 + b1, b2, 0, 3);
    ConcatRanks(b0 + b1 + b2, b3, 0, 3);
    ConcatRanks(b5, b6, 5, 7);
    ConcatRanks(b5 + b6, b7, 5, 7);
    var before, after := b0 + b1 + b2 + b3, b5 + b6 + b7;
    assert b0 + b1 + b2 + b3 + [RestartStep] + b5 + b6 + b7 == before + [RestartStep] + after;
    RestartBetween(before, after);
  }

  /** The restart happens exactly once per apply, after every settings step and before the
      Dock step. */
  lemma RestartOnce(d: Diff, dockApps: seq<DockItem>)
    ensures var plan := Plan(d, dockApps);
      exists i :: 0 <= i < |plan| && plan[i] == RestartStep
        && (forall j :: 0 <= j < |plan| && j != i ==> plan[j] != RestartStep)
        && (forall j :: 0 <= j < i ==> !plan[j].DockStep?)
        && (forall j :: i < j < |plan| ==> !plan[j].SettingStep?)
  {
    BlockRanks(d, dockApps);
    var b0, b1, b2, b3 := PackageSteps(d.packages), CaskSteps(d.casks), AppSteps(d.apps), SettingSteps(d.settings);
    var b5, b6, b7 := DockSteps(dockApps), GitSteps(d.git), FileSteps(d.files);
    LayeredRestart(b0, b1, b2, b3, b5, b6, b7);
    assert Plan(d, dockApps) == b0 + b1 + b2 + b3 + [RestartStep] + b5 + b6 + b7;
  }

  /** A step lies in layered blocks exactly when it lies in the block of its rank. */
  lemma LayeredMembers(b0: seq<Step>, b1: seq<Step>, b2: seq<Step>, b3: seq<Step>,
                       b4: seq<Step>, b5: seq<Step>, b6: seq<Step>, b7: seq<Step>, s: Step)
    requires Layered(b0, b1, b2, b3, b4, b5, b6, b7)
    ensures s in b0 + b1 + b2 + b3 + b4 + b5 + b6 + b7 <==>
      || (Rank(s) == 0 && s in b0) || (Rank(s) == 1 && s in b1)
      || (Rank(s) == 2 && s in b2) || (Rank(s) == 3 && s in b3)
      || (Rank(s) == 4 && s in b4) || (Rank(s) == 5 && s in b5)
      || (Rank(s) == 6 && s in b6) || (Rank(s) == 7 && s in b7)
  {
  }

  /** A step lies in the plan exactly when it lies in the block of its rank. */
  lemma PlanMembers(d: Diff, dockApps: seq<DockItem>, s: Step)
    ensures s in Plan(d, dockApps) <==>
      || (Rank(s) == 0 && s in PackageSteps(d.packages))
      || (Rank(s) == 1 && s in CaskSteps(d.casks))
      || (Rank(s) == 2 && s in AppSteps(d.apps))
      || (Rank(s) == 3 && s in SettingSteps(d.settings))
      || s == RestartStep
      || (Rank(s) == 5 && s in DockSteps(dockApps))
      || (Rank(s) == 6 && s in GitSteps(d.git))
      || (Rank(s) == 7 && s in FileSteps(d.files))
  {
    BlockRanks(d, dockApps);
    LayeredMembers(PackageSteps(d.packages), CaskSteps(d.casks), AppSteps(d.apps), SettingSteps(d.settings),
                   [RestartStep], DockSteps(dockApps), GitSteps(d.git), FileSteps(d.files), s);
  }

  /** A step made by an injective `f` lies in the block of `f` over the entries `keep` selects
      exactly when its entry is one of them. */
  lemma BlockMembers<T>(es: seq<T>, keep: T -> bool, f: T -> Step, e: T)
    requires forall x, y :: f(x) == f(y) ==> x == y
    ensures f(e) in MapSeq(Filter(es, keep), f) <==> e in es && keep(e)
  {
    var xs := Filter(es, keep);
    var steps := MapSeq(xs, f);
    if e in es && keep(e) {
      var i :| 0 <= i < |es| && es[i] == e;
      assert e in xs;
      var k :| 0 <= k < |xs| && xs[k] == e;
      assert steps[k] == f(e);
    }
    if f(e) in steps {
      var k :| 0 <= k < |steps| && steps[k] == f(e);
      assert xs[k] == e;
    }
  }

  /** A package step is planned exactly for the package entries whose action is not `none`. */
  lemma PackageStepIff(d: Diff, dockApps: seq<DockItem>, e: PackageEntry)
    ensures PackageStep(e) in Plan(d, dockApps) <==> e in d.packages && e.action != NoAction
  {
    assert PackageStep(e) in Plan(d, dockApps) <==> PackageStep(e) in PackageSteps(d.packages) by {
      PlanMembers(d, dockApps, PackageStep(e));
    }
    BlockMembers(d.packages, PackagePending, AsPackageStep, e);
  }

  /** A cask step is planned exactly for the cask entries whose action is not `none`. */
  lemma CaskStepIff(d: Diff, dockApps: seq<DockItem>, e: PackageEntry)
    ensures CaskStep(e) in Plan(d, dockApps) <==> e in d.casks && e.action != NoAction
  {
    assert CaskStep(e) in Plan(d, dockApps) <==> CaskStep(e) in CaskSteps(d.casks) by {
      PlanMembers(d, dockApps, CaskStep(e));
    }
    BlockMembers(d.casks, PackagePending, AsCaskStep, e);
  }

  /** An App Store entry is installed exactly when it is `add` and uninstalled exactly when it
      is `remove`; any other action is skipped. */
  lemma AppStepIff(d: Diff, dockApps: seq<DockItem>, e: AppEntry)
    ensures InstallStep(e) in Plan(d, dockApps) <==> e in d.apps && e.action == Add
    ensures UninstallStep(e) in Plan(d, dockApps) <==> e in d.apps && e.action == Remove
  {
    PlanMembers(d, dockApps, InstallStep(e));
    PlanMembers(d, dockApps, UninstallStep(e));
    AppStepsMembers(d.apps, e);
  }

  /** The App Store block alone. */
  lemma AppStepsMembers(es: seq<AppEntry>, e: AppEntry)
    ensures InstallStep(e) in AppSteps(es) <==> e in es && e.action == Add
    ensures UninstallStep(e) in AppSteps(es) <==> e in es && e.action == Remove
  {
    var xs := Filter(es, AppDispatched);
    var steps := AppSteps(es);
    if e in es && AppDispatched(e) {
      var k :| 0 <= k < |xs| && xs[k] == e;
      assert steps[k] == AppStep(e);
    }
    if InstallStep(e) in steps {
      var k :| 0 <= k < |xs| && steps[k] == InstallStep(e);
      assert xs[k] == e;
    }
    if UninstallStep(e) in steps {
      var k :| 0 <= k < |xs| && steps[k] == UninstallStep(e);
      assert xs[k] == e;
    }
  }

  /** A settings step is planned exactly for the settings entries whose action is not `none`. */
  lemma SettingStepIff(d: Diff, dockApps: seq<DockItem>, e: SettingEntry)
    ensures SettingStep(e) in Plan(d, dockApps) <==> e in d.settings && e.action != NoAction
  {
    assert SettingStep(e) in Plan(d, dockApps) <==> SettingStep(e) in SettingSteps(d.settings) by {
      PlanMembers(d, dockApps, SettingStep(e));
    }
    BlockMembers(d.settings, SettingPending, AsSettingStep, e);
  }

  /** A git step is planned exactly for the git entries whose action is not `none`. */
  lemma GitStepIff(d: Diff, dockApps: seq<DockItem>, g: GitEntry)
    ensures GitStep(g) in Plan(d, dockApps) <==> g in d.git && g.action != NoAction
  {
    assert GitStep(g) in Plan(d, dockApps) <==> GitStep(g) in GitSteps(d.git) by {
      PlanMembers(d, dockApps, GitStep(g));
    }
    BlockMembers(d.git, GitPending, AsGitStep, g);
  }

  /** A file step is planned exactly for the file entries whose action is not `none`. */
  lemma FileStepIff(d: Diff, dockApps: seq<DockItem>, f: FileEntry)
    ensures FileStep(f) in Plan(d, dockApps) <==> f in d.files && f.action != NoAction
  {
    assert FileStep(f) in Plan(d, dockApps) <==> FileStep(f) in FileSteps(d.files) by {
      PlanMembers(d, dockApps, FileStep(f));
    }
    BlockMembers(d.files, FilePending, AsFileStep, f);
  }

  // ---------------------------------------------------------------------------
  // Executing the plan
  // ---------------------------------------------------------------------------

  /** What `applyDiff` accumulates: the results pushed so far, the commands issued so far, and
      the macOS manager's pending `processesToRestart`. */
  datatype Progress = Progress(results: seq<ApplyResult>, log: seq<string>, restarts: seq<string>)

  /** A pending restart set: no process twice, and every process from the domain table. */
  predicate RestartSet(r: seq<string>) {
    Distinct(r) && forall i :: 0 <= i < |r| ==> r[i] in MacOS.Restartable
  }

  /** A step that pushes exactly one result. */
  predicate Single(s: Step) {
    !s.RestartStep? && !s.DockStep?
  }

  /** The call a single step makes: its result, the log after it, and the pending restarts
      after it. File links are made by the file manager, which is not part of this model:
      `files` gives its result for an entry. */
  function SingleOutcome(env: Env, files: FileEntry -> ApplyResult, log: seq<string>, restarts: seq<string>, s: Step)
    : (out: (ApplyResult, seq<string>, seq<string>))
    requires Single(s)
    ensures !s.SettingStep? ==> out.2 == restarts
    ensures RestartSet(restarts) ==> RestartSet(out.2)
    ensures s.SettingStep? && s.setting.action == Remove ==> out.2 == restarts
    ensures s.UninstallStep? ==> out.1 == log && !out.0.success
    ensures s.FileStep? ==> out.1 == log
    ensures s.PackageStep? && s.pkg.action != NoAction ==>
      && out.1 == log + [Brew.Command(Brew.Formula, s.pkg).value]
      && (out.0.success <==> env(|log|, Brew.Command(Brew.Formula, s.pkg).value).ok)
    ensures s.CaskStep? && s.cask.action != NoAction ==>
      && out.1 == log + [Brew.Command(Brew.Cask, s.cask).value]
      && (out.0.success <==> env(|log|, Brew.Command(Brew.Cask, s.cask).value).ok)
  {
    match s
    case PackageStep(e) =>
      var (r, log1) := Brew.ApplyEntry(env, log, Brew.Formula, e);
      (r, log1, restarts)
    case CaskStep(e) =>
      var (r, log1) := Brew.ApplyEntry(env, log, Brew.Cask, e);
      (r, log1, restarts)
    case InstallStep(e) =>
      var (r, log1) := AppStore.Install(env, log, AppStoreApp(e.id, e.name));
      (r, log1, restarts)
    case UninstallStep(e) =>
      (AppStore.Uninstall(AppStoreApp(e.id, e.name)), log, restarts)
    case SettingStep(e) =>
      var out := MacOS.ApplySettingDiff(env, log, restarts, e);
      assert RestartSet(restarts) ==> RestartSet(out.2) by {
        if RestartSet(restarts) { MacOS.ApplyKeepsRestartSet(env, log, restarts, e); }
      }
      out
    case GitStep(e) =>
      var (r, log1) := Git.ApplySettingDiff(env, log, e);
      (r, log1, restarts)
    case FileStep(e) =>
      (files(e), log, restarts)
  }

  /** One executor call: the restart runs one `killall` per pending process and empties the
      set, the Dock step appends whatever its reconciliation reports, and every other step
      pushes exactly one result. */
  function RunStep(env: Env, files: FileEntry -> ApplyResult, p: Progress, s: Step): (q: Progress)
    ensures |q.results| >= |p.results| && q.results[..|p.results|] == p.results
    ensures Single(s) ==> |q.results| == |p.results| + 1
    ensures s.RestartStep? ==>
      q.results == p.results && q.restarts == [] && q.log == p.log + MapSeq(p.restarts, MacOS.KillCommand)
    ensures !s.SettingStep? && !s.RestartStep? ==> q.restarts == p.restarts
    ensures RestartSet(p.restarts) ==> RestartSet(q.restarts)
  {
    match s
    case RestartStep =>
      var (log1, restarts) := MacOS.RestartProcesses(env, p.log, p.restarts);
      Progress(p.results, log1, restarts)
    case DockStep(items) =>
      var (rs, log1) := Dock.SetApps(env, p.log, items);
      Progress(p.results + rs, log1, p.restarts)
    case _ =>
      var (r, log1, restarts) := SingleOutcome(env, files, p.log, p.restarts, s);
      Progress(p.results + [r], log1, restarts)
  }

  /** The steps in order, each seeing the progress of those before it. Every single step adds
      one result and the Dock step adds however many its reconciliation reports, so there
      are at least as many results as single steps, and exactly as many without a Dock step. */
  function Execute(env: Env, files: FileEntry -> ApplyResult, plan: seq<Step>, p: Progress): (q: Progress)
    ensures |q.results| >= |p.results| + Count(plan, Single) && q.results[..|p.results|] == p.results
    ensures (forall i :: 0 <= i < |plan| ==> !plan[i].DockStep?) ==> |q.results| == |p.results| + Count(plan, Single)
    ensures RestartSet(p.restarts) ==> RestartSet(q.restarts)
    ensures p.restarts == [] && (forall i :: 0 <= i < |plan| ==> !plan[i].SettingStep?) ==> q.restarts == []
    decreases |plan|
  {
    if |plan| == 0 then p
    else
      var p1 := RunStep(env, files, p, plan[0]);
      assert p1.results[..|p.results|] == p.results;
      var q := Execute(env, files, plan[1..], p1);
      assert q.results[..|p.results|] == q.results[..|p1.results|][..|p.results|];
      q
  }

  /** Executing `a + b` is executing `a`, then `b` from where `a` left off. */
  lemma {:induction false} ExecuteAppend(env: Env, files: FileEntry -> ApplyResult, a: seq<Step>, b: seq<Step>, p: Progress)
    ensures Execute(env, files, a + b, p) == Execute(env, files, b, Execute(env, files, a, p))
    decreases |a|
  {
    if |a| == 0 {
      assert a + b == b;
    } else {
      assert (a + b)[0] == a[0] && (a + b)[1..] == a[1..] + b;
      ExecuteAppend(env, files, a[1..], b, RunStep(env, files, p, a[0]));
    }
  }

  /** The result a single step pushes sits right after the results of the steps before it,
      and is that step's own outcome given the commands and pending restarts they left. */
  lemma ExecuteOutcome(env: Env, files: FileEntry -> ApplyResult, plan: seq<Step>, p: Progress, i: nat)
    requires i < |plan| && Single(plan[i])
    ensures var q := Execute(env, files, plan[..i], p);
      var all := Execute(env, files, plan, p).results;
      && |p.results| + Count(plan[..i], Single) <= |q.results| < |all|
      && all[|q.results|] == SingleOutcome(env, files, q.log, q.restarts, plan[i]).0
  {
    var q := Execute(env, files, plan[..i], p);
    var tail := plan[i + 1..];
    var q1 := RunStep(env, files, q, plan[i]);
    assert Execute(env, files, plan, p) == Execute(env, files, tail, q1) by {
      SplitAt(plan, i);
      ExecuteAppend(env, files, plan[..i], [plan[i]] + tail, p);
      ExecuteCons(env, files, plan[i], tail, q);
    }
    RunSingle(env, files, q, plan[i]);
    var all := Execute(env, files, tail, q1).results;
    assert all[..|q1.results|] == q1.results;
    assert q1.results[|q.results|] == all[|q.results|];
  }

  /** Executing a plan is running its first step, then the rest. */
  lemma ExecuteCons(env: Env, files: FileEntry -> ApplyResult, s: Step, tail: seq<Step>, p: Progress)
    ensures Execute(env, files, [s] + tail, p) == Execute(env, files, tail, RunStep(env, files, p, s))
  {
    assert ([s] + tail)[0] == s && ([s] + tail)[1..] == tail;
  }

  /** A single step appends its outcome's result. */
  lemma RunSingle(env: Env, files: FileEntry -> ApplyResult, p: Progress, s: Step)
    requires Single(s)
    ensures RunStep(env, files, p, s).results == p.results + [SingleOutcome(env, files, p.log, p.restarts, s).0]
  {
  }

  /** Once the restart has run and no settings step follows, nothing is left pending. */
  lemma {:induction false} ExecuteDrains(env: Env, files: FileEntry -> ApplyResult, plan: seq<Step>, p: Progress, i: nat)
    requires i < |plan| && plan[i] == RestartStep
    requires forall j :: i < j < |plan| ==> !plan[j].SettingStep?
    ensures Execute(env, files, plan, p).restarts == []
    decreases i
  {
    if i == 0 {
      ExecuteFromRestart(env, files, plan, p);
    } else {
      ShiftRestart(plan, i);
      ExecuteDrains(env, files, plan[1..], RunStep(env, files, p, plan[0]), i - 1);
    }
  }

  /** Dropping the first step keeps the restart, one place earlier, and what follows it. */
  lemma ShiftRestart(plan: seq<Step>, i: nat)
    requires 0 < i < |plan| && plan[i] == RestartStep
    requires forall j :: i < j < |plan| ==> !plan[j].SettingStep?
    ensures plan[1..][i - 1] == RestartStep
    ensures forall j :: i - 1 < j < |plan[1..]| ==> !plan[1..][j].SettingStep?
  {
  }

  /** A plan that starts with the restart and holds no settings step after it ends with
      nothing pending. */
  lemma ExecuteFromRestart(env: Env, files: FileEntry -> ApplyResult, plan: seq<Step>, p: Progress)
    requires 0 < |plan| && plan[0] == RestartStep
    requires forall j :: 0 < j < |plan| ==> !plan[j].SettingStep?
    ensures Execute(env, files, plan, p).restarts == []
  {
    var p1 := RunStep(env, files, p, RestartStep);
    assert p1.restarts == [];
    var rest := plan[1..];
    assert forall j :: 0 <= j < |rest| ==> !rest[j].SettingStep? by {
      forall j | 0 <= j < |rest| ensures !rest[j].SettingStep? {
        assert rest[j] == plan[j + 1];
      }
    }
    assert Execute(env, files, rest, p1).restarts == [];
  }

  // ---------------------------------------------------------------------------
  // applyDiff
  // ---------------------------------------------------------------------------

  predicate Succeeded(r: ApplyResult) { r.success }
  predicate Failed(r: ApplyResult) { !r.success }

  /** The number of entries the diff asks to act on: every non-`none` entry, except App Store
      entries other than `add` and `remove`. */
  function PendingCount(d: Diff): nat {
    |Filter(d.packages, PackagePending)| + |Filter(d.casks, PackagePending)| + |Filter(d.apps, AppDispatched)|
    + |Filter(d.settings, SettingPending)| + |Filter(d.git, GitPending)| + |Filter(d.files, FilePending)|
  }

  /** `applyDiff`'s outcome: the result log, its two tallies, the commands issued and the
      processes still waiting for a restart. */
  datatype Applied = Applied(
    results: seq<ApplyResult>,
    successCount: nat,
    failureCount: nat,
    log: seq<string>,
    pending: seq<string>)

  /** `applyDiff`: one result per acted-on entry plus the Dock's, tallied into successes and
      failures that account for every result; each entry's result is pushed in plan order,
      after those of the steps before it; the restart always runs after the last settings
      write, so no restart is left pending. */
  method ApplyDiff(env: Env, files: FileEntry -> ApplyResult, d: Diff, dockApps: seq<DockItem>, log: seq<string>)
    returns (out: Applied)
    ensures out.successCount + out.failureCount == |out.results|
    ensures |out.results| >= PendingCount(d)
    ensures |dockApps| == 0 ==> |out.results| == PendingCount(d)
    ensures out.pending == []
    ensures var plan := Plan(d, dockApps);
      forall i :: 0 <= i < |plan| && Single(plan[i]) ==>
        var before := Execute(env, files, plan[..i], Progress([], log, []));
        && |before.results| < |out.results|
        && out.results[|before.results|] == SingleOutcome(env, files, before.log, before.restarts, plan[i]).0
  {
    var plan := Plan(d, dockApps);
    var q := Execute(env, files, plan, Progress([], log, []));
    forall i | 0 <= i < |plan| && Single(plan[i])
      ensures var before := Execute(env, files, plan[..i], Progress([], log, []));
        && |before.results| < |q.results|
        && q.results[|before.results|] == SingleOutcome(env, files, before.log, before.restarts, plan[i]).0
    {
      ExecuteOutcome(env, files, plan, Progress([], log, []), i);
    }
    PlanSingles(d, dockApps);
    NoDockStep(d, dockApps);
    TallyTotal(q.results);
    PlanDrains(env, files, d, dockApps, log);
    out := Applied(q.results, Count(q.results, Succeeded), Count(q.results, Failed), q.log, q.restarts);
  }

  /** Executing the plan from an empty restart set leaves it empty. */
  lemma PlanDrains(env: Env, files: FileEntry -> ApplyResult, d: Diff, dockApps: seq<DockItem>, log: seq<string>)
    ensures Execute(env, files, Plan(d, dockApps), Progress([], log, [])).restarts == []
  {
    var plan := Plan(d, dockApps);
    RestartOnce(d, dockApps);
    var i :| 0 <= i < |plan| && plan[i] == RestartStep
      && (forall j :: 0 <= j < |plan| && j != i ==> plan[j] != RestartStep)
      && (forall j :: 0 <= j < i ==> !plan[j].DockStep?)
      && (forall j :: i < j < |plan| ==> !plan[j].SettingStep?);
    ExecuteDrains(env, files, plan, Progress([], log, []), i);
  }

  /** Every result is either a success or a failure. */
  lemma {:induction false} TallyTotal(rs: seq<ApplyResult>)
    ensures Count(rs, Succeeded) + Count(rs, Failed) == |rs|
  {
    if |rs| > 0 {
      TallyTotal(rs[1..]);
    }
  }

  /** Counting over a concatenation. */
  lemma CountConcat<T>(a: seq<T>, b: seq<T>, p: T -> bool)
    ensures Count(a + b, p) == Count(a, p) + Count(b, p)
  {
    FilterConcat(a, b, p);
  }

  /** A block in which every step is single counts whole. */
  lemma CountAll(steps: seq<Step>)
    requires forall i :: 0 <= i < |steps| ==> Single(steps[i])
    ensures Count(steps, Single) == |steps|
  {
    FilterAll(steps, Single);
  }

  /** The plan holds one single step per pending entry, and no other single step; the Dock
      step is the only step besides the restart that is not single. */
  lemma PlanSingles(d: Diff, dockApps: seq<DockItem>)
    ensures Count(Plan(d, dockApps), Single) == PendingCount(d)
  {
    var b0, b1, b2, b3 := PackageSteps(d.packages), CaskSteps(d.casks), AppSteps(d.apps), SettingSteps(d.settings);
    var b4, b5, b6, b7 := [RestartStep], DockSteps(dockApps), GitSteps(d.git), FileSteps(d.files);
    BlockSingles(d, dockApps);
    var p1 := b0 + b1;
    var p2 := p1 + b2;
    var p3 := p2 + b3;
    var p4 := p3 + b4;
    var p5 := p4 + b5;
    var p6 := p5 + b6;
    CountConcat(b0, b1, Single);
    CountConcat(p1, b2, Single);
    CountConcat(p2, b3, Single);
    CountConcat(p3, b4, Single);
    CountConcat(p4, b5, Single);
    CountConcat(p5, b6, Single);
    CountConcat(p6, b7, Single);
    assert p6 + b7 == Plan(d, dockApps);
  }

  /** Each block's single steps: all of an entry block, none of the restart and Dock blocks. */
  lemma BlockSingles(d: Diff, dockApps: seq<DockItem>)
    ensures Count(PackageSteps(d.packages), Single) == |Filter(d.packages, PackagePending)|
    ensures Count(CaskSteps(d.casks), Single) == |Filter(d.casks, PackagePending)|
    ensures Count(AppSteps(d.apps), Single) == |Filter(d.apps, AppDispatched)|
    ensures Count(SettingSteps(d.settings), Single) == |Filter(d.settings, SettingPending)|
    ensures Count([RestartStep], Single) == 0
    ensures Count(DockSteps(dockApps), Single) == 0
    ensures Count(GitSteps(d.git), Single) == |Filter(d.git, GitPending)|
    ensures Count(FileSteps(d.files), Single) == |Filter(d.files, FilePending)|
  {
    StepsSingles(d.packages, PackagePending, AsPackageStep);
    StepsSingles(d.casks, PackagePending, AsCaskStep);
    StepsSingles(d.apps, AppDispatched, AppStep);
    StepsSingles(d.settings, SettingPending, AsSettingStep);
    StepsSingles(d.git, GitPending, AsGitStep);
    StepsSingles(d.files, FilePending, AsFileStep);
    FilterEmpty([RestartStep], Single);
    FilterEmpty(DockSteps(dockApps), Single);
  }

  /** A block made by a step constructor that always gives single steps counts whole. */
  lemma StepsSingles<T>(es: seq<T>, keep: T -> bool, f: T -> Step)
    requires forall x :: Single(f(x))
    ensures Count(MapSeq(Filter(es, keep), f), Single) == |Filter(es, keep)|
  {
    CountAll(MapSeq(Filter(es, keep), f));
  }

  /** Without Dock apps there is no Dock step. */
  lemma NoDockStep(d: Diff, dockApps: seq<DockItem>)
    ensures |dockApps| == 0 ==> forall i :: 0 <= i < |Plan(d, dockApps)| ==> !Plan(d, dockApps)[i].DockStep?
  {
    forall i | 0 <= i < |Plan(d, dockApps)| && |dockApps| == 0 ensures !Plan(d, dockApps)[i].DockStep? {
      PlanMembers(d, dockApps, Plan(d, dockApps)[i]);
    }
  }

  // ---------------------------------------------------------------------------
  // run
  // ---------------------------------------------------------------------------

  /** The state reads of `run`, in order: Homebrew, the App Store, the desired `defaults`
      keys, the desired git keys. Symlink targets come from the file manager, which is not
      part of this model, and are given. */
  function Observe(env: Env, log: seq<string>, config: Configuration, symlinks: map<string, string>)
    : (out: (SystemState, seq<string>))
    ensures out.0.settings.Keys <= DesiredIdentities(config.settings)
    ensures forall k :: k in out.0.git ==>
      exists i :: 0 <= i < |config.gitSettings| && Git.Key(config.gitSettings[i]) == k
    ensures out.0.symlinks == symlinks
  {
    var (packages, casks, log1) := Brew.GetCurrentState(env, log);
    var (apps, log2) := AppStore.GetCurrentState(env, log1);
    var (settings, log3) := MacOS.GetCurrentState(env, log2, config.settings);
    var (git, log4) := Git.GetCurrentState(env, log3, config.gitSettings);
    (SystemState(packages, casks, apps, settings, git, symlinks), log4)
  }

  datatype Options = Options(dryRun: bool, strict: bool)

  /** How `run` ends: nothing to do, a dry run, or an apply with its results and tallies. */
  datatype Outcome =
    | AlreadySettled
    | DryRunOnly
    | ChangesApplied(results: seq<ApplyResult>, successCount: nat, failureCount: nat)

  datatype RunResult = RunResult(outcome: Outcome, log: seq<string>, file: StateFile)

  /** The diff `run` computes from what it observed. */
  function RunDiff(env: Env, log: seq<string>, config: Configuration, file: StateFile, options: Options,
                   symlinks: map<string, string>, home: string, resolve: (string, string) -> string): Diff
  {
    GenerateDiff(config, Observe(env, log, config, symlinks).0, options.strict, LoadPreviousState(file), home, resolve)
  }

  /** The diff is empty exactly when the observed machine is in the desired state. */
  lemma RunDiffSettled(env: Env, log: seq<string>, config: Configuration, file: StateFile, options: Options,
                       symlinks: map<string, string>, home: string, resolve: (string, string) -> string)
    ensures !HasDifferences(RunDiff(env, log, config, file, options, symlinks, home, resolve))
      <==> InDesiredState(config, Observe(env, log, config, symlinks).0, options.strict, LoadPreviousState(file))
  {
    NoDifferencesIffInDesiredState(config, Observe(env, log, config, symlinks).0, options.strict,
                                   LoadPreviousState(file), home, resolve);
  }

  /** `run` after the configuration is loaded: it stops without changes exactly when the
      machine is in the desired state, stops without changes on a dry run, and otherwise
      applies the diff and then rewrites the record from the configuration. The record is
      never touched on the two early returns. */
  method Run(env: Env, files: FileEntry -> ApplyResult, config: Configuration, file: StateFile, options: Options,
               symlinks: map<string, string>, home: string, resolve: (string, string) -> string, log: seq<string>)
    returns (out: RunResult)
    ensures var (state, observed) := Observe(env, log, config, symlinks);
      var settled := InDesiredState(config, state, options.strict, LoadPreviousState(file));
      && (out.outcome.AlreadySettled? <==> settled)
      && (out.outcome.DryRunOnly? <==> !settled && options.dryRun)
      && (!out.outcome.ChangesApplied? ==> out.file == file && out.log == observed)
    ensures out.outcome.ChangesApplied? ==>
      && out.file == SaveCurrentState(config)
      && out.outcome.successCount + out.outcome.failureCount == |out.outcome.results|
      && |out.outcome.results| >= PendingCount(RunDiff(env, log, config, file, options, symlinks, home, resolve))
  {
    var log1 := Observe(env, log, config, symlinks).1;
    var d := RunDiff(env, log, config, file, options, symlinks, home, resolve);
    RunDiffSettled(env, log, config, file, options, symlinks, home, resolve);
    if !HasDifferences(d) {
      out := RunResult(AlreadySettled, log1, file);
    } else if options.dryRun {
      out := RunResult(DryRunOnly, log1, file);
    } else {
      var a := ApplyDiff(env, files, d, config.dockApps, log1);
      out := RunResult(ChangesApplied(a.results, a.successCount, a.failureCount), a.log, SaveCurrentState(config));
    }
  }

  /** The record's removals need the observed value of a key that is no longer desired, but
      the state read covers only desired keys: so `run` never plans a settings removal, and a
      setting dropped from the configuration keeps its value on the machine. */
  lemma RunNeverRemovesSettings(env: Env, log: seq<string>, config: Configuration, file: StateFile, options: Options,
                                symlinks: map<string, string>, home: string, resolve: (string, string) -> string)
    ensures var d := RunDiff(env, log, config, file, options, symlinks, home, resolve);
      forall i :: 0 <= i < |d.settings| ==> d.settings[i].action != Remove
  {
    var state := Observe(env, log, config, symlinks).0;
    NoRemovalsOfUnread(config.settings, state.settings, LoadPreviousState(file));
    SettingsWithoutRemovals(config.settings, state.settings, LoadPreviousState(file));
  }

  /** No record entry is removable when only desired keys were observed. */
  lemma NoRemovalsOfUnread(desired: seq<MacOSSetting>, observed: map<string, Value>, previous: seq<SettingRef>)
    requires observed.Keys <= DesiredIdentities(desired)
    ensures SettingRemovals(desired, observed, previous) == []
  {
  }
}
