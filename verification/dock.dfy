/** The Dock manager (src/managers/dock.ts): the app-name normalisation, the parsing of
    `dockutil --list`, the standalone add and remove, and the reconciliation `setApps`, which
    removes every persistent app that is not desired, adds every desired app that is missing,
    and restarts the Dock once. */
module Dock {
  import opened Optional
  import opened Seqs
  import opened JsString
  import opened Types
  import opened Shell

  const WhichDockutil := "which dockutil"
  const ListDock := "dockutil --list"
  const KillDock := "killall Dock"

  /** The result every operation gives when `which dockutil` prints nothing. */
  const NotInstalled := ApplyResult(false, "dockutil not installed. Install with: brew install dockutil",
                                    Some("dockutil command not found"))

  /** What reading `.name` off a bare string entry and calling `endsWith` on it throws. */
  const MissingNameError := "Cannot read properties of undefined (reading 'endsWith')"

  const SetFailed := "Failed to set Dock apps"

  // ---------------------------------------------------------------------------
  // Names and paths
  // ---------------------------------------------------------------------------

  /** `path.split('/').pop()`. */
  function LastComponent(path: string): string {
    var parts := Split(path, '/');
    parts[|parts| - 1]
  }

  /** The last component is the part of the path after its last `/`: a suffix free of `/`
      that is the whole path or follows a `/`. */
  lemma LastComponentShape(path: string)
    ensures var c := LastComponent(path);
      && '/' !in c && |c| <= |path| && path[|path| - |c|..] == c
      && (|c| < |path| ==> path[|path| - |c| - 1] == '/')
  {
    var parts := Split(path, '/');
    JoinLast(parts, "/");
    var c := parts[|parts| - 1];
    if |parts| > 1 {
      assert path[|path| - |c| - 1..|path| - |c|] == "/";
    }
  }

  /** A path ending in `.app` has a last component ending in `.app`: the suffix contains no
      `/`, so the last `/` comes before it. */
  lemma AppSuffixInComponent(path: string)
    requires EndsWith(path, ".app")
    ensures var c := LastComponent(path); |c| >= 4 && c[|c| - 4..] == ".app"
  {
    LastComponentShape(path);
    var c := LastComponent(path);
    assert forall k :: |path| - 4 <= k < |path| ==> path[k] == ".app"[k - (|path| - 4)];
    assert c[|c| - 4..] == path[|path| - 4..];
  }

  /** The name the Dock lists an app under: for a name ending in `.app`, its last path
      component without the `.app` suffix; any other name as it is. */
  function NormalName(name: string): (r: string)
    ensures EndsWith(name, ".app") ==> r + ".app" == LastComponent(name)
    ensures !EndsWith(name, ".app") ==> r == name
  {
    if EndsWith(name, ".app") then
      var c := LastComponent(name);
      AppSuffixInComponent(name);
      assert c[..|c| - 4] + ".app" == c;
      c[..|c| - 4]
    else name
  }

  /** The normalisation as the source writes it: `.replace('.app', '')` removes the FIRST
      `.app` of the last component, which is not always the suffix. */
  function NameAsWritten(name: string): string {
    if EndsWith(name, ".app") then ReplaceFirst(LastComponent(name), ".app", "") else name
  }

  /** Where the first `.app` of the component is its suffix, both normalisations agree. */
  lemma AsWrittenAgrees(name: string)
    requires EndsWith(name, ".app")
    requires var c := LastComponent(name); IndexOf(c, ".app") == |c| - 4
    ensures NameAsWritten(name) == NormalName(name)
  {
    var c := LastComponent(name);
    AppSuffixInComponent(name);
    assert c[|c| - 4 + 4..] == "";
  }

  /** The last component is what follows the last `/`. */
  lemma ComponentAfterSlash(path: string, i: nat)
    requires i < |path| && path[i] == '/'
    requires forall k :: i < k < |path| ==> path[k] != '/'
    ensures LastComponent(path) == path[i + 1..]
  {
    LastComponentShape(path);
    var c := LastComponent(path);
    assert forall k :: |path| - |c| <= k < |path| ==> path[k] == c[k - (|path| - |c|)];
    assert |c| == |path| - i - 1;
  }

  /** An app whose own name holds `.app` followed by more text, such as
      `/Applications/My.apps.app` (`x` = `My`, `y` = `s`), normalises to `Mys.app` as written
      instead of `My.apps`: the first `.app` is cut out of the middle and the suffix stays. */
  lemma AsWrittenMisreads(dir: string, x: string, y: string)
    requires '/' !in x && '/' !in y && '.' !in x && '.' !in y && y != ""
    ensures var path := dir + "/" + x + ".app" + y + ".app";
      && NameAsWritten(path) == x + y + ".app"
      && NormalName(path) == x + ".app" + y
      && NameAsWritten(path) != NormalName(path)
  {
    var c := x + ".app" + y + ".app";
    var path := dir + "/" + x + ".app" + y + ".app";
    assert c[|c| - 4..] == ".app";
    ComponentOfPath(dir, c);
    assert path == dir + "/" + c;
    WrittenCutsInner(path, x, y);
    NormalKeepsInner(path, x, y);
    var w, r := x + y + ".app", x + ".app" + y;
    assert w[|x|] == y[0] != '.' == r[|x|];
  }

  /** As written, the inner `.app` of such a component is the one removed. */
  lemma WrittenCutsInner(path: string, x: string, y: string)
    requires '.' !in x
    requires EndsWith(path, ".app") && LastComponent(path) == x + ".app" + y + ".app"
    ensures NameAsWritten(path) == x + y + ".app"
  {
    ReplaceBeforeSuffix(x, y + ".app");
    assert x + ".app" + (y + ".app") == x + ".app" + y + ".app";
    assert x + (y + ".app") == x + y + ".app";
  }

  /** The intended normalisation drops only the suffix of such a component. */
  lemma NormalKeepsInner(path: string, x: string, y: string)
    requires EndsWith(path, ".app") && LastComponent(path) == x + ".app" + y + ".app"
    ensures NormalName(path) == x + ".app" + y
  {
    var r := NormalName(path);
    var c := x + ".app" + y + ".app";
    assert r + ".app" == c;
    assert r == (r + ".app")[..|r|] == c[..|c| - 4];
    assert c == (x + ".app" + y) + ".app";
  }

  /** A `/`-free name after a directory is the path's last component, and the path ends in
      `.app` when the name does. */
  lemma ComponentOfPath(dir: string, c: string)
    requires '/' !in c && EndsWith(c, ".app")
    ensures LastComponent(dir + "/" + c) == c && EndsWith(dir + "/" + c, ".app")
  {
    var path := dir + "/" + c;
    forall k | |dir| < k < |path| ensures path[k] != '/' {
      assert path[k] == c[k - |dir| - 1];
    }
    ComponentAfterSlash(path, |dir|);
    assert path[|dir| + 1..] == c;
    assert path[|path| - 4..] == c[|c| - 4..];
  }

  /** When the part before an inner `.app` holds no dot, that inner `.app` is the one replaced. */
  lemma ReplaceBeforeSuffix(x: string, y: string)
    requires '.' !in x
    ensures ReplaceFirst(x + ".app" + y, ".app", "") == x + y
  {
    var c := x + ".app" + y;
    var n := |x|;
    assert c[n..n + 4] == ".app";
    forall j | 0 <= j < n ensures !OccursAt(c, ".app", j) {
      assert c[j..j + 4][0] == c[j] == x[j];
    }
    ReplaceFirstAt(c, ".app", "", n);
    assert c[..n] == x && c[n + 4..] == y;
  }

  /** The path handed to `dockutil --add`: the name itself when it ends in `.app`, otherwise
      the bundle of that name under `/Applications`. */
  function AppPath(name: string): (r: string)
    ensures EndsWith(r, ".app")
    ensures EndsWith(name, ".app") ==> r == name
  {
    if EndsWith(name, ".app") then name
    else
      var r := "/Applications/" + name + ".app";
      assert r[|r| - 4..] == ".app";
      r
  }

  /** A plain app name survives the trip through its path: the Dock lists the bundle
      `/Applications/<name>.app` under `<name>`. */
  lemma AppPathRoundTrip(name: string)
    requires '/' !in name && !EndsWith(name, ".app")
    ensures NormalName(AppPath(name)) == name
  {
    var tail := name + ".app";
    assert tail[|tail| - 4..] == ".app";
    ComponentOfPath("/Applications", tail);
    assert AppPath(name) == "/Applications" + "/" + tail;
    var r := NormalName(AppPath(name));
    assert r + ".app" == tail;
    assert r == (r + ".app")[..|r|] == tail[..|name|];
  }

  /** ` --position <n>`, appended only for a truthy position (present and not zero). */
  function PositionFlag(position: Option<int>): string {
    match position
    case Some(n) => if n != 0 then " --position " + IntToString(n) else ""
    case None => ""
  }

  /** The add command of the reconciliation, which leaves the restart to the end. */
  function AddCommand(app: DockApp): string {
    "dockutil --add \"" + AppPath(app.name) + "\" --no-restart" + PositionFlag(app.position)
  }

  /** The remove command of the reconciliation. */
  function RemoveCommand(name: string): string {
    "dockutil --remove \"" + name + "\" --no-restart"
  }

  // ---------------------------------------------------------------------------
  // Reading the Dock
  // ---------------------------------------------------------------------------

  /** The first tab-separated field of a `dockutil --list` line, trimmed. */
  function FirstField(line: string): string {
    var parts := Split(line, '\t');
    if parts[0] == "" then "" else Trim(parts[0])
  }

  predicate IsPersistentLine(line: string) {
    Includes(line, "persistentApps")
  }

  predicate IsNonBlank(line: string) {
    Trim(line) != ""
  }

  predicate IsName(name: string) {
    name != ""
  }

  /** The first fields of the lines `keep` selects, in order, empty ones dropped. */
  function FirstFields(lines: seq<string>, keep: string -> bool): (r: seq<string>)
    ensures forall i :: 0 <= i < |r| ==> r[i] != ""
    ensures forall i :: 0 <= i < |r| ==> exists line :: line in lines && keep(line) && FirstField(line) == r[i]
    ensures forall line :: line in lines && keep(line) && FirstField(line) != "" ==> FirstField(line) in r
  {
    var kept := Filter(lines, keep);
    var names := MapSeq(kept, FirstField);
    var r := Filter(names, IsName);
    assert forall i :: 0 <= i < |r| ==> exists k :: 0 <= k < |kept| && r[i] == FirstField(kept[k]);
    forall line | line in lines && keep(line) && FirstField(line) != "" ensures FirstField(line) in r {
      var k :| 0 <= k < |kept| && kept[k] == line;
      assert names[k] == FirstField(line);
    }
    r
  }

  /** The persistent apps `setApps` reconciles against: the first field of every line that
      mentions `persistentApps`, in listing order, empty names dropped. */
  function PersistentApps(listing: string): seq<string> {
    FirstFields(Split(listing, '\n'), IsPersistentLine)
  }

  /** `getCurrentApps`: the first field of every non-blank line, recent apps included;
      nothing when the listing prints nothing. */
  function CurrentApps(env: Env, log: seq<string>): (out: (seq<string>, seq<string>))
    ensures out.1 == log + [ListDock]
    ensures env(|log|, ListDock).stdout == "" ==> out.0 == []
    ensures env(|log|, ListDock).stdout != "" ==> out.0 == FirstFields(Split(env(|log|, ListDock).stdout, '\n'), IsNonBlank)
  {
    var stdout := env(|log|, ListDock).stdout;
    if stdout == "" then ([], log + [ListDock])
    else (FirstFields(Split(stdout, '\n'), IsNonBlank), log + [ListDock])
  }

  /** Whatever the listing prints, `getCurrentApps` gives exactly the non-empty first fields
      of its non-blank lines: each listed name comes from such a line, and no such line is
      missed. An empty listing is the single blank line and so lists nothing. */
  lemma CurrentAppsListed(env: Env, log: seq<string>)
    ensures var apps, lines := CurrentApps(env, log).0, Split(env(|log|, ListDock).stdout, '\n');
      && (forall i :: 0 <= i < |apps| ==>
            apps[i] != "" && exists line :: line in lines && IsNonBlank(line) && FirstField(line) == apps[i])
      && (forall line :: line in lines && IsNonBlank(line) && FirstField(line) != "" ==> FirstField(line) in apps)
  {
    var stdout := env(|log|, ListDock).stdout;
    if stdout == "" {
      assert Split(stdout, '\n') == [""];
      TrimEmptyIff("");
    }
  }

  /** A listing of one line `name<TAB>rest` that mentions `persistentApps` shows exactly `name`
      when the name carries no whitespace. */
  lemma OnePersistentLine(name: string, rest: string)
    requires name != "" && forall k :: 0 <= k < |name| ==> !IsWhitespace(name[k])
    requires '\n' !in rest && IsPersistentLine(name + "\t" + rest)
    ensures PersistentApps(name + "\t" + rest) == [name]
  {
    var line := name + "\t" + rest;
    assert '\n' !in name && '\t' !in name;
    NotInJoin(name, '\t', rest, '\n');
    SplitJoin([line], '\n');
    FirstPiece(name, '\t', rest);
    TrimNoOp(name);
    assert FirstField(line) == name;
    assert Split(line, '\n') == [line];
  }

  /** A character absent from both sides and from the separator is absent from the whole. */
  lemma NotInJoin(a: string, sep: char, b: string, c: char)
    requires c !in a && c !in b && c != sep
    ensures c !in a + [sep] + b
  {
  }

  /** The first piece of a split is everything before the first separator. */
  lemma FirstPiece(a: string, sep: char, b: string)
    requires sep !in a
    ensures Split(a + [sep] + b, sep)[0] == a
  {
    var tail := Split(b, sep);
    var parts := [a] + tail;
    assert parts[1..] == tail;
    assert Join(parts, [sep]) == a + [sep] + b;
    SplitJoin(parts, sep);
  }

  /** The inner-`.app` misreading as `setApps` runs it: with `/Applications/My.apps.app`
      configured (`x` = `My`, `y` = `s`) and the Dock showing it as `My.apps`, which is what the
      intended normalisation expects, every run removes `My.apps`, adds the bundle back,
      reports it under `Mys.app` and restarts the Dock. */
  lemma SetAppsChurns(env: Env, log: seq<string>, dir: string, x: string, y: string, rest: string)
    requires '/' !in x && '/' !in y && '.' !in x && '.' !in y && y != ""
    requires forall k :: 0 <= k < |x + y| ==> !IsWhitespace((x + y)[k])
    requires env(|log|, WhichDockutil).stdout != ""
    requires var shown := x + ".app" + y;
      env(|log| + 1, ListDock).stdout == shown + "\t" + rest && '\n' !in rest && IsPersistentLine(shown + "\t" + rest)
    ensures var path, shown := dir + "/" + x + ".app" + y + ".app", x + ".app" + y;
      var app := DockApp(path, None);
      var out := SetApps(env, log, [AppRecord(app)]);
      && NormalName(path) == shown
      && AppName(app) == x + y + ".app"
      && out.1 == log + [WhichDockutil, ListDock] + [RemoveCommand(shown)] + [AddCommand(app)] + [KillDock]
      && |out.0| >= 2
      && out.0[0] == RemoveOutcome(shown, env(|log| + 2, RemoveCommand(shown)))
      && out.0[1] == AddOutcome(app, env(|log| + 3, AddCommand(app)))
  {
    var path, shown := dir + "/" + x + ".app" + y + ".app", x + ".app" + y;
    AsWrittenMisreads(dir, x, y);
    InnerAppNoWhitespace(x, y);
    OnePersistentLine(shown, rest);
    var app := DockApp(path, None);
    var log2 := log + [WhichDockutil, ListDock];
    ShownButMisnamed(env, log, app, shown);
    RestartAfterTwo(env, RemoveOutcome(shown, env(|log2|, RemoveCommand(shown))),
                    AddOutcome(app, env(|log2| + 1, AddCommand(app))), log2 + [RemoveCommand(shown)] + [AddCommand(app)]);
  }

  /** Putting `.app` between two whitespace-free names keeps the result whitespace-free. */
  lemma InnerAppNoWhitespace(x: string, y: string)
    requires forall k :: 0 <= k < |x + y| ==> !IsWhitespace((x + y)[k])
    ensures var shown := x + ".app" + y; shown != "" && forall k :: 0 <= k < |shown| ==> !IsWhitespace(shown[k])
  {
    var shown := x + ".app" + y;
    forall k | 0 <= k < |shown| ensures !IsWhitespace(shown[k]) {
      if k < |x| {
        assert shown[k] == (x + y)[k];
      } else if k >= |x| + 4 {
        assert shown[k] == (x + y)[k - 4];
      } else {
        assert shown[k] == ".app"[k - |x|];
      }
    }
  }

  /** When the Dock shows one persistent app under a name other than the one `setApps`
      computes for the only configured app, the app is removed, added back, and the Dock
      restarted. */
  lemma ShownButMisnamed(env: Env, log: seq<string>, app: DockApp, shown: string)
    requires env(|log|, WhichDockutil).stdout != ""
    requires PersistentApps(env(|log| + 1, ListDock).stdout) == [shown]
    requires AppName(app) != shown
    ensures var log2 := log + [WhichDockutil, ListDock];
      SetApps(env, log, [AppRecord(app)]) ==
        Restart(env, Reconciled([RemoveOutcome(shown, env(|log2|, RemoveCommand(shown)))],
                                [AddOutcome(app, env(|log2| + 1, AddCommand(app)))],
                                log2 + [RemoveCommand(shown)] + [AddCommand(app)]))
  {
    var log2 := log + [WhichDockutil, ListDock];
    SetAppsOfOne(env, log, app);
    SwapOne(env, log2, app, shown);
  }

  /** With `dockutil` present, `setApps` on one configured app reconciles it against the
      listing and restarts. */
  lemma SetAppsOfOne(env: Env, log: seq<string>, app: DockApp)
    requires env(|log|, WhichDockutil).stdout != ""
    ensures SetApps(env, log, [AppRecord(app)]) ==
      Restart(env, Reconcile(env, log + [WhichDockutil, ListDock], PersistentApps(env(|log| + 1, ListDock).stdout), [app]))
  {
    var items := [AppRecord(app)];
    assert items[1..] == [];
    assert Records(items[1..]) == Some([]);
    assert [app] + Records(items[1..]).value == [app];
    assert Records(items) == Some([app]);
    var log2 := log + [WhichDockutil, ListDock];
    var current := PersistentApps(env(|log| + 1, ListDock).stdout);
    assert SetApps(env, log, items) == Restart(env, Reconcile(env, log2, current, [app]));
  }

  /** Two loop results are reported first, and the Dock is restarted after them. */
  lemma RestartAfterTwo(env: Env, removed: ApplyResult, added: ApplyResult, log: seq<string>)
    ensures var out := Restart(env, Reconciled([removed], [added], log));
      out.1 == log + [KillDock] && |out.0| >= 2 && out.0[0] == removed && out.0[1] == added
  {
    var out := Restart(env, Reconciled([removed], [added], log));
    assert out.0[..2] == [removed, added];
  }

  /** Reconciling one shown app against one configured app under another name removes the
      one and adds the other. */
  lemma SwapOne(env: Env, log: seq<string>, app: DockApp, shown: string)
    requires AppName(app) != shown
    ensures Reconcile(env, log, [shown], [app]) ==
      Reconciled([RemoveOutcome(shown, env(|log|, RemoveCommand(shown)))],
                 [AddOutcome(app, env(|log| + 1, AddCommand(app)))],
                 log + [RemoveCommand(shown)] + [AddCommand(app)])
  {
    assert Removals([shown], [app]) == [shown];
    assert Additions([shown], [app]) == [app];
  }

  // ---------------------------------------------------------------------------
  // The standalone add and remove
  // ---------------------------------------------------------------------------

  /** `addApp`: without `dockutil` nothing is run; otherwise one add command, which restarts
      the Dock itself, reported under the name as configured. */
  function AddApp(env: Env, log: seq<string>, app: DockApp): (out: (ApplyResult, seq<string>))
    ensures env(|log|, WhichDockutil).stdout == "" ==> out == (NotInstalled, log + [WhichDockutil])
    ensures env(|log|, WhichDockutil).stdout != "" ==>
      var command := "dockutil --add \"" + AppPath(app.name) + "\"" + PositionFlag(app.position);
      && out.1 == log + [WhichDockutil, command]
      && out.0.success == env(|log| + 1, command).ok
      && out.0.message == (if out.0.success then "Added " else "Failed to add ") + app.name + " to Dock"
  {
    if env(|log|, WhichDockutil).stdout == "" then (NotInstalled, log + [WhichDockutil])
    else
      var command := "dockutil --add \"" + AppPath(app.name) + "\"" + PositionFlag(app.position);
      Attempt(env, log + [WhichDockutil], command, "Added " + app.name + " to Dock", "Failed to add " + app.name + " to Dock")
  }

  /** `removeApp`: the same shape with the remove command. */
  function RemoveApp(env: Env, log: seq<string>, name: string): (out: (ApplyResult, seq<string>))
    ensures env(|log|, WhichDockutil).stdout == "" ==> out == (NotInstalled, log + [WhichDockutil])
    ensures env(|log|, WhichDockutil).stdout != "" ==>
      var command := "dockutil --remove \"" + name + "\"";
      && out.1 == log + [WhichDockutil, command]
      && out.0.success == env(|log| + 1, command).ok
      && out.0.message == (if out.0.success then "Removed " else "Failed to remove ") + name + " from Dock"
  {
    if env(|log|, WhichDockutil).stdout == "" then (NotInstalled, log + [WhichDockutil])
    else
      var command := "dockutil --remove \"" + name + "\"";
      Attempt(env, log + [WhichDockutil], command, "Removed " + name + " from Dock", "Failed to remove " + name + " from Dock")
  }

  // ---------------------------------------------------------------------------
  // Reconciliation
  // ---------------------------------------------------------------------------

  /** The records of the configured entries, or nothing when one of them is a bare name
      (reading its `.name` gives `undefined`, and the normalisation throws). */
  function Records(items: seq<DockItem>): (r: Option<seq<DockApp>>)
    ensures r.Some? <==> forall i :: 0 <= i < |items| ==> items[i].AppRecord?
    ensures r.Some? ==> |r.value| == |items| && forall i :: 0 <= i < |items| ==> r.value[i] == items[i].app
    decreases |items|
  {
    if |items| == 0 then Some([])
    else
      var rest := Records(items[1..]);
      assert forall i :: 1 <= i < |items| ==> items[i] == items[1..][i - 1];
      match items[0]
      case BareName(_) => None
      case AppRecord(app) => if rest.None? then None else Some([app] + rest.value)
  }

  /** The name `setApps` compares and reports an app under, as the source computes it in both
      loops: the first `.app` of the last component removed (see `NameAsWritten`). */
  function AppName(app: DockApp): string {
    NameAsWritten(app.name)
  }

  /** The desired names, normalised. */
  function DesiredNames(apps: seq<DockApp>): seq<string> {
    MapSeq(apps, AppName)
  }

  function Unwanted(desired: seq<string>): string -> bool {
    (name: string) => name !in desired
  }

  function Missing(current: seq<string>): DockApp -> bool {
    (app: DockApp) => AppName(app) !in current
  }

  /** The current apps to remove: those not desired, in Dock order (duplicates included). */
  function Removals(current: seq<string>, apps: seq<DockApp>): seq<string> {
    Filter(current, Unwanted(DesiredNames(apps)))
  }

  /** The desired apps to add: those whose name the Dock does not show, in declared order. */
  function Additions(current: seq<string>, apps: seq<DockApp>): seq<DockApp> {
    Filter(apps, Missing(current))
  }

  function RemoveOutcome(name: string, r: Response): ApplyResult {
    if r.ok then ApplyResult(true, "Removed " + name + " from Dock", None)
    else ApplyResult(false, "Failed to remove " + name + " from Dock", Some(FailureText(RemoveCommand(name), r)))
  }

  function AddOutcome(app: DockApp, r: Response): ApplyResult {
    if r.ok then ApplyResult(true, "Added " + AppName(app) + " to Dock", None)
    else ApplyResult(false, "Failed to add " + AppName(app) + " to Dock", Some(FailureText(AddCommand(app), r)))
  }

  /** What the remove and add loops produce: their results, separately, and the command log. */
  datatype Reconciled = Reconciled(removed: seq<ApplyResult>, added: seq<ApplyResult>, log: seq<string>)

  /** The remove and add loops with their results, before the restart. */
  function Reconcile(env: Env, log: seq<string>, current: seq<string>, apps: seq<DockApp>): (out: Reconciled)
    ensures var rs, adds := Removals(current, apps), Additions(current, apps);
      var mid := log + MapSeq(rs, RemoveCommand);
      && |out.removed| == |rs| && |out.added| == |adds|
      && out.log == mid + MapSeq(adds, AddCommand)
      && (forall k :: 0 <= k < |rs| ==> out.removed[k] == RemoveOutcome(rs[k], env(|log| + k, RemoveCommand(rs[k]))))
      && (forall k :: 0 <= k < |adds| ==> out.added[k] == AddOutcome(adds[k], env(|mid| + k, AddCommand(adds[k]))))
  {
    var removed := RunEach(env, current, Unwanted(DesiredNames(apps)), RemoveCommand, RemoveOutcome, log);
    var mid := log + MapSeq(Removals(current, apps), RemoveCommand);
    assert removed.1 == mid;
    var added := RunEach(env, apps, Missing(current), AddCommand, AddOutcome, mid);
    Reconciled(removed.0, added.0, added.1)
  }

  /** `setApps`: without `dockutil`, a single failure and nothing else; with a bare-name
      entry, the listing and then a single failure; otherwise every removal before any add,
      and `killall Dock` exactly when some result was produced, its failure appended as one
      more failure. */
  function SetApps(env: Env, log: seq<string>, items: seq<DockItem>): (out: (seq<ApplyResult>, seq<string>))
    ensures env(|log|, WhichDockutil).stdout == "" ==> out == ([NotInstalled], log + [WhichDockutil])
    ensures env(|log|, WhichDockutil).stdout != "" && Records(items).None? ==>
      out == ([ApplyResult(false, SetFailed, Some(MissingNameError))], log + [WhichDockutil, ListDock])
    ensures env(|log|, WhichDockutil).stdout != "" && Records(items).Some? ==>
      var current := PersistentApps(env(|log| + 1, ListDock).stdout);
      var apps := Records(items).value;
      var n := |Removals(current, apps)| + |Additions(current, apps)|;
      var issued := log + [WhichDockutil, ListDock] + MapSeq(Removals(current, apps), RemoveCommand)
                    + MapSeq(Additions(current, apps), AddCommand);
      && (n == 0 ==> out == ([], issued))
      && (n > 0 ==> out.1 == issued + [KillDock])
      && (n > 0 ==> |out.0| == if env(|issued|, KillDock).ok then n else n + 1)
      && (n > 0 && !env(|issued|, KillDock).ok ==>
            out.0[n] == ApplyResult(false, SetFailed, Some(FailureText(KillDock, env(|issued|, KillDock)))))
  {
    if env(|log|, WhichDockutil).stdout == "" then ([NotInstalled], log + [WhichDockutil])
    else
      var log2 := log + [WhichDockutil, ListDock];
      var current := PersistentApps(env(|log| + 1, ListDock).stdout);
      match Records(items)
      case None => ([ApplyResult(false, SetFailed, Some(MissingNameError))], log2)
      case Some(apps) => Restart(env, Reconcile(env, log2, current, apps))
  }

  /** The end of `setApps`: the loops' results, then `killall Dock` when there are any, its
      failure reported as one more failure. */
  function Restart(env: Env, done: Reconciled): (out: (seq<ApplyResult>, seq<string>))
    ensures |done.removed + done.added| == 0 ==> out == ([], done.log)
    ensures |done.removed + done.added| > 0 ==>
      && out.1 == done.log + [KillDock]
      && |out.0| == |done.removed + done.added| + (if env(|done.log|, KillDock).ok then 0 else 1)
      && out.0[..|done.removed + done.added|] == done.removed + done.added
  {
    var results := done.removed + done.added;
    if |results| == 0 then (results, done.log)
    else
      var kill := env(|done.log|, KillDock);
      if kill.ok then (results, done.log + [KillDock])
      else (results + [ApplyResult(false, SetFailed, Some(FailureText(KillDock, kill)))], done.log + [KillDock])
  }

  /** The reconciliation has nothing to do exactly when every current app is desired and
      every desired app is shown. */
  lemma NothingToDoIffSettled(current: seq<string>, apps: seq<DockApp>)
    ensures |Removals(current, apps)| + |Additions(current, apps)| == 0 <==>
      (forall c :: c in current ==> c in DesiredNames(apps)) &&
      (forall i :: 0 <= i < |apps| ==> AppName(apps[i]) in current)
  {
    FilterEmpty(current, Unwanted(DesiredNames(apps)));
    FilterEmpty(apps, Missing(current));
  }

  /** After the reconciliation, every desired name is shown or was just added, and every
      app still shown is desired or was just removed. */
  lemma ReconcileCovers(current: seq<string>, apps: seq<DockApp>)
    ensures forall i :: 0 <= i < |apps| ==>
      AppName(apps[i]) in current || apps[i] in Additions(current, apps)
    ensures forall c :: c in current ==> c in DesiredNames(apps) || c in Removals(current, apps)
  {
    forall c | c in current ensures c in DesiredNames(apps) || c in Removals(current, apps) {
      var k :| 0 <= k < |current| && current[k] == c;
    }
  }

  /** Nothing desired is removed and nothing shown is added. */
  lemma ReconcileTouchesOnlyStrays(current: seq<string>, apps: seq<DockApp>)
    ensures forall c :: c in Removals(current, apps) ==> c in current && c !in DesiredNames(apps)
    ensures forall a :: a in Additions(current, apps) ==> a in apps && AppName(a) !in current
  {
    var rs, adds := Removals(current, apps), Additions(current, apps);
    forall c | c in rs ensures c in current && c !in DesiredNames(apps) {
      var k :| 0 <= k < |rs| && rs[k] == c;
    }
    forall a | a in adds ensures a in apps && AppName(a) !in current {
      var k :| 0 <= k < |adds| && adds[k] == a;
    }
  }
}
