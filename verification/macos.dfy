/** The macOS defaults manager (src/managers/macos.ts): reading the desired keys with
    `defaults read`, writing or deleting one setting, and restarting the processes whose
    preferences changed. */
module MacOS {
  import opened Optional
  import opened Seqs
  import opened JsString
  import opened Types
  import opened Shell
  import opened Values
  import opened DiffEngine

  /** `DOMAIN_TO_PROCESS`: the process that must restart for a domain's changes to show. */
  function DomainToProcess(domain: string): Option<string> {
    match domain
    case "com.apple.dock" => Some("Dock")
    case "com.apple.finder" => Some("Finder")
    case "com.apple.systemuiserver" => Some("SystemUIServer")
    case "com.apple.menuextra.clock" => Some("SystemUIServer")
    case "NSGlobalDomain" => Some("SystemUIServer")
    case "com.apple.screencapture" => Some("SystemUIServer")
    case "com.apple.Safari" => Some("Safari")
    case "com.apple.ActivityMonitor" => Some("Activity Monitor")
    case "com.apple.TextEdit" => Some("TextEdit")
    case "com.apple.MobileSMS" => Some("Messages")
    case "com.apple.iphonesimulator" => Some("Simulator")
    case "com.apple.dt.Xcode" => Some("Xcode")
    case "com.apple.TimeMachine" => Some("SystemUIServer")
    case "com.apple.AppleMultitouchTrackpad" => Some("SystemUIServer")
    case _ => None
  }

  /** The processes the table can name. */
  const Restartable: set<string> :=
    {"Dock", "Finder", "SystemUIServer", "Safari", "Activity Monitor", "TextEdit", "Messages",
     "Simulator", "Xcode"}

  /** Every process the table names is one of the nine, and each of the nine is named. */
  lemma DomainTableRange(domain: string)
    ensures DomainToProcess(domain).Some? ==> DomainToProcess(domain).value in Restartable
    ensures DomainToProcess("com.apple.dock") == Some("Dock")
    ensures DomainToProcess("com.apple.finder") == Some("Finder")
    ensures DomainToProcess("NSGlobalDomain") == Some("SystemUIServer")
    ensures DomainToProcess("com.apple.Safari") == Some("Safari")
    ensures DomainToProcess("com.apple.ActivityMonitor") == Some("Activity Monitor")
    ensures DomainToProcess("com.apple.TextEdit") == Some("TextEdit")
    ensures DomainToProcess("com.apple.MobileSMS") == Some("Messages")
    ensures DomainToProcess("com.apple.iphonesimulator") == Some("Simulator")
    ensures DomainToProcess("com.apple.dt.Xcode") == Some("Xcode")
  {
  }

  // ---------------------------------------------------------------------------
  // Reading
  // ---------------------------------------------------------------------------

  function ReadCommand(s: MacOSSetting): string {
    "defaults read " + s.domain + " " + s.key
  }

  /** What is stored for a read that printed something: its trimmed text, parsed. */
  function ParseRead(stdout: string): Value {
    ParseDefaultsOutput(Trim(stdout))
  }

  /** `getCurrentState`: only the desired settings are read, so only their identities can
      appear in the observed map. */
  function GetCurrentState(env: Env, log: seq<string>, settings: seq<MacOSSetting>)
    : (out: (map<string, Value>, seq<string>))
    ensures out.1 == log + MapSeq(settings, ReadCommand)
    ensures out.0.Keys <= DesiredIdentities(settings)
  {
    ReadEachKeys(env, log, settings, ReadCommand, Identity, ParseRead, map[]);
    ReadEach(env, log, settings, ReadCommand, Identity, ParseRead, map[])
  }

  /** For a setting whose identity is not repeated: read as defined exactly when the read
      printed something, with the parsed text as the value. */
  lemma ReadSetting(env: Env, log: seq<string>, settings: seq<MacOSSetting>, i: nat)
    requires i < |settings|
    requires forall j :: 0 <= j < |settings| && j != i ==> Identity(settings[j]) != Identity(settings[i])
    ensures var state := GetCurrentState(env, log, settings).0;
      var out := env(|log| + i, ReadCommand(settings[i])).stdout;
      && (Identity(settings[i]) in state <==> out != "")
      && (out != "" ==> state[Identity(settings[i])] == ParseDefaultsOutput(Trim(out)))
  {
    if ReadOutput(env, log, settings, ReadCommand, i) == "" {
      ReadEachSkipsSilent(env, log, settings, ReadCommand, Identity, ParseRead, map[], i);
    } else {
      ReadEachStores(env, log, settings, ReadCommand, Identity, ParseRead, map[], i);
    }
  }

  // ---------------------------------------------------------------------------
  // Applying
  // ---------------------------------------------------------------------------

  /** The desired value as the write path uses it; see README for the absent case. */
  function Desired(e: SettingEntry): Value {
    e.desiredValue.GetOr(Str("undefined"))
  }

  /** A template-literal rendering of an optional value. */
  function Shown(v: Option<Value>): string {
    match v
    case Some(x) => ToJsString(x)
    case None => "undefined"
  }

  function Subject(e: SettingEntry): string {
    e.domain + " " + e.key
  }

  /** The type flag: the entry's own, else the one inferred from the desired value. */
  function WriteType(e: SettingEntry): ValueType {
    e.valueType.GetOr(InferType(Desired(e)))
  }

  function WriteCommand(e: SettingEntry): string {
    "defaults write " + e.domain + " \"" + e.key + "\" -" + TypeName(WriteType(e)) + " "
      + FormatValue(Desired(e), WriteType(e))
  }

  function DeleteCommand(e: SettingEntry): string {
    "defaults delete " + e.domain + " " + e.key
  }

  /** The manager's `processesToRestart` set after a successful write to `domain`. */
  function NoteRestart(restarts: seq<string>, domain: string): (r: seq<string>)
    ensures DomainToProcess(domain).None? ==> r == restarts
    ensures DomainToProcess(domain).Some? ==>
      && multiset(r) == multiset(restarts) + (if DomainToProcess(domain).value in restarts then multiset{} else multiset{DomainToProcess(domain).value})
      && |restarts| <= |r| && r[..|restarts|] == restarts
  {
    match DomainToProcess(domain)
    case None => restarts
    case Some(p) => SetAdd(restarts, p)
  }

  /** `applySettingDiff`: `none` succeeds without a command; `remove` deletes the key and never
      schedules a restart; `add` and `update` write the key with the entry's type (or the
      inferred one) and schedule the domain's process only when the write succeeded. */
  function ApplySettingDiff(env: Env, log: seq<string>, restarts: seq<string>, e: SettingEntry)
    : (out: (ApplyResult, seq<string>, seq<string>))
    ensures e.action == NoAction ==>
      out == (ApplyResult(true, "No change needed for " + Subject(e), None), log, restarts)
    ensures e.action == Remove ==>
      && out.1 == log + [DeleteCommand(e)]
      && out.2 == restarts
      && (out.0.success <==> env(|log|, DeleteCommand(e)).ok)
      && out.0.message == (if out.0.success then "Deleted setting: " else "Failed to delete setting: ") + Subject(e)
    ensures (e.action == Add || e.action == Update) ==>
      && out.1 == log + [WriteCommand(e)]
      && (out.0.success <==> env(|log|, WriteCommand(e)).ok)
      && out.2 == (if out.0.success then NoteRestart(restarts, e.domain) else restarts)
      && out.0.message ==
        if out.0.success then (if e.action == Add then "Added" else "Updated") + " setting: " + Subject(e) + " = " + Shown(e.desiredValue)
        else "Failed to " + ActionName(e.action) + " setting: " + Subject(e)
    ensures out.0.success <==> out.0.error.None?
  {
    match e.action
    case NoAction => (ApplyResult(true, "No change needed for " + Subject(e), None), log, restarts)
    case Remove =>
      var (r, log1) := Attempt(env, log, DeleteCommand(e), "Deleted setting: " + Subject(e), "Failed to delete setting: " + Subject(e));
      (r, log1, restarts)
    case _ =>
      var (r, log1) := Attempt(env, log, WriteCommand(e),
        (if e.action == Add then "Added" else "Updated") + " setting: " + Subject(e) + " = " + Shown(e.desiredValue),
        "Failed to " + ActionName(e.action) + " setting: " + Subject(e));
      (r, log1, if r.success then NoteRestart(restarts, e.domain) else restarts)
  }

  /** Applying a setting entry keeps the restart set free of duplicates, and every process in
      it comes from the domain table. */
  lemma ApplyKeepsRestartSet(env: Env, log: seq<string>, restarts: seq<string>, e: SettingEntry)
    requires Distinct(restarts)
    requires forall i :: 0 <= i < |restarts| ==> restarts[i] in Restartable
    ensures var r := ApplySettingDiff(env, log, restarts, e).2;
      Distinct(r) && forall i :: 0 <= i < |r| ==> r[i] in Restartable
  {
    DomainTableRange(e.domain);
  }

  function KillCommand(process: string): string {
    "killall " + process
  }

  /** `restartProcesses`: one `killall` per scheduled process, in the order they were first
      scheduled, whatever each answers; the set is then empty. */
  function RestartProcesses(env: Env, log: seq<string>, restarts: seq<string>): (out: (seq<string>, seq<string>))
    ensures out.1 == []
    ensures out.0 == log + MapSeq(restarts, KillCommand)
    ensures Distinct(restarts) ==> Distinct(out.0[|log|..])
    decreases |restarts|
  {
    KillsDistinct(restarts);
    assert (log + MapSeq(restarts, KillCommand))[|log|..] == MapSeq(restarts, KillCommand);
    if |restarts| == 0 then (log, [])
    else
      var c := KillCommand(restarts[0]);
      var rest := MapSeq(restarts[1..], KillCommand);
      assert MapSeq(restarts, KillCommand) == [c] + rest;
      assert (log + [c]) + rest == log + ([c] + rest);
      RestartProcesses(env, log + [c], restarts[1..])
  }

  /** Distinct processes get distinct `killall` commands. */
  lemma KillsDistinct(restarts: seq<string>)
    ensures Distinct(restarts) ==> Distinct(MapSeq(restarts, KillCommand))
  {
    var ks := MapSeq(restarts, KillCommand);
    forall i, j | 0 <= i < j < |ks| && ks[i] == ks[j]
      ensures restarts[i] == restarts[j]
    {
      assert restarts[i] == ks[i][8..];
      assert restarts[j] == ks[j][8..];
    }
  }
}
