/** The git configuration manager (src/managers/git.ts): reading the configured values of the
    desired keys, and applying one git diff entry with `git config`. */
module Git {
  import opened Optional
  import opened Seqs
  import opened JsString
  import opened Types
  import opened Shell

  /** The `git config` option selecting a scope. */
  function ScopeFlag(s: Scope): string {
    match s
    case Global => "--global"
    case System => "--system"
    case Local => "--local"
  }

  function Key(s: GitSetting): string {
    GitIdentity(s.scope, s.key)
  }

  /** The identity `scope.key` names one scope and one key: scope names contain no dot. */
  lemma GitIdentityInjective(s1: Scope, k1: string, s2: Scope, k2: string)
    requires GitIdentity(s1, k1) == GitIdentity(s2, k2)
    ensures s1 == s2 && k1 == k2
  {
    var id := GitIdentity(s1, k1);
    assert id[0] == ScopeName(s1)[0] && id[0] == ScopeName(s2)[0];
    assert s1 == s2;
    var n := |ScopeName(s1)| + 1;
    assert id[n..] == k1;
    assert id[n..] == k2;
  }

  // ---------------------------------------------------------------------------
  // Reading
  // ---------------------------------------------------------------------------

  function ReadCommand(s: GitSetting): string {
    "git config " + ScopeFlag(s.scope) + " " + s.key
  }

  /** `getCurrentState`: the trimmed output of each read that printed something, under
      `scope.key`, in a map that starts empty. */
  function GetCurrentState(env: Env, log: seq<string>, settings: seq<GitSetting>)
    : (out: (map<string, string>, seq<string>))
    ensures out.1 == log + MapSeq(settings, ReadCommand)
    ensures forall k :: k in out.0 ==> exists i :: 0 <= i < |settings| && Key(settings[i]) == k
  {
    ReadEachKeys(env, log, settings, ReadCommand, Key, Trim, map[]);
    ReadEach(env, log, settings, ReadCommand, Key, Trim, map[])
  }

  /** For a setting whose identity is not repeated, the state holds the trimmed read output
      exactly when the read printed something. Output made only of whitespace is stored as
      the empty string, which the diff treats as absent. */
  lemma ReadSetting(env: Env, log: seq<string>, settings: seq<GitSetting>, i: nat)
    requires i < |settings|
    requires forall j :: 0 <= j < |settings| && j != i ==> Key(settings[j]) != Key(settings[i])
    ensures var state := GetCurrentState(env, log, settings).0;
      var out := env(|log| + i, ReadCommand(settings[i])).stdout;
      && (Key(settings[i]) in state <==> out != "")
      && (out != "" ==> state[Key(settings[i])] == Trim(out))
  {
    if ReadOutput(env, log, settings, ReadCommand, i) == "" {
      ReadEachSkipsSilent(env, log, settings, ReadCommand, Key, Trim, map[], i);
    } else {
      ReadEachStores(env, log, settings, ReadCommand, Key, Trim, map[], i);
    }
  }

  // ---------------------------------------------------------------------------
  // Applying
  // ---------------------------------------------------------------------------

  /** A template-literal rendering of an optional value: an absent one prints `undefined`. */
  function Shown(v: Option<string>): string {
    match v
    case Some(s) => s
    case None => "undefined"
  }

  function Subject(e: GitEntry): string {
    ScopeName(e.scope) + " " + e.key
  }

  function UnsetCommand(e: GitEntry): string {
    "git config " + ScopeFlag(e.scope) + " --unset " + e.key
  }

  /** The key and the value are each wrapped in double quotes, without escaping. */
  function WriteCommand(e: GitEntry): string {
    "git config " + ScopeFlag(e.scope) + " \"" + e.key + "\" \"" + Shown(e.desiredValue) + "\""
  }

  /** `applySettingDiff`: `none` succeeds without a command; `remove` unsets the key in its
      scope; `add` and `update` write the desired value; the result follows the command. */
  function ApplySettingDiff(env: Env, log: seq<string>, e: GitEntry): (out: (ApplyResult, seq<string>))
    ensures e.action == NoAction ==>
      out == (ApplyResult(true, "No change needed for git config " + Subject(e), None), log)
    ensures e.action == Remove ==>
      && out.1 == log + [UnsetCommand(e)]
      && (out.0.success <==> env(|log|, UnsetCommand(e)).ok)
      && out.0.message == (if out.0.success then "Removed git config: " else "Failed to remove git config: ") + Subject(e)
    ensures (e.action == Add || e.action == Update) ==>
      && out.1 == log + [WriteCommand(e)]
      && (out.0.success <==> env(|log|, WriteCommand(e)).ok)
      && out.0.message ==
        if out.0.success then (if e.action == Add then "Added" else "Updated") + " git config: " + Subject(e) + " = " + Shown(e.desiredValue)
        else "Failed to " + ActionName(e.action) + " git config: " + Subject(e)
    ensures out.0.success <==> out.0.error.None?
  {
    match e.action
    case NoAction => (ApplyResult(true, "No change needed for git config " + Subject(e), None), log)
    case Remove =>
      Attempt(env, log, UnsetCommand(e), "Removed git config: " + Subject(e), "Failed to remove git config: " + Subject(e))
    case _ =>
      Attempt(env, log, WriteCommand(e),
        (if e.action == Add then "Added" else "Updated") + " git config: " + Subject(e) + " = " + Shown(e.desiredValue),
        "Failed to " + ActionName(e.action) + " git config: " + Subject(e))
  }
}
