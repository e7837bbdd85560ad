/** The typed git settings constructors (src/managers/git-helpers.ts): one helper per
    configuration section, each writing a global `section.name` key, plus the two ready-made
    setting lists. */
module GitHelpers {
  import opened Optional
  import opened Seqs
  import opened JsString
  import opened Types

  /** The sections that have a helper (`userSetting`, `coreSetting`, ...). */
  datatype Section = User | Core | Push | Pull | Commit | Init | DiffSection | Merge | Credential

  function SectionName(s: Section): string {
    match s
    case User => "user"
    case Core => "core"
    case Push => "push"
    case Pull => "pull"
    case Commit => "commit"
    case Init => "init"
    case DiffSection => "diff"
    case Merge => "merge"
    case Credential => "credential"
  }

  /** The keys of the section's settings interface (`keyof CoreSettings` and so on). */
  function SectionKeys(s: Section): set<string> {
    match s
    case User => {"name", "email", "signingkey"}
    case Core => {"editor", "autocrlf", "filemode", "ignorecase", "excludesfile"}
    case Push => {"default", "followTags", "autoSetupRemote"}
    case Pull => {"rebase", "ff"}
    case Commit => {"gpgsign", "template"}
    case Init => {"defaultBranch"}
    case DiffSection => {"tool", "algorithm"}
    case Merge => {"tool", "conflictstyle", "ff"}
    case Credential => {"helper"}
  }

  /** The helpers whose value parameter is `string | boolean`; the others take a string. */
  predicate TakesBoolean(s: Section) {
    s.Core? || s.Push? || s.Pull? || s.Commit? || s.Merge?
  }

  /** A helper's value argument. */
  datatype Arg = Text(text: string) | Flag(flag: bool)

  /** JavaScript's `String(value)` on a string or a boolean. */
  function StringOf(a: Arg): string {
    match a
    case Text(t) => t
    case Flag(b) => if b then "true" else "false"
  }

  /** A git key read back as its section and name, split at the first `.` as git does. */
  function KeyParts(key: string): Option<(string, string)> {
    var i := IndexOf(key, ".");
    if i < 0 then None else Some((key[..i], key[i + 1..]))
  }

  /** `key` is `<section>.<name>` with a section that holds no dot. */
  predicate IsSectionKey(key: string, section: string, name: string) {
    '.' !in section && key == section + "." + name
  }

  /** A section key splits back into its section and name. */
  lemma KeyPartsOfJoin(key: string, section: string, name: string)
    requires IsSectionKey(key, section, name)
    ensures KeyParts(key) == Some((section, name))
  {
    var n := |section|;
    assert key[n..n + 1] == ".";
    assert OccursAt(key, ".", n);
    forall j | 0 <= j < n ensures !OccursAt(key, ".", j) {
      assert key[j] == section[j];
      assert key[j..j + 1] == [key[j]];
    }
    assert key[..n] == section;
    assert key[n + 1..] == name;
  }

  /** A section helper call, `coreSetting(key, value)` and its siblings. */
  function SectionSetting(s: Section, key: string, value: Arg): (g: GitSetting)
    requires key in SectionKeys(s)
    requires value.Flag? ==> TakesBoolean(s)
    ensures g.scope == Global
    ensures IsSectionKey(g.key, SectionName(s), key)
    ensures g.value == StringOf(value)
  {
    GitSetting(Global, SectionName(s) + "." + key, StringOf(value))
  }

  /** A boolean argument gives the same setting as its spelling as a string, so
      `pullSetting('rebase', true)` and `pullSetting('rebase', 'true')` agree. */
  lemma FlagIsItsText(s: Section, key: string, b: bool)
    requires key in SectionKeys(s) && TakesBoolean(s)
    ensures SectionSetting(s, key, Flag(b)) == SectionSetting(s, key, Text(if b then "true" else "false"))
  {
  }

  /** `aliasSetting(aliasName, command)`: a global `alias.<name>` key whose value is the command,
      verbatim. */
  function AliasSetting(aliasName: string, command: string): (g: GitSetting)
    ensures g.scope == Global
    ensures IsSectionKey(g.key, "alias", aliasName)
    ensures g.value == command
  {
    GitSetting(Global, "alias" + "." + aliasName, command)
  }

  /** The alias names and commands of `commonAliases`, in order. */
  const CommonAliasTable: seq<(string, string)> := [
    ("co", "checkout"),
    ("br", "branch"),
    ("ci", "commit"),
    ("st", "status"),
    ("unstage", "reset HEAD --"),
    ("last", "log -1 HEAD"),
    ("lg", "log --graph --pretty=format:'%Cred%h%Creset -%C(yellow)%d%Creset %s %Cgreen(%cr) %C(bold blue)<%an>%Creset' --abbrev-commit")]

  /** `commonAliases`: `aliasSetting` applied to each row of the table. */
  function CommonAliases(): seq<GitSetting> {
    MapSeq(CommonAliasTable, (row: (string, string)) => AliasSetting(row.0, row.1))
  }

  /** `modernGitSettings`. */
  function ModernGitSettings(): seq<GitSetting> {
    [ SectionSetting(Init, "defaultBranch", Text("main")),
      SectionSetting(Pull, "rebase", Flag(true)),
      SectionSetting(Push, "default", Text("current")),
      SectionSetting(Push, "autoSetupRemote", Flag(true)),
      SectionSetting(Core, "autocrlf", Text("input")),
      SectionSetting(Credential, "helper", Text("osxkeychain")) ]
  }

  /** Aliases with distinct names have distinct keys. */
  lemma AliasKeysDistinct(table: seq<(string, string)>)
    requires forall i, j :: 0 <= i < j < |table| ==> table[i].0 != table[j].0
    ensures var aliases := MapSeq(table, (row: (string, string)) => AliasSetting(row.0, row.1));
      forall i, j :: 0 <= i < j < |aliases| ==> aliases[i].key != aliases[j].key
  {
    var aliases := MapSeq(table, (row: (string, string)) => AliasSetting(row.0, row.1));
    forall i, j | 0 <= i < j < |aliases|
      ensures aliases[i].key != aliases[j].key
    {
      assert aliases[i].key[6..] == table[i].0;
      assert aliases[j].key[6..] == table[j].0;
    }
  }

  /** Every common alias is a global `alias.<name>` key, and no two of them share a key, so
      each becomes its own entry in the git diff. */
  lemma CommonAliasesShape()
    ensures |CommonAliases()| == |CommonAliasTable| == 7
    ensures forall i :: 0 <= i < |CommonAliases()| ==>
      CommonAliases()[i].scope == Global && IsSectionKey(CommonAliases()[i].key, "alias", CommonAliasTable[i].0)
    ensures forall i, j :: 0 <= i < j < |CommonAliases()| ==> CommonAliases()[i].key != CommonAliases()[j].key
  {
    var t := CommonAliasTable;
    assert forall i, j :: 0 <= i < j < |t| ==> t[i].0 != t[j].0 by {
      forall i, j | 0 <= i < j < |t| ensures t[i].0 != t[j].0 {
        assert |t[i].0| != |t[j].0| || t[i].0[0] != t[j].0[0] || t[i].0[1] != t[j].0[1];
      }
    }
    AliasKeysDistinct(t);
  }

  /** The modern defaults turn on rebasing pulls and automatic upstream setup, both written as
      the string `"true"`, and every entry is a global setting. */
  lemma ModernGitSettingsShape()
    ensures GitSetting(Global, "pull.rebase", "true") in ModernGitSettings()
    ensures GitSetting(Global, "push.autoSetupRemote", "true") in ModernGitSettings()
    ensures forall g :: g in ModernGitSettings() ==> g.scope == Global
  {
    var m := ModernGitSettings();
    assert m[1].key == "pull" + "." + "rebase" && m[1].value == "true";
    assert "pull" + "." + "rebase" == "pull.rebase";
    assert m[3].key == "push" + "." + "autoSetupRemote" && m[3].value == "true";
    assert "push" + "." + "autoSetupRemote" == "push.autoSetupRemote";
  }
}
