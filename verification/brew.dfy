/** The Homebrew manager (src/managers/brew.ts): reading `brew list --versions` and turning a
    package or cask diff entry into one `brew` command. */
module Brew {
  import opened Optional
  import opened Seqs
  import opened JsString
  import opened OrderedMap
  import opened Types
  import opened Shell

  datatype Kind = Formula | Cask

  // ---------------------------------------------------------------------------
  // Listing
  // ---------------------------------------------------------------------------

  function ListCommand(kind: Kind): string {
    match kind
    case Formula => "brew list --formula --versions"
    case Cask => "brew list --cask --versions"
  }

  /** One listing line: the first space-separated token is the name, the remaining tokens
      rejoined with single spaces are the version, `unknown` when there are none. */
  function LineEntry(line: string): (string, string) {
    var parts := Split(Trim(line), ' ');
    var version := Join(parts[1..], " ");
    (parts[0], if version == "" then "unknown" else version)
  }

  /** The non-empty lines of the trimmed listing. */
  function ListingLines(output: string): seq<string> {
    Filter(Split(Trim(output), '\n'), (line: string) => line != "")
  }

  function ListingEntries(output: string): seq<(string, string)> {
    MapSeq(ListingLines(output), LineEntry)
  }

  /** The name→version map built by setting each line's entry in turn. */
  function ParseListing(output: string): OMap<string, string> {
    SetAll([], ListingEntries(output))
  }

  /** A failed listing is caught and leaves its map empty. */
  function ListingState(resp: Response): OMap<string, string> {
    if resp.ok then ParseListing(resp.stdout) else []
  }

  /** `getCurrentState`: the formula listing, then the cask listing; each map depends only on
      its own command's response. */
  function GetCurrentState(env: Env, log: seq<string>)
    : (out: (OMap<string, string>, OMap<string, string>, seq<string>))
    ensures out.2 == log + [ListCommand(Formula), ListCommand(Cask)]
    ensures out.0 == ListingState(env(|log|, ListCommand(Formula)))
    ensures out.1 == ListingState(env(|log| + 1, ListCommand(Cask)))
    ensures !env(|log|, ListCommand(Formula)).ok ==> out.0 == []
    ensures !env(|log| + 1, ListCommand(Cask)).ok ==> out.1 == []
  {
    var (r1, log1) := Exec(env, log, ListCommand(Formula));
    var (r2, log2) := Exec(env, log1, ListCommand(Cask));
    (ListingState(r1), ListingState(r2), log2)
  }

  /** A token: non-empty, without whitespace. */
  predicate IsToken(s: string) {
    |s| > 0 && forall i :: 0 <= i < |s| ==> !IsWhitespace(s[i])
  }

  /** A line `name v1 v2 ...` maps the name to `v1 v2 ...`; a line with only the name maps it
      to `unknown`. */
  lemma LineEntryOf(name: string, versions: seq<string>)
    requires IsToken(name)
    requires forall i :: 0 <= i < |versions| ==> IsToken(versions[i])
    ensures LineEntry(Join([name] + versions, " ")) ==
      (name, if |versions| == 0 then "unknown" else Join(versions, " "))
  {
    var parts := [name] + versions;
    var line := Join(parts, " ");
    JoinEnds(parts);
    TrimNoOp(line);
    assert forall i :: 0 <= i < |parts| ==> ' ' !in parts[i] by {
      forall i | 0 <= i < |parts| ensures ' ' !in parts[i] {
        assert IsToken(parts[i]);
        assert IsWhitespace(' ');
      }
    }
    SplitJoin(parts, ' ');
    assert parts[1..] == versions;
    if |versions| > 0 {
      JoinEnds(versions);
    }
  }

  /** A space-joined list of tokens starts and ends with a non-whitespace character. */
  lemma {:induction false} JoinEnds(parts: seq<string>)
    requires |parts| > 0
    requires forall i :: 0 <= i < |parts| ==> IsToken(parts[i])
    ensures var s := Join(parts, " ");
      |s| > 0 && !IsWhitespace(s[0]) && !IsWhitespace(s[|s| - 1])
    decreases |parts|
  {
    if |parts| > 1 {
      JoinEnds(parts[1..]);
      var s := Join(parts, " ");
      assert s == parts[0] + " " + Join(parts[1..], " ");
      assert s[0] == parts[0][0];
    }
  }

  /** The last line naming a package decides its version. */
  lemma ListingLastLineWins(output: string, i: nat)
    requires i < |ListingEntries(output)|
    requires forall j :: i < j < |ListingEntries(output)| ==> ListingEntries(output)[j].0 != ListingEntries(output)[i].0
    ensures Get(ParseListing(output), ListingEntries(output)[i].0) == Some(ListingEntries(output)[i].1)
  {
    SetAllLastWins([], ListingEntries(output), i);
  }

  /** Some listing line names the package. */
  predicate Listed(output: string, name: string) {
    exists i :: 0 <= i < |ListingEntries(output)| && ListingEntries(output)[i].0 == name
  }

  /** Every listed name is a key, and every key was listed. */
  lemma ListingKeys(output: string, name: string)
    ensures Has(ParseListing(output), name) <==> Listed(output, name)
  {
    var es := ListingEntries(output);
    assert ParseListing(output) == SetAll([], es);
    EntriesKeys(es, name);
  }

  lemma EntriesKeys(es: seq<(string, string)>, name: string)
    ensures Has(SetAll([], es), name) <==> exists i :: 0 <= i < |es| && es[i].0 == name
  {
    if Has(SetAll([], es), name) {
      SetAllOnly([], es, name);
    }
    if i :| 0 <= i < |es| && es[i].0 == name {
      SetAllHas([], es, i);
    }
  }

  // ---------------------------------------------------------------------------
  // Applying
  // ---------------------------------------------------------------------------

  function Noun(kind: Kind): string {
    match kind
    case Formula => "package"
    case Cask => "cask"
  }

  function Flag(kind: Kind): string {
    match kind
    case Formula => ""
    case Cask => "--cask "
  }

  /** The `brew` subcommand for an action: install, uninstall or upgrade; none for `none`. */
  function Verb(action: DiffAction): Option<string> {
    match action
    case Add => Some("install")
    case Remove => Some("uninstall")
    case Update => Some("upgrade")
    case NoAction => None
  }

  function Command(kind: Kind, e: PackageEntry): Option<string> {
    match Verb(e.action)
    case None => None
    case Some(verb) => Some("brew " + verb + " " + Flag(kind) + e.name)
  }

  /** For names without whitespace, different actions, kinds or names never share a
      command. */
  lemma CommandInjective(k1: Kind, e1: PackageEntry, k2: Kind, e2: PackageEntry)
    requires IsToken(e1.name) && IsToken(e2.name)
    requires Command(k1, e1).Some? && Command(k1, e1) == Command(k2, e2)
    ensures e1.action == e2.action && k1 == k2 && e1.name == e2.name
  {
    var v1, v2 := Verb(e1.action).value, Verb(e2.action).value;
    var t1, t2 := Flag(k1) + e1.name, Flag(k2) + e2.name;
    assert Command(k1, e1).value == "brew " + v1 + " " + Flag(k1) + e1.name == "brew " + v1 + " " + t1;
    assert Command(k2, e2).value == "brew " + v2 + " " + Flag(k2) + e2.name == "brew " + v2 + " " + t2;
    VerbPrefix(e1.action, e2.action, t1, t2);
    FlagPrefix(k1, e1.name, k2, e2.name);
  }

  /** The verb and the text after it can be read back from `verb + " " + rest`. */
  lemma VerbPrefix(a1: DiffAction, a2: DiffAction, t1: string, t2: string)
    requires Verb(a1).Some? && Verb(a2).Some?
    requires "brew " + Verb(a1).value + " " + t1 == "brew " + Verb(a2).value + " " + t2
    ensures a1 == a2 && t1 == t2
  {
    var v1, v2 := Verb(a1).value, Verb(a2).value;
    var c := "brew " + v1 + " " + t1;
    assert c[5] == v1[0] && c[6] == v1[1];
    assert c[5] == v2[0] && c[6] == v2[1];
    assert v1 == v2;
    assert c[|v1| + 6..] == t1;
    assert c[|v1| + 6..] == t2;
  }

  lemma FlagPrefix(k1: Kind, n1: string, k2: Kind, n2: string)
    requires IsToken(n1) && IsToken(n2)
    requires Flag(k1) + n1 == Flag(k2) + n2
    ensures k1 == k2 && n1 == n2
  {
    if k1 == k2 {
      assert n1 == (Flag(k1) + n1)[|Flag(k1)|..];
    } else {
      CaskNameNotToken(if k1 == Cask then n1 else n2, if k1 == Cask then n2 else n1);
    }
  }

  lemma CaskNameNotToken(n: string, m: string)
    requires "--cask " + n == m
    ensures !IsToken(m)
  {
    assert m[6] == ' ';
  }

  function OkMessage(kind: Kind, e: PackageEntry): string {
    match e.action
    case Add => "Installed " + Noun(kind) + ": " + e.name
    case Remove => "Uninstalled " + Noun(kind) + ": " + e.name
    case Update => "Updated " + Noun(kind) + ": " + e.name
    case NoAction => "No action needed for " + Noun(kind) + ": " + e.name
  }

  function FailMessage(kind: Kind, e: PackageEntry): string {
    match e.action
    case Add => "Failed to install " + Noun(kind) + ": " + e.name
    case Remove => "Failed to uninstall " + Noun(kind) + ": " + e.name
    case _ => "Failed to update " + Noun(kind) + ": " + e.name
  }

  /** `applyPackageDiff` / `applyCaskDiff`: `none` succeeds without a command; every other
      action runs exactly its one command and succeeds iff that command does; a failure is
      returned with its error, never thrown. */
  function ApplyEntry(env: Env, log: seq<string>, kind: Kind, e: PackageEntry): (out: (ApplyResult, seq<string>))
    ensures e.action == NoAction ==> out.0.success && out.1 == log
    ensures e.action != NoAction ==>
      && out.1 == log + [Command(kind, e).value]
      && out.0.success == env(|log|, Command(kind, e).value).ok
    ensures out.0.success <==> out.0.error.None?
  {
    match Command(kind, e)
    case None => (ApplyResult(true, OkMessage(kind, e), None), log)
    case Some(c) => Attempt(env, log, c, OkMessage(kind, e), FailMessage(kind, e))
  }
}
