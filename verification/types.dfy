/** The records the reconciliation engine passes around (src/types.ts): the desired
    configuration, the observed system state, diff entries and apply results. */
module Types {
  import opened Optional
  import opened OrderedMap

  /** `DiffAction`: the source's `'none'` is `NoAction` here. */
  datatype DiffAction = Add | Remove | Update | NoAction

  /** The action as the source spells it in messages. */
  function ActionName(a: DiffAction): string {
    match a
    case Add => "add"
    case Remove => "remove"
    case Update => "update"
    case NoAction => "none"
  }

  /** `MacOSValueType`: the `-<type>` flag of `defaults write`. */
  datatype ValueType = BoolType | IntType | FloatType | StringType | ArrayType | DictType

  function TypeName(t: ValueType): string {
    match t
    case BoolType => "bool"
    case IntType => "int"
    case FloatType => "float"
    case StringType => "string"
    case ArrayType => "array"
    case DictType => "dict"
  }

  /** A preference value: the source's `string | number | boolean | string[] | Record<string, any>`,
      numbers restricted to integers. A dictionary holds its properties in the order JavaScript
      enumerates them. */
  datatype Value =
    | Bool(bval: bool)
    | Num(num: int)
    | Str(str: string)
    | StrArray(items: seq<string>)
    | Dict(fields: seq<(string, Value)>)

  /** Git configuration scope. */
  datatype Scope = Global | System | Local

  function ScopeName(s: Scope): string {
    match s
    case Global => "global"
    case System => "system"
    case Local => "local"
  }

  // ---------------------------------------------------------------------------
  // Desired configuration
  // ---------------------------------------------------------------------------

  datatype AppStoreApp = AppStoreApp(id: int, name: string)

  datatype MacOSSetting = MacOSSetting(domain: string, key: string, value: Value, valueType: Option<ValueType>)

  datatype GitSetting = GitSetting(scope: Scope, key: string, value: string)

  datatype ConfigFile = ConfigFile(source: string, target: string, backup: Option<bool>)

  /** A Dock entry: `position` is the 1-based slot, ignored when absent or zero. */
  datatype DockApp = DockApp(name: string, position: Option<int>)

  /** An element of `macos.dockApps`: the record form, or a bare name (which the Dock
      reconciler cannot read a `.name` from). */
  datatype DockItem = AppRecord(app: DockApp) | BareName(name: string)

  /** `Configuration` with every optional section defaulted to the empty list
      (`config.brew?.packages || []` and so on). */
  datatype Configuration = Configuration(
    packages: seq<string>,
    casks: seq<string>,
    apps: seq<AppStoreApp>,
    settings: seq<MacOSSetting>,
    dockApps: seq<DockItem>,
    gitSettings: seq<GitSetting>,
    files: seq<ConfigFile>)

  // ---------------------------------------------------------------------------
  // Observed state
  // ---------------------------------------------------------------------------

  /** `SystemState`: package and cask versions and App Store names keep the iteration order
      of the JavaScript `Map`s they come from; settings, git values and symlinks are only ever
      looked up. A settings entry read back as `undefined` is simply absent. */
  datatype SystemState = SystemState(
    packages: OMap<string, string>,
    casks: OMap<string, string>,
    apps: OMap<int, string>,
    settings: map<string, Value>,
    git: map<string, string>,
    symlinks: map<string, string>)

  /** The identity under which a settings entry is observed: `${domain}:${key}`. */
  function SettingIdentity(domain: string, key: string): string {
    domain + ":" + key
  }

  /** The identity under which a git entry is observed: `${scope}.${key}`. */
  function GitIdentity(scope: Scope, key: string): string {
    ScopeName(scope) + "." + key
  }

  // ---------------------------------------------------------------------------
  // Diff
  // ---------------------------------------------------------------------------

  /** `BrewPackageDiff` / `BrewCaskDiff`. */
  datatype PackageEntry = PackageEntry(action: DiffAction, name: string, currentVersion: Option<string>)

  /** `AppStoreAppDiff`. */
  datatype AppEntry = AppEntry(action: DiffAction, id: int, name: string)

  /** `MacOSSettingDiff`. */
  datatype SettingEntry = SettingEntry(
    action: DiffAction,
    domain: string,
    key: string,
    currentValue: Option<Value>,
    desiredValue: Option<Value>,
    valueType: Option<ValueType>)

  /** `GitSettingDiff`. */
  datatype GitEntry = GitEntry(
    action: DiffAction,
    scope: Scope,
    key: string,
    currentValue: Option<string>,
    desiredValue: Option<string>)

  /** `FileDiff`. */
  datatype FileEntry = FileEntry(
    action: DiffAction,
    source: string,
    target: string,
    currentTarget: Option<string>,
    backup: Option<bool>)

  /** `Diff`: five sections holding six entry sequences, and no wallpaper field. */
  datatype Diff = Diff(
    packages: seq<PackageEntry>,
    casks: seq<PackageEntry>,
    apps: seq<AppEntry>,
    settings: seq<SettingEntry>,
    git: seq<GitEntry>,
    files: seq<FileEntry>)

  /** `ApplyResult`. */
  datatype ApplyResult = ApplyResult(success: bool, message: string, error: Option<string>)

  /** An element of the persisted record: a settings identity desired at the last apply. */
  datatype SettingRef = SettingRef(domain: string, key: string)
}
