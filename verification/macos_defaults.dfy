/** The typed settings constructors (src/managers/macos-defaults.ts): one helper per
    preference pane, each fixing the `defaults` domain and accepting only the keys its
    interface declares. */
module MacOSDefaults {
  import opened Optional
  import opened Types
  import opened MacOS

  /** The seventeen helpers, named after the pane they cover (`dockSetting`, `finderSetting`, ...;
      `globalSetting` is `Misc`). */
  datatype Helper =
    | DockPane | FinderPane | DesktopPane | ScreenshotPane | MenuBarPane | MousePane
    | TrackpadPane | KeyboardPane | MissionControlPane | XcodePane | SafariPane
    | ActivityMonitorPane | TextEditPane | TimeMachinePane | MessagesPane | SimulatorPane | Misc

  /** The domain each helper writes to. */
  function Domain(h: Helper): string {
    match h
    case DockPane => "com.apple.dock"
    case FinderPane => "com.apple.finder"
    case DesktopPane => "com.apple.finder"
    case ScreenshotPane => "com.apple.screencapture"
    case MenuBarPane => "com.apple.menuextra.clock"
    case MousePane => "NSGlobalDomain"
    case TrackpadPane => "com.apple.AppleMultitouchTrackpad"
    case KeyboardPane => "NSGlobalDomain"
    case MissionControlPane => "com.apple.dock"
    case XcodePane => "com.apple.dt.Xcode"
    case SafariPane => "com.apple.Safari"
    case ActivityMonitorPane => "com.apple.ActivityMonitor"
    case TextEditPane => "com.apple.TextEdit"
    case TimeMachinePane => "com.apple.TimeMachine"
    case MessagesPane => "com.apple.MobileSMS"
    case SimulatorPane => "com.apple.iphonesimulator"
    case Misc => "NSGlobalDomain"
  }

  /** The keys of the helper's settings interface (`keyof DockSettings` and so on). */
  function Keys(h: Helper): set<string> {
    match h
    case DockPane =>
      {"orientation", "tilesize", "autohide", "autohide-time-modifier", "autohide-delay",
       "show-recents", "mineffect", "static-only", "scroll-to-open", "mru-spaces"}
    case FinderPane =>
      {"QuitMenuItem", "AppleShowAllExtensions", "AppleShowAllFiles", "ShowPathbar",
       "FXPreferredViewStyle", "_FXSortFoldersFirst", "FinderSpawnTab", "FXDefaultSearchScope",
       "FXRemoveOldTrashItems", "FXEnableExtensionChangeWarning", "NSDocumentSaveNewDocumentsToCloud",
       "ShowWindowTitlebarIcons", "NSToolbarTitleViewRolloverDelay", "NSTableViewDefaultSizeMode"}
    case DesktopPane =>
      {"_FXSortFoldersFirstOnDesktop", "CreateDesktop", "ShowHardDrivesOnDesktop",
       "ShowExternalHardDrivesOnDesktop", "ShowRemovableMediaOnDesktop", "ShowMountedServersOnDesktop"}
    case ScreenshotPane => {"disable-shadow", "include-date", "location", "show-thumbnail", "type"}
    case MenuBarPane => {"FlashDateSeparators", "DateFormat"}
    case MousePane => {"com.apple.mouse.linear", "com.apple.mouse.scaling", "focusFollowsMouse"}
    case TrackpadPane => {"FirstClickThreshold", "DragLock", "Dragging", "TrackpadThreeFingerDrag"}
    case KeyboardPane =>
      {"ApplePressAndHoldEnabled", "AppleFnUsageType", "com.apple.keyboard.fnState", "AppleKeyboardUIMode"}
    case MissionControlPane =>
      {"mru-spaces", "expose-group-apps", "AppleSpacesSwitchOnActivate", "spans-displays"}
    case XcodePane => {"IDEAdditionalCounterpartSuffixes", "ShowBuildOperationDuration"}
    case SafariPane => {"ShowFullURLInSmartSearchField"}
    case ActivityMonitorPane => {"UpdatePeriod", "IconType"}
    case TextEditPane => {"RichText", "SmartQuotes"}
    case TimeMachinePane => {"DoNotOfferNewDisksForBackup"}
    case MessagesPane => {"show-subject-field"}
    case SimulatorPane => {"ScreenShotSaveLocation"}
    case Misc =>
      {"enable-spring-load-actions-on-all-items", "userWantsPlaybackNotifications", "LSQuarantine",
       "NSCloseAlwaysConfirmsChanges", "NSQuitAlwaysKeepsWindows", "DevMode"}
  }

  /** A helper call `xxxSetting(key, value)`: the setting in the helper's domain, with no type
      tag, so that the type is inferred from the value when it is written. */
  function Make(h: Helper, key: string, value: Value): (s: MacOSSetting)
    requires key in Keys(h)
    ensures s.key == key && s.value == value && s.valueType == None
    ensures DomainToProcess(s.domain).Some?
    ensures SettingIdentity(s.domain, s.key) == Domain(h) + ":" + key
  {
    HelperDomainRestarts(h);
    MacOSSetting(Domain(h), key, value, None)
  }

  /** Every domain a helper can produce names a process in the restart table. */
  lemma HelperDomainRestarts(h: Helper)
    ensures DomainToProcess(Domain(h)).Some?
    ensures DomainToProcess(Domain(h)).value in Restartable
  {
    DomainTableRange(Domain(h));
  }

  /** The helpers sharing a domain: Mission Control with the Dock, Desktop with Finder, and
      mouse, keyboard and the miscellaneous settings in the global domain. */
  function Group(h: Helper): Helper {
    match h
    case MissionControlPane => DockPane
    case DesktopPane => FinderPane
    case KeyboardPane => MousePane
    case Misc => MousePane
    case _ => h
  }

  /** Two helpers write to the same domain exactly when they are in the same group. */
  lemma SameDomainIffSameGroup(a: Helper, b: Helper)
    ensures Domain(a) == Domain(b) <==> Group(a) == Group(b)
  {
    if Group(a) != Group(b) {
      DomainsOfGroupsDiffer(Group(a), Group(b));
      GroupKeepsDomain(a);
      GroupKeepsDomain(b);
    } else {
      GroupKeepsDomain(a);
      GroupKeepsDomain(b);
    }
  }

  /** A helper writes to its group's domain. */
  lemma GroupKeepsDomain(h: Helper)
    ensures Domain(Group(h)) == Domain(h)
  {
  }

  /** Group representatives write to thirteen different domains: where two of them have the
      same length, the character at index 10 tells them apart. */
  lemma DomainsOfGroupsDiffer(a: Helper, b: Helper)
    requires Group(a) == a && Group(b) == b && a != b
    ensures Domain(a) != Domain(b)
  {
    var da, db := Domain(a), Domain(b);
    if |da| == |db| {
      assert da[10] != db[10];
    }
  }

  /** `mru-spaces` is offered by both the Dock and the Mission Control helper, and the two
      calls address the same preference. */
  lemma MruSpacesShared(v: Value, w: Value)
    ensures "mru-spaces" in Keys(DockPane) && "mru-spaces" in Keys(MissionControlPane)
    ensures var d, m := Make(DockPane, "mru-spaces", v), Make(MissionControlPane, "mru-spaces", w);
      SettingIdentity(d.domain, d.key) == SettingIdentity(m.domain, m.key) == "com.apple.dock:mru-spaces"
  {
  }
}
