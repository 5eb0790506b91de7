/**
 * MainWindow: the launcher window's state and the handlers that change it —
 * the catalog reload, the watcher debounce, the search and folder-type
 * properties, the keyboard shortcuts and the settings tab.  Directory
 * listings, sentinel files and parsed documents are passed in.
 */
module Launcher {
  import opened Wrappers
  import opened Extensions
  import opened Icons
  import opened Catalog
  import opened Debounce
  import opened Settings
  import opened Usage

  /** The tabs of the window: shortcuts, most used, settings. */
  const TabCount: int := 3

  /** How many entries the most-used tab lists. */
  const MostUsedLimit: int := 10

  /**
   * The launchable files a reload catalogs: none when the base directory is
   * missing, None when enumerating it fails.
   */
  function ReloadFiles(exts: set<string>, baseDirExists: bool, listing: Option<seq<string>>): (r: Option<seq<string>>)
    ensures r.None? <==> baseDirExists && listing.None?
    ensures !baseDirExists ==> r == Some([])
    ensures baseDirExists && listing.Some? ==>
      forall f :: f in r.value <==> f in listing.value && IsLaunchable(exts, f)
  {
    if !baseDirExists then Some([])
    else if listing.None? then None
    else Some(LaunchableFiles(exts, listing.value))
  }

  class MainWindow {
    const baseDir: string
    const execExtensions: set<string>
    /** IconHelper's process-wide cache. */
    const icons: IconCache
    const debounceTimer: DebounceTimer
    const usage: DatabaseHelper

    var items: seq<AppItem>
    var searchText: string
    var selectedTipoCarpeta: TipoCarpeta
    var selectedTab: int
    /** How many times the grouped view has been refreshed. */
    var viewRefreshes: nat
    var appSettings: seq<SettingEntry>
    var settingsLoaded: bool
    var mostUsedItems: seq<LoggedAppItem>
    /** The paths of the rows `mostUsedItems` were read from. */
    ghost var mostUsedKeys: seq<string>

    ghost predicate Valid()
      reads this, icons, debounceTimer, usage
    {
      icons.Valid() && usage.Valid() && debounceTimer.interval == ReloadDelay && -1 <= selectedTab < TabCount
    }

    /** The catalog holds exactly one entry per file, in order, each with its icon. */
    ghost predicate Catalogs(files: seq<string>)
      reads this
    {
      && |items| == |files|
      && forall i :: 0 <= i < |files| ==>
           && items[i].icon.Some?
           && items[i] == EntryFor(baseDir, files[i], items[i].icon.value)
    }

    constructor (baseDir: string, pathext: string, icons: IconCache, usage: DatabaseHelper)
      requires icons.Valid() && usage.Valid()
      ensures Valid()
      ensures this.baseDir == baseDir && execExtensions == ExecExtensions(pathext)
      ensures this.icons == icons && this.usage == usage
      ensures fresh(debounceTimer) && debounceTimer.State() == Idle
      ensures items == [] && searchText == "" && selectedTipoCarpeta == Ambos && selectedTab == 0
      ensures viewRefreshes == 0 && appSettings == [] && !settingsLoaded && mostUsedItems == [] && mostUsedKeys == []
    {
      this.baseDir := baseDir;
      var exts := InitExecExtensions(pathext);
      execExtensions := exts;
      this.icons := icons;
      this.usage := usage;
      debounceTimer := new DebounceTimer(ReloadDelay);
      items := [];
      searchText := "";
      selectedTipoCarpeta := Ambos;
      selectedTab := 0;
      viewRefreshes := 0;
      appSettings := [];
      settingsLoaded := false;
      mostUsedItems := [];
      mostUsedKeys := [];
    }

    /**
     * The background part of LoadItems: the icon helper is asked for each file
     * in turn, and each file becomes one entry carrying its icon.
     */
    method BuildItems(files: seq<string>, shell: IconShell) returns (tmp: seq<AppItem>)
      requires icons.Valid()
      modifies icons
      ensures icons.Valid()
      ensures forall k :: k in old(icons.cache) ==> k in icons.cache && icons.cache[k] == old(icons.cache)[k]
      ensures |tmp| == |files|
      ensures forall i :: 0 <= i < |files| ==>
        && tmp[i].icon.Some?
        && tmp[i] == EntryFor(baseDir, files[i], tmp[i].icon.value)
    {
      var images: seq<Image> := [];
      var i := 0;
      while i < |files|
        invariant 0 <= i <= |files| && |images| == i
        invariant icons.Valid()
        invariant forall k :: k in old(icons.cache) ==> k in icons.cache && icons.cache[k] == old(icons.cache)[k]
      {
        var icon := icons.GetIconImageSource(files[i], shell);
        images := images + [icon];
        i := i + 1;
      }
      tmp := seq(|files|, j requires 0 <= j < |files| => EntryFor(baseDir, files[j], images[j]));
    }

    /**
     * LoadItems: one entry per launchable file, replacing the catalog
     * wholesale and refreshing the view; when the listing fails the catalog
     * stays as it was.
     */
    method LoadItems(baseDirExists: bool, listing: Option<seq<string>>, shell: IconShell)
      requires Valid()
      modifies this`items, this`viewRefreshes, icons
      ensures Valid()
      ensures forall k :: k in old(icons.cache) ==> k in icons.cache && icons.cache[k] == old(icons.cache)[k]
      ensures ReloadFiles(execExtensions, baseDirExists, listing).None? ==>
        items == old(items) && viewRefreshes == old(viewRefreshes) && icons.cache == old(icons.cache)
      ensures ReloadFiles(execExtensions, baseDirExists, listing).Some? ==>
        Catalogs(ReloadFiles(execExtensions, baseDirExists, listing).value) && viewRefreshes == old(viewRefreshes) + 1
    {
      var reload := ReloadFiles(execExtensions, baseDirExists, listing);
      if reload.None? {
        return;
      }
      var list := BuildItems(reload.value, shell);
      items := list;
      viewRefreshes := viewRefreshes + 1;
    }

    /** OnFsChanged: a qualifying event stops and restarts the debounce timer, any other leaves it alone. */
    method OnFsChanged(path: string, kind: ChangeType)
      requires Valid()
      modifies debounceTimer
      ensures Valid()
      ensures debounceTimer.State() ==
        if Qualifies(execExtensions, path, kind) then TimerState(true, ReloadDelay) else old(debounceTimer.State())
    {
      var ext := Paths.GetExtension(path);
      if ext != "" && (HasExtension(execExtensions, ext) || kind == Renamed) {
        debounceTimer.Stop();
        debounceTimer.Start();
      }
    }

    /** One millisecond passes; when the debounce timer elapses the catalog is reloaded. */
    method ClockTick(baseDirExists: bool, listing: Option<seq<string>>, shell: IconShell) returns (reloaded: bool)
      requires Valid()
      modifies debounceTimer, this`items, this`viewRefreshes, icons
      ensures Valid()
      ensures (debounceTimer.State(), reloaded) == Ticked(old(debounceTimer.State()))
      ensures !reloaded ==> items == old(items) && viewRefreshes == old(viewRefreshes) && icons.cache == old(icons.cache)
      ensures reloaded && ReloadFiles(execExtensions, baseDirExists, listing).Some? ==>
        Catalogs(ReloadFiles(execExtensions, baseDirExists, listing).value) && viewRefreshes == old(viewRefreshes) + 1
      ensures reloaded && ReloadFiles(execExtensions, baseDirExists, listing).None? ==>
        items == old(items) && viewRefreshes == old(viewRefreshes) && icons.cache == old(icons.cache)
      ensures forall k :: k in old(icons.cache) ==> k in icons.cache && icons.cache[k] == old(icons.cache)[k]
    {
      reloaded := debounceTimer.Tick();
      if reloaded {
        LoadItems(baseDirExists, listing, shell);
      }
    }

    /** The SearchText setter: a new value is stored and refreshes the view; the same value does nothing. */
    method SetSearchText(value: string)
      requires Valid()
      modifies this`searchText, this`viewRefreshes
      ensures Valid()
      ensures searchText == value
      ensures viewRefreshes == old(viewRefreshes) + if old(searchText) != value then 1 else 0
    {
      if searchText != value {
        searchText := value;
        viewRefreshes := viewRefreshes + 1;
      }
    }

    /** The SelectedTipoCarpeta setter: a new value is stored and refreshes the view; the same value does nothing. */
    method SetSelectedTipoCarpeta(value: TipoCarpeta)
      requires Valid()
      modifies this`selectedTipoCarpeta, this`viewRefreshes
      ensures Valid()
      ensures selectedTipoCarpeta == value
      ensures viewRefreshes == old(viewRefreshes) + if old(selectedTipoCarpeta) != value then 1 else 0
    {
      if selectedTipoCarpeta != value {
        selectedTipoCarpeta := value;
        viewRefreshes := viewRefreshes + 1;
      }
    }

    /** Ctrl+T: the next folder type, which always differs, so the view is refreshed every time. */
    method CycleTipoCarpeta()
      requires Valid()
      modifies this`selectedTipoCarpeta, this`viewRefreshes
      ensures Valid()
      ensures selectedTipoCarpeta == NextTipo(old(selectedTipoCarpeta))
      ensures viewRefreshes == old(viewRefreshes) + 1
    {
      NextTipoCycles(selectedTipoCarpeta);
      SetSelectedTipoCarpeta(NextTipo(selectedTipoCarpeta));
    }

    /** Tab: the next tab, wrapping to the first. */
    method NextTabKey()
      requires Valid()
      modifies this`selectedTab
      ensures Valid()
      ensures selectedTab == NextTab(old(selectedTab), TabCount)
    {
      selectedTab := (selectedTab + 1) % TabCount;
    }

    /**
     * LoadSettings: the grid is cleared, then filled from the document; when
     * the file cannot be read or parsed it stays empty and is read again next
     * time.
     */
    method LoadSettings(document: Option<Json>)
      requires Valid()
      modifies this`appSettings, this`settingsLoaded
      ensures Valid()
      ensures appSettings == if document.Some? then Flattened(document.value, "") else []
      ensures settingsLoaded == (old(settingsLoaded) || document.Some?)
    {
      appSettings := [];
      if document.Some? {
        FlattenJson(document.value, "");
        settingsLoaded := true;
      }
    }

    /** FlattenJson: appends the entries of `element` under `prefix` to the grid. */
    method FlattenJson(element: Json, prefix: string)
      requires Valid()
      modifies this`appSettings
      ensures Valid()
      ensures appSettings == old(appSettings) + Flattened(element, prefix)
      decreases element
    {
      match element {
        case Object(ms) =>
          var i := 0;
          while i < |ms|
            invariant 0 <= i <= |ms|
            invariant appSettings == old(appSettings) + FlattenedMembers(ms[..i], prefix)
          {
            assert ms[..i + 1][..i] == ms[..i];
            FlattenJson(ms[i].value, prefix + ms[i].name + [KeySeparator]);
            i := i + 1;
          }
          assert ms[..i] == ms;
        case Array(t) =>
          appSettings := appSettings + [SettingEntry(Text.TrimEndChar(prefix, KeySeparator), t)];
        case Primitive(t) =>
          appSettings := appSettings + [SettingEntry(Text.TrimEndChar(prefix, KeySeparator), t)];
      }
    }

    /** SaveSettings_Click: the nested dictionaries rebuilt from the grid, entry after entry. */
    method SaveSettings() returns (settings: map<string, Setting>)
      ensures settings == Unflatten(appSettings)
    {
      settings := map[];
      var i := 0;
      while i < |appSettings|
        invariant 0 <= i <= |appSettings|
        invariant settings == Unflatten(appSettings[..i])
      {
        var setting := appSettings[i];
        assert appSettings[..i + 1][..i] == appSettings[..i];
        settings := Insert(settings, Text.Split(setting.key, KeySeparator), setting.value);
        i := i + 1;
      }
      assert appSettings[..i] == appSettings;
    }

    /**
     * ItemButton_Click: the launch is logged first, and the process is started
     * only when logging succeeded; `started` tells whether it was.
     */
    method LaunchItem(item: AppItem, now: int) returns (started: bool)
      requires Valid()
      modifies usage
      ensures Valid()
      ensures started == usage.tableExists && usage.tableExists == old(usage.tableExists)
      ensures started ==> usage.history == old(usage.history) + [item.fullPath]
      ensures started ==> item.fullPath in usage.accessLog && usage.accessLog[item.fullPath].lastAccessTime == now
      ensures started ==>
        usage.accessLog[item.fullPath].accessCount ==
        (if item.fullPath in old(usage.accessLog) then old(usage.accessLog)[item.fullPath].accessCount else 0) + 1
      ensures started ==> forall p :: p in old(usage.accessLog) && p != item.fullPath ==>
        p in usage.accessLog && usage.accessLog[p] == old(usage.accessLog)[p]
      ensures !started ==> usage.accessLog == old(usage.accessLog)
    {
      started := usage.LogAccess(item.fullPath, now);
    }

    /** LoadMostUsedItems: the ten most launched entries replace the list; a failing query leaves it as it was. */
    method LoadMostUsedItems()
      requires Valid()
      modifies this`mostUsedItems, this`mostUsedKeys
      ensures Valid()
      ensures !usage.tableExists ==> mostUsedItems == old(mostUsedItems) && mostUsedKeys == old(mostUsedKeys)
      ensures usage.tableExists ==> TopRows(usage.accessLog, MostUsedLimit, mostUsedKeys, mostUsedItems)
    {
      var ok, top, keys := usage.GetTopUsedItems(MostUsedLimit);
      if ok {
        mostUsedItems := top;
        mostUsedKeys := keys;
      }
    }

    /** ClearDatabase_Click: once confirmed, the history is erased and the most-used list is emptied. */
    method ClearDatabase(confirmed: bool)
      requires Valid()
      modifies usage, this`mostUsedItems, this`mostUsedKeys
      ensures Valid()
      ensures usage.tableExists == old(usage.tableExists)
      ensures !confirmed ==>
        usage.accessLog == old(usage.accessLog) && mostUsedItems == old(mostUsedItems) && mostUsedKeys == old(mostUsedKeys)
      ensures confirmed && usage.tableExists ==> usage.accessLog == map[] && mostUsedItems == []
      ensures confirmed && !usage.tableExists ==>
        usage.accessLog == old(usage.accessLog) && mostUsedItems == old(mostUsedItems) && mostUsedKeys == old(mostUsedKeys)
    {
      if confirmed {
        var ok := usage.ClearLog();
        if ok {
          LoadMostUsedItems();
        }
      }
    }

    /**
     * MainTabControl_SelectionChanged: the most-used tab reloads its list each
     * time it is shown; the settings tab loads the file only until it has once
     * been read.
     */
    method OnTabSelected(document: Option<Json>)
      requires Valid()
      modifies this`mostUsedItems, this`mostUsedKeys, this`appSettings, this`settingsLoaded
      ensures Valid()
      ensures selectedTab != 1 ==> mostUsedItems == old(mostUsedItems) && mostUsedKeys == old(mostUsedKeys)
      ensures selectedTab == 1 && usage.tableExists ==>
        TopRows(usage.accessLog, MostUsedLimit, mostUsedKeys, mostUsedItems)
      ensures selectedTab == 2 && !old(settingsLoaded) ==>
        && appSettings == (if document.Some? then Flattened(document.value, "") else [])
        && settingsLoaded == document.Some?
      ensures selectedTab != 2 || old(settingsLoaded) ==>
        appSettings == old(appSettings) && settingsLoaded == old(settingsLoaded)
    {
      if selectedTab == 1 {
        LoadMostUsedItems();
      } else if selectedTab == 2 && !settingsLoaded {
        LoadSettings(document);
      }
    }
  }
}
