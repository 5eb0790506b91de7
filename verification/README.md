# AccesosLauncher, modelled in Dafny

AccesosLauncher is a Windows tray launcher. It scans a base directory (`BaseDir`) for launchable shortcuts, which are files whose extension is `.lnk`, `.url` or one listed in `PATHEXT`. It shows them grouped by their directory relative to the base directory, with a shell icon for each. The list can be filtered by a search text and by a folder type: Ambos, Personal or Laboral. A folder is Personal when it holds a `.personal` or `.mixta` marker. The launcher watches the directory and reloads after 400 ms of quiet. Each launch is logged to a SQLite usage table, which feeds a "most used" tab. A settings tab shows `appsettings.json` flattened to `a:b:c` keys and saves it back as nested objects. A separate console tool (`Program.cs`) finds a site's favicon and names the downloaded file.

The model has one Dafny module per concern:

| file | module | what it holds |
|---|---|---|
| wrappers.dfy | Wrappers | `Option` |
| text.dfy | Text | ASCII case folding, `Trim`, `Split`/`Join`, substring search |
| paths.dfy | Paths | the .NET `Path` operations the launcher uses, on `\`/`/` separated strings |
| extensions.dfy | Extensions | the executable-extension set and `IsLaunchable` |
| icons.dfy | Icons | `IconHelper`: the icon cache as a class over a map; shell calls are an oracle |
| catalog.dfy | Catalog | `AppItem`, grouping, search and folder-type filters, result count, rename rule, Ctrl+T and Tab cycling |
| debounce.dfy | Debounce | the 400 ms reload timer as a class, plus a trace semantics of events and ticks |
| settings.dfy | Settings | `FlattenJson` as a function, the nested rebuild done by Save, and their round trip |
| usage.dfy | Usage | `DatabaseHelper` as a class over a map of rows |
| launcher.dfy | Launcher | `MainWindow` as a class: catalog reload, watcher and timer, filters, keys, settings and usage handlers |
| favicon.dfy | Favicon | `Program.cs`: URL normalisation, favicon choice, file naming and the interactive loop |

Things outside the program are parameters of the model:
- the file system (does the base directory exist, the enumerated file list, `File.Exists`);
- the shell's icon calls and the registry query;
- the clock (`DateTime.Now` becomes `now`);
- the parsed JSON document;
- which favicon routes answer.

Some behaviours of the code that the model keeps:
- **Grouping.** An item's group is its whole directory relative to the base directory. Files directly in the base directory go to the group `"Raiz"`.
- **Scanning.** Every directory below the base directory is scanned, hidden ones included. An empty folder contributes no items.
- **Groups.** Groups exist only as the directories the files are in. The launcher has no operations on groups themselves.
- **Usage log and launching.** `LogAccess` runs before `Process.Start` in the same `try`, so a failing usage-log write stops the launch. `Launcher.MainWindow.LaunchItem` states this.

## Model

| member | source | states |
|---|---|---|
| Text.Fold | AccesosLauncher/MainWindow.xaml.cs:211-219 | folding keeps the length and lowers each upper-case letter, position by position |
| Text.FoldIdempotent | AccesosLauncher/MainWindow.xaml.cs:211-219 | folding twice is folding once |
| Text.FoldAppend | AccesosLauncher/MainWindow.xaml.cs:211-219 | folding distributes over concatenation |
| Text.TrimStart | AccesosLauncher/MainWindow.xaml.cs:213 | the result is a suffix that starts with non-white space, and everything removed is white space |
| Text.TrimEnd | AccesosLauncher/MainWindow.xaml.cs:213 | the result is a prefix that ends with non-white space, and everything removed is white space |
| Text.TrimEmptyIffBlank | AccesosLauncher/MainWindow.xaml.cs:211-214 | trimming gives the empty string exactly when the text is null-or-white-space |
| Text.FoldTrimStart | AccesosLauncher/MainWindow.xaml.cs:211-219 | trimming the start commutes with case folding |
| Text.FoldTrimEnd | AccesosLauncher/MainWindow.xaml.cs:211-219 | trimming the end commutes with case folding |
| Text.FoldTrim | AccesosLauncher/MainWindow.xaml.cs:211-219 | trimming commutes with case folding |
| Text.TrimEndChar | AccesosLauncher/MainWindow.xaml.cs:702 | `TrimEnd(':')` removes exactly the trailing run of that character |
| Text.IndexOf | AccesosLauncher/MainWindow.xaml.cs:717 | the first position of the separator, or the length when it does not occur |
| Text.Split | AccesosLauncher/MainWindow.xaml.cs:717 | splitting gives at least one part, and no part holds the separator |
| Text.JoinSplit | AccesosLauncher/MainWindow.xaml.cs:717 | joining the parts of a split with the separator gives back the key |
| Text.SplitJoin | AccesosLauncher/MainWindow.xaml.cs:717 | splitting a join of separator-free parts gives back the parts |
| Paths.LastIndexWhere | AccesosLauncher/MainWindow.xaml.cs:258 | the last position satisfying the test, or -1, with nothing after it satisfying it |
| Paths.LastIndexWhereAt | AccesosLauncher/MainWindow.xaml.cs:258 | a satisfying position with nothing satisfying after it is the last one |
| Paths.GetFileName | AccesosLauncher/MainWindow.xaml.cs:596-599 | the file name has no separator and ends the path |
| Paths.GetExtension | AccesosLauncher/MainWindow.xaml.cs:292-296 | the extension is empty or a dot followed by separator- and dot-free text, and it ends the path |
| Paths.GetFileNameWithoutExtension | AccesosLauncher/MainWindow.xaml.cs:263 | the item name has no separator |
| Paths.GetDirectoryName | AccesosLauncher/MainWindow.xaml.cs:196-197 | there is a directory exactly for a non-empty path, and it is a strict prefix of it |
| Paths.Combine | AccesosLauncher/MainWindow.xaml.cs:199-200 | a rooted second part or an empty first part gives the second part; an empty second part gives the first; otherwise the second part follows the first, with exactly one `\` inserted when the first does not end in a separator |
| Paths.IsPathRooted | AccesosLauncher/MainWindow.xaml.cs:597 | a rooted path is non-empty and starts with a separator or has a drive colon; `Catalog.PlainNameNotRooted` shows a plain new name is never rooted |
| Paths.TrimEndSeparators | AccesosLauncher/MainWindow.xaml.cs:259 | the result is a prefix that does not end in a separator, and every character removed is a separator |
| Paths.GetRelativePath | AccesosLauncher/MainWindow.xaml.cs:259 | the base directory itself, ignoring case and trailing separators, gives `.`; any other result is a suffix of the path |
| Paths.DirectoryOfPrefixed | AccesosLauncher/MainWindow.xaml.cs:593-601 | a separator-free name placed under a directory that does not end in a separator has that directory |
| Paths.FileNameOfAppended | AccesosLauncher/MainWindow.xaml.cs:596-599 | the file name of a directory plus a plain name is that name |
| Paths.ExtensionOfAppended | AccesosLauncher/MainWindow.xaml.cs:596-599 | the extension of a name plus an extension is that extension |
| Paths.NameWithoutExtensionOfAppended | AccesosLauncher/MainWindow.xaml.cs:263 | a name built as directory, name and extension reads back as the name |
| Paths.DirectoryOfJoined | AccesosLauncher/MainWindow.xaml.cs:258 | the directory of `dir\name` is `dir` |
| Extensions.Dotted | AccesosLauncher/MainWindow.xaml.cs:308 | a PATHEXT token gains a leading dot only when it lacks one |
| Extensions.ExecExtensions | AccesosLauncher/MainWindow.xaml.cs:298-312 | the set always holds `.lnk` and `.url`; its other members are fixed by `Extensions.ExecExtensionsComplete` and `Extensions.ExecExtensionsSound` |
| Extensions.IsLaunchable | AccesosLauncher/MainWindow.xaml.cs:292-296 | a launchable path has a proper extension that the set contains, ignoring case |
| Extensions.PathExtEntriesMembers | AccesosLauncher/MainWindow.xaml.cs:306-310 | the PATHEXT pieces contribute exactly their non-empty pieces, dotted and case-folded |
| Extensions.InitExecExtensions | AccesosLauncher/MainWindow.xaml.cs:298-312 | the loop builds exactly the set of `.lnk`, `.url` and the dotted non-empty PATHEXT tokens |
| Extensions.ExecExtensionsShape | AccesosLauncher/MainWindow.xaml.cs:298-312 | every member of the set starts with a dot and is stored case-folded |
| Extensions.ExecExtensionsComplete | AccesosLauncher/MainWindow.xaml.cs:292-312 | a path whose extension, in any case, is `.lnk`, `.url` or a PATHEXT token is launchable |
| Extensions.ExecExtensionsSound | AccesosLauncher/MainWindow.xaml.cs:292-312 | a launchable path has a non-empty extension that is `.lnk`, `.url` or a PATHEXT token, ignoring case |
| Extensions.MemberOrigin | AccesosLauncher/MainWindow.xaml.cs:298-312 | an extension in the set is `.lnk`, `.url` or a dotted PATHEXT piece, ignoring case |
| Extensions.LaunchableIgnoresCase | AccesosLauncher/MainWindow.xaml.cs:292-296 | launchability depends on the extension only up to case |
| Icons.GetHttpHandlerPath | AccesosLauncher/IconHelper.cs:130-146 | a browser path is returned exactly when the size query gives S_OK or S_FALSE with a non-zero size and the second query gives S_OK |
| Icons.IconCache.constructor | AccesosLauncher/IconHelper.cs:20 | the cache starts empty |
| Icons.IconCache.GetIconImageSource | AccesosLauncher/IconHelper.cs:23-73 | missing files get the default icon and leave the cache alone; `.url` files share the browser icon under one key; other files are cached by folded path; existing cache entries never change |
| Icons.IconCache.GetFolderIcon | AccesosLauncher/IconHelper.cs:76-104 | a cached folder icon is reused; otherwise the shell's icon is cached, or the default icon is returned uncached |
| Icons.UrlShortcutsShareOneIcon | AccesosLauncher/IconHelper.cs:31-44 | two `.url` shortcuts get the same cached browser icon |
| Catalog.LaunchableFiles | AccesosLauncher/MainWindow.xaml.cs:247-250 | the scan keeps exactly the launchable files and never adds any |
| Catalog.LaunchableFilesDistinct | AccesosLauncher/MainWindow.xaml.cs:247-250 | filtering a duplicate-free listing keeps it duplicate-free |
| Catalog.RelativeGroup | AccesosLauncher/MainWindow.xaml.cs:258-261 | the group is never blank, `.` or `\`; `Catalog.RootFileGroup` and `Catalog.SubdirectoryGroup` give its value |
| Catalog.EntryFor | AccesosLauncher/MainWindow.xaml.cs:262-269 | the entry keeps the file as its full path and the icon found for it, and has a separator-free name and a non-blank group |
| Catalog.RootFileGroup | AccesosLauncher/MainWindow.xaml.cs:258-261 | a file directly in the base directory is in group `Raiz` |
| Catalog.SubdirectoryGroup | AccesosLauncher/MainWindow.xaml.cs:258-261 | a file in a subdirectory is grouped under the whole relative directory |
| Catalog.MatchesSearch | AccesosLauncher/MainWindow.xaml.cs:211-219 | a null-or-white-space query matches every item |
| Catalog.BlankSearchMatchesAll | AccesosLauncher/MainWindow.xaml.cs:211-214 | a blank search text matches every item |
| Catalog.SearchIgnoresCase | AccesosLauncher/MainWindow.xaml.cs:211-219 | search texts equal up to case match the same items |
| Catalog.SubstringFolds | AccesosLauncher/MainWindow.xaml.cs:215-218 | a substring stays a substring after case folding |
| Catalog.NameHitMatches | AccesosLauncher/MainWindow.xaml.cs:211-219 | an item whose name contains the trimmed search text matches |
| Catalog.MatchesTipoCarpeta | AccesosLauncher/MainWindow.xaml.cs:194-209 | Ambos, and any item without a directory, always pass |
| Catalog.FolderTypesPartition | AccesosLauncher/MainWindow.xaml.cs:194-209 | Ambos shows everything; for an item in a folder, exactly one of Personal and Laboral shows it |
| Catalog.FilterAccepts | AccesosLauncher/MainWindow.xaml.cs:181-192 | only an item that matches the search is accepted, and under Ambos exactly those are |
| Catalog.Visible | AccesosLauncher/MainWindow.xaml.cs:181-192 | the view holds exactly the items passing the search and then the folder-type filter |
| Catalog.CountMatching | AccesosLauncher/MainWindow.xaml.cs:96-105 | the count of search matches is at most the number of items |
| Catalog.ResultCount | AccesosLauncher/MainWindow.xaml.cs:96-105 | the shown count never exceeds the number of items |
| Catalog.ResultCountCountsSearchMatches | AccesosLauncher/MainWindow.xaml.cs:96-105 | the result count is the number of search matches and the size of the Ambos view, and at least the size of any filtered view |
| Catalog.CountMatchingIsVisible | AccesosLauncher/MainWindow.xaml.cs:96-105 | counting search matches equals the size of the Ambos view and bounds every view |
| Catalog.BlankCountsAll | AccesosLauncher/MainWindow.xaml.cs:100-102 | with a blank search the count is all items |
| Catalog.RenameTarget | AccesosLauncher/MainWindow.xaml.cs:593-601 | no rename exactly when the new name is blank or unchanged |
| Catalog.RenameKeepsDirectoryAndExtension | AccesosLauncher/MainWindow.xaml.cs:593-601 | the target is the original directory, a `\` when it lacks one, the new name and the original extension; its directory is the original directory whenever that does not end in a separator, and its name, bare name and extension are the new name and the original extension |
| Catalog.PlainNameNotRooted | AccesosLauncher/MainWindow.xaml.cs:597 | a separator- and colon-free name plus extension is a relative path |
| Catalog.AppendedFileParts | AccesosLauncher/MainWindow.xaml.cs:596-599 | file name, extension and bare name of `dir` + name + extension read back as built |
| Catalog.NextTipo | AccesosLauncher/MainWindow.xaml.cs:467-474 | Ctrl+T always selects a different folder type |
| Catalog.NextTipoCycles | AccesosLauncher/MainWindow.xaml.cs:467-474 | Ctrl+T visits all three folder types and returns after three presses |
| Catalog.NextTab | AccesosLauncher/MainWindow.xaml.cs:462-466 | Tab always selects a valid tab, wrapping from the last to the first |
| Debounce.QualifiesIff | AccesosLauncher/MainWindow.xaml.cs:340-348 | an event restarts the timer exactly when its path has an extension that is launchable or the event is a rename |
| Debounce.Qualifies | AccesosLauncher/MainWindow.xaml.cs:340-343 | an event qualifies exactly for a launchable path, or for a rename of a path with an extension |
| Debounce.RestartNeedsStop | AccesosLauncher/MainWindow.xaml.cs:345-346 | `Start` alone does not reset a running timer; `Stop` then `Start` re-arms the full interval |
| Debounce.Ticks | AccesosLauncher/MainWindow.xaml.cs:330 | a run of k ticks has k steps, all ticks |
| Debounce.Run | AccesosLauncher/MainWindow.xaml.cs:330-348 | over a trace of events and milliseconds, there are never more reloads than steps |
| Debounce.TicksSplit | AccesosLauncher/MainWindow.xaml.cs:330 | tick runs concatenate |
| Debounce.RunConcat | AccesosLauncher/MainWindow.xaml.cs:330-348 | running two traces in sequence adds their reloads |
| Debounce.NonQualifyingIgnored | AccesosLauncher/MainWindow.xaml.cs:343 | an event that does not qualify changes nothing |
| Debounce.CountDown | AccesosLauncher/MainWindow.xaml.cs:330 | fewer ticks than remain count down without a reload |
| Debounce.Expire | AccesosLauncher/MainWindow.xaml.cs:330-331 | the last tick fires exactly one reload and stops the timer (AutoReset false) |
| Debounce.IdleStaysIdle | AccesosLauncher/MainWindow.xaml.cs:330 | a stopped timer never reloads |
| Debounce.NoReloadBeforeQuiet | AccesosLauncher/MainWindow.xaml.cs:330-348 | within 400 ms of a qualifying event there is no reload |
| Debounce.QuietWindowReloadsOnce | AccesosLauncher/MainWindow.xaml.cs:330-348 | a qualifying event followed by at least the interval of quiet reloads exactly once |
| Debounce.NoReloadDuringBurst | AccesosLauncher/MainWindow.xaml.cs:330-348 | a burst of events with gaps shorter than the interval causes no reload, and leaves the timer armed for the interval less the quiet time since the last event |
| Debounce.BurstReloadsOnce | AccesosLauncher/MainWindow.xaml.cs:330-348 | any such burst followed by the interval of quiet causes exactly one reload |
| Debounce.DebounceTimer.constructor | AccesosLauncher/MainWindow.xaml.cs:330 | a new timer is stopped with the given interval |
| Debounce.DebounceTimer.Stop | AccesosLauncher/MainWindow.xaml.cs:345 | the timer is disabled |
| Debounce.DebounceTimer.Start | AccesosLauncher/MainWindow.xaml.cs:346 | a stopped timer is armed for the full interval; a running one is left as it is |
| Debounce.DebounceTimer.Tick | AccesosLauncher/MainWindow.xaml.cs:330-331 | one millisecond passes, as the trace semantics says |
| Settings.EmptyObjectLeavesNoEntry | AccesosLauncher/MainWindow.xaml.cs:691-708 | an empty nested object produces no grid row |
| Settings.Flattened | AccesosLauncher/MainWindow.xaml.cs:691-708 | no flattened key ends with `:` (the `TrimEnd(':')`); `Settings.FlattenedIsLeaves` gives the whole list |
| Settings.Entries | AccesosLauncher/MainWindow.xaml.cs:700-706 | each leaf becomes one row whose key joins its path with `:` |
| Settings.PrefixAppend | AccesosLauncher/MainWindow.xaml.cs:698 | descending into a member appends its name and `:` to the prefix |
| Settings.FlattenedIsLeaves | AccesosLauncher/MainWindow.xaml.cs:691-708 | flattening yields, in order, one row per leaf of the document, keyed by its path |
| Settings.FlattenedMembersIsLeaves | AccesosLauncher/MainWindow.xaml.cs:696-699 | the same for the members of one object |
| Settings.LeavesExtend | AccesosLauncher/MainWindow.xaml.cs:691-708 | every leaf path extends the current path with clean names |
| Settings.MemberLeavesExtend | AccesosLauncher/MainWindow.xaml.cs:696-699 | the same for the members of one object |
| Settings.LeavesDiverge | AccesosLauncher/MainWindow.xaml.cs:691-708 | in a document with distinct member names, no leaf path is a prefix of another |
| Settings.MemberLeavesDiverge | AccesosLauncher/MainWindow.xaml.cs:696-699 | the same for the members of one object |
| Settings.Insert | AccesosLauncher/MainWindow.xaml.cs:714-727 | saving one row adds its first key to the top-level dictionary and leaves every other top-level entry as it was |
| Settings.Unflatten | AccesosLauncher/MainWindow.xaml.cs:710-727 | the first key part of every row is present in the saved dictionary |
| Settings.InsertThenLookup | AccesosLauncher/MainWindow.xaml.cs:714-727 | after saving a row, its key path reads back as its value |
| Settings.InsertKeepsOthers | AccesosLauncher/MainWindow.xaml.cs:714-727 | saving a row leaves every diverging key path as it was |
| Settings.LastWriteWins | AccesosLauncher/MainWindow.xaml.cs:714-727 | a row read back after the rebuild holds its value unless a later row overwrites or shadows it |
| Settings.DuplicateKeyOverwrites | AccesosLauncher/MainWindow.xaml.cs:720-726 | of two rows with the same key, the later value wins |
| Settings.PrefixIsJoin | AccesosLauncher/MainWindow.xaml.cs:698 | the prefix of a path is its `:`-join plus a trailing `:` |
| Settings.JoinEndsWithLast | AccesosLauncher/MainWindow.xaml.cs:702 | a join ends with the last character of its last part |
| Settings.KeyOfSplits | AccesosLauncher/MainWindow.xaml.cs:702-717 | the key of a path of clean names splits back into that path |
| Settings.SettingsRoundTrip | AccesosLauncher/MainWindow.xaml.cs:673-727 | loading a well-formed document into the grid and saving it gives back every leaf value at its own path |
| Usage.RankRows | AccesosLauncher/DatabaseHelper.cs:57-60 | `ORDER BY access_count DESC LIMIT n` picks n distinct rows in non-increasing count, and no row left out beats one picked |
| Usage.TakeBest | AccesosLauncher/DatabaseHelper.cs:57-60 | taking a best remaining row keeps the ranking |
| Usage.UpsertCounts | AccesosLauncher/DatabaseHelper.cs:40-44 | the upsert of one launch keeps every row's count equal to the launches of its path |
| Usage.DatabaseHelper.constructor | AccesosLauncher/DatabaseHelper.cs:12-16 | a new helper has no table and no rows |
| Usage.DatabaseHelper.InitializeDatabase | AccesosLauncher/DatabaseHelper.cs:18-32 | the table exists afterwards, and existing rows are kept (`IF NOT EXISTS`) |
| Usage.DatabaseHelper.LogAccess | AccesosLauncher/DatabaseHelper.cs:34-48 | a new path gets count 1; a known path gets count + 1 and the new time; other rows are unchanged; it fails without a table |
| Usage.DatabaseHelper.GetTopUsedItems | AccesosLauncher/DatabaseHelper.cs:50-74 | returns the rows at the paths `keys`: `limit` of them (all when negative or larger), distinct, in non-increasing count, and no row left out has a higher count than one returned |
| Usage.DatabaseHelper.ClearLog | AccesosLauncher/DatabaseHelper.cs:76-83 | every row is deleted and the table stays |
| Usage.LogTwice | AccesosLauncher/DatabaseHelper.cs:34-48 | logging the same path twice adds two to its count and keeps the later time |
| Launcher.ReloadFiles | AccesosLauncher/MainWindow.xaml.cs:243-251 | a missing base directory gives no files, a failing enumeration gives none at all, and otherwise exactly the launchable files of the listing |
| Launcher.MainWindow.constructor | AccesosLauncher/MainWindow.xaml.cs:40-46 | the extension set is built from PATHEXT, the timer is stopped at 400 ms, and the lists are empty |
| Launcher.MainWindow.BuildItems | AccesosLauncher/MainWindow.xaml.cs:252-275 | one item per file, in order, with the file's bare name, full path, relative group and an icon, while the icon cache only grows |
| Launcher.MainWindow.LoadItems | AccesosLauncher/MainWindow.xaml.cs:243-290 | with a missing base directory the list becomes empty; a failing enumeration leaves the list and view as they were; otherwise the list is exactly the catalog of the launchable files and the view is refreshed |
| Launcher.MainWindow.OnFsChanged | AccesosLauncher/MainWindow.xaml.cs:340-348 | a qualifying event re-arms the timer for 400 ms; any other event leaves it alone |
| Launcher.MainWindow.ClockTick | AccesosLauncher/MainWindow.xaml.cs:330-331 | the timer advances one millisecond, and the list is reloaded exactly when it fires: a successful listing replaces the catalog and refreshes the view once, a failing one leaves the list, view and icon cache as they were |
| Launcher.MainWindow.SetSearchText | AccesosLauncher/MainWindow.xaml.cs:81-94 | the text is stored, and the view refreshes only when it changed |
| Launcher.MainWindow.SetSelectedTipoCarpeta | AccesosLauncher/MainWindow.xaml.cs:67-79 | the folder type is stored, and the view refreshes only when it changed |
| Launcher.MainWindow.CycleTipoCarpeta | AccesosLauncher/MainWindow.xaml.cs:467-474 | Ctrl+T moves to the next folder type and refreshes the view |
| Launcher.MainWindow.NextTabKey | AccesosLauncher/MainWindow.xaml.cs:462-466 | Tab moves to the next of the three tabs, wrapping |
| Launcher.MainWindow.LoadSettings | AccesosLauncher/MainWindow.xaml.cs:673-689 | the grid is replaced by the flattened document, or emptied when it cannot be read; it counts as loaded only after a successful read |
| Launcher.MainWindow.FlattenJson | AccesosLauncher/MainWindow.xaml.cs:691-708 | the recursive walk appends exactly the flattened rows of the element under the prefix |
| Launcher.MainWindow.SaveSettings | AccesosLauncher/MainWindow.xaml.cs:710-727 | the loop over the rows builds exactly the nested settings tree |
| Launcher.MainWindow.LaunchItem | AccesosLauncher/MainWindow.xaml.cs:477-497 | the launch is logged, and the process is started only when logging succeeded; the launched path's count rises by one, every other row and the table's existence are unchanged |
| Launcher.MainWindow.LoadMostUsedItems | AccesosLauncher/MainWindow.xaml.cs:635-651 | the list becomes the rows at ten (or all, when fewer) distinct logged paths, each read from its table row, in non-increasing count, with no row left out counting more than one listed; it is left as it was when the query fails |
| Launcher.MainWindow.ClearDatabase | AccesosLauncher/MainWindow.xaml.cs:653-671 | once confirmed, the history and the most-used list are emptied; when the table is missing the clear fails and the log and list stay as they were; without confirmation nothing changes |
| Launcher.MainWindow.OnTabSelected | AccesosLauncher/MainWindow.xaml.cs:620-633 | the most-used tab reloads its list each time it is shown, as the top rows of the table; the settings tab loads only until a read succeeds |
| Favicon.LimpiarNombreArchivo | Program.cs:217-222 | each character that is invalid in a file name becomes `_`, and the rest are kept in place |
| Favicon.SanitisedNameIsClean | Program.cs:217-222 | a sanitised name has no invalid character, and sanitising is idempotent |
| Favicon.OutputFileName | Program.cs:158-196 | an `.ico` address or a successful conversion saves `<sanitised>.ico`; a failed conversion saves `<sanitised>_original` plus the address's extension, which is then the file's extension; the sanitised part holds no invalid character |
| Favicon.IcoKeepsItsName | Program.cs:160-164 | an `.ico` favicon is saved as the sanitised domain plus `.ico` |
| Favicon.NormalizeUrl | Program.cs:50-51 | as written: an input starting with `http` is unchanged, and any other input gets `https://` in front |
| Favicon.NormalizeUrlMissesHttpHosts | Program.cs:50-51 | a bare host such as `http.cat` is left without a scheme |
| Favicon.NormalizeUrlFixed | Program.cs:50-51 | the result always has an `http://` or `https://` scheme, and an URL that has one is unchanged |
| Favicon.NormalizationsAgree | Program.cs:50-51 | both normalisations agree whenever the `http` prefix means a scheme |
| Favicon.NormalizeUrlFixedIdempotent | Program.cs:50-51 | normalising twice is normalising once |
| Favicon.ResolveHref | Program.cs:98-110 | an href starting with `http` is returned unchanged, and every resolved URL ends with its href |
| Favicon.RelativeHrefUnderBase | Program.cs:98-110 | a relative href is resolved under the site's scheme and host |
| Favicon.FirstNonEmpty | Program.cs:98-110 | the first `<link>` href that is present wins |
| Favicon.FirstExistingRoute | Program.cs:119-133 | the first standard route that answers wins, and no earlier one answered |
| Favicon.FaviconChoice | Program.cs:81-137 | a favicon URL is always produced |
| Favicon.ObtenerUrlFavicon | Program.cs:81-137 | the two loops with early return choose the same URL as `Favicon.FaviconChoice`, never empty |
| Favicon.NothingFoundUsesService | Program.cs:136 | with no href and no answering route, the Google favicon service is used |
| Favicon.IsExitInput | Program.cs:37 | the exit test: blank or `salir` in any letter case, as `Favicon.ExitInputIff` states |
| Favicon.ExitInputIff | Program.cs:37 | a line ends the loop exactly when it trims to nothing or lowers to `salir` |
| Favicon.ModoInteractivo | Program.cs:30-43 | every line before the first exit line (blank or `salir`, ignoring case) is processed, in order, normalised by the program's own rule `Favicon.NormalizeUrl`, and nothing after it |
| Favicon.InteractiveUrlsAgree | Program.cs:30-51 | on lines where a leading `http` means a scheme, the loop's URLs are those of the corrected rule |

## Left out

- Case-insensitive comparison (`OrdinalIgnoreCase`, `ToLower`) is modelled by ASCII folding only. Non-ASCII letters compare as they are.
- .NET path edge cases are not modelled: drive roots, `..` segments, UNC paths, `AltDirectorySeparatorChar` normalisation, the collapsing of repeated separators by `GetDirectoryName` (the model splits at the last separator only), and the null `GetDirectoryName` returns for a path of spaces only (the model gives `""`). `GetRelativePath` is modelled for a directory under the base directory only.
- Concurrency is not modelled: the `Task.Run` scan, `Dispatcher.InvokeAsync` and the timer's thread. The timer runs on one clock of 1 ms ticks.
- The window, tray icon, global hot key, Esc, resizing and message boxes are UI only. A message box answer becomes the `confirmed` parameter.
- File operations are not modelled: `File.Move`, `File.Delete`, `Process.Start`, `Directory.CreateDirectory` and the user-settings file. `DeleteMenuItem_Click` and `EnsureBaseDir` are not part of this model.
- The value coercion in `SaveSettings_Click` (bool, number and string) and JSON serialisation are not modelled. Values are kept as opaque strings, and the key order of the written file is not modelled.
- Launcher.MainWindow.SaveSettings: the descent through the nested dictionaries is modelled by value. Each inner dictionary is created fresh by the loop, so no aliasing is lost.
- Icon bitmap conversion (`Imaging.CreateBitmapSourceFromHIcon`, `DestroyIcon`) is not modelled. An icon is an opaque id. `GetDefaultIcon` is the constant `DefaultIcon`.
- The SQLite engine is not modelled. The table is a map from full path to row, the clock is the `now` parameter, and the order of rows with equal counts is left open.
- Usage.DatabaseHelper.constructor: a database file that already holds the table when the helper is created is not modelled. A new helper starts without a table.
- `StartsWith(string)` without a comparison (Program.cs:50, 103, 105) is culture-sensitive in .NET; the model compares ordinally, so leading characters that a culture ignores are not modelled.
- Uri parsing is not modelled. The scheme and host are inputs.
- HTML download and parsing, the HEAD requests and the image download and conversion in `Program.cs` are not modelled. The hrefs found and the answering routes are inputs.
- The `args` branch of `Program.Main` is not modelled.
- The text of `ResultCountText` ("Mostrando … elemento(s)") is not modelled, only the count.
- The declaration of the `TipoCarpeta` enum is not among the modelled sources. The model declares it with the order Ambos, Personal, Laboral, which Ctrl+T cycling assumes.
- Launcher.MainWindow.BuildItems: the contract does not tie each item's icon to the icon helper's result for its file, only that an icon is present and that the cache grows.
- Launcher.MainWindow.LoadItems: a failing enumeration is modelled as failing before any icon is looked up. Like BuildItems, the contract does not tie each item's icon to a particular cache entry, only that an icon is present and that the cache grows.
- Launcher.MainWindow.BuildItems: the icons are looked up in file order, and the items are then assembled from them. The source builds each item right after its icon.
- Catalog.NextTab requires a non-empty tab control. The window always has three tabs.

## Findings

| source | as written | input that shows it | evidently intended | confidence | as-written member | corrected member |
|---|---|---|---|---|---|---|
| Program.cs:50-51 | `if (!url.StartsWith("http")) url = "https://" + url;` treats any input starting with the letters `http` as already having a scheme | `http.cat` stays `http.cat`, which has no scheme, so the later `new Uri(url)` rejects it | prefix `https://` unless the URL already starts with `http://` or `https://` | medium, not executed | Favicon.NormalizeUrlMissesHttpHosts (on Favicon.NormalizeUrl) | Favicon.NormalizeUrlFixed, lifted to the loop by Favicon.InteractiveUrlsAgree |
